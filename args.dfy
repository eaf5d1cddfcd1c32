/**
 * The command-line helpers of `_effect_common.ts`: `hasFlag`, `stringFlag`,
 * `parseNumberFlag` and `trimArgs`.
 */
module Args {
  import opened Wrappers
  import opened Strings

  /** `args.indexOf(x)`, with `None` for -1. */
  function FirstIndex(args: seq<string>, x: string): (r: Option<nat>)
    ensures r.Some? ==> r.value < |args| && args[r.value] == x
    ensures r.Some? ==> forall j :: 0 <= j < r.value ==> args[j] != x
    ensures r.None? <==> x !in args
  {
    if args == [] then None
    else if args[0] == x then Some(0)
    else match FirstIndex(args[1..], x)
      case None => None
      case Some(j) => Some(j + 1)
  }

  /** `hasFlag(args, ...flags)`: some flag is one of the arguments. */
  function HasFlag(args: seq<string>, flags: seq<string>): (r: bool)
    ensures r <==> exists f :: f in flags && f in args
  {
    if flags == [] then false
    else (flags[0] in args) || HasFlag(args, flags[1..])
  }

  /** `stringFlag(args, flag)`: the argument after the first occurrence of `flag`, if there is one. */
  function StringFlag(args: seq<string>, flag: string): (r: Option<string>)
    ensures flag !in args ==> r.None?
    ensures r.Some? ==> exists i :: 0 <= i < |args| - 1 && args[i] == flag && flag !in args[..i] && r.value == args[i + 1]
    ensures (exists i :: 0 <= i < |args| - 1 && args[i] == flag && flag !in args[..i]) ==> r.Some?
  {
    match FirstIndex(args, flag)
    case None => None
    case Some(i) => if i + 1 < |args| then Some(args[i + 1]) else None
  }

  /**
   * `parseNumberFlag(args, flag, default)`. `Number(value)` followed by the
   * `isFinite` test is the parameter `parseNumber`, which gives `None` where
   * the script's test fails.
   */
  function ParseNumberFlag(args: seq<string>, flag: string, defaultValue: int, parseNumber: string -> Option<int>): (r: int)
    ensures StringFlag(args, flag) == None ==> r == defaultValue
    ensures StringFlag(args, flag) == Some("") ==> r == defaultValue
    ensures StringFlag(args, flag).Some? && StringFlag(args, flag).value != "" ==>
      r == (match parseNumber(StringFlag(args, flag).value) case Some(n) => n case None => defaultValue)
  {
    match StringFlag(args, flag)
    case None => defaultValue
    case Some(value) =>
      if value == "" then defaultValue
      else match parseNumber(value)
        case None => defaultValue
        case Some(n) => n
  }

  /**
   * `trimArgs` removes argument `k` when it is one of the consumed flags, or
   * when it follows one and does not itself start with `--` (it is that
   * flag's value).
   */
  predicate Consumed(args: seq<string>, consumedFlags: seq<string>, k: nat)
    requires k < |args|
  {
    || args[k] in consumedFlags
    || (k > 0 && args[k - 1] in consumedFlags && !StartsWith(args[k], "--"))
  }

  /** Argument `k` is marked as consumed once the first `i` arguments have been scanned. */
  predicate MarkedBy(args: seq<string>, consumedFlags: seq<string>, i: nat, k: nat)
    requires k < |args|
  {
    || (k < i && args[k] in consumedFlags)
    || (0 < k <= i && args[k - 1] in consumedFlags && !StartsWith(args[k], "--"))
  }

  /** The arguments among the first `n` that `trimArgs` keeps, in order. */
  function KeptArgs(args: seq<string>, consumedFlags: seq<string>, n: nat): seq<string>
    requires n <= |args|
  {
    if n == 0 then []
    else KeptArgs(args, consumedFlags, n - 1) + (if Consumed(args, consumedFlags, n - 1) then [] else [args[n - 1]])
  }

  /** `trimArgs(args, consumedFlags)`: the arguments left once the flags and their values are removed. */
  method TrimArgs(args: seq<string>, consumedFlags: seq<string>) returns (kept: seq<string>)
    ensures kept == KeptArgs(args, consumedFlags, |args|)
  {
    var consumed: set<nat> := {};
    for i := 0 to |args|
      invariant forall k :: k in consumed ==> k < |args|
      invariant forall k :: 0 <= k < |args| ==> (k in consumed <==> MarkedBy(args, consumedFlags, i, k))
    {
      var before := consumed;
      if args[i] in consumedFlags {
        consumed := consumed + {i};
        if i + 1 < |args| && !StartsWith(args[i + 1], "--") {
          consumed := consumed + {i + 1};
        }
      }
      forall k | 0 <= k < |args|
        ensures k in consumed <==> MarkedBy(args, consumedFlags, i + 1, k)
      {
        assert k in before <==> MarkedBy(args, consumedFlags, i, k);
      }
    }
    kept := [];
    for j := 0 to |args|
      invariant kept == KeptArgs(args, consumedFlags, j)
    {
      if j !in consumed {
        kept := kept + [args[j]];
      }
    }
  }

  /** No consumed flag survives trimming, and trimming never adds an argument. */
  lemma {:induction false} KeptArgsHaveNoFlags(args: seq<string>, consumedFlags: seq<string>, n: nat)
    requires n <= |args|
    ensures |KeptArgs(args, consumedFlags, n)| <= n
    ensures forall a :: a in KeptArgs(args, consumedFlags, n) ==> a !in consumedFlags && a in args
  {
    if n > 0 {
      KeptArgsHaveNoFlags(args, consumedFlags, n - 1);
    }
  }

  /** `args.filter((arg) => !flags.includes(arg))`: the arguments that are none of `flags`, in order. */
  function FilterOut(args: seq<string>, flags: seq<string>): (r: seq<string>)
    ensures |r| <= |args|
    ensures forall a :: a in r <==> a in args && a !in flags
  {
    if args == [] then []
    else (if args[0] in flags then [] else [args[0]]) + FilterOut(args[1..], flags)
  }

  /** `Math.max(1, Math.min(n, 50))`: the `--limit` both search scripts accept. */
  function ClampLimit(n: int): (r: int)
    ensures 1 <= r <= 50
    ensures 1 <= n <= 50 ==> r == n
  {
    if n < 1 then 1 else if n > 50 then 50 else n
  }
}
