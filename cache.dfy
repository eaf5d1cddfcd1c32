/**
 * The local cache of the four Effect documentation sources
 * (`_effect_common.ts`): the source table, the manifest file, the
 * staleness rule, and `ensureSource`, which serves a cached copy, revalidates
 * it with a conditional request, or downloads it again.
 *
 * The file system is the state of a `CacheStore`: the manifest file as JSON
 * parsing leaves it, and a map from paths to file contents. The network is
 * the parameter `fetch`, the clock the parameter `now` (milliseconds since
 * the epoch), and SHA-256 and UTF-8 decoding are functions the store is
 * given.
 */
module Cache {
  import opened Wrappers
  import opened Strings

  datatype SourceId = LlmsIndex | LlmsFull | LlmsSmall | ApiSearchIndex

  datatype ContentKind = Text | Json

  datatype SourceSpec = SourceSpec(id: SourceId, url: string, filename: string, ttlMs: int, kind: ContentKind)

  /** One day in milliseconds, the lifetime of every cached source. */
  const DayMs: int := 24 * 60 * 60 * 1000

  /** The file name under which a source is cached. */
  function FileName(id: SourceId): string {
    match id
    case LlmsIndex => "llms.txt"
    case LlmsFull => "llms-full.txt"
    case LlmsSmall => "llms-small.txt"
    case ApiSearchIndex => "api-search-data.json"
  }

  /** Where each source is published. */
  const LlmsIndexUrl: string := "https://effect.website/llms.txt"
  const LlmsFullUrl: string := "https://effect.website/llms-full.txt"
  const LlmsSmallUrl: string := "https://effect.website/llms-small.txt"
  const ApiSearchIndexUrl: string := "https://effect-ts.github.io/effect/assets/js/search-data.json"

  /** `SOURCE_SPECS[id]`. */
  function SpecOf(id: SourceId): (s: SourceSpec)
    ensures s.id == id && s.ttlMs == DayMs && s.filename == FileName(id)
    ensures s.kind == Json <==> id == ApiSearchIndex
  {
    match id
    case LlmsIndex => SourceSpec(LlmsIndex, LlmsIndexUrl, FileName(id), DayMs, Text)
    case LlmsFull => SourceSpec(LlmsFull, LlmsFullUrl, FileName(id), DayMs, Text)
    case LlmsSmall => SourceSpec(LlmsSmall, LlmsSmallUrl, FileName(id), DayMs, Text)
    case ApiSearchIndex =>
      SourceSpec(ApiSearchIndex, ApiSearchIndexUrl, FileName(id), DayMs, Json)
  }

  /** `SOURCE_ORDER`: the order in which `ensureAllSources` visits the sources. */
  const SourceOrder: seq<SourceId> := [LlmsIndex, LlmsFull, LlmsSmall, ApiSearchIndex]

  /** Every source appears in `SourceOrder` exactly once, and no two sources share a file name. */
  lemma SourceTableWellFormed()
    ensures |SourceOrder| == 4
    ensures forall id :: id in SourceOrder
    ensures forall i, j :: 0 <= i < j < |SourceOrder| ==> SourceOrder[i] != SourceOrder[j]
    ensures forall a, b :: a != b ==> SpecOf(a).filename != SpecOf(b).filename
  {
    forall id
      ensures id in SourceOrder
    {
      match id
      case LlmsIndex => assert SourceOrder[0] == id;
      case LlmsFull => assert SourceOrder[1] == id;
      case LlmsSmall => assert SourceOrder[2] == id;
      case ApiSearchIndex => assert SourceOrder[3] == id;
    }
    forall a, b | a != b
      ensures SpecOf(a).filename != SpecOf(b).filename
    {
      // The four file names have four different lengths.
      assert |SpecOf(LlmsIndex).filename| == 8 && |SpecOf(LlmsFull).filename| == 13;
      assert |SpecOf(LlmsSmall).filename| == 14 && |SpecOf(ApiSearchIndex).filename| == 20;
    }
  }

  /** Where a source stands in `SourceOrder`. */
  function Position(id: SourceId): nat {
    match id
    case LlmsIndex => 0
    case LlmsFull => 1
    case LlmsSmall => 2
    case ApiSearchIndex => 3
  }

  /** `Position` undoes indexing into `SourceOrder`, so different positions hold different sources. */
  lemma PositionOf(i: nat)
    requires i < |SourceOrder|
    ensures Position(SourceOrder[i]) == i
  {
    if i == 0 {
    } else if i == 1 {
    } else if i == 2 {
    } else {
    }
  }

  type Bytes = seq<bv8>

  /**
   * A manifest record. `fetchedAt` is the timestamp as `Date.parse` reads the
   * stored ISO string: `None` where that gives NaN.
   */
  datatype CacheEntry = CacheEntry(
    id: SourceId,
    url: string,
    path: string,
    fetchedAt: Option<int>,
    bytes: int,
    sha256: string,
    etag: Option<string>,
    lastModified: Option<string>)

  datatype Manifest = Manifest(entries: map<SourceId, CacheEntry>)

  const DefaultManifest := Manifest(map[])

  /** What `entries` holds in a parsed manifest file. */
  datatype EntriesField = EntriesObject(records: map<SourceId, CacheEntry>) | EntriesNull | EntriesNotObject

  /** The manifest file: unreadable or not JSON, or a parsed document. */
  datatype ManifestFile = Unreadable | Document(version: Option<int>, entries: EntriesField)

  /** `loadManifest`: a file that is missing, not JSON, of another version or without an `entries` object reads as empty. */
  function LoadManifest(file: ManifestFile): (m: Manifest)
    ensures file.Document? && file.version == Some(1) && file.entries.EntriesObject? ==> m.entries == file.entries.records
    ensures !(file.Document? && file.version == Some(1) && file.entries.EntriesObject?) ==> m == DefaultManifest
  {
    match file
    case Unreadable => DefaultManifest
    case Document(version, entries) =>
      if version != Some(1) || !entries.EntriesObject? then DefaultManifest
      else Manifest(entries.records)
  }

  /** `saveManifest`: the document written for a manifest. */
  function Serialize(m: Manifest): ManifestFile {
    Document(Some(1), EntriesObject(m.entries))
  }

  /** A saved manifest loads back unchanged. */
  lemma LoadSerialize(m: Manifest)
    ensures LoadManifest(Serialize(m)) == m
  {
  }

  /** `isStale`: no entry, an unreadable timestamp, or an age strictly greater than the lifetime. */
  function IsStale(entry: Option<CacheEntry>, spec: SourceSpec, now: int): bool {
    entry.None? || entry.value.fetchedAt.None? || now - entry.value.fetchedAt.value > spec.ttlMs
  }

  /**
   * An entry stamped at `t` is fresh up to and including `t + ttlMs` (an age
   * equal to the lifetime is still fresh) and stale from the next millisecond on.
   */
  lemma FreshForExactlyTtl(e: CacheEntry, spec: SourceSpec, t: int, now: int)
    requires e.fetchedAt == Some(t)
    ensures !IsStale(Some(e), spec, now) <==> now - t <= spec.ttlMs
    ensures IsStale(Some(e), spec, t + spec.ttlMs + 1) && !IsStale(Some(e), spec, t + spec.ttlMs)
  {
  }

  /** A missing entry, or one whose timestamp does not parse, is stale at any time. */
  lemma UntimedIsStale(entry: Option<CacheEntry>, spec: SourceSpec, now: int)
    requires entry.None? || entry.value.fetchedAt.None?
    ensures IsStale(entry, spec, now)
  {
  }

  /** Staleness is monotone in time: once stale, an entry stays stale. */
  lemma StaleStaysStale(entry: Option<CacheEntry>, spec: SourceSpec, now: int, later: int)
    requires now <= later && IsStale(entry, spec, now)
    ensures IsStale(entry, spec, later)
  {
  }

  /** `EnsureSourceOptions`: `None` is an absent field. */
  datatype EnsureOptions = EnsureOptions(force: Option<bool>, preferStaleOnError: Option<bool>)

  const DefaultOptions := EnsureOptions(None, None)

  /** `{ preferStaleOnError: true }`, the options every script reads its source with. */
  const PreferStale := EnsureOptions(None, Some(true))

  /** The request `ensureSource` sends; a conditional header is `None` when it is not set. */
  datatype Request = Request(url: string, ifNoneMatch: Option<string>, ifModifiedSince: Option<string>)

  /** The answer of `fetch`: an exception, or a response with its status, body and validators. */
  datatype FetchOutcome =
    | Thrown(error: string)
    | Response(status: int, statusText: string, body: Bytes, etag: Option<string>, lastModified: Option<string>)

  datatype EnsureError =
    | FetchFailed(error: string)
    | HttpFailed(message: string)
    | ReadFailed(path: string)
    | JsonInvalid(path: string)

  /** `response.ok`. */
  predicate IsOk(status: int) {
    200 <= status <= 299
  }

  /** A header is sent only for a validator that is present and non-empty (a truthy value). */
  function Validator(v: Option<string>): (r: Option<string>)
    ensures r.Some? <==> v.Some? && v.value != ""
    ensures r.Some? ==> r == v
  {
    if v.Some? && v.value != "" then v else None
  }

  /** The request for `url`, conditional on the validators of the cached entry. */
  function ConditionalRequest(url: string, current: Option<CacheEntry>): (r: Request)
    ensures r.url == url
    ensures r.ifNoneMatch.Some? <==> current.Some? && current.value.etag.Some? && current.value.etag.value != ""
    ensures r.ifModifiedSince.Some? <==> current.Some? && current.value.lastModified.Some? && current.value.lastModified.value != ""
    ensures r.ifNoneMatch.Some? ==> r.ifNoneMatch == current.value.etag
    ensures r.ifModifiedSince.Some? ==> r.ifModifiedSince == current.value.lastModified
  {
    match current
    case None => Request(url, None, None)
    case Some(c) => Request(url, Validator(c.etag), Validator(c.lastModified))
  }

  /** `needsFetch`: forced, nothing cached, no file, or stale. */
  predicate NeedsFetch(options: EnsureOptions, current: Option<CacheEntry>, hasFile: bool, spec: SourceSpec, now: int) {
    options.force == Some(true) || current.None? || !hasFile || IsStale(current, spec, now)
  }

  /** The cached copy may stand in for a failed fetch unless the caller opted out. */
  predicate MayServeStale(options: EnsureOptions, current: Option<CacheEntry>, hasFile: bool) {
    options.preferStaleOnError != Some(false) && current.Some? && hasFile
  }

  /** The message of the error thrown for a response that is not `ok`. */
  function HttpFailureMessage(url: string, status: int, statusText: string): string {
    "Failed to fetch " + url + " (" + IntToString(status) + " " + statusText + ")"
  }

  /** What `ensureSource` does with the answer to its request. */
  datatype Reaction = ServeCached | Revalidate | Download | Fail(error: EnsureError)

  function React(options: EnsureOptions, current: Option<CacheEntry>, hasFile: bool, url: string, outcome: FetchOutcome): Reaction {
    if outcome.Thrown? then
      if MayServeStale(options, current, hasFile) then ServeCached else Fail(FetchFailed(outcome.error))
    else if outcome.status == 304 && current.Some? && hasFile then Revalidate
    else if !IsOk(outcome.status) then
      if MayServeStale(options, current, hasFile) then ServeCached
      else Fail(HttpFailed(HttpFailureMessage(url, outcome.status, outcome.statusText)))
    else Download
  }

  /**
   * The cached copy is served after a fetch only when there is one, its file
   * exists and the caller did not opt out; an error is reported only when it
   * cannot be served.
   */
  lemma ServeCachedOnlyWithUsableCopy(options: EnsureOptions, current: Option<CacheEntry>, hasFile: bool, url: string, outcome: FetchOutcome)
    ensures React(options, current, hasFile, url, outcome) == ServeCached ==> MayServeStale(options, current, hasFile)
    ensures React(options, current, hasFile, url, outcome).Fail? ==> !MayServeStale(options, current, hasFile)
    ensures React(options, current, hasFile, url, outcome) == Revalidate ==> current.Some? && hasFile
  {
  }

  /** `manifest.entries[id]`, when there is one. */
  function Lookup(entries: map<SourceId, CacheEntry>, id: SourceId): Option<CacheEntry> {
    if id in entries then Some(entries[id]) else None
  }

  /** A `304 Not Modified` with nothing usable in the cache is a failed fetch, never a revalidation. */
  lemma NotModifiedWithoutCopyFails(options: EnsureOptions, current: Option<CacheEntry>, hasFile: bool, url: string, outcome: FetchOutcome)
    requires outcome.Response? && outcome.status == 304 && (current.None? || !hasFile)
    ensures React(options, current, hasFile, url, outcome) == Fail(HttpFailed(HttpFailureMessage(url, 304, outcome.statusText)))
  {
  }

  /** The record after a `304`: the cached record, restamped, resized and moved to the current path. */
  function Revalidated(current: CacheEntry, now: int, size: int, path: string): (e: CacheEntry)
    ensures e.id == current.id && e.url == current.url && e.sha256 == current.sha256
    ensures e.etag == current.etag && e.lastModified == current.lastModified
    ensures e.fetchedAt == Some(now) && e.bytes == size && e.path == path
  {
    current.(fetchedAt := Some(now), bytes := size, path := path)
  }

  /** The record after a download: everything taken from the new body and the response headers. */
  function Downloaded(id: SourceId, path: string, now: int, body: Bytes, etag: Option<string>, lastModified: Option<string>, sha256: Bytes -> string): (e: CacheEntry)
    ensures e.id == id && e.url == SpecOf(id).url && e.path == path && e.fetchedAt == Some(now)
    ensures e.bytes == |body| && e.sha256 == sha256(body)
    ensures e.etag == etag && e.lastModified == lastModified
  {
    CacheEntry(id, SpecOf(id).url, path, Some(now), |body|, sha256(body), etag, lastModified)
  }

  /** A source as `ensureSource` leaves it: the record it returns and the content of the source's file. */
  datatype Ensured = Ensured(entry: CacheEntry, content: Bytes)

  /** The content of the file at `path`, when there is one. */
  function FileIn(dir: map<string, Bytes>, path: string): Option<Bytes> {
    if path in dir then Some(dir[path]) else None
  }

  /**
   * What `ensureSource(id)` comes to when the manifest holds `current` and
   * the source's file, at `path`, holds `file`: the cached pair when it is
   * fresh or stands in for a failed fetch, the restamped record over the same
   * content after a `304`, the new record and the body after a download, and
   * otherwise the error.
   */
  function EnsureOutcome(id: SourceId, options: EnsureOptions, now: int, fetch: Request -> FetchOutcome,
                         current: Option<CacheEntry>, file: Option<Bytes>, path: string, sha256: Bytes -> string): Result<Ensured, EnsureError>
  {
    if !NeedsFetch(options, current, file.Some?, SpecOf(id), now) then Success(Ensured(current.value, file.value))
    else
      var outcome := fetch(ConditionalRequest(SpecOf(id).url, current));
      match React(options, current, file.Some?, SpecOf(id).url, outcome)
      case ServeCached => Success(Ensured(current.value, file.value))
      case Revalidate => Success(Ensured(Revalidated(current.value, now, |file.value|, path), file.value))
      case Download => Success(Ensured(Downloaded(id, path, now, outcome.body, outcome.etag, outcome.lastModified, sha256), outcome.body))
      case Fail(e) => Failure(e)
  }

  /**
   * `ensureSource` fails only after a fetch, only when the cached copy may not
   * stand in, and only with a fetch or HTTP error.
   */
  lemma EnsureFailureOnlyWithoutUsableCopy(id: SourceId, options: EnsureOptions, now: int, fetch: Request -> FetchOutcome,
                                           current: Option<CacheEntry>, file: Option<Bytes>, path: string, sha256: Bytes -> string)
    ensures EnsureOutcome(id, options, now, fetch, current, file, path, sha256).Failure? ==>
      && NeedsFetch(options, current, file.Some?, SpecOf(id), now)
      && !MayServeStale(options, current, file.Some?)
      && (EnsureOutcome(id, options, now, fetch, current, file, path, sha256).error.FetchFailed?
          || EnsureOutcome(id, options, now, fetch, current, file, path, sha256).error.HttpFailed?)
  {
    var request := ConditionalRequest(SpecOf(id).url, current);
    ServeCachedOnlyWithUsableCopy(options, current, file.Some?, SpecOf(id).url, fetch(request));
  }

  /**
   * A successful `ensureSource` yields either the cached record over the
   * cached content, or a record stamped now, at `path`, whose size is that of
   * the content; a downloaded content also carries its own hash.
   */
  lemma EnsuredIsCachedOrRefreshed(id: SourceId, options: EnsureOptions, now: int, fetch: Request -> FetchOutcome,
                                   current: Option<CacheEntry>, file: Option<Bytes>, path: string, sha256: Bytes -> string)
    ensures var out := EnsureOutcome(id, options, now, fetch, current, file, path, sha256);
      out.Success? ==>
        || (current == Some(out.value.entry) && file == Some(out.value.content))
        || (&& out.value.entry.fetchedAt == Some(now) && out.value.entry.path == path
            && out.value.entry.bytes == |out.value.content|
            && (file != Some(out.value.content) ==> out.value.entry.sha256 == sha256(out.value.content)))
  {
  }

  /** A record just written is not fetched again by a default call within the lifetime. */
  lemma RefreshedIsFresh(e: CacheEntry, now: int, later: int)
    requires e.fetchedAt == Some(now) && now <= later <= now + DayMs
    ensures !NeedsFetch(DefaultOptions, Some(e), true, SpecOf(e.id), later)
    ensures NeedsFetch(DefaultOptions, Some(e), true, SpecOf(e.id), now + DayMs + 1)
  {
  }

  class CacheStore {
    /** The cache directory (`CACHE_ROOT`). */
    const root: string
    const sha256: Bytes -> string
    const decodeUtf8: Bytes -> string
    /** The manifest file, as `loadManifest` parses it. */
    var manifestFile: ManifestFile
    /** The files of the cache directory, by path. */
    var files: map<string, Bytes>

    constructor (root: string, sha256: Bytes -> string, decodeUtf8: Bytes -> string, manifestFile: ManifestFile, files: map<string, Bytes>)
      ensures this.root == root && this.sha256 == sha256 && this.decodeUtf8 == decodeUtf8
      ensures this.manifestFile == manifestFile && this.files == files
    {
      this.root := root;
      this.sha256 := sha256;
      this.decodeUtf8 := decodeUtf8;
      this.manifestFile := manifestFile;
      this.files := files;
    }

    /** `sourcePath(id)`. */
    function SourcePath(id: SourceId): string {
      root + "/" + FileName(id)
    }

    /** Different sources live in different files. */
    lemma SourcePathsDistinct(a: SourceId, b: SourceId)
      requires a != b
      ensures SourcePath(a) != SourcePath(b)
    {
      SourceTableWellFormed();
      var prefix := root + "/";
      assert SourcePath(a)[|prefix|..] == FileName(a);
      assert SourcePath(b)[|prefix|..] == FileName(b);
    }

    /** The records of the manifest as `loadManifest` reads it. */
    function Entries(): map<SourceId, CacheEntry>
      reads this
    {
      LoadManifest(manifestFile).entries
    }

    /** `manifest.entries[id]`. */
    function Current(id: SourceId): Option<CacheEntry>
      reads this
    {
      if id in Entries() then Some(Entries()[id]) else None
    }

    /** Every record is filed under its own source and points at that source's path. */
    predicate Consistent()
      reads this
    {
      ConsistentEntries(Entries())
    }

    predicate ConsistentEntries(entries: map<SourceId, CacheEntry>) {
      forall id :: id in entries ==> entries[id].id == id && entries[id].path == SourcePath(id)
    }

    /** Filing a record under its own source, at that source's path, keeps the records consistent. */
    lemma ConsistentUpdate(entries: map<SourceId, CacheEntry>, id: SourceId, e: CacheEntry)
      requires ConsistentEntries(entries) && e.id == id && e.path == SourcePath(id)
      ensures ConsistentEntries(entries[id := e])
    {
    }

    /** What `ensureSource(id)` comes to (see `EnsureOutcome`) on a cache whose records are `entries` and whose files are `dir`. */
    function OutcomeFrom(id: SourceId, options: EnsureOptions, now: int, fetch: Request -> FetchOutcome,
                         entries: map<SourceId, CacheEntry>, dir: map<string, Bytes>): Result<Ensured, EnsureError>
    {
      EnsureOutcome(id, options, now, fetch, Lookup(entries, id), FileIn(dir, SourcePath(id)), SourcePath(id), sha256)
    }

    /**
     * The cache as `ensureSource(id)` leaves it with outcome `out`, when it
     * started from the manifest file `before` and the files `dir`: untouched
     * after a failure, and otherwise with the source's record and file set to
     * the outcome's.
     */
    predicate LeftBy(id: SourceId, out: Result<Ensured, EnsureError>, before: ManifestFile, dir: map<string, Bytes>)
      reads this
    {
      match out
      case Failure(_) => manifestFile == before && files == dir
      case Success(ensured) =>
        Entries() == LoadManifest(before).entries[id := ensured.entry] && files == dir[SourcePath(id) := ensured.content]
    }

    /** The bytes of the file an ensured record points at, once the source's file holds the ensured content. */
    function ReadFrom(id: SourceId, ensured: Ensured, dir: map<string, Bytes>): Option<Bytes> {
      FileIn(dir[SourcePath(id) := ensured.content], ensured.entry.path)
    }

    /** What `readSourceText(id)` returns on a cache whose records are `entries` and whose files are `dir`. */
    function TextFrom(id: SourceId, options: EnsureOptions, now: int, fetch: Request -> FetchOutcome,
                      entries: map<SourceId, CacheEntry>, dir: map<string, Bytes>): Result<string, EnsureError>
    {
      match OutcomeFrom(id, options, now, fetch, entries, dir)
      case Failure(e) => Failure(e)
      case Success(ensured) =>
        match ReadFrom(id, ensured, dir)
        case None => Failure(ReadFailed(ensured.entry.path))
        case Some(bytes) => Success(decodeUtf8(bytes))
    }

    /** What `readSourceJson(id)` returns on a cache whose records are `entries` and whose files are `dir`. */
    function JsonFrom<T>(id: SourceId, options: EnsureOptions, now: int, fetch: Request -> FetchOutcome,
                         entries: map<SourceId, CacheEntry>, dir: map<string, Bytes>, parseJson: string -> Option<T>): Result<T, EnsureError>
    {
      match OutcomeFrom(id, options, now, fetch, entries, dir)
      case Failure(e) => Failure(e)
      case Success(ensured) =>
        match ReadFrom(id, ensured, dir)
        case None => Failure(ReadFailed(ensured.entry.path))
        case Some(bytes) =>
          match parseJson(decodeUtf8(bytes))
          case None => Failure(JsonInvalid(ensured.entry.path))
          case Some(value) => Success(value)
    }

    /**
     * On a consistent cache the ensured record points at the source's own
     * file, so a read fails exactly when `ensureSource` does, and otherwise
     * gives the ensured content, decoded (and parsed).
     */
    lemma ReadsOwnFile<T>(id: SourceId, options: EnsureOptions, now: int, fetch: Request -> FetchOutcome,
                          entries: map<SourceId, CacheEntry>, dir: map<string, Bytes>, parseJson: string -> Option<T>)
      requires ConsistentEntries(entries)
      ensures var out := OutcomeFrom(id, options, now, fetch, entries, dir);
        && (out.Success? ==> out.value.entry.path == SourcePath(id))
        && TextFrom(id, options, now, fetch, entries, dir) == (if out.Failure? then Failure(out.error) else Success(decodeUtf8(out.value.content)))
        && (out.Success? && parseJson(decodeUtf8(out.value.content)).Some? ==>
              JsonFrom(id, options, now, fetch, entries, dir, parseJson) == Success(parseJson(decodeUtf8(out.value.content)).value))
        && (out.Success? && parseJson(decodeUtf8(out.value.content)).None? ==>
              JsonFrom(id, options, now, fetch, entries, dir, parseJson) == Failure(JsonInvalid(SourcePath(id))))
        && (out.Failure? ==> JsonFrom(id, options, now, fetch, entries, dir, parseJson) == Failure(out.error))
    {
    }

    /** The record and the file of `id` are those of `entries` and `dir`. */
    predicate SourceAsIn(id: SourceId, entries: map<SourceId, CacheEntry>, dir: map<string, Bytes>)
      reads this
    {
      && Current(id) == Lookup(entries, id)
      && (SourcePath(id) in files <==> SourcePath(id) in dir)
      && (SourcePath(id) in files ==> files[SourcePath(id)] == dir[SourcePath(id)])
    }

    /** Every file outside the sources' own paths is as in `dir`. */
    ghost predicate OtherFilesAsIn(dir: map<string, Bytes>)
      reads this
    {
      forall p :: (forall id :: p != SourcePath(id)) ==> (p in files <==> p in dir) && (p in files ==> files[p] == dir[p])
    }

    /** The outcome of `ensureSource` for each source of `SourceOrder`, source `k` at time `nows[k]`, on records `entries` and files `dir`. */
    function Outcomes(options: EnsureOptions, nows: seq<int>, fetch: Request -> FetchOutcome,
                      entries: map<SourceId, CacheEntry>, dir: map<string, Bytes>): (outs: seq<Result<Ensured, EnsureError>>)
      requires |nows| == |SourceOrder|
    {
      seq(|SourceOrder|, k requires 0 <= k < |SourceOrder| => OutcomeFrom(SourceOrder[k], options, nows[k], fetch, entries, dir))
    }

    /** The record and the file of `id` exist and are the successful outcome `out`. */
    predicate Holds(id: SourceId, out: Result<Ensured, EnsureError>)
      reads this
    {
      id in Entries() && SourcePath(id) in files && out == Success(Ensured(Entries()[id], files[SourcePath(id)]))
    }

    /** The first `|ensured|` sources hold the records `ensured` and the outcomes `outs`. */
    predicate EnsuredPrefix(ensured: seq<CacheEntry>, outs: seq<Result<Ensured, EnsureError>>)
      requires |ensured| <= |outs| == |SourceOrder|
      reads this
    {
      forall k :: 0 <= k < |ensured| ==> Holds(SourceOrder[k], outs[k]) && Entries()[SourceOrder[k]] == ensured[k]
    }

    /**
     * `ensureAllSources` with outcomes `outs`, started from records `entries`
     * and files `dir`, stopped at source `k` with `error`: that source's
     * outcome is `error`, the ones before it hold their outcomes, and it and
     * the ones after it are as they were.
     */
    ghost predicate StoppedAt(k: nat, error: EnsureError, outs: seq<Result<Ensured, EnsureError>>,
                              entries: map<SourceId, CacheEntry>, dir: map<string, Bytes>)
      requires k < |outs| == |SourceOrder|
      reads this
    {
      && outs[k] == Failure(error)
      && (forall j :: 0 <= j < k ==> Holds(SourceOrder[j], outs[j]))
      && (forall j :: k <= j < |SourceOrder| ==> SourceAsIn(SourceOrder[j], entries, dir))
    }

    /** `saveManifest`. */
    method SaveManifest(m: Manifest)
      modifies this
      ensures manifestFile == Serialize(m) && Entries() == m.entries
      ensures files == old(files)
    {
      manifestFile := Serialize(m);
    }

    /**
     * `ensureSource(id, options)`. `sent` is the request made, `None` when the
     * cached copy was fresh. The new state is stated case by case; after any
     * success the returned record is the one in the manifest and its file
     * exists, and no other source's record or file changes.
     */
    method EnsureSource(id: SourceId, options: EnsureOptions, now: int, fetch: Request -> FetchOutcome)
      returns (r: Result<CacheEntry, EnsureError>, sent: Option<Request>)
      modifies this
      ensures var current := old(Current(id));
        !NeedsFetch(options, current, SourcePath(id) in old(files), SpecOf(id), now) ==>
          r == Success(current.value) && sent == None && manifestFile == old(manifestFile) && files == old(files)
      ensures NeedsFetch(options, old(Current(id)), SourcePath(id) in old(files), SpecOf(id), now) ==>
          sent == Some(ConditionalRequest(SpecOf(id).url, old(Current(id))))
      ensures sent.Some? ==>
        var current := old(Current(id));
        var outcome := fetch(sent.value);
        match React(options, current, SourcePath(id) in old(files), SpecOf(id).url, outcome)
        case ServeCached =>
          r == Success(current.value) && manifestFile == old(manifestFile) && files == old(files)
        case Fail(e) =>
          r == Failure(e) && manifestFile == old(manifestFile) && files == old(files)
        case Revalidate =>
          && SourcePath(id) in old(files)
          && r == Success(Revalidated(current.value, now, |old(files)[SourcePath(id)]|, SourcePath(id)))
          && Entries() == old(Entries())[id := r.value]
          && files == old(files)
        case Download =>
          && r == Success(Downloaded(id, SourcePath(id), now, outcome.body, outcome.etag, outcome.lastModified, sha256))
          && Entries() == old(Entries())[id := r.value]
          && files == old(files)[SourcePath(id) := outcome.body]
      ensures r.Success? ==> id in Entries() && Entries()[id] == r.value && SourcePath(id) in files
      ensures forall other :: other != id ==> Current(other) == old(Current(other))
      ensures forall p :: p != SourcePath(id) ==> (p in files <==> p in old(files))
      ensures forall p :: p != SourcePath(id) && p in files ==> files[p] == old(files)[p]
      ensures SourcePath(id) in old(files) ==> SourcePath(id) in files
      ensures old(Consistent()) ==> Consistent()
      ensures old(Consistent()) && r.Success? ==> r.value.path == SourcePath(id)
    {
      var spec := SpecOf(id);
      var current := Current(id);
      var hasFile := SourcePath(id) in files;
      if !NeedsFetch(options, current, hasFile, spec, now) {
        return Success(current.value), None;
      }

      var request := ConditionalRequest(spec.url, current);
      sent := Some(request);
      var response := fetch(request);
      ServeCachedOnlyWithUsableCopy(options, current, hasFile, spec.url, response);
      match React(options, current, hasFile, spec.url, response)
      case ServeCached =>
        r := Success(current.value);
      case Fail(e) =>
        r := Failure(e);
      case Revalidate =>
        var updated := RecordRevalidation(id, current.value, now);
        r := Success(updated);
      case Download =>
        var entry := RecordDownload(id, response, now);
        r := Success(entry);
    }

    /** The `304` path of `ensureSource`: the cached record, restamped with the size of the file on disk, saved. */
    method RecordRevalidation(id: SourceId, current: CacheEntry, now: int) returns (updated: CacheEntry)
      requires SourcePath(id) in files
      modifies this
      ensures files == old(files)
      ensures updated == Revalidated(current, now, |files[SourcePath(id)]|, SourcePath(id))
      ensures Entries() == old(Entries())[id := updated]
      ensures forall other :: other != id ==> Current(other) == old(Current(other))
      ensures old(Consistent()) && current.id == id ==> Consistent()
    {
      var targetPath := SourcePath(id);
      var size := |files[targetPath]|;
      updated := Revalidated(current, now, size, targetPath);
      if ConsistentEntries(Entries()) && current.id == id {
        ConsistentUpdate(Entries(), id, updated);
      }
      SaveManifest(Manifest(LoadManifest(manifestFile).entries[id := updated]));
    }

    /** The download path of `ensureSource`: the body written to the source's file and a new record saved. */
    method RecordDownload(id: SourceId, response: FetchOutcome, now: int) returns (entry: CacheEntry)
      requires response.Response?
      modifies this
      ensures entry == Downloaded(id, SourcePath(id), now, response.body, response.etag, response.lastModified, sha256)
      ensures Entries() == old(Entries())[id := entry]
      ensures files == old(files)[SourcePath(id) := response.body]
      ensures forall other :: other != id ==> Current(other) == old(Current(other))
      ensures old(Consistent()) ==> Consistent()
    {
      var targetPath := SourcePath(id);
      files := files[targetPath := response.body];
      entry := Downloaded(id, targetPath, now, response.body, response.etag, response.lastModified, sha256);
      if ConsistentEntries(Entries()) {
        ConsistentUpdate(Entries(), id, entry);
      }
      SaveManifest(Manifest(LoadManifest(manifestFile).entries[id := entry]));
    }

    /**
     * `ensureAllSources(options)`: every source in `SourceOrder`, stopping at
     * the first failure. Each call reads the clock afresh: `nows[k]` is the
     * time at which source `k` is ensured. Against the outcomes `Outcomes`
     * gives for the cache as it was on entry: on success the records returned
     * are, in order, the outcomes' records, and the manifest and the sources'
     * files hold them and the outcomes' contents; on failure some source `k`
     * has the error as its outcome, the sources before it hold theirs, and it
     * and the sources after it are untouched. Files outside the sources'
     * paths never change.
     */
    method EnsureAllSources(options: EnsureOptions, nows: seq<int>, fetch: Request -> FetchOutcome)
      returns (r: Result<seq<CacheEntry>, EnsureError>)
      requires |nows| == |SourceOrder|
      modifies this
      ensures r.Success? ==>
        |r.value| == |SourceOrder| && EnsuredPrefix(r.value, Outcomes(options, nows, fetch, old(Entries()), old(files)))
      ensures r.Failure? ==>
        exists k :: 0 <= k < |SourceOrder| && StoppedAt(k, r.error, Outcomes(options, nows, fetch, old(Entries()), old(files)), old(Entries()), old(files))
      ensures OtherFilesAsIn(old(files))
      ensures old(Consistent()) ==> Consistent()
    {
      ghost var entries0, files0 := Entries(), files;
      ghost var outs := Outcomes(options, nows, fetch, entries0, files0);
      var ensured: seq<CacheEntry> := [];
      for i := 0 to |SourceOrder|
        invariant |ensured| == i && EnsuredPrefix(ensured, outs)
        invariant forall j :: i <= j < |SourceOrder| ==> SourceAsIn(SourceOrder[j], entries0, files0)
        invariant OtherFilesAsIn(files0)
        invariant ConsistentEntries(entries0) ==> Consistent()
      {
        var res := EnsureAt(i, options, nows[i], fetch, ensured, outs, entries0, files0);
        if res.Failure? {
          assert StoppedAt(i, res.error, outs, entries0, files0);
          return Failure(res.error);
        }
        ensured := ensured + [res.value];
      }
      r := Success(ensured);
    }

    /**
     * One step of `ensureAllSources`: `ensureSource` for the `i`-th source of
     * `SourceOrder`, whose outcome is `outs[i]`, once the ones before it hold
     * `ensured` and it and the ones after it are as in `entries` and `dir`.
     */
    method EnsureAt(i: nat, options: EnsureOptions, now: int, fetch: Request -> FetchOutcome,
                    ghost ensured: seq<CacheEntry>, ghost outs: seq<Result<Ensured, EnsureError>>,
                    ghost entries: map<SourceId, CacheEntry>, ghost dir: map<string, Bytes>)
      returns (r: Result<CacheEntry, EnsureError>)
      requires i == |ensured| < |outs| == |SourceOrder|
      requires outs[i] == OutcomeFrom(SourceOrder[i], options, now, fetch, entries, dir)
      requires EnsuredPrefix(ensured, outs)
      requires forall j :: i <= j < |SourceOrder| ==> SourceAsIn(SourceOrder[j], entries, dir)
      requires OtherFilesAsIn(dir)
      modifies this
      ensures r.Failure? ==> outs[i] == Failure(r.error)
      ensures r.Failure? ==> EnsuredPrefix(ensured, outs)
      ensures r.Failure? ==> forall j :: i <= j < |SourceOrder| ==> SourceAsIn(SourceOrder[j], entries, dir)
      ensures r.Success? ==> EnsuredPrefix(ensured + [r.value], outs)
      ensures r.Success? ==> forall j :: i < j < |SourceOrder| ==> SourceAsIn(SourceOrder[j], entries, dir)
      ensures OtherFilesAsIn(dir)
      ensures old(Consistent()) ==> Consistent()
    {
      var id := SourceOrder[i];
      assert SourceAsIn(id, entries, dir);
      assert FileIn(dir, SourcePath(id)) == FileIn(files, SourcePath(id));
      assert outs[i] == OutcomeFrom(id, options, now, fetch, Entries(), files);
      r := EnsureEntry(id, options, now, fetch);
      PositionOf(i);
      forall j | 0 <= j < |SourceOrder| && j != i
        ensures SourceOrder[j] != id && SourcePath(SourceOrder[j]) != SourcePath(id)
      {
        PositionOf(j);
        SourcePathsDistinct(SourceOrder[j], id);
      }
      if r.Success? {
        var done := ensured + [r.value];
        forall k | 0 <= k < |done|
          ensures Holds(SourceOrder[k], outs[k]) && Entries()[SourceOrder[k]] == done[k]
        {
          if k < i {
            assert old(Current(SourceOrder[k])) == Some(ensured[k]);
          }
        }
      }
    }

    /**
     * When only the record and the file of `id` may have changed since the
     * records `entries` and the files `dir`, the records and the files are
     * those with the two updated.
     */
    lemma KeptOthers(id: SourceId, entries: map<SourceId, CacheEntry>, dir: map<string, Bytes>)
      requires id in Entries() && SourcePath(id) in files
      requires forall other :: other != id ==> Current(other) == Lookup(entries, other)
      requires forall p :: p != SourcePath(id) ==> (p in files <==> p in dir)
      requires forall p :: p != SourcePath(id) && p in files ==> files[p] == dir[p]
      ensures Entries() == entries[id := Entries()[id]]
      ensures files == dir[SourcePath(id) := files[SourcePath(id)]]
    {
      var recorded := entries[id := Entries()[id]];
      forall other
        ensures (other in Entries() <==> other in recorded) && (other in Entries() ==> Entries()[other] == recorded[other])
      {
        if other != id {
          assert Current(other) == Lookup(entries, other);
        }
      }
      var written := dir[SourcePath(id) := files[SourcePath(id)]];
      forall p
        ensures (p in files <==> p in written) && (p in files ==> files[p] == written[p])
      {
      }
    }

    /**
     * `ensureSource(id)` as its callers see it, without the request: its
     * result and the cache it leaves are `EnsureOutcome`'s for the cache on
     * entry; the other sources' records and every other file stay as they were.
     */
    method EnsureEntry(id: SourceId, options: EnsureOptions, now: int, fetch: Request -> FetchOutcome)
      returns (r: Result<CacheEntry, EnsureError>)
      modifies this
      ensures r.Failure? ==> OutcomeFrom(id, options, now, fetch, old(Entries()), old(files)) == Failure(r.error)
      ensures r.Failure? ==> manifestFile == old(manifestFile) && files == old(files)
      ensures r.Failure? ==> r.error.FetchFailed? || r.error.HttpFailed?
      ensures r.Success? ==> id in Entries() && Entries()[id] == r.value && SourcePath(id) in files
      ensures r.Success? ==> OutcomeFrom(id, options, now, fetch, old(Entries()), old(files)) == Success(Ensured(r.value, files[SourcePath(id)]))
      ensures forall other :: other != id ==> Current(other) == old(Current(other))
      ensures forall p :: p != SourcePath(id) ==> (p in files <==> p in old(files))
      ensures forall p :: p != SourcePath(id) && p in files ==> files[p] == old(files)[p]
      ensures old(Consistent()) ==> Consistent()
      ensures old(Consistent()) && r.Success? ==> r.value.path == SourcePath(id)
    {
      var sent;
      r, sent := EnsureSource(id, options, now, fetch);
    }

    /**
     * `readSourceText(id)`: the text of the file the ensured record points at,
     * as `TextFrom` gives it for the cache on entry, with the cache left as
     * `ensureSource` leaves it. With a consistent manifest that is always the
     * source's own file, so the read cannot miss.
     */
    method ReadSourceText(id: SourceId, options: EnsureOptions, now: int, fetch: Request -> FetchOutcome)
      returns (r: Result<string, EnsureError>)
      requires SpecOf(id).kind == Text
      modifies this
      ensures r == TextFrom(id, options, now, fetch, old(Entries()), old(files))
      ensures LeftBy(id, OutcomeFrom(id, options, now, fetch, old(Entries()), old(files)), old(manifestFile), old(files))
      ensures r.Success? ==> id in Entries() && Entries()[id].path in files
      ensures r.Success? ==> r.value == decodeUtf8(files[Entries()[id].path])
      ensures old(Consistent()) && r.Success? ==> SourcePath(id) in files && r.value == decodeUtf8(files[SourcePath(id)])
      ensures old(Consistent()) && r.Failure? ==> !r.error.ReadFailed?
      ensures old(Consistent()) ==> Consistent()
    {
      var entry := EnsureEntry(id, options, now, fetch);
      if entry.Failure? {
        return Failure(entry.error);
      }
      KeptOthers(id, old(Entries()), old(files));
      if entry.value.path !in files {
        return Failure(ReadFailed(entry.value.path));
      }
      r := Success(decodeUtf8(files[entry.value.path]));
    }

    /**
     * `readSourceJson(id)`: the ensured file, decoded and parsed by
     * `parseJson` (`None` where `JSON.parse` throws), as `JsonFrom` gives it
     * for the cache on entry, with the cache left as `ensureSource` leaves it.
     */
    method ReadSourceJson<T>(id: SourceId, options: EnsureOptions, now: int, fetch: Request -> FetchOutcome, parseJson: string -> Option<T>)
      returns (r: Result<T, EnsureError>)
      requires SpecOf(id).kind == Json
      modifies this
      ensures r == JsonFrom(id, options, now, fetch, old(Entries()), old(files), parseJson)
      ensures LeftBy(id, OutcomeFrom(id, options, now, fetch, old(Entries()), old(files)), old(manifestFile), old(files))
      ensures r.Success? ==> id in Entries() && Entries()[id].path in files
      ensures r.Success? ==> parseJson(decodeUtf8(files[Entries()[id].path])) == Some(r.value)
      ensures old(Consistent()) && r.Failure? ==> !r.error.ReadFailed?
      ensures old(Consistent()) ==> Consistent()
    {
      var entry := EnsureEntry(id, options, now, fetch);
      if entry.Failure? {
        return Failure(entry.error);
      }
      KeptOthers(id, old(Entries()), old(files));
      if entry.value.path !in files {
        return Failure(ReadFailed(entry.value.path));
      }
      var parsed := parseJson(decodeUtf8(files[entry.value.path]));
      if parsed.None? {
        return Failure(JsonInvalid(entry.value.path));
      }
      r := Success(parsed.value);
    }
  }
}
