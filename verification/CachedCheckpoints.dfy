/** The checkpoint service with the cache on top, against the same service without
    it.  Checkpoints are values here: what a hit hands out is a copy, and CheckpointCopy
    proves that a copy equals its original and shares nothing with it. */
module CachedCheckpoints {
  import opened Common
  import opened CheckpointRecords
  import opened LruSpec
  import opened CheckpointCache

  datatype Error = NotInitialized | DataFailed | CompressFailed | PersistFailed | LoadFailed | DecompressFailed

  datatype Result = Ok(checkpoint: CheckpointValue) | Err(error: Error)

  /** What a strategy and the checksum do to a checkpoint when they do not fail. */
  datatype Strategy = Strategy(
    compress: CheckpointValue -> CheckpointValue,
    decompress: CheckpointValue -> CheckpointValue,
    checksum: CheckpointValue -> string)

  datatype Config = Config(hasRepository: bool, strategy: Option<Strategy>)

  /** The outside world's part in one create call: the strategy's data if it makes
      any, the new ID, the clock, and which of the later steps fail. */
  datatype Creation = Creation(
    data: Option<CheckpointValue>, id: string, checkpointType: string, now: int,
    compressFails: bool, persistFails: bool)

  /** The outside world's part in one fetch. */
  datatype Reading = Reading(loadFails: bool, decompressFails: bool)

  datatype Call = Create(creation: Creation) | Fetch(job: string, reading: Reading)

  const EMPTY_METADATA := MetadataValue("", "", "", "", "", "", false, 0, map[], map[])

  // ----- what the service does, on values -----

  /** The checkpoint as it is handed to the repository. */
  function Stored(s: Strategy, data: CheckpointValue, c: Creation): CheckpointValue {
    var md := match data.nested.metadata case None => EMPTY_METADATA case Some(m) => m;
    var named := CheckpointValue(
      data.own.(id := c.id, createdAt := c.now, updatedAt := c.now),
      data.nested.(metadata := Some(md.(checkpointType := c.checkpointType))));
    s.compress(named.(own := named.own.(checksumHash := s.checksum(named))))
  }

  function CreateResult(g: Config, c: Creation): Result {
    if !g.hasRepository || g.strategy.None? then Err(NotInitialized)
    else if c.data.None? then Err(DataFailed)
    else if c.compressFails then Err(CompressFailed)
    else if c.persistFails then Err(PersistFailed)
    else Ok(Stored(g.strategy.value, c.data.value, c))
  }

  /** A failed create leaves the repository as it was. */
  function Recorded(latest: map<string, CheckpointValue>, r: Result): map<string, CheckpointValue> {
    if r.Ok? then latest[r.checkpoint.own.jobId := r.checkpoint] else latest
  }

  predicate IsPacked(g: Config, v: CheckpointValue) {
    g.strategy.Some? && |v.own.compressedData| > 0
  }

  /** A checkpoint as a fetch from the repository returns it. */
  function Opened(g: Config, v: CheckpointValue): CheckpointValue {
    if IsPacked(g, v) then g.strategy.value.decompress(v) else v
  }

  function FetchResult(g: Config, latest: map<string, CheckpointValue>, job: string, o: Reading): Result {
    if !g.hasRepository then Err(NotInitialized)
    else if o.loadFails || job !in latest then Err(LoadFailed)
    else if IsPacked(g, latest[job]) && o.decompressFails then Err(DecompressFailed)
    else Ok(Opened(g, latest[job]))
  }

  type Contents = seq<Entry<string, CheckpointValue>>

  function CachedFetchResult(g: Config, latest: map<string, CheckpointValue>, s: Contents, job: string,
                             o: Reading): Result {
    match Lookup(s, job)
    case Some(v) => Ok(v)
    case None => FetchResult(g, latest, job, o)
  }

  /** The cache after a create with this result. */
  function AfterCreate(s: Contents, maxSize: int, r: Result): Contents {
    if r.Ok? then LruSpec.Put(s, maxSize, r.checkpoint.own.jobId, r.checkpoint) else s
  }

  /** The cache after a fetch with this result. */
  function AfterFetch(s: Contents, maxSize: int, job: string, r: Result): Contents {
    if Lookup(s, job).Some? then LruSpec.Get(s, job)
    else if r.Ok? then LruSpec.Put(s, maxSize, job, r.checkpoint)
    else s
  }

  // ----- the services -----

  class Repository {
    var latest: map<string, CheckpointValue>

    constructor ()
      ensures latest == map[]
    {
      latest := map[];
    }

    method CreateCheckpoint(checkpoint: CheckpointValue, fails: bool) returns (ok: bool)
      modifies this
      ensures ok == !fails
      ensures latest == if ok then old(latest)[checkpoint.own.jobId := checkpoint] else old(latest)
    {
      if !fails {
        latest := latest[checkpoint.own.jobId := checkpoint];
      }
      return !fails;
    }

    method GetLatestCheckpoint(job: string, fails: bool) returns (r: Option<CheckpointValue>)
      ensures r == if fails || job !in latest then None else Some(latest[job])
    {
      return if fails || job !in latest then None else Some(latest[job]);
    }
  }

  class DefaultJobCheckpointService {
    const repository: Repository?
    const strategy: Option<Strategy>

    constructor (repository: Repository?, strategy: Option<Strategy>)
      ensures this.repository == repository && this.strategy == strategy
    {
      this.repository, this.strategy := repository, strategy;
    }

    function Settings(): Config {
      Config(repository != null, strategy)
    }

    function Latest(): map<string, CheckpointValue>
      reads if repository == null then {} else {repository}
    {
      if repository == null then map[] else repository.latest
    }

    method CreateCheckpoint(c: Creation) returns (r: Result)
      modifies if repository == null then {} else {repository}
      ensures r == CreateResult(Settings(), c)
      ensures Latest() == Recorded(old(Latest()), r)
    {
      if repository == null || strategy.None? {
        return Err(NotInitialized);
      }
      if c.data.None? {
        return Err(DataFailed);
      }
      var checkpoint := c.data.value;
      checkpoint := checkpoint.(own := checkpoint.own.(id := c.id));
      if checkpoint.nested.metadata.None? {
        checkpoint := checkpoint.(nested := checkpoint.nested.(metadata := Some(EMPTY_METADATA)));
      }
      var metadata := checkpoint.nested.metadata.value;
      metadata := metadata.(checkpointType := c.checkpointType);
      checkpoint := checkpoint.(nested := checkpoint.nested.(metadata := Some(metadata)));
      checkpoint := checkpoint.(own := checkpoint.own.(createdAt := c.now));
      checkpoint := checkpoint.(own := checkpoint.own.(updatedAt := checkpoint.own.createdAt));
      var checksum := strategy.value.checksum(checkpoint);
      checkpoint := checkpoint.(own := checkpoint.own.(checksumHash := checksum));
      if c.compressFails {
        return Err(CompressFailed);
      }
      checkpoint := strategy.value.compress(checkpoint);
      var ok := repository.CreateCheckpoint(checkpoint, c.persistFails);
      if !ok {
        return Err(PersistFailed);
      }
      return Ok(checkpoint);
    }

    method GetLatestCheckpoint(job: string, o: Reading) returns (r: Result)
      ensures r == FetchResult(Settings(), Latest(), job, o)
    {
      if repository == null {
        return Err(NotInitialized);
      }
      var found := repository.GetLatestCheckpoint(job, o.loadFails);
      if found.None? {
        return Err(LoadFailed);
      }
      var checkpoint := found.value;
      if strategy.Some? && |checkpoint.own.compressedData| > 0 {
        if o.decompressFails {
          return Err(DecompressFailed);
        }
        checkpoint := strategy.value.decompress(checkpoint);
      }
      return Ok(checkpoint);
    }
  }

  class PerformanceOptimizedCheckpointService {
    const service: DefaultJobCheckpointService
    const cache: Cache<string, CheckpointValue>

    ghost predicate Valid()
      reads cache, cache.nodes
    {
      cache.Valid()
    }

    constructor (repository: Repository?, strategy: Option<Strategy>, cacheSize: int, zero: CheckpointValue)
      ensures Valid() && fresh(service) && fresh(cache) && fresh(cache.nodes)
      ensures service.repository == repository && service.strategy == strategy
      ensures cache.maxSize == cacheSize && cache.contents == []
    {
      service := new DefaultJobCheckpointService(repository, strategy);
      cache := new Cache(cacheSize, "", zero);
    }

    method GetLatestCheckpoint(job: string, o: Reading) returns (r: Result)
      requires Valid()
      modifies cache, cache.nodes
      ensures Valid() && fresh(cache.nodes - old(cache.nodes)) && service.Latest() == old(service.Latest())
      ensures r == CachedFetchResult(service.Settings(), service.Latest(), old(cache.contents), job, o)
      ensures cache.contents == AfterFetch(old(cache.contents), cache.maxSize, job, r)
    {
      hide LruSpec.Get, LruSpec.Put, Lookup, FetchResult;
      MissLeaves(cache.contents, job);
      var cached := cache.Get(job);
      if cached.Some? {
        return Ok(cached.value);
      }
      r := service.GetLatestCheckpoint(job, o);
      if r.Ok? {
        cache.Put(job, r.checkpoint);
      }
    }

    method CreateCheckpoint(c: Creation) returns (r: Result)
      requires Valid()
      modifies cache, cache.nodes, if service.repository == null then {} else {service.repository}
      ensures Valid() && fresh(cache.nodes - old(cache.nodes))
      ensures r == CreateResult(service.Settings(), c)
      ensures service.Latest() == Recorded(old(service.Latest()), r)
      ensures cache.contents == AfterCreate(old(cache.contents), cache.maxSize, r)
    {
      r := service.CreateCheckpoint(c);
      if r.Ok? {
        cache.Put(r.checkpoint.own.jobId, r.checkpoint);
      }
    }
  }

  // ----- what a create stores and what a fetch returns -----

  /** v carries the new ID, the type and one creation time, and is otherwise what the
      strategy made, its checksum apart. */
  predicate Named(data: CheckpointValue, c: Creation, v: CheckpointValue) {
    && v.own.id == c.id && v.own.createdAt == v.own.updatedAt == c.now
    && v.own.jobId == data.own.jobId && v.own.stage == data.own.stage
    && v.own.processedFiles == data.own.processedFiles && v.own.completedChunks == data.own.completedChunks
    && v.own.validatedAt == data.own.validatedAt && v.own.compressedData == data.own.compressedData
    && v.own.isCorrupted == data.own.isCorrupted
    && v.nested.resumePoint == data.nested.resumePoint && v.nested.failureContext == data.nested.failureContext
    && v.nested.metadata.Some? && v.nested.metadata.value.checkpointType == c.checkpointType
    && (data.nested.metadata.Some? ==>
          v.nested.metadata.value == data.nested.metadata.value.(checkpointType := c.checkpointType))
    && (data.nested.metadata.None? ==>
          v.nested.metadata.value == MetadataValue("", c.checkpointType, "", "", "", "", false, 0, map[], map[]))
  }

  /** A create succeeds exactly if there are a repository and a strategy and no step
      fails, and else reports the first step that does.  Then it stores, compressed
      last, a checkpoint that carries the new ID, type and times, and the checksum of
      itself as it was before it had one. */
  lemma CreatedIs(g: Config, c: Creation)
    ensures CreateResult(g, c).Ok? <==>
              g.hasRepository && g.strategy.Some? && c.data.Some? && !c.compressFails && !c.persistFails
    ensures var ready := g.hasRepository && g.strategy.Some?;
            var r := CreateResult(g, c);
            && (r == Err(NotInitialized) <==> !ready)
            && (r == Err(DataFailed) <==> ready && c.data.None?)
            && (r == Err(CompressFailed) <==> ready && c.data.Some? && c.compressFails)
            && (r == Err(PersistFailed) <==> ready && c.data.Some? && !c.compressFails && c.persistFails)
    ensures CreateResult(g, c).Ok? ==>
              exists v ::
                && Named(c.data.value, c, v)
                && v.own.checksumHash ==
                   g.strategy.value.checksum(v.(own := v.own.(checksumHash := c.data.value.own.checksumHash)))
                && CreateResult(g, c).checkpoint == g.strategy.value.compress(v)
  {
    if CreateResult(g, c).Ok? {
      var s, data := g.strategy.value, c.data.value;
      var md := if data.nested.metadata.Some? then data.nested.metadata.value else EMPTY_METADATA;
      var u := CheckpointValue(data.own.(id := c.id, createdAt := c.now, updatedAt := c.now),
                               data.nested.(metadata := Some(md.(checkpointType := c.checkpointType))));
      var v := u.(own := u.own.(checksumHash := s.checksum(u)));
      assert v.(own := v.own.(checksumHash := data.own.checksumHash)) == u;
      assert Named(data, c, v);
    }
  }

  /** A fetch succeeds exactly if there is a stored checkpoint, it can be read, and, with
      compressed data and a strategy, be decompressed; then it is decompressed exactly
      in that case. */
  lemma FetchedIs(g: Config, latest: map<string, CheckpointValue>, job: string, o: Reading)
    ensures FetchResult(g, latest, job, o).Ok? <==>
              && g.hasRepository && job in latest && !o.loadFails
              && (g.strategy.None? || latest[job].own.compressedData == [] || !o.decompressFails)
    ensures var r := FetchResult(g, latest, job, o);
            && (r == Err(NotInitialized) <==> !g.hasRepository)
            && (r == Err(LoadFailed) <==> g.hasRepository && (o.loadFails || job !in latest))
            && (r.Err? ==> r.error in {NotInitialized, LoadFailed, DecompressFailed})
    ensures FetchResult(g, latest, job, o).Ok? ==>
              FetchResult(g, latest, job, o).checkpoint ==
              if g.strategy.None? || latest[job].own.compressedData == [] then latest[job]
              else g.strategy.value.decompress(latest[job])
  {
    var data := if job in latest then latest[job].own.compressedData else [];
    assert data == [] <==> |data| == 0;
  }

  // ----- whole runs -----

  /** What the calls return without a cache. */
  function PlainRun(g: Config, latest: map<string, CheckpointValue>, calls: seq<Call>): seq<Result>
    decreases |calls|
  {
    if calls == [] then []
    else
      match calls[0]
      case Create(c) => [CreateResult(g, c)] + PlainRun(g, Recorded(latest, CreateResult(g, c)), calls[1..])
      case Fetch(job, o) => [FetchResult(g, latest, job, o)] + PlainRun(g, latest, calls[1..])
  }

  /** What they return with a cache that starts with these contents. */
  function CachedRun(g: Config, maxSize: int, latest: map<string, CheckpointValue>, s: Contents,
                     calls: seq<Call>): seq<Result>
    decreases |calls|
  {
    if calls == [] then []
    else
      match calls[0]
      case Create(c) =>
        var r := CreateResult(g, c);
        [r] + CachedRun(g, maxSize, Recorded(latest, r), AfterCreate(s, maxSize, r), calls[1..])
      case Fetch(job, o) =>
        var r := CachedFetchResult(g, latest, s, job, o);
        [r] + CachedRun(g, maxSize, latest, AfterFetch(s, maxSize, job, r), calls[1..])
  }

  /** The newest stored checkpoints after the calls. */
  function LatestAfter(g: Config, latest: map<string, CheckpointValue>, calls: seq<Call>): map<string, CheckpointValue>
    decreases |calls|
  {
    if calls == [] then latest
    else
      var next := if calls[0].Create? then Recorded(latest, CreateResult(g, calls[0].creation)) else latest;
      LatestAfter(g, next, calls[1..])
  }

  /** Decompressing a checkpoint does not change its ID. */
  ghost predicate KeepsIds(g: Config) {
    g.strategy.Some? ==> forall v :: g.strategy.value.decompress(v).own.id == v.own.id
  }

  /** Every cached checkpoint is its job's newest stored one, as stored or as opened. */
  ghost predicate Coherent(g: Config, latest: map<string, CheckpointValue>, s: Contents) {
    forall e :: e in s ==> e.key in latest && (e.value == latest[e.key] || e.value == Opened(g, latest[e.key]))
  }

  /** Every cached checkpoint is what a fetch from the repository would return. */
  ghost predicate Transparent(g: Config, latest: map<string, CheckpointValue>, s: Contents) {
    forall e :: e in s ==> e.key in latest && e.value == Opened(g, latest[e.key])
  }

  lemma {:induction false} WithoutEntries<K, V>(s: seq<Entry<K, V>>, k: K, e: Entry<K, V>)
    requires e in Without(s, k)
    ensures e in s && e.key != k
  {
    if s[0].key == k || e in Without(s[1..], k) {
      WithoutEntries(s[1..], k, e);
    }
  }

  lemma {:induction false} LookupEntry<K, V>(s: seq<Entry<K, V>>, k: K)
    requires Lookup(s, k).Some?
    ensures Entry(k, Lookup(s, k).value) in s
  {
    if s[0].key != k {
      LookupEntry(s[1..], k);
    }
  }

  /** A put brings in its own entry and keeps none of the same key. */
  lemma PutEntries<K, V>(s: seq<Entry<K, V>>, maxSize: int, k: K, v: V, e: Entry<K, V>)
    requires e in LruSpec.Put(s, maxSize, k, v)
    ensures e == Entry(k, v) || (e in s && e.key != k)
  {
    if e in Without(s, k) {
      WithoutEntries(s, k, e);
    }
  }

  lemma GetEntries<K, V>(s: seq<Entry<K, V>>, k: K, e: Entry<K, V>)
    requires e in LruSpec.Get(s, k)
    ensures e in s
  {
    if Lookup(s, k).Some? {
      LookupEntry(s, k);
      if e in Without(s, k) {
        WithoutEntries(s, k, e);
      }
    }
  }

  lemma CreateKeepsCoherence(g: Config, maxSize: int, latest: map<string, CheckpointValue>, s: Contents, r: Result)
    requires Coherent(g, latest, s)
    ensures Coherent(g, Recorded(latest, r), AfterCreate(s, maxSize, r))
  {
    if r.Ok? {
      forall e | e in AfterCreate(s, maxSize, r)
        ensures e == Entry(r.checkpoint.own.jobId, r.checkpoint) || (e in s && e.key != r.checkpoint.own.jobId)
      {
        PutEntries(s, maxSize, r.checkpoint.own.jobId, r.checkpoint, e);
      }
    }
  }

  lemma FetchEntries(g: Config, maxSize: int, latest: map<string, CheckpointValue>, s: Contents, job: string,
                     o: Reading,
                     e: Entry<string, CheckpointValue>)
    requires e in AfterFetch(s, maxSize, job, CachedFetchResult(g, latest, s, job, o))
    ensures e in s || (job in latest && e == Entry(job, Opened(g, latest[job])))
  {
    var r := CachedFetchResult(g, latest, s, job, o);
    if Lookup(s, job).Some? {
      GetEntries(s, job, e);
    } else if r.Ok? {
      PutEntries(s, maxSize, job, r.checkpoint, e);
    }
  }

  lemma FetchKeepsCoherence(g: Config, maxSize: int, latest: map<string, CheckpointValue>, s: Contents, job: string,
                            o: Reading)
    requires Coherent(g, latest, s)
    ensures Coherent(g, latest, AfterFetch(s, maxSize, job, CachedFetchResult(g, latest, s, job, o)))
  {
    forall e | e in AfterFetch(s, maxSize, job, CachedFetchResult(g, latest, s, job, o))
      ensures e in s || (job in latest && e == Entry(job, Opened(g, latest[job])))
    {
      FetchEntries(g, maxSize, latest, s, job, o, e);
    }
  }

  /** The cache may hide a failure to read, never invent one, and never changes the ID. */
  predicate SameCheckpoint(cached: Result, plain: Result) {
    && (plain.Ok? ==> cached.Ok? && cached.checkpoint.own.id == plain.checkpoint.own.id)
    && (cached.Err? ==> plain == cached)
  }

  /** Over any run of creates, failed creates, hits, misses and evictions the cached
      service agrees with the uncached one on every call, and a fetch that returns a
      checkpoint returns the ID of the job's newest stored one. */
  lemma {:induction false} CachedAgreesWithPlain(g: Config, maxSize: int, latest: map<string, CheckpointValue>,
                                                 s: Contents,
                                                 calls: seq<Call>)
    requires KeepsIds(g) && Coherent(g, latest, s)
    ensures var cached, plain := CachedRun(g, maxSize, latest, s, calls), PlainRun(g, latest, calls);
            && |cached| == |plain| == |calls|
            && forall i :: 0 <= i < |calls| ==>
                 match calls[i]
                 case Create(_) => cached[i] == plain[i]
                 case Fetch(job, _) =>
                   && SameCheckpoint(cached[i], plain[i])
                   && (cached[i].Ok? ==>
                         && job in LatestAfter(g, latest, calls[..i])
                         && cached[i].checkpoint.own.id == LatestAfter(g, latest, calls[..i])[job].own.id)
    decreases |calls|
  {
    if calls != [] {
      var cached, plain, rest := CachedRun(g, maxSize, latest, s, calls), PlainRun(g, latest, calls), calls[1..];
      var latest', s' := latest, s;
      match calls[0] {
        case Create(c) =>
          var r := CreateResult(g, c);
          CreateKeepsCoherence(g, maxSize, latest, s, r);
          latest', s' := Recorded(latest, r), AfterCreate(s, maxSize, r);
        case Fetch(job, o) =>
          FetchKeepsCoherence(g, maxSize, latest, s, job, o);
          FetchAgrees(g, latest, s, job, o);
          s' := AfterFetch(s, maxSize, job, CachedFetchResult(g, latest, s, job, o));
      }
      CachedAgreesWithPlain(g, maxSize, latest', s', rest);
      assert cached[1..] == CachedRun(g, maxSize, latest', s', rest) && plain[1..] == PlainRun(g, latest', rest);
      forall i | 0 < i < |calls| ensures LatestAfter(g, latest, calls[..i]) == LatestAfter(g, latest', rest[..i - 1]) {
        assert calls[..i][0] == calls[0] && calls[..i][1..] == rest[..i - 1];
      }
      forall i | 0 < i < |calls|
        ensures cached[i] == cached[1..][i - 1] && plain[i] == plain[1..][i - 1] && calls[i] == rest[i - 1]
      {
      }
      assert calls[..0] == [];
    }
  }

  lemma FetchAgrees(g: Config, latest: map<string, CheckpointValue>, s: Contents, job: string, o: Reading)
    requires KeepsIds(g) && Coherent(g, latest, s)
    ensures SameCheckpoint(CachedFetchResult(g, latest, s, job, o), FetchResult(g, latest, job, o))
    ensures var r := CachedFetchResult(g, latest, s, job, o);
            r.Ok? ==> job in latest && r.checkpoint.own.id == latest[job].own.id
  {
    if Lookup(s, job).Some? {
      LookupEntry(s, job);
    }
  }

  // ----- the whole checkpoint, not only its ID -----

  predicate AllReadsSucceed(calls: seq<Call>) {
    forall i :: 0 <= i < |calls| && calls[i].Fetch? ==> !calls[i].reading.loadFails && !calls[i].reading.decompressFails
  }

  /** A checkpoint that is stored compressed decompresses to itself, if there are any. */
  ghost predicate StoresOpen(g: Config) {
    g.strategy.Some? ==>
      forall data, c {:trigger Stored(g.strategy.value, data, c)} ::
        var v := Stored(g.strategy.value, data, c);
        IsPacked(g, v) ==> g.strategy.value.decompress(v) == v
  }

  /** The two services return the same checkpoints in every field, in every run without
      failing reads, exactly if storing leaves nothing to decompress or the cache has no
      room: a create caches the checkpoint as stored, and a hit does not decompress it. */
  lemma SamePayloadsExactlyIf(g: Config, maxSize: int)
    ensures (forall latest, calls :: AllReadsSucceed(calls) ==>
               CachedRun(g, maxSize, latest, [], calls) == PlainRun(g, latest, calls))
            <==> !g.hasRepository || StoresOpen(g) || maxSize < 1
  {
    if maxSize < 1 {
      forall latest, calls ensures CachedRun(g, maxSize, latest, [], calls) == PlainRun(g, latest, calls) {
        NothingCached(g, maxSize, latest, calls);
      }
    } else if !g.hasRepository || StoresOpen(g) {
      forall latest, calls | AllReadsSucceed(calls)
        ensures CachedRun(g, maxSize, latest, [], calls) == PlainRun(g, latest, calls)
      {
        SamePayloads(g, maxSize, latest, [], calls);
      }
    } else {
      var data, c :| var v := Stored(g.strategy.value, data, c); IsPacked(g, v) && g.strategy.value.decompress(v) != v;
      HitAfterCreate(g, maxSize, data, c);
    }
  }

  lemma {:induction false} NothingCached(g: Config, maxSize: int, latest: map<string, CheckpointValue>,
                                         calls: seq<Call>)
    requires maxSize < 1
    ensures CachedRun(g, maxSize, latest, [], calls) == PlainRun(g, latest, calls)
    decreases |calls|
  {
    if calls != [] {
      match calls[0] {
        case Create(c) => NothingCached(g, maxSize, Recorded(latest, CreateResult(g, c)), calls[1..]);
        case Fetch(_, _) => NothingCached(g, maxSize, latest, calls[1..]);
      }
    }
  }

  lemma {:induction false} SamePayloads(g: Config, maxSize: int, latest: map<string, CheckpointValue>, s: Contents,
                                        calls: seq<Call>)
    requires (!g.hasRepository && s == []) || (StoresOpen(g) && Transparent(g, latest, s) && g.hasRepository)
    requires AllReadsSucceed(calls)
    ensures CachedRun(g, maxSize, latest, s, calls) == PlainRun(g, latest, calls)
    decreases |calls|
  {
    if calls != [] {
      var rest := calls[1..];
      match calls[0] {
        case Create(c) =>
          var r := CreateResult(g, c);
          forall e | e in AfterCreate(s, maxSize, r)
            ensures (e in s && (r.Ok? ==> e.key != r.checkpoint.own.jobId))
                    || (r.Ok? && e == Entry(r.checkpoint.own.jobId, r.checkpoint))
          {
            if r.Ok? { PutEntries(s, maxSize, r.checkpoint.own.jobId, r.checkpoint, e); }
          }
          SamePayloads(g, maxSize, Recorded(latest, r), AfterCreate(s, maxSize, r), rest);
        case Fetch(job, o) =>
          var r := CachedFetchResult(g, latest, s, job, o);
          forall e | e in AfterFetch(s, maxSize, job, r)
            ensures e in s || (job in latest && e == Entry(job, Opened(g, latest[job])))
          {
            FetchEntries(g, maxSize, latest, s, job, o, e);
          }
          if Lookup(s, job).Some? { LookupEntry(s, job); }
          SamePayloads(g, maxSize, latest, AfterFetch(s, maxSize, job, r), rest);
      }
    }
  }

  /** Creating a checkpoint that is stored compressed and fetching it at once: the
      uncached service returns it decompressed, the cached one as it was stored. */
  lemma HitAfterCreate(g: Config, maxSize: int, data: CheckpointValue, c: Creation)
    requires maxSize >= 1 && g.hasRepository && g.strategy.Some?
    ensures var v := Stored(g.strategy.value, data, c);
            var calls := [Create(c.(data := Some(data), compressFails := false, persistFails := false)),
                          Fetch(v.own.jobId, Reading(false, false))];
            && AllReadsSucceed(calls)
            && PlainRun(g, map[], calls) == [Ok(v), Ok(Opened(g, v))]
            && CachedRun(g, maxSize, map[], [], calls) == [Ok(v), Ok(v)]
  {
    var v := Stored(g.strategy.value, data, c);
    var c' := c.(data := Some(data), compressFails := false, persistFails := false);
    var fetch := Fetch(v.own.jobId, Reading(false, false));
    var calls := [Create(c'), fetch];
    assert calls[1..] == [fetch] && [fetch][1..] == [];
    assert CreateResult(g, c') == Ok(v);
    var latest, s := map[v.own.jobId := v], [Entry(v.own.jobId, v)];
    assert Recorded(map[], Ok(v)) == latest && AfterCreate([], maxSize, Ok(v)) == s;
    assert PlainRun(g, latest, [fetch]) == [Ok(Opened(g, v))];
    assert CachedRun(g, maxSize, latest, s, [fetch]) == [Ok(v)];
  }
}
