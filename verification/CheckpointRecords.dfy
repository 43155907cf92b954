/** The checkpoint records as objects: pointers, slices and maps are shared by
    reference, and every record has an abstract value and a footprint, the objects
    that value lives in. */
module CheckpointRecords {
  import opened Common

  /** A value stored under an interface type; only its identity matters here. */
  datatype AnyValue = AnyValue(tag: int)

  datatype ChunkReference = ChunkReference(id: string, fileId: string, index: int, checksum: string, size: int)

  /** A map is a reference; null stands for the nil map, which reads as empty. */
  class MapObject<K(==), V> {
    var entries: map<K, V>

    constructor ()
      ensures entries == map[]
    {
      entries := map[];
    }
  }

  ghost function MapValue<K, V>(m: MapObject?<K, V>): map<K, V>
    reads if m == null then {} else {m}
  {
    if m == null then map[] else m.entries
  }

  ghost function MapCells<K, V>(m: MapObject?<K, V>): set<object> {
    if m == null then {} else {m}
  }

  /** A pointer to a time. */
  class TimeObject {
    var time: int

    constructor (time: int)
      ensures this.time == time
    {
      this.time := time;
    }
  }

  ghost function TimeValue(p: TimeObject?): Option<int>
    reads if p == null then {} else {p}
  {
    if p == null then None else Some(p.time)
  }

  ghost function TimeCells(p: TimeObject?): set<object> {
    if p == null then {} else {p}
  }

  /** A slice: the first elements of an array; NilSlice has none. */
  datatype Slice<T> = NilSlice | SliceOf(data: array<T>, length: nat)

  ghost function Elements<T>(s: Slice<T>): seq<T>
    reads if s.SliceOf? then {s.data} else {}
  {
    if s.SliceOf? && s.length <= s.data.Length then s.data[..s.length] else []
  }

  ghost function SliceCells<T>(s: Slice<T>): set<object> {
    if s.SliceOf? then {s.data} else {}
  }

  /** Slices never reach beyond their array. */
  predicate InBounds<T>(s: Slice<T>) {
    s.SliceOf? ==> s.length <= s.data.Length
  }

  /** s[:0] keeps the array. */
  function Emptied<T>(s: Slice<T>): Slice<T> {
    if s.SliceOf? then SliceOf(s.data, 0) else NilSlice
  }

  /** A fresh copy of a non-empty slice; an empty one leaves what is there. */
  method CopySlice<T>(there: Slice<T>, from: Slice<T>) returns (s: Slice<T>)
    requires InBounds(from) && InBounds(there) && Elements(there) == []
    ensures InBounds(s) && Elements(s) == Elements(from)
    ensures s == there || (s.SliceOf? && fresh(s.data))
  {
    if from.NilSlice? || from.length == 0 {
      return there;
    }
    var elements := from.data[..from.length];
    var data := new T[from.length](i requires 0 <= i < |elements| => elements[i]);
    s := SliceOf(data, from.length);
    assert Elements(s) == elements;
  }

  class ResumePoint {
    var stage: string
    var currentFile: string
    var fileIndex: int
    var chunkIndex: int
    var byteOffset: int
    var lastCommitHash: string
    var processingFlags: MapObject?<string, AnyValue>
    var dependencies: Slice<string>

    ghost function Footprint(): set<object>
      reads this
    {
      {this} + MapCells(processingFlags) + SliceCells(dependencies)
    }

    ghost function Value(): ResumeValue
      reads this, Footprint()
    {
      ResumeValue(stage, currentFile, fileIndex, chunkIndex, byteOffset, lastCommitHash,
                  MapValue(processingFlags), Elements(dependencies))
    }

    ghost predicate Valid()
      reads this
    {
      InBounds(dependencies)
    }

    constructor ()
      ensures Valid() && fresh(Footprint()) && processingFlags != null
    {
      stage, currentFile, fileIndex, chunkIndex, byteOffset, lastCommitHash := "", "", 0, 0, 0, "";
      processingFlags := new MapObject();
      dependencies := NilSlice;
    }
  }

  datatype ResumeValue = ResumeValue(
    stage: string, currentFile: string, fileIndex: int, chunkIndex: int, byteOffset: int,
    lastCommitHash: string, processingFlags: map<string, AnyValue>, dependencies: seq<string>)

  class Metadata {
    var version: string
    var checkpointType: string
    var granularity: string
    var workerId: string
    var workerVersion: string
    var compressionType: string
    var encryptionEnabled: bool
    var dataSize: int
    var validationChecks: MapObject?<string, bool>
    var customProperties: MapObject?<string, AnyValue>

    ghost function Footprint(): set<object>
      reads this
    {
      {this} + MapCells(validationChecks) + MapCells(customProperties)
    }

    ghost function Value(): MetadataValue
      reads this, Footprint()
    {
      MetadataValue(version, checkpointType, granularity, workerId, workerVersion, compressionType,
                    encryptionEnabled, dataSize, MapValue(validationChecks), MapValue(customProperties))
    }

    /** The two maps are different objects. */
    ghost predicate OwnMaps()
      reads this
    {
      validationChecks as object? != customProperties as object? || validationChecks == null
    }

    constructor ()
      ensures OwnMaps() && fresh(Footprint()) && validationChecks != null && customProperties != null
    {
      version, checkpointType, granularity, workerId, workerVersion, compressionType := "", "", "", "", "", "";
      encryptionEnabled, dataSize := false, 0;
      validationChecks := new MapObject();
      customProperties := new MapObject();
    }

    /** The zero value of the record, which has nil maps. */
    constructor Zero()
      ensures OwnMaps() && fresh(Footprint()) && validationChecks == null && customProperties == null
    {
      version, checkpointType, granularity, workerId, workerVersion, compressionType := "", "", "", "", "", "";
      encryptionEnabled, dataSize := false, 0;
      validationChecks, customProperties := null, null;
    }
  }

  datatype MetadataValue = MetadataValue(
    version: string, checkpointType: string, granularity: string, workerId: string, workerVersion: string,
    compressionType: string, encryptionEnabled: bool, dataSize: int,
    validationChecks: map<string, bool>, customProperties: map<string, AnyValue>)

  class FailureContext {
    var failureType: string
    var errorMessage: string
    var errorCode: string
    var stackTrace: string
    var recoveryHints: Slice<string>
    var retryCount: int
    var lastRetryAt: TimeObject?
    var isCritical: bool
    var affectedFiles: Slice<string>
    var systemContext: MapObject?<string, AnyValue>

    ghost function Footprint(): set<object>
      reads this
    {
      {this} + SliceCells(recoveryHints) + TimeCells(lastRetryAt) + SliceCells(affectedFiles) + MapCells(systemContext)
    }

    ghost function Value(): FailureValue
      reads this, Footprint()
    {
      FailureValue(failureType, errorMessage, errorCode, stackTrace, Elements(recoveryHints), retryCount,
                   TimeValue(lastRetryAt), isCritical, Elements(affectedFiles), MapValue(systemContext))
    }

    ghost predicate Valid()
      reads this
    {
      InBounds(recoveryHints) && InBounds(affectedFiles)
    }

    constructor (failureType: string, errorMessage: string, errorCode: string, stackTrace: string,
                 retryCount: int, isCritical: bool)
      ensures this.failureType == failureType && this.errorMessage == errorMessage && this.errorCode == errorCode
      ensures this.stackTrace == stackTrace && this.retryCount == retryCount && this.isCritical == isCritical
      ensures recoveryHints == NilSlice && affectedFiles == NilSlice && lastRetryAt == null && systemContext == null
    {
      this.failureType, this.errorMessage := failureType, errorMessage;
      this.errorCode, this.stackTrace := errorCode, stackTrace;
      this.retryCount, this.isCritical := retryCount, isCritical;
      recoveryHints, affectedFiles, lastRetryAt, systemContext := NilSlice, NilSlice, null, null;
    }
  }

  datatype FailureValue = FailureValue(
    failureType: string, errorMessage: string, errorCode: string, stackTrace: string, recoveryHints: seq<string>,
    retryCount: int, lastRetryAt: Option<int>, isCritical: bool, affectedFiles: seq<string>,
    systemContext: map<string, AnyValue>)

  class JobCheckpoint {
    var id: string
    var jobId: string
    var stage: string
    var resumePoint: ResumePoint?
    var metadata: Metadata?
    var processedFiles: Slice<string>
    var completedChunks: Slice<ChunkReference>
    var failureContext: FailureContext?
    var createdAt: int
    var updatedAt: int
    var validatedAt: TimeObject?
    var checksumHash: string
    var compressedData: Slice<bv8>
    var isCorrupted: bool

    constructor ()
      ensures Valid() && fresh(Footprint()) && OwnCells() == {this}
      ensures resumePoint == null && metadata == null && failureContext == null
    {
      id, jobId, stage, checksumHash := "", "", "", "";
      createdAt, updatedAt, isCorrupted := 0, 0, false;
      resumePoint, metadata, failureContext, validatedAt := null, null, null, null;
      processedFiles, completedChunks, compressedData := NilSlice, NilSlice, NilSlice;
    }

    /** The object itself and what its own slices and pointers to values lead to. */
    ghost function OwnCells(): set<object>
      reads this
    {
      {this} + SliceCells(processedFiles) + SliceCells(completedChunks)
      + TimeCells(validatedAt) + SliceCells(compressedData)
    }

    ghost function Nested(): set<object>
      reads this
    {
      (if resumePoint == null then {} else {resumePoint})
      + (if metadata == null then {} else {metadata})
      + (if failureContext == null then {} else {failureContext})
    }

    /** Everything the nested records lead to. */
    ghost function NestedCells(): set<object>
      reads this, Nested()
    {
      (if resumePoint == null then {} else resumePoint.Footprint())
      + (if metadata == null then {} else metadata.Footprint())
      + (if failureContext == null then {} else failureContext.Footprint())
    }

    ghost function Footprint(): set<object>
      reads this, Nested()
    {
      OwnCells() + NestedCells()
    }

    ghost predicate Valid()
      reads this, Nested()
    {
      OwnValid() && NestedValid()
    }

    ghost predicate OwnValid()
      reads this
    {
      InBounds(processedFiles) && InBounds(completedChunks) && InBounds(compressedData)
    }

    ghost predicate NestedValid()
      reads this, Nested()
    {
      && (resumePoint != null ==> resumePoint.Valid())
      && (failureContext != null ==> failureContext.Valid())
    }

    ghost function Own(): OwnValue
      reads this, OwnCells()
    {
      OwnValue(id, jobId, stage, Elements(processedFiles), Elements(completedChunks), createdAt, updatedAt,
               TimeValue(validatedAt), checksumHash, Elements(compressedData), isCorrupted)
    }

    ghost function Value(): CheckpointValue
      reads this, Nested(), Footprint()
    {
      CheckpointValue(Own(), NestedRecords())
    }

    ghost function NestedRecords(): NestedValue
      reads this, Nested(), NestedCells()
    {
      NestedValue(
        if resumePoint == null then None else Some(resumePoint.Value()),
        if metadata == null then None else Some(metadata.Value()),
        if failureContext == null then None else Some(failureContext.Value()))
    }
  }

  datatype OwnValue = OwnValue(
    id: string, jobId: string, stage: string, processedFiles: seq<string>, completedChunks: seq<ChunkReference>,
    createdAt: int, updatedAt: int, validatedAt: Option<int>, checksumHash: string, compressedData: seq<bv8>,
    isCorrupted: bool)

  datatype NestedValue = NestedValue(
    resumePoint: Option<ResumeValue>, metadata: Option<MetadataValue>, failureContext: Option<FailureValue>)

  datatype CheckpointValue = CheckpointValue(own: OwnValue, nested: NestedValue)

  /** Nothing a record says is left out of its value. */
  lemma EqualResumePoints(a: ResumePoint, b: ResumePoint)
    requires a.Value() == b.Value()
    ensures a.stage == b.stage && a.currentFile == b.currentFile && a.fileIndex == b.fileIndex
    ensures a.chunkIndex == b.chunkIndex && a.byteOffset == b.byteOffset && a.lastCommitHash == b.lastCommitHash
    ensures MapValue(a.processingFlags) == MapValue(b.processingFlags)
    ensures Elements(a.dependencies) == Elements(b.dependencies)
  {
  }

  lemma EqualMetadata(a: Metadata, b: Metadata)
    requires a.Value() == b.Value()
    ensures a.version == b.version && a.checkpointType == b.checkpointType && a.granularity == b.granularity
    ensures a.workerId == b.workerId && a.workerVersion == b.workerVersion && a.compressionType == b.compressionType
    ensures a.encryptionEnabled == b.encryptionEnabled && a.dataSize == b.dataSize
    ensures MapValue(a.validationChecks) == MapValue(b.validationChecks)
    ensures MapValue(a.customProperties) == MapValue(b.customProperties)
  {
  }

  lemma EqualFailureContexts(a: FailureContext, b: FailureContext)
    requires a.Value() == b.Value()
    ensures a.failureType == b.failureType && a.errorMessage == b.errorMessage && a.errorCode == b.errorCode
    ensures a.stackTrace == b.stackTrace && a.retryCount == b.retryCount && a.isCritical == b.isCritical
    ensures Elements(a.recoveryHints) == Elements(b.recoveryHints)
    ensures Elements(a.affectedFiles) == Elements(b.affectedFiles)
    ensures TimeValue(a.lastRetryAt) == TimeValue(b.lastRetryAt)
    ensures MapValue(a.systemContext) == MapValue(b.systemContext)
  {
  }

  /** Checkpoints of equal value agree in every field, and in every nested record. */
  lemma EqualCheckpoints(a: JobCheckpoint, b: JobCheckpoint)
    requires a.Value() == b.Value()
    ensures a.id == b.id && a.jobId == b.jobId && a.stage == b.stage && a.checksumHash == b.checksumHash
    ensures a.createdAt == b.createdAt && a.updatedAt == b.updatedAt && a.isCorrupted == b.isCorrupted
    ensures TimeValue(a.validatedAt) == TimeValue(b.validatedAt)
    ensures Elements(a.processedFiles) == Elements(b.processedFiles)
    ensures Elements(a.completedChunks) == Elements(b.completedChunks)
    ensures Elements(a.compressedData) == Elements(b.compressedData)
    ensures (a.resumePoint == null) == (b.resumePoint == null)
    ensures a.resumePoint != null ==> a.resumePoint.Value() == b.resumePoint.Value()
    ensures (a.metadata == null) == (b.metadata == null)
    ensures a.metadata != null ==> a.metadata.Value() == b.metadata.Value()
    ensures (a.failureContext == null) == (b.failureContext == null)
    ensures a.failureContext != null ==> a.failureContext.Value() == b.failureContext.Value()
  {
    assert a.Own() == b.Own() && a.NestedRecords() == b.NestedRecords();
  }
}
