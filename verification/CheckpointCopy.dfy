/** The deep copy of a cached checkpoint into recycled objects.  The pool hands out
    any object ever put into it, with whatever is left in it, so the recycled objects
    are arguments here and nothing is known about their contents. */
module CheckpointCopy {
  import opened Common
  import opened CheckpointRecords

  /** Deletes every key; the nil map has none. */
  method ClearMap<K(==), V>(m: MapObject?<K, V>)
    modifies if m == null then {} else {m}
    ensures MapValue(m) == map[]
  {
    if m != null {
      var rest := m.entries.Keys;
      while rest != {}
        invariant rest == m.entries.Keys
        decreases |rest|
      {
        var k :| k in rest;
        m.entries := m.entries - {k};
        rest := rest - {k};
      }
    }
  }

  /** Copies every entry; writing to the nil map panics, which !ok stands for. */
  method CopyMap<K(==), V>(into: MapObject?<K, V>, from: MapObject?<K, V>) returns (ok: bool)
    requires into == null || into != from
    requires MapValue(into) == map[]
    modifies if into == null then {} else {into}
    ensures ok <==> into != null || MapValue(from) == map[]
    ensures ok ==> MapValue(into) == MapValue(from)
  {
    if from == null {
      return true;
    }
    var rest := from.entries.Keys;
    while rest != {}
      invariant rest <= from.entries.Keys && from.entries == old(from.entries)
      invariant into == null ==> rest == from.entries.Keys
      invariant into != null ==> into.entries == map k | k in from.entries && k !in rest :: from.entries[k]
      decreases |rest|
    {
      var k :| k in rest;
      if into == null {
        return false;
      }
      into.entries := into.entries[k := from.entries[k]];
      rest := rest - {k};
    }
    ok := true;
  }

  // ----- the pool's resets -----

  method ResetResumePoint(rp: ResumePoint)
    modifies rp, MapCells(rp.processingFlags)
    ensures rp.Value() == ResumeValue("", "", 0, 0, 0, "", map[], [])
    ensures rp.Valid() && rp.processingFlags == old(rp.processingFlags)
    ensures SliceCells(rp.dependencies) == old(SliceCells(rp.dependencies))
  {
    rp.stage := "";
    rp.currentFile := "";
    rp.fileIndex := 0;
    rp.chunkIndex := 0;
    rp.byteOffset := 0;
    rp.lastCommitHash := "";
    ClearMap(rp.processingFlags);
    rp.dependencies := Emptied(rp.dependencies);
  }

  method ResetMetadata(md: Metadata)
    requires md.OwnMaps()
    modifies md, MapCells(md.validationChecks), MapCells(md.customProperties)
    ensures md.Value() == MetadataValue("", "", "", "", "", "", false, 0, map[], map[])
    ensures md.validationChecks == old(md.validationChecks) && md.customProperties == old(md.customProperties)
  {
    md.version := "";
    md.checkpointType := "";
    md.granularity := "";
    md.workerId := "";
    md.workerVersion := "";
    md.compressionType := "";
    md.encryptionEnabled := false;
    md.dataSize := 0;
    ClearMap(md.validationChecks);
    ClearMap(md.customProperties);
  }

  /** The plain fields of a checkpoint. */
  method ResetPlainFields(cp: JobCheckpoint)
    modifies cp`id, cp`jobId, cp`stage, cp`createdAt, cp`updatedAt, cp`checksumHash, cp`isCorrupted
    ensures cp.id == cp.jobId == cp.stage == cp.checksumHash == "" && cp.createdAt == cp.updatedAt == 0
    ensures !cp.isCorrupted
  {
    cp.id := "";
    cp.jobId := "";
    cp.stage := "";
    cp.createdAt := 0;
    cp.updatedAt := 0;
    cp.checksumHash := "";
    cp.isCorrupted := false;
  }

  method ResetCheckpoint(cp: JobCheckpoint)
    modifies cp
    ensures cp.OwnValid() && cp.OwnCells() <= old(cp.OwnCells())
    ensures cp.Own() == OwnValue("", "", "", [], [], 0, 0, None, "", [], false)
    ensures cp.validatedAt == null && cp.compressedData == NilSlice
    ensures cp.resumePoint == null && cp.metadata == null && cp.failureContext == null
  {
    ResetPlainFields(cp);
    cp.resumePoint := null;
    cp.metadata := null;
    cp.processedFiles := Emptied(cp.processedFiles);
    cp.completedChunks := Emptied(cp.completedChunks);
    cp.failureContext := null;
    cp.validatedAt := null;
    cp.compressedData := NilSlice;
  }

  // ----- the copy, part by part -----

  method CopyBasicFields(copied: JobCheckpoint, original: JobCheckpoint)
    requires copied != original && copied.validatedAt == null
    modifies copied`id, copied`jobId, copied`stage, copied`createdAt, copied`updatedAt, copied`checksumHash,
             copied`isCorrupted, copied`validatedAt
    ensures copied.id == original.id && copied.jobId == original.jobId && copied.stage == original.stage
    ensures copied.createdAt == original.createdAt && copied.updatedAt == original.updatedAt
    ensures copied.checksumHash == original.checksumHash && copied.isCorrupted == original.isCorrupted
    ensures TimeValue(copied.validatedAt) == TimeValue(original.validatedAt) && fresh(TimeCells(copied.validatedAt))
  {
    copied.id := original.id;
    copied.jobId := original.jobId;
    copied.stage := original.stage;
    copied.createdAt := original.createdAt;
    copied.updatedAt := original.updatedAt;
    copied.checksumHash := original.checksumHash;
    copied.isCorrupted := original.isCorrupted;
    if original.validatedAt != null {
      copied.validatedAt := new TimeObject(original.validatedAt.time);
    }
  }

  method CopyCompressedData(copied: JobCheckpoint, original: JobCheckpoint)
    requires InBounds(original.compressedData) && copied.compressedData == NilSlice
    modifies copied`compressedData
    ensures InBounds(copied.compressedData) && fresh(SliceCells(copied.compressedData))
    ensures Elements(copied.compressedData) == old(Elements(original.compressedData))
  {
    copied.compressedData := CopySlice(copied.compressedData, original.compressedData);
  }

  method CopyProcessedFiles(copied: JobCheckpoint, original: JobCheckpoint)
    requires InBounds(original.processedFiles)
    requires InBounds(copied.processedFiles) && Elements(copied.processedFiles) == []
    modifies copied`processedFiles
    ensures InBounds(copied.processedFiles)
    ensures fresh(SliceCells(copied.processedFiles) - old(SliceCells(copied.processedFiles)))
    ensures Elements(copied.processedFiles) == old(Elements(original.processedFiles))
  {
    copied.processedFiles := CopySlice(copied.processedFiles, original.processedFiles);
  }

  method CopyCompletedChunks(copied: JobCheckpoint, original: JobCheckpoint)
    requires InBounds(original.completedChunks)
    requires InBounds(copied.completedChunks) && Elements(copied.completedChunks) == []
    modifies copied`completedChunks
    ensures InBounds(copied.completedChunks)
    ensures fresh(SliceCells(copied.completedChunks) - old(SliceCells(copied.completedChunks)))
    ensures Elements(copied.completedChunks) == old(Elements(original.completedChunks))
  {
    copied.completedChunks := CopySlice(copied.completedChunks, original.completedChunks);
  }

  method CopyDataSlices(copied: JobCheckpoint, original: JobCheckpoint)
    requires copied != original && original.Valid() && copied.compressedData == NilSlice
    requires InBounds(copied.processedFiles) && Elements(copied.processedFiles) == []
    requires InBounds(copied.completedChunks) && Elements(copied.completedChunks) == []
    modifies copied`compressedData, copied`processedFiles, copied`completedChunks
    ensures InBounds(copied.processedFiles) && Elements(copied.processedFiles) == Elements(original.processedFiles)
    ensures InBounds(copied.completedChunks) && Elements(copied.completedChunks) == Elements(original.completedChunks)
    ensures InBounds(copied.compressedData) && Elements(copied.compressedData) == Elements(original.compressedData)
    ensures fresh(SliceCells(copied.processedFiles) - old(SliceCells(copied.processedFiles)))
    ensures fresh(SliceCells(copied.completedChunks) - old(SliceCells(copied.completedChunks)))
    ensures fresh(SliceCells(copied.compressedData))
  {
    hide Elements, InBounds;
    CopyCompressedData(copied, original);
    CopyProcessedFiles(copied, original);
    CopyCompletedChunks(copied, original);
  }

  /** The fields of the checkpoint itself. */
  method CopyOwn(copied: JobCheckpoint, original: JobCheckpoint)
    requires copied != original && original.Valid() && copied.validatedAt == null && copied.compressedData == NilSlice
    requires InBounds(copied.processedFiles) && Elements(copied.processedFiles) == []
    requires InBounds(copied.completedChunks) && Elements(copied.completedChunks) == []
    modifies copied
    ensures copied.Own() == original.Own()
    ensures fresh(copied.OwnCells() - old(copied.OwnCells()))
    ensures copied.resumePoint == old(copied.resumePoint) && copied.metadata == old(copied.metadata)
    ensures copied.failureContext == old(copied.failureContext)
    ensures copied.OwnValid()
  {
    hide Elements, InBounds, TimeValue;
    CopyBasicFields(copied, original);
    CopyDataSlices(copied, original);
  }

  /** The plain fields of a resume point. */
  method CopyPosition(recycled: ResumePoint, original: ResumePoint)
    modifies recycled`stage, recycled`currentFile, recycled`fileIndex, recycled`chunkIndex, recycled`byteOffset,
             recycled`lastCommitHash
    ensures recycled.stage == original.stage && recycled.currentFile == original.currentFile
    ensures recycled.fileIndex == original.fileIndex && recycled.chunkIndex == original.chunkIndex
    ensures recycled.byteOffset == original.byteOffset && recycled.lastCommitHash == original.lastCommitHash
  {
    recycled.stage := original.stage;
    recycled.currentFile := original.currentFile;
    recycled.fileIndex := original.fileIndex;
    recycled.chunkIndex := original.chunkIndex;
    recycled.byteOffset := original.byteOffset;
    recycled.lastCommitHash := original.lastCommitHash;
  }

  /** The plain fields of the metadata. */
  method CopyDescription(recycled: Metadata, original: Metadata)
    modifies recycled`version, recycled`checkpointType, recycled`granularity, recycled`workerId, recycled`workerVersion,
             recycled`compressionType, recycled`encryptionEnabled, recycled`dataSize
    ensures recycled.version == original.version && recycled.checkpointType == original.checkpointType
    ensures recycled.granularity == original.granularity && recycled.workerId == original.workerId
    ensures recycled.workerVersion == original.workerVersion && recycled.compressionType == original.compressionType
    ensures recycled.encryptionEnabled == original.encryptionEnabled && recycled.dataSize == original.dataSize
  {
    recycled.version := original.version;
    recycled.checkpointType := original.checkpointType;
    recycled.granularity := original.granularity;
    recycled.workerId := original.workerId;
    recycled.workerVersion := original.workerVersion;
    recycled.compressionType := original.compressionType;
    recycled.encryptionEnabled := original.encryptionEnabled;
    recycled.dataSize := original.dataSize;
  }

  /** Fills a recycled resume point; fails exactly if it was pooled with a nil map
      that would have to be written to. */
  method CopyResumePoint(recycled: ResumePoint, original: ResumePoint) returns (ok: bool)
    requires original.Valid() && recycled.Footprint() !! original.Footprint()
    modifies recycled.Footprint()
    ensures ok <==> old(recycled.processingFlags) != null || original.Value().processingFlags == map[]
    ensures original.Value() == old(original.Value())
    ensures ok ==> recycled.Valid() && recycled.Value() == original.Value()
    ensures recycled.processingFlags == old(recycled.processingFlags)
    ensures forall o :: o in recycled.Footprint() ==> o in old(recycled.Footprint()) || fresh(o)
  {
    ResetResumePoint(recycled);
    CopyPosition(recycled, original);
    ok := CopyMap(recycled.processingFlags, original.processingFlags);
    if ok {
      recycled.dependencies := CopySlice(recycled.dependencies, original.dependencies);
    }
  }

  method CopyMetadata(recycled: Metadata, original: Metadata) returns (ok: bool)
    requires recycled.Footprint() !! original.Footprint()
    requires recycled.OwnMaps()
    modifies recycled.Footprint()
    ensures ok <==>
              && (old(recycled.validationChecks) != null || original.Value().validationChecks == map[])
              && (old(recycled.customProperties) != null || original.Value().customProperties == map[])
    ensures original.Value() == old(original.Value())
    ensures ok ==> recycled.Value() == original.Value()
    ensures recycled.Footprint() == old(recycled.Footprint())
    ensures recycled.validationChecks == old(recycled.validationChecks)
    ensures recycled.customProperties == old(recycled.customProperties)
  {
    ResetMetadata(recycled);
    CopyDescription(recycled, original);
    ok := CopyMetadataMaps(recycled, original);
  }

  method CopyMetadataMaps(recycled: Metadata, original: Metadata) returns (ok: bool)
    requires recycled.Footprint() !! original.Footprint() && recycled.OwnMaps()
    requires MapValue(recycled.validationChecks) == map[] && MapValue(recycled.customProperties) == map[]
    modifies MapCells(recycled.validationChecks), MapCells(recycled.customProperties)
    ensures ok <==>
              && (recycled.validationChecks != null || MapValue(original.validationChecks) == map[])
              && (recycled.customProperties != null || MapValue(original.customProperties) == map[])
    ensures ok ==> MapValue(recycled.validationChecks) == MapValue(original.validationChecks)
    ensures ok ==> MapValue(recycled.customProperties) == MapValue(original.customProperties)
  {
    ok := CopyMap(recycled.validationChecks, original.validationChecks);
    if ok {
      ok := CopyMap(recycled.customProperties, original.customProperties);
    }
  }

  method CopyFailureContext(original: FailureContext) returns (copied: FailureContext)
    requires original.Valid()
    ensures fresh(copied.Footprint()) && copied.Valid() && copied.Value() == original.Value()
  {
    copied := new FailureContext(original.failureType, original.errorMessage, original.errorCode,
                                 original.stackTrace, original.retryCount, original.isCritical);
    if original.lastRetryAt != null {
      copied.lastRetryAt := new TimeObject(original.lastRetryAt.time);
    }
    CopyFailureContextParts(copied, original);
  }

  method CopyFailureContextParts(copied: FailureContext, original: FailureContext)
    requires copied != original && original.Valid()
    requires copied.recoveryHints == NilSlice && copied.affectedFiles == NilSlice && copied.systemContext == null
    modifies copied`recoveryHints, copied`affectedFiles, copied`systemContext
    ensures copied.Valid() && fresh(SliceCells(copied.recoveryHints)) && fresh(SliceCells(copied.affectedFiles))
    ensures fresh(MapCells(copied.systemContext))
    ensures Elements(copied.recoveryHints) == Elements(original.recoveryHints)
    ensures Elements(copied.affectedFiles) == Elements(original.affectedFiles)
    ensures MapValue(copied.systemContext) == MapValue(original.systemContext)
  {
    CopyFailureContextSlices(copied, original);
    CopyFailureContextMaps(copied, original);
  }

  method CopyFailureContextSlices(copied: FailureContext, original: FailureContext)
    requires copied != original && original.Valid()
    requires copied.recoveryHints == NilSlice && copied.affectedFiles == NilSlice
    modifies copied`recoveryHints, copied`affectedFiles
    ensures copied.Valid() && fresh(SliceCells(copied.recoveryHints)) && fresh(SliceCells(copied.affectedFiles))
    ensures Elements(copied.recoveryHints) == Elements(original.recoveryHints)
    ensures Elements(copied.affectedFiles) == Elements(original.affectedFiles)
  {
    var hints := CopySlice(copied.recoveryHints, original.recoveryHints);
    var files := CopySlice(copied.affectedFiles, original.affectedFiles);
    copied.recoveryHints, copied.affectedFiles := hints, files;
  }

  method CopyFailureContextMaps(copied: FailureContext, original: FailureContext)
    requires copied != original && copied.systemContext == null
    modifies copied`systemContext
    ensures fresh(MapCells(copied.systemContext))
    ensures MapValue(copied.systemContext) == MapValue(original.systemContext)
  {
    if original.systemContext != null && |original.systemContext.entries| > 0 {
      var m := new MapObject<string, AnyValue>();
      var ok := CopyMap(m, original.systemContext);
      copied.systemContext := m;
    }
  }

  twostate predicate AllUnchanged(objects: set<object>)
    reads objects
  {
    forall o :: o in objects ==> unchanged(o)
  }

  /** The checkpoint's own part depends on its own fields and cells only. */
  twostate lemma OwnUntouched(cp: JobCheckpoint)
    requires unchanged(cp`id, cp`jobId, cp`stage, cp`processedFiles, cp`completedChunks, cp`createdAt, cp`updatedAt,
                       cp`validatedAt, cp`checksumHash, cp`compressedData, cp`isCorrupted)
    requires forall o :: o in old(cp.OwnCells()) && o != cp ==> unchanged(o)
    ensures cp.Own() == old(cp.Own()) && cp.OwnCells() == old(cp.OwnCells()) && cp.OwnValid() == old(cp.OwnValid())
  {
    assert SliceCells(cp.processedFiles) + SliceCells(cp.completedChunks) <= old(cp.OwnCells());
    assert SliceCells(cp.compressedData) + TimeCells(cp.validatedAt) <= old(cp.OwnCells());
  }

  twostate lemma ResumePointUntouched(rp: ResumePoint)
    requires AllUnchanged(old(rp.Footprint()))
    ensures rp.Footprint() == old(rp.Footprint()) && rp.Value() == old(rp.Value()) && rp.Valid() == old(rp.Valid())
  {
  }

  twostate lemma MetadataUntouched(md: Metadata)
    requires AllUnchanged(old(md.Footprint()))
    ensures md.Footprint() == old(md.Footprint()) && md.Value() == old(md.Value())
  {
  }

  twostate lemma FailureContextUntouched(fc: FailureContext)
    requires AllUnchanged(old(fc.Footprint()))
    ensures fc.Footprint() == old(fc.Footprint()) && fc.Value() == old(fc.Value()) && fc.Valid() == old(fc.Valid())
  {
  }

  /** A checkpoint none of whose parts is written to keeps its value. */
  twostate lemma Untouched(cp: JobCheckpoint)
    requires AllUnchanged(old(cp.Footprint()))
    ensures cp.Footprint() == old(cp.Footprint()) && cp.Value() == old(cp.Value()) && (old(cp.Valid()) ==> cp.Valid())
  {
    hide JobCheckpoint.Own, JobCheckpoint.OwnValid;
    hide ResumePoint.Footprint, ResumePoint.Value, ResumePoint.Valid, Metadata.Footprint, Metadata.Value;
    hide FailureContext.Footprint, FailureContext.Value, FailureContext.Valid;
    OwnUntouched(cp);
    if cp.resumePoint != null {
      ResumePointUntouched(cp.resumePoint);
    }
    if cp.metadata != null {
      MetadataUntouched(cp.metadata);
    }
    if cp.failureContext != null {
      FailureContextUntouched(cp.failureContext);
    }
  }

  method AttachResumePoint(copied: JobCheckpoint, original: JobCheckpoint, rp: ResumePoint, ghost pooled: set<object>)
    returns (ok: bool)
    requires original.resumePoint != null ==>
               original.resumePoint.Valid() && rp.Footprint() !! original.resumePoint.Footprint()
    requires copied.resumePoint == null && copied != original && copied !in pooled && pooled == rp.Footprint()
    modifies copied`resumePoint, pooled
    ensures ok <==> (original.resumePoint != null ==> old(FlagsPresent(rp, original.resumePoint)))
    ensures ok ==> copied.resumePoint == if original.resumePoint == null then null else rp
    ensures ok && original.resumePoint != null ==> rp.Valid() && rp.Value() == old(original.resumePoint.Value())
    ensures rp.processingFlags == old(rp.processingFlags) && fresh(rp.Footprint() - pooled)
  {
    if original.resumePoint == null {
      return true;
    }
    ok := CopyResumePoint(rp, original.resumePoint);
    if ok {
      copied.resumePoint := rp;
    }
  }

  /** The metadata object still holds the maps it held. */
  twostate predicate SameMaps(md: Metadata)
    reads md
  {
    md.validationChecks == old(md.validationChecks) && md.customProperties == old(md.customProperties)
  }

  method AttachMetadata(copied: JobCheckpoint, original: JobCheckpoint, md: Metadata, ghost pooled: set<object>)
    returns (ok: bool)
    requires original.metadata != null ==> md.Footprint() !! original.metadata.Footprint()
    requires copied.metadata == null && copied != original && copied !in pooled && pooled == md.Footprint()
    requires md.OwnMaps()
    modifies copied`metadata, pooled
    ensures ok <==> (original.metadata != null ==> old(ChecksPresent(md, original.metadata)))
    ensures ok ==> copied.metadata == if original.metadata == null then null else md
    ensures ok && original.metadata != null ==> md.Value() == old(original.metadata.Value())
    ensures md.Footprint() == pooled && SameMaps(md)
  {
    if original.metadata == null {
      return true;
    }
    ok := CopyMetadata(md, original.metadata);
    if ok {
      copied.metadata := md;
    }
  }

  method AttachFailureContext(copied: JobCheckpoint, original: JobCheckpoint)
    requires original.failureContext != null ==> original.failureContext.Valid()
    requires copied != original && copied.failureContext == null
    modifies copied`failureContext
    ensures (copied.failureContext == null) == (original.failureContext == null)
    ensures original.failureContext != null ==>
              && copied.failureContext.Valid() && fresh(copied.failureContext.Footprint())
              && copied.failureContext.Value() == old(original.failureContext.Value())
  {
    if original.failureContext != null {
      copied.failureContext := CopyFailureContext(original.failureContext);
    }
  }

  // ----- the whole copy -----

  /** Pooled objects have nothing in common with each other. */
  ghost predicate Pooled(cp: JobCheckpoint, rp: ResumePoint, md: Metadata)
    reads cp, rp, md
  {
    cp.OwnCells() !! rp.Footprint() !! md.Footprint() && md.OwnMaps()
  }

  ghost function PoolCells(cp: JobCheckpoint, rp: ResumePoint, md: Metadata): set<object>
    reads cp, rp, md
  {
    cp.OwnCells() + rp.Footprint() + md.Footprint()
  }

  /** The recycled objects a copy uses.  None of their parts is part of the original:
      released copies are pooled, the cached object itself must never be. */
  ghost predicate Recyclable(cp: JobCheckpoint, rp: ResumePoint, md: Metadata, original: JobCheckpoint)
    reads cp, rp, md, original, original.Nested()
  {
    Pooled(cp, rp, md) && PoolCells(cp, rp, md) !! original.Footprint()
  }

  /** The map of a pooled resume point is there if the copy has to write to it. */
  ghost predicate FlagsPresent(rp: ResumePoint, original: ResumePoint)
    reads rp, original, original.Footprint()
  {
    rp.processingFlags != null || original.Value().processingFlags == map[]
  }

  ghost predicate ChecksPresent(md: Metadata, original: Metadata)
    reads md, original, original.Footprint()
  {
    && (md.validationChecks != null || original.Value().validationChecks == map[])
    && (md.customProperties != null || original.Value().customProperties == map[])
  }

  ghost predicate MapsPresent(rp: ResumePoint, md: Metadata, original: JobCheckpoint)
    reads rp, md, original, original.Nested(), original.Footprint()
  {
    && (original.resumePoint != null ==> FlagsPresent(rp, original.resumePoint))
    && (original.metadata != null ==> ChecksPresent(md, original.metadata))
  }

  /** Resets a pooled checkpoint and copies the fields of the original itself. */
  method CopyOwnInto(copied: JobCheckpoint, original: JobCheckpoint)
    requires copied != original && original.Valid()
    modifies copied
    ensures copied.Own() == original.Own() && copied.OwnValid() && fresh(copied.OwnCells() - old(copied.OwnCells()))
    ensures copied.resumePoint == null && copied.metadata == null && copied.failureContext == null
  {
    ResetCheckpoint(copied);
    CopyOwn(copied, original);
  }

  /** The nested records after the resume point. */
  method CopyRestInto(copied: JobCheckpoint, original: JobCheckpoint, md: Metadata,
                      ghost cells: set<object>, ghost mdCells: set<object>) returns (ok: bool)
    requires original.Valid() && md.OwnMaps() && copied.metadata == null && copied.failureContext == null
    requires cells == original.Footprint() && mdCells == md.Footprint() && cells !! mdCells
    requires copied !in cells + mdCells
    modifies copied`metadata, copied`failureContext, mdCells
    ensures ok <==> (original.metadata != null ==> old(ChecksPresent(md, original.metadata)))
    ensures ok ==> copied.metadata == if original.metadata == null then null else md
    ensures ok && original.metadata != null ==> md.Value() == old(original.metadata.Value())
    ensures md.Footprint() == mdCells && SameMaps(md)
    ensures ok ==> (copied.failureContext == null) == (original.failureContext == null)
    ensures ok && original.failureContext != null ==>
              && copied.failureContext.Valid() && fresh(copied.failureContext.Footprint())
              && copied.failureContext.Value() == old(original.failureContext.Value())
  {
    hide JobCheckpoint.Own, JobCheckpoint.OwnValid;
    hide Metadata.Value, Metadata.OwnMaps, FailureContext.Value;
    hide ResumePoint.Footprint, ResumePoint.Value, ResumePoint.Valid;
    ok := AttachMetadata(copied, original, md, mdCells);
    Untouched(original);
    if ok {
      AttachFailureContext(copied, original);
    }
  }

  lemma PartsWithin(cp: JobCheckpoint)
    ensures cp.resumePoint != null ==> cp.resumePoint.Footprint() <= cp.Footprint()
    ensures cp.metadata != null ==> cp.metadata.Footprint() <= cp.Footprint()
    ensures cp.Nested() <= cp.Footprint()
  {
  }

  /** The copy consists of the recycled objects, as far as the original has such parts. */
  ghost predicate HasParts(copied: JobCheckpoint, original: JobCheckpoint, rp: ResumePoint, md: Metadata)
    reads copied`resumePoint, copied`metadata, original`resumePoint, original`metadata
  {
    && copied.resumePoint == (if original.resumePoint == null then null else rp)
    && copied.metadata == (if original.metadata == null then null else md)
  }

  /** Copies the nested records, into pooled objects where there is a pool. */
  method CopyNestedInto(copied: JobCheckpoint, original: JobCheckpoint, rp: ResumePoint, md: Metadata,
                        ghost cells: set<object>, ghost rpCells: set<object>, ghost mdCells: set<object>)
    returns (ok: bool)
    requires original.Valid() && md.OwnMaps()
    requires cells == original.Footprint() && rpCells == rp.Footprint() && mdCells == md.Footprint()
    requires cells !! rpCells !! mdCells && copied !in cells + rpCells + mdCells && original in cells
    requires copied.resumePoint == null && copied.metadata == null && copied.failureContext == null
    modifies copied`resumePoint, copied`metadata, copied`failureContext, rpCells, mdCells
    ensures ok <==> old(MapsPresent(rp, md, original))
    ensures ok ==> copied.NestedValid() && copied.NestedRecords() == old(original.NestedRecords())
    ensures ok ==> fresh(copied.NestedCells() - rpCells - mdCells)
    ensures rp.processingFlags == old(rp.processingFlags) && fresh(rp.Footprint() - rpCells)
    ensures md.Footprint() == mdCells && SameMaps(md)
    ensures ok ==> HasParts(copied, original, rp, md)
  {
    hide JobCheckpoint.Own, JobCheckpoint.OwnCells, JobCheckpoint.OwnValid, JobCheckpoint.Footprint;
    hide ResumePoint.Value, Metadata.Value, FailureContext.Value, Metadata.Footprint, FailureContext.Footprint;
    PartsWithin(original);
    ok := AttachResumePoint(copied, original, rp, rpCells);
    Untouched(original);
    if ok {
      ok := CopyRestInto(copied, original, md, cells, mdCells);
    }
  }

  /** Copying the nested records leaves the copy's own part as it is. */
  method CopyNestedOnly(copied: JobCheckpoint, original: JobCheckpoint, rp: ResumePoint, md: Metadata,
                        ghost cells: set<object>, ghost rpCells: set<object>, ghost mdCells: set<object>)
    returns (ok: bool)
    requires original.Valid() && md.OwnMaps()
    requires cells == original.Footprint() && rpCells == rp.Footprint() && mdCells == md.Footprint()
    requires cells !! rpCells !! mdCells && copied !in cells + rpCells + mdCells && original in cells
    requires copied.OwnCells() !! rpCells && copied.OwnCells() !! mdCells
    requires copied.resumePoint == null && copied.metadata == null && copied.failureContext == null
    modifies copied`resumePoint, copied`metadata, copied`failureContext, rpCells, mdCells
    ensures ok <==> old(MapsPresent(rp, md, original))
    ensures ok ==> copied.NestedValid() && copied.NestedRecords() == old(original.NestedRecords())
    ensures ok ==> fresh(copied.NestedCells() - rpCells - mdCells)
    ensures rp.processingFlags == old(rp.processingFlags) && fresh(rp.Footprint() - rpCells)
    ensures md.Footprint() == mdCells && SameMaps(md)
    ensures ok ==> HasParts(copied, original, rp, md)
    ensures copied.Own() == old(copied.Own()) && copied.OwnCells() == old(copied.OwnCells())
    ensures copied.OwnValid() == old(copied.OwnValid()) && copied.OwnCells() !! rp.Footprint() !! mdCells
  {
    hide JobCheckpoint.Own, JobCheckpoint.OwnValid, JobCheckpoint.Footprint;
    hide JobCheckpoint.NestedRecords, JobCheckpoint.NestedCells, JobCheckpoint.NestedValid, JobCheckpoint.Nested;
    hide ResumePoint.Footprint, Metadata.Footprint, Metadata.OwnMaps, MapsPresent;
    ghost var own := copied.OwnCells();
    assert forall o :: o in own && o != copied ==> o !in rpCells && o !in mdCells;
    ok := CopyNestedInto(copied, original, rp, md, cells, rpCells, mdCells);
    OwnUntouched(copied);
  }

  /** The copy, with the objects each part lives in at hand. */
  method CopyInto(copied: JobCheckpoint, original: JobCheckpoint, rp: ResumePoint, md: Metadata,
                  ghost cells: set<object>, ghost own: set<object>,
                  ghost rpCells: set<object>, ghost mdCells: set<object>)
    returns (ok: bool)
    requires original.Valid() && md.OwnMaps()
    requires cells == original.Footprint() && own == copied.OwnCells() && rpCells == rp.Footprint()
    requires mdCells == md.Footprint()
    requires own !! cells && own !! rpCells && own !! mdCells && cells !! rpCells && cells !! mdCells
    requires rpCells !! mdCells
    requires copied in own && original in cells && original.Nested() <= cells && rp in rpCells && md in mdCells
    modifies copied, rpCells, mdCells
    ensures ok <==> old(MapsPresent(rp, md, original))
    ensures ok ==> copied.Valid() && copied.Own() == old(original.Own())
    ensures ok ==> copied.NestedRecords() == old(original.NestedRecords())
    ensures ok ==> fresh(copied.OwnCells() - own) && fresh(copied.NestedCells() - rpCells - mdCells)
    ensures fresh(rp.Footprint() - rpCells) && copied.OwnCells() !! rp.Footprint() !! mdCells
    ensures rp.processingFlags == old(rp.processingFlags) && md.Footprint() == mdCells && SameMaps(md)
    ensures ok ==> HasParts(copied, original, rp, md)
    ensures ok ==> copied.OwnCells() !! cells && copied.NestedCells() !! cells
    ensures original.Footprint() == cells && original.Value() == old(original.Value()) && original.Valid()
  {
    hide JobCheckpoint.Own, JobCheckpoint.OwnValid;
    hide JobCheckpoint.NestedRecords, JobCheckpoint.NestedCells, JobCheckpoint.NestedValid, JobCheckpoint.Footprint;
    hide ResumePoint.Footprint, ResumePoint.Value, Metadata.Footprint, Metadata.Value, Metadata.OwnMaps, MapsPresent;
    hide ResumePoint.Valid, FailureContext.Footprint, FailureContext.Value, FailureContext.Valid;
    CopyOwnInto(copied, original);
    assert forall o :: o in cells ==> o != copied;
    Untouched(original);
    label owned:
    ok := CopyNestedOnly(copied, original, rp, md, cells, rpCells, mdCells);
    forall o | o in rp.Footprint() && o !in rpCells ensures fresh(o) {
      assert fresh@owned(o);
    }
    forall o | ok && o in copied.NestedCells() && o !in rpCells && o !in mdCells ensures fresh(o) {
      assert fresh@owned(o);
    }
    Untouched(original);
  }

  lemma FootprintHolds(cp: JobCheckpoint)
    ensures cp in cp.OwnCells() && cp in cp.Footprint() && cp.Nested() <= cp.Footprint()
  {
  }

  lemma FootprintsHold(rp: ResumePoint, md: Metadata)
    ensures rp in rp.Footprint() && md in md.Footprint()
  {
  }

  /** The copy fails exactly if a needed map is missing from the pooled objects.  Else
      it equals the original in every field and nested record, whatever the pooled
      objects held before; it shares no object, slice or map with the original, and
      the original is as it was. */
  method CopyCheckpoint(original: JobCheckpoint, cp: JobCheckpoint, rp: ResumePoint, md: Metadata)
    returns (copied: JobCheckpoint, ok: bool)
    requires original.Valid() && Recyclable(cp, rp, md, original)
    modifies cp, rp.Footprint(), md.Footprint()
    ensures ok <==> old(MapsPresent(rp, md, original))
    ensures original.Valid() && original.Value() == old(original.Value())
    ensures ok ==> copied == cp && copied.Valid() && copied.Value() == original.Value()
    ensures ok ==> copied.Footprint() !! original.Footprint()
    ensures ok ==> fresh(copied.Footprint() - old(PoolCells(cp, rp, md)))
    ensures ok ==> Pooled(cp, rp, md) && fresh(cp.OwnCells() - old(cp.OwnCells()))
    ensures rp.processingFlags == old(rp.processingFlags) && fresh(rp.Footprint() - old(rp.Footprint()))
    ensures SameMaps(md) && md.Footprint() == old(md.Footprint())
    ensures ok ==> HasParts(copied, original, rp, md)
  {
    hide JobCheckpoint.Own, JobCheckpoint.OwnCells, JobCheckpoint.OwnValid;
    hide JobCheckpoint.NestedRecords, JobCheckpoint.NestedCells, JobCheckpoint.NestedValid, JobCheckpoint.Nested;
    hide ResumePoint.Footprint, ResumePoint.Value, Metadata.Footprint, Metadata.Value, MapsPresent;
    copied := cp;
    FootprintHolds(cp);
    FootprintHolds(original);
    FootprintsHold(rp, md);
    ok := CopyInto(copied, original, rp, md, original.Footprint(), cp.OwnCells(), rp.Footprint(), md.Footprint());
  }

  // ----- giving a copy back -----

  /** Takes a copy apart; rp, md and the checkpoint itself go back to their pools. */
  method ReleaseCheckpoint(checkpoint: JobCheckpoint?) returns (rp: ResumePoint?, md: Metadata?)
    modifies if checkpoint == null then {} else {checkpoint}
    ensures checkpoint == null ==> rp == null && md == null
    ensures checkpoint != null ==>
              && rp == old(checkpoint.resumePoint) && md == old(checkpoint.metadata)
              && checkpoint.resumePoint == null && checkpoint.metadata == null
              && checkpoint.OwnCells() == old(checkpoint.OwnCells())
  {
    if checkpoint == null {
      return null, null;
    }
    rp, md := checkpoint.resumePoint, checkpoint.metadata;
    checkpoint.resumePoint, checkpoint.metadata := null, null;
  }

  ghost predicate FullMaps(rp: ResumePoint, md: Metadata)
    reads rp, md
  {
    rp.processingFlags != null && md.validationChecks != null && md.customProperties != null
  }

  lemma CellsAllocated(cp: JobCheckpoint)
    ensures forall o :: o in cp.Footprint() ==> allocated(o)
  {
    hide ResumePoint.Footprint, Metadata.Footprint, FailureContext.Footprint, JobCheckpoint.OwnCells;
    PartsAllocated(cp.resumePoint, cp.metadata, cp.failureContext);
    OwnCellsAllocated(cp);
  }

  lemma OwnCellsAllocated(cp: JobCheckpoint)
    ensures forall o :: o in cp.OwnCells() ==> allocated(o)
  {
  }

  lemma PartsAllocated(rp: ResumePoint?, md: Metadata?, fc: FailureContext?)
    ensures rp != null ==> forall o :: o in rp.Footprint() ==> allocated(o)
    ensures md != null ==> forall o :: o in md.Footprint() ==> allocated(o)
    ensures fc != null ==> forall o :: o in fc.Footprint() ==> allocated(o)
  {
  }

  // ----- what must not be released -----

  /** What a create call does to a checkpoint without metadata. */
  method SetCheckpointType(checkpoint: JobCheckpoint, checkpointType: string)
    modifies checkpoint`metadata, if checkpoint.metadata == null then {} else {checkpoint.metadata}
    ensures old(checkpoint.metadata) != null ==> checkpoint.metadata == old(checkpoint.metadata)
    ensures checkpoint.metadata != null && checkpoint.metadata.checkpointType == checkpointType
    ensures old(checkpoint.metadata) == null ==>
              && fresh(checkpoint.metadata.Footprint()) && checkpoint.metadata.OwnMaps()
              && checkpoint.metadata.validationChecks == null && checkpoint.metadata.customProperties == null
  {
    if checkpoint.metadata == null {
      checkpoint.metadata := new Metadata.Zero();
    }
    checkpoint.metadata.checkpointType := checkpointType;
  }

  /** Creating a checkpoint without metadata and releasing it pools metadata with nil maps. */
  method CreateAndRelease(checkpointType: string) returns (md: Metadata)
    ensures fresh(md.Footprint()) && md.OwnMaps() && md.validationChecks == null && md.customProperties == null
    ensures forall o :: o in md.Footprint() ==> allocated(o)
  {
    var created := new JobCheckpoint();
    SetCheckpointType(created, checkpointType);
    var rp, released := ReleaseCheckpoint(created);
    md := released;
  }

  /** What the pool makes when it is empty. */
  method NewPoolObjects() returns (cp: JobCheckpoint, rp: ResumePoint)
    ensures fresh(cp.OwnCells()) && fresh(rp.Footprint()) && cp.OwnCells() !! rp.Footprint()
  {
    cp := new JobCheckpoint();
    rp := new ResumePoint();
  }

  /** Once such metadata is in the pool, copying any checkpoint whose metadata has an
      entry into it panics. */
  method ReleaseOfCreatedBreaksCopies(original: JobCheckpoint, checkpointType: string) returns (ok: bool)
    requires original.Valid() && original.metadata != null
    requires original.metadata.Value().validationChecks != map[] || original.metadata.Value().customProperties != map[]
    ensures !ok && original.Value() == old(original.Value())
  {
    hide JobCheckpoint.Own, JobCheckpoint.OwnCells, JobCheckpoint.OwnValid;
    hide JobCheckpoint.Footprint, JobCheckpoint.Valid;
    hide ResumePoint.Footprint, Metadata.Footprint, Metadata.OwnMaps, Metadata.Value;
    CellsAllocated(original);
    PartsWithin(original);
    var md := CreateAndRelease(checkpointType);
    label pooled:
    var cp, rp := NewPoolObjects();
    FootprintHolds(cp);
    forall o | o in cp.OwnCells() || o in rp.Footprint() ensures fresh(o) && o !in md.Footprint() {
      assert fresh@pooled(o);
    }
    var copied;
    copied, ok := CopyCheckpoint(original, cp, rp, md);
  }
}
