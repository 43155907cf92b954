/** The pools of recycled objects at work: any number of cached checkpoints, of copies
    in the hands of callers, and of idle objects, of which a hit may get any or none. */
module CheckpointPools {
  import opened CheckpointCopy
  import opened CheckpointRecords

  /** The idle objects of the three pools, the checkpoints that creates and misses bring,
      those of them that are cached at the moment, and the copies that are out. */
  datatype Pools = Pools(checkpoints: set<JobCheckpoint>, resumePoints: set<ResumePoint>, metadatas: set<Metadata>,
                         stored: set<JobCheckpoint>, cached: set<JobCheckpoint>, live: set<JobCheckpoint>)
  {
    ghost function Records(): set<object> {
      checkpoints + resumePoints + metadatas + stored + live
    }
  }

  /** The record each object belongs to; it belongs to one at most. */
  type Home = map<object, object>

  datatype Owned = Owned(pools: Pools, home: Home) {
    /** All objects of idle records, stored checkpoints and copies. */
    ghost function Cells(): set<object> {
      set o | o in home && home[o] in pools.Records()
    }

    ghost predicate Valid()
      reads *
    {
      && (forall cp :: cp in pools.checkpoints ==> IdleCheckpoint(home, cp))
      && (forall rp :: rp in pools.resumePoints ==> IdleResumePoint(home, rp))
      && (forall md :: md in pools.metadatas ==> IdleMetadata(home, md))
      && (forall c :: c in pools.stored ==> Stored(home, pools.stored, c))
      && (forall c :: c in pools.live ==> Whole(home, c) && Returnable(c))
      && pools.checkpoints !! pools.stored !! pools.live && pools.cached <= pools.stored
    }
  }

  /** Every cell belongs to root. */
  ghost predicate Owns(home: Home, root: object, cells: set<object>) {
    forall o :: o in cells ==> o in home && home[o] == root
  }

  ghost predicate IdleCheckpoint(home: Home, cp: JobCheckpoint)
    reads cp
  {
    Owns(home, cp, cp.OwnCells())
  }

  ghost predicate IdleResumePoint(home: Home, rp: ResumePoint)
    reads rp
  {
    Owns(home, rp, rp.Footprint()) && rp.processingFlags != null
  }

  ghost predicate IdleMetadata(home: Home, md: Metadata)
    reads md
  {
    Owns(home, md, md.Footprint()) && md.OwnMaps() && md.validationChecks != null && md.customProperties != null
  }

  /** Stored checkpoints may share objects with each other, as those made of the same
      progress do, but with nothing else. */
  ghost predicate Stored(home: Home, stored: set<JobCheckpoint>, c: JobCheckpoint)
    reads c, c.Nested()
  {
    c.Valid() && forall o :: o in c.Footprint() ==> o in home && home[o] in stored
  }

  ghost predicate Whole(home: Home, c: JobCheckpoint)
    reads c, c.Nested()
  {
    Owns(home, c, c.Footprint()) && c.Valid()
  }

  /** A copy whose parts can go back to the pools. */
  ghost predicate Returnable(c: JobCheckpoint)
    reads c, c.Nested()
  {
    && (c.resumePoint != null ==> c.resumePoint.processingFlags != null && c.OwnCells() !! c.resumePoint.Footprint())
    && (c.metadata != null ==>
          && c.metadata.OwnMaps() && c.metadata.validationChecks != null && c.metadata.customProperties != null
          && c.OwnCells() !! c.metadata.Footprint())
    && (c.resumePoint != null && c.metadata != null ==> c.resumePoint.Footprint() !! c.metadata.Footprint())
  }

  /** Records with different roots have nothing in common. */
  lemma Apart(home: Home, a: object, cells: set<object>, b: object, others: set<object>)
    requires Owns(home, a, cells) && Owns(home, b, others) && a != b
    ensures cells !! others
  {
    forall o | o in cells ensures o !in others {
    }
  }

  // ----- what is not written to -----

  /** The same objects with the same value. */
  twostate predicate Same(c: JobCheckpoint)
    reads c, c.Nested(), c.Footprint()
  {
    c.Footprint() == old(c.Footprint()) && c.Value() == old(c.Value())
  }

  /** A copy none of whose parts is written to keeps its value and stays returnable. */
  twostate lemma CopyKept(c: JobCheckpoint)
    requires AllUnchanged(old(c.Footprint()))
    ensures c.Footprint() == old(c.Footprint()) && c.Value() == old(c.Value()) && (old(c.Valid()) ==> c.Valid())
    ensures Returnable(c) == old(Returnable(c))
  {
    hide JobCheckpoint.Value, JobCheckpoint.Valid, JobCheckpoint.Footprint, JobCheckpoint.OwnCells;
    hide Returnable, ResumePoint.Footprint, Metadata.Footprint, Metadata.OwnMaps;
    Untouched(c);
    FootprintHolds(c);
    assert forall o :: o in old(c.Nested()) ==> unchanged(o);
    assert unchanged(c);
  }

  /** All stored checkpoints and all copies that are out are as they were. */
  twostate predicate AllSame(p: Pools)
    reads *
  {
    forall c :: c in p.stored + p.live ==> Same(c)
  }

  twostate lemma IdleKept(w: Owned)
    requires old(w.Valid()) && AllUnchanged(w.Cells())
    ensures forall cp :: cp in w.pools.checkpoints ==> IdleCheckpoint(w.home, cp)
    ensures forall rp :: rp in w.pools.resumePoints ==> IdleResumePoint(w.home, rp)
    ensures forall md :: md in w.pools.metadatas ==> IdleMetadata(w.home, md)
  {
    hide Returnable, Whole, Stored;
    forall cp | cp in w.pools.checkpoints ensures IdleCheckpoint(w.home, cp) {
      assert old(IdleCheckpoint(w.home, cp));
      assert cp in w.Cells();
    }
    forall rp | rp in w.pools.resumePoints ensures IdleResumePoint(w.home, rp) {
      assert old(IdleResumePoint(w.home, rp));
      assert rp in w.Cells();
    }
    forall md | md in w.pools.metadatas ensures IdleMetadata(w.home, md) {
      assert old(IdleMetadata(w.home, md));
      assert md in w.Cells();
    }
  }

  /** As long as no cell is written to, everything stays as it is. */
  twostate lemma Kept(w: Owned)
    requires old(w.Valid()) && AllUnchanged(w.Cells())
    ensures w.Valid()
    ensures AllSame(w.pools)
  {
    hide JobCheckpoint.Value, JobCheckpoint.Valid, JobCheckpoint.Footprint, JobCheckpoint.OwnCells;
    hide Returnable, ResumePoint.Footprint, Metadata.Footprint, Metadata.OwnMaps;
    forall c | c in w.pools.stored + w.pools.live
      ensures Same(c) && (c in w.pools.stored ==> Stored(w.home, w.pools.stored, c))
      ensures c in w.pools.live ==> Whole(w.home, c) && Returnable(c)
    {
      assert old(if c in w.pools.stored then Stored(w.home, w.pools.stored, c) else Whole(w.home, c));
      assert forall o :: o in old(c.Footprint()) ==> o in w.Cells();
      CopyKept(c);
    }
    IdleKept(w);
  }

  /** Empty pools beside any stored checkpoints are a start. */
  lemma EmptyPools(stored: set<JobCheckpoint>)
    requires forall c :: c in stored ==> c.Valid()
    ensures exists home :: Owned(Pools({}, {}, {}, stored, {}, {}), home).Valid()
  {
    hide JobCheckpoint.Valid, JobCheckpoint.Footprint;
    var cells := set c, o | c in stored && o in c.Footprint() :: o;
    var home: Home := map o | o in cells :: var c :| c in stored && o in c.Footprint(); c;
    forall c | c in stored ensures Stored(home, stored, c) {
      forall o | o in c.Footprint() ensures o in home && home[o] in stored {
        assert o in cells;
      }
    }
    assert Owned(Pools({}, {}, {}, stored, {}, {}), home).Valid();
  }

  // ----- taking idle objects -----

  /** All objects but those of the stored checkpoints. */
  ghost function Outside(p: Pools, home: Home): set<object> {
    set o | o in home && home[o] !in p.stored
  }

  /** The objects that belong to no record in use. */
  ghost function Loose(p: Pools, home: Home): set<object> {
    set o | o in home && home[o] !in p.stored + p.live
  }

  /** Objects got a home, and maybe idle ones were taken. */
  ghost predicate Taken(w: Owned, w': Owned) {
    && w'.pools.stored == w.pools.stored && w'.pools.cached == w.pools.cached && w'.pools.live == w.pools.live
    && w'.pools.checkpoints <= w.pools.checkpoints && w'.pools.resumePoints <= w.pools.resumePoints
    && w'.pools.metadatas <= w.pools.metadatas
    && forall o :: o in w.home ==> o in w'.home && w'.home[o] == w.home[o]
  }

  lemma ValidTaken(w: Owned, w': Owned)
    requires w.Valid() && Taken(w, w')
    ensures w'.Valid()
  {
    hide JobCheckpoint.Valid, JobCheckpoint.Footprint, JobCheckpoint.OwnCells;
    hide Returnable, ResumePoint.Footprint, Metadata.Footprint, Metadata.OwnMaps;
  }

  method NewCheckpoint(p: Pools, ghost home: Home) returns (cp: JobCheckpoint, ghost home': Home)
    requires Owned(p, home).Valid()
    ensures Taken(Owned(p, home), Owned(p, home')) && Owned(p, home').Valid()
    ensures IdleCheckpoint(home', cp) && cp !in p.Records() && fresh(cp)
    ensures forall o :: o in home' && o !in home ==> fresh(o)
  {
    hide JobCheckpoint.Valid, JobCheckpoint.Footprint;
    cp := new JobCheckpoint();
    home' := home[cp := cp];
    Kept(Owned(p, home));
    ValidTaken(Owned(p, home), Owned(p, home'));
  }

  method NewResumePoint(p: Pools, ghost home: Home) returns (rp: ResumePoint, ghost home': Home)
    requires Owned(p, home).Valid()
    ensures Taken(Owned(p, home), Owned(p, home')) && Owned(p, home').Valid()
    ensures IdleResumePoint(home', rp) && rp !in p.Records() && fresh(rp.Footprint())
    ensures forall o :: o in home' && o !in home ==> fresh(o)
  {
    hide JobCheckpoint.Valid, JobCheckpoint.Footprint;
    rp := new ResumePoint();
    home' := home + map o | o in rp.Footprint() :: rp;
    Kept(Owned(p, home));
    ValidTaken(Owned(p, home), Owned(p, home'));
  }

  method NewMetadata(p: Pools, ghost home: Home) returns (md: Metadata, ghost home': Home)
    requires Owned(p, home).Valid()
    ensures Taken(Owned(p, home), Owned(p, home')) && Owned(p, home').Valid()
    ensures IdleMetadata(home', md) && md !in p.Records() && fresh(md.Footprint())
    ensures forall o :: o in home' && o !in home ==> fresh(o)
  {
    hide JobCheckpoint.Valid, JobCheckpoint.Footprint;
    md := new Metadata();
    home' := home + map o | o in md.Footprint() :: md;
    Kept(Owned(p, home));
    ValidTaken(Owned(p, home), Owned(p, home'));
  }

  /** Any idle checkpoint, or a new one. */
  method TakeCheckpoint(p: Pools, ghost home: Home) returns (cp: JobCheckpoint, p': Pools, ghost home': Home)
    requires Owned(p, home).Valid()
    ensures Taken(Owned(p, home), Owned(p', home')) && Owned(p', home').Valid()
    ensures IdleCheckpoint(home', cp) && cp !in p'.Records() && (cp in Loose(p, home) || fresh(cp))
    ensures forall o :: o in home' && o !in home ==> fresh(o)
  {
    hide Whole, Stored, Returnable;
    var useNew: bool := *;
    if useNew || p.checkpoints == {} {
      cp, home' := NewCheckpoint(p, home);
      p' := p;
    } else {
      cp :| cp in p.checkpoints;
      p', home' := p.(checkpoints := p.checkpoints - {cp}), home;
      ValidTaken(Owned(p, home), Owned(p', home'));
    }
  }

  method TakeResumePoint(p: Pools, needed: bool, ghost home: Home)
    returns (rp: ResumePoint, p': Pools, ghost home': Home)
    requires Owned(p, home).Valid()
    ensures Taken(Owned(p, home), Owned(p', home')) && Owned(p', home').Valid()
    ensures IdleResumePoint(home', rp) && rp !in p'.Records() && ((needed && rp in p.resumePoints) || fresh(rp))
    ensures forall o :: o in rp.Footprint() ==> o in Loose(p, home) || fresh(o)
    ensures forall o :: o in home' && o !in home ==> fresh(o)
  {
    hide Whole, Stored, Returnable;
    var useNew: bool := *;
    if useNew || !needed || p.resumePoints == {} {
      rp, home' := NewResumePoint(p, home);
      p' := p;
    } else {
      rp :| rp in p.resumePoints;
      p', home' := p.(resumePoints := p.resumePoints - {rp}), home;
      ValidTaken(Owned(p, home), Owned(p', home'));
    }
  }

  method TakeMetadata(p: Pools, needed: bool, ghost home: Home)
    returns (md: Metadata, p': Pools, ghost home': Home)
    requires Owned(p, home).Valid()
    ensures Taken(Owned(p, home), Owned(p', home')) && Owned(p', home').Valid()
    ensures IdleMetadata(home', md) && md !in p'.Records() && ((needed && md in p.metadatas) || fresh(md))
    ensures forall o :: o in md.Footprint() ==> o in Loose(p, home) || fresh(o)
    ensures forall o :: o in home' && o !in home ==> fresh(o)
  {
    hide Whole, Stored, Returnable;
    var useNew: bool := *;
    if useNew || !needed || p.metadatas == {} {
      md, home' := NewMetadata(p, home);
      p' := p;
    } else {
      md :| md in p.metadatas;
      p', home' := p.(metadatas := p.metadatas - {md}), home;
      ValidTaken(Owned(p, home), Owned(p', home'));
    }
  }

  // ----- a hit -----

  /** A stored checkpoint has nothing in common with objects that are not its own. */
  lemma CanRecycle(w: Owned, original: JobCheckpoint, cp: JobCheckpoint, rp: ResumePoint, md: Metadata)
    requires w.Valid() && original in w.pools.cached
    requires IdleCheckpoint(w.home, cp) && IdleResumePoint(w.home, rp) && IdleMetadata(w.home, md)
    requires cp !in w.pools.Records()
    ensures Recyclable(cp, rp, md, original) && MapsPresent(rp, md, original)
  {
    hide JobCheckpoint.Valid, JobCheckpoint.Footprint, JobCheckpoint.OwnCells;
    hide ResumePoint.Footprint, Metadata.Footprint, Metadata.OwnMaps, Returnable;
    assert Stored(w.home, w.pools.stored, original);
    Apart(w.home, cp, cp.OwnCells(), rp, rp.Footprint());
    Apart(w.home, cp, cp.OwnCells(), md, md.Footprint());
    Apart(w.home, rp, rp.Footprint(), md, md.Footprint());
    assert cp as object !in w.pools.stored && rp as object !in w.pools.stored && md as object !in w.pools.stored;
  }

  /** The copy into objects that have been taken. */
  method CopyIntoTaken(p: Pools, original: JobCheckpoint, cp: JobCheckpoint, rp: ResumePoint, md: Metadata,
                       ghost home: Home)
    returns (copy: JobCheckpoint, ok: bool)
    requires Owned(p, home).Valid() && original in p.cached
    requires IdleCheckpoint(home, cp) && IdleResumePoint(home, rp) && IdleMetadata(home, md)
    requires cp !in p.Records() && rp !in p.Records() && md !in p.Records()
    modifies cp, rp.Footprint(), md.Footprint()
    ensures ok && copy == cp && copy.Valid() && copy.Value() == old(original.Value()) && Returnable(copy)
    ensures forall o :: o in copy.Footprint() ==> fresh(o) || (o in home && home[o] !in p.Records())
    ensures AllSame(p)
    ensures Owned(p, home).Valid()
  {
    hide JobCheckpoint.Valid, JobCheckpoint.Value, JobCheckpoint.Footprint, JobCheckpoint.OwnCells;
    hide ResumePoint.Footprint, Metadata.Footprint, Metadata.OwnMaps;
    CanRecycle(Owned(p, home), original, cp, rp, md);
    FootprintHolds(cp);
    assert forall o :: o in PoolCells(cp, rp, md) ==> o in home && home[o] !in p.Records();
    assert old(Stored(home, p.stored, original));
    copy, ok := CopyCheckpoint(original, cp, rp, md);
    Kept(Owned(p, home));
  }

  /** The copy of a hit, as one of the records. */
  lemma HandOut(w: Owned, copy: JobCheckpoint, home': Home)
    requires w.Valid() && copy !in w.pools.Records() && copy.Valid() && Returnable(copy)
    requires forall o :: o in copy.Footprint() ==> o !in w.Cells()
    requires home' == w.home + map o | o in copy.Footprint() :: copy
    ensures Owned(w.pools.(live := w.pools.live + {copy}), home').Valid()
  {
    hide JobCheckpoint.Valid, JobCheckpoint.Footprint, JobCheckpoint.OwnCells;
    hide ResumePoint.Footprint, Metadata.Footprint, Metadata.OwnMaps, Returnable;
    assert forall o :: o in w.Cells() ==> o in home' && home'[o] == w.home[o];
    ValidRehomed(w, home');
    assert Whole(home', copy);
  }

  /** Only objects that belong to no record change hands. */
  lemma ValidRehomed(w: Owned, home': Home)
    requires w.Valid() && forall o :: o in w.Cells() ==> o in home' && home'[o] == w.home[o]
    ensures Owned(w.pools, home').Valid()
  {
    hide JobCheckpoint.Valid, JobCheckpoint.Footprint, JobCheckpoint.OwnCells;
    hide Returnable, ResumePoint.Footprint, Metadata.Footprint, Metadata.OwnMaps;
  }

  lemma CachedIsStored(w: Owned, c: JobCheckpoint)
    requires w.Valid() && c in w.pools.cached
    ensures c in w.pools.stored
  {
  }

  /** What the copy of a checkpoint is made of. */
  method TakeParts(p: Pools, original: JobCheckpoint, ghost home: Home)
    returns (cp: JobCheckpoint, rp: ResumePoint, md: Metadata, p': Pools, ghost home': Home)
    requires Owned(p, home).Valid()
    ensures Taken(Owned(p, home), Owned(p', home')) && Owned(p', home').Valid()
    ensures IdleCheckpoint(home', cp) && IdleResumePoint(home', rp) && IdleMetadata(home', md)
    ensures cp !in p'.Records() && rp !in p'.Records() && md !in p'.Records()
    ensures cp in Loose(p, home) || fresh(cp)
    ensures forall o :: o in rp.Footprint() + md.Footprint() ==> o in Loose(p, home) || fresh(o)
    ensures forall o :: o in home' && o !in home ==> fresh(o)
  {
    hide Whole, Stored, Returnable, ResumePoint.Footprint, Metadata.Footprint, JobCheckpoint.OwnCells, Owned.Valid;
    ghost var home1, home2;
    cp, p', home1 := TakeCheckpoint(p, home);
    label one:
    rp, p', home2 := TakeResumePoint(p', original.resumePoint != null, home1);
    label two:
    md, p', home' := TakeMetadata(p', original.metadata != null, home2);
    forall o | o in rp.Footprint() + md.Footprint() ensures o in Loose(p, home) || fresh(o) {
      assert o in home1 || fresh@one(o);
      assert o in home2 || fresh@two(o);
    }
  }

  /** A hit: whatever the pools hold, the copy has the value of the cached checkpoint,
      and neither a stored checkpoint nor a copy that is out changes. */
  method Hit(p: Pools, original: JobCheckpoint, ghost home: Home)
    returns (copy: JobCheckpoint, p': Pools, ghost home': Home)
    requires Owned(p, home).Valid() && original in p.cached
    modifies Loose(p, home)
    ensures Owned(p', home').Valid() && copy !in p.stored + p.live
    ensures p'.stored == p.stored && p'.cached == p.cached && p'.live == p.live + {copy}
    ensures copy.Value() == old(original.Value()) && original in p.stored
    ensures AllSame(p)
    ensures forall o :: o in Outside(p', home') ==> o in Outside(p, home) || fresh(o)
  {
    hide Owned.Valid, Whole, Returnable, ResumePoint.Footprint, Metadata.Footprint;
    hide JobCheckpoint.OwnCells, JobCheckpoint.Footprint, JobCheckpoint.Value, JobCheckpoint.Valid;
    var cp, rp, md, ok;
    ghost var h;
    CachedIsStored(Owned(p, home), original);
    cp, rp, md, p', h := TakeParts(p, original, home);
    Kept(Owned(p, home));
    copy, ok := CopyIntoTaken(p', original, cp, rp, md, h);
    home' := h + map o | o in copy.Footprint() :: copy;
    HandOut(Owned(p', h), copy, home');
    p' := p'.(live := p'.live + {copy});
  }

  // ----- what callers do -----

  /** A copy's own cells and its nested records, side by side. */
  ghost predicate Detached(home: Home, cp: JobCheckpoint, own: set<object>, rp: ResumePoint?, md: Metadata?)
    reads rp, md
  {
    && Owns(home, cp, own)
    && (rp != null ==> Owns(home, cp, rp.Footprint()) && rp.processingFlags != null && own !! rp.Footprint())
    && (md != null ==>
          && Owns(home, cp, md.Footprint()) && own !! md.Footprint()
          && md.OwnMaps() && md.validationChecks != null && md.customProperties != null)
    && (rp != null && md != null ==> rp.Footprint() !! md.Footprint())
  }

  lemma CanDetach(home: Home, copy: JobCheckpoint)
    requires Whole(home, copy) && Returnable(copy)
    ensures Detached(home, copy, copy.OwnCells(), copy.resumePoint, copy.metadata) && copy in home && home[copy] == copy
  {
    hide ResumePoint.Footprint, Metadata.Footprint, Metadata.OwnMaps, FailureContext.Footprint;
  }

  /** A released copy falls into idle records. */
  lemma GiveBack(w: Owned, cp: JobCheckpoint, rp: ResumePoint?, md: Metadata?)
    requires w.Valid() && cp !in w.pools.Records()
    requires Detached(w.home, cp, cp.OwnCells(), rp, md)
    ensures Owned(GivenBack(w.pools, cp, rp, md), Detach(w.home, rp, md)).Valid()
  {
    hide JobCheckpoint.Valid, JobCheckpoint.Footprint, JobCheckpoint.OwnCells;
    hide Returnable, ResumePoint.Footprint, Metadata.Footprint, Metadata.OwnMaps;
    var home' := Detach(w.home, rp, md);
    assert forall o :: o in w.Cells() ==> o in home' && home'[o] == w.home[o];
    ValidRehomed(w, home');
    assert IdleCheckpoint(home', cp);
    assert rp != null ==> IdleResumePoint(home', rp);
    assert md != null ==> IdleMetadata(home', md);
  }

  function GivenBack(p: Pools, cp: JobCheckpoint, rp: ResumePoint?, md: Metadata?): Pools {
    p.(checkpoints := p.checkpoints + {cp},
       resumePoints := p.resumePoints + (if rp == null then {} else {rp}),
       metadatas := p.metadatas + (if md == null then {} else {md}))
  }

  /** The nested records own themselves again. */
  ghost function Detach(home: Home, rp: ResumePoint?, md: Metadata?): Home
    reads if rp == null then {} else {rp}, if md == null then {} else {md}
  {
    home + (if rp == null then map[] else map o | o in rp.Footprint() :: rp)
         + (if md == null then map[] else map o | o in md.Footprint() :: md)
  }

  method TakeApart(p: Pools, copy: JobCheckpoint, ghost home: Home) returns (rp: ResumePoint?, md: Metadata?)
    requires Owned(p, home).Valid() && copy in p.live
    modifies copy
    ensures Owned(p.(live := p.live - {copy}), home).Valid() && copy in home && home[copy] == copy
    ensures rp == old(copy.resumePoint) && md == old(copy.metadata)
    ensures Detached(home, copy, copy.OwnCells(), rp, md) && copy !in p.stored + p.checkpoints
    ensures forall c :: c in p.stored + (p.live - {copy}) ==> Same(c)
  {
    hide Returnable, Whole, Stored, ResumePoint.Footprint, Metadata.Footprint, Metadata.OwnMaps;
    hide JobCheckpoint.OwnCells, JobCheckpoint.Footprint, JobCheckpoint.Value, JobCheckpoint.Valid;
    CanDetach(home, copy);
    rp, md := ReleaseCheckpoint(copy);
    Kept(Owned(p.(live := p.live - {copy}), home));
  }

  /** Releasing a copy gives its parts back; all other records are as they were. */
  method Release(p: Pools, copy: JobCheckpoint, ghost home: Home) returns (p': Pools, ghost home': Home)
    requires Owned(p, home).Valid() && copy in p.live
    modifies copy
    ensures Owned(p', home').Valid() && p'.live == p.live - {copy}
    ensures p'.stored == p.stored && p'.cached == p.cached
    ensures p'.checkpoints == p.checkpoints + {copy}
    ensures p'.resumePoints == p.resumePoints + (if old(copy.resumePoint) == null then {} else {old(copy.resumePoint)})
    ensures p'.metadatas == p.metadatas + (if old(copy.metadata) == null then {} else {old(copy.metadata)})
    ensures forall c :: c in p'.stored + p'.live ==> Same(c)
    ensures Outside(p', home') <= Outside(p, home)
  {
    hide Returnable, Whole, Stored, Owned.Valid, ResumePoint.Footprint, Metadata.Footprint;
    hide JobCheckpoint.OwnCells, JobCheckpoint.Footprint, JobCheckpoint.Value;
    var rest := p.(live := p.live - {copy});
    var rp, md := TakeApart(p, copy, home);
    GiveBack(Owned(rest, home), copy, rp, md);
    p', home' := GivenBack(rest, copy, rp, md), Detach(home, rp, md);
  }

  /** What the slices, maps and times of a checkpoint hold. */
  ghost function Contents(c: JobCheckpoint): set<object>
    reads c, c.Nested()
  {
    c.Footprint() - {c} - c.Nested()
  }

  /** The objects the record leads to stay the same, whatever is written into its other
      fields and into those objects. */
  twostate predicate SamePointers(c: JobCheckpoint)
    reads c, c.Nested()
  {
    && unchanged(c`resumePoint, c`metadata, c`failureContext)
    && unchanged(c`processedFiles, c`completedChunks, c`validatedAt, c`compressedData)
    && (c.resumePoint != null ==> unchanged(c.resumePoint`processingFlags, c.resumePoint`dependencies))
    && (c.metadata != null ==> unchanged(c.metadata`validationChecks, c.metadata`customProperties))
    && (c.failureContext != null ==>
          && unchanged(c.failureContext`recoveryHints, c.failureContext`affectedFiles)
          && unchanged(c.failureContext`lastRetryAt, c.failureContext`systemContext))
  }

  twostate lemma PointersKept(c: JobCheckpoint)
    requires SamePointers(c)
    ensures c.Footprint() == old(c.Footprint()) && c.Valid() == old(c.Valid()) && Returnable(c) == old(Returnable(c))
  {
    assert c.OwnCells() == old(c.OwnCells()) && c.OwnValid() == old(c.OwnValid());
  }

  /** A caller writes anything into its copy: into the plain fields of all its records,
      and into its slices, maps and times. */
  method WriteInto(copy: JobCheckpoint)
    requires copy.Valid() && Returnable(copy)
    modifies copy.Footprint()
    ensures copy.Valid() && Returnable(copy) && copy.Footprint() == old(copy.Footprint())
  {
    hide JobCheckpoint.OwnCells, JobCheckpoint.Footprint, JobCheckpoint.Valid, Returnable;
    FootprintHolds(copy);
    modify Contents(copy), copy`id, copy`jobId, copy`stage, copy`createdAt, copy`updatedAt, copy`checksumHash,
           copy`isCorrupted;
    WriteNested(copy);
    PointersKept(copy);
  }

  /** The plain fields of the nested records. */
  method WriteNested(copy: JobCheckpoint)
    modifies copy.Nested()
    ensures SamePointers(copy)
  {
    if copy.resumePoint != null {
      var rp: ResumePoint := copy.resumePoint;
      modify rp`stage, rp`currentFile, rp`fileIndex, rp`chunkIndex, rp`byteOffset, rp`lastCommitHash;
    }
    if copy.metadata != null {
      var md: Metadata := copy.metadata;
      modify md`version, md`checkpointType, md`granularity, md`workerId, md`workerVersion, md`compressionType,
             md`encryptionEnabled, md`dataSize;
    }
    if copy.failureContext != null {
      var fc: FailureContext := copy.failureContext;
      modify fc`failureType, fc`errorMessage, fc`errorCode, fc`stackTrace, fc`retryCount, fc`isCritical;
    }
  }

  /** A slice a caller makes, of any length and with any elements. */
  method NewSlice<T(0)>() returns (s: Slice<T>)
    ensures InBounds(s) && fresh(SliceCells(s))
  {
    var n: nat :| true;
    var data := new T[n];
    modify data;
    s := SliceOf(data, n);
  }

  /** A caller points one of its slices to a new one, or the time to a new one or none. */
  method ReassignOwn(copy: JobCheckpoint)
    requires copy.OwnValid()
    modifies copy`processedFiles, copy`completedChunks, copy`compressedData, copy`validatedAt
    ensures copy.OwnValid() && fresh(copy.OwnCells() - old(copy.OwnCells()))
  {
    var part: nat, some: bool, time: int := *, *, *;
    match part
    case 0 => copy.processedFiles := NewSlice();
    case 1 => copy.completedChunks := NewSlice();
    case 2 => copy.compressedData := NewSlice();
    case _ => if some { copy.validatedAt := new TimeObject(time); } else { copy.validatedAt := null; }
  }

  method ReassignSlices(copy: JobCheckpoint)
    requires copy.Valid() && Returnable(copy)
    modifies copy
    ensures copy.Valid() && Returnable(copy) && fresh(copy.Footprint() - old(copy.Footprint()))
  {
    hide JobCheckpoint.OwnCells, JobCheckpoint.OwnValid, ResumePoint.Footprint, Metadata.Footprint, Metadata.OwnMaps;
    hide FailureContext.Footprint, ResumePoint.Valid, FailureContext.Valid;
    CellsAllocated(copy);
    ghost var cells, own := copy.Footprint(), copy.OwnCells();
    ReassignOwn(copy);
    assert forall o :: o in copy.OwnCells() && o !in own ==> o !in cells;
  }

  /** A caller points a nested record to a new one or to none. */
  method ReassignResumePoint(copy: JobCheckpoint)
    requires copy.Valid() && Returnable(copy)
    modifies copy`resumePoint
    ensures copy.Valid() && Returnable(copy) && fresh(copy.Footprint() - old(copy.Footprint()))
  {
    hide ResumePoint.Footprint, Metadata.Footprint, Metadata.OwnMaps, FailureContext.Footprint, FailureContext.Valid;
    CellsAllocated(copy);
    ghost var cells := copy.Footprint();
    var some: bool := *;
    if some {
      copy.resumePoint := new ResumePoint();
      assert forall o :: o in copy.resumePoint.Footprint() ==> o !in cells;
    } else {
      copy.resumePoint := null;
    }
  }

  method ReassignMetadata(copy: JobCheckpoint)
    requires copy.Valid() && Returnable(copy)
    modifies copy`metadata
    ensures copy.Valid() && Returnable(copy) && fresh(copy.Footprint() - old(copy.Footprint()))
  {
    hide ResumePoint.Footprint, Metadata.Footprint, Metadata.OwnMaps, FailureContext.Footprint, FailureContext.Valid;
    CellsAllocated(copy);
    ghost var cells := copy.Footprint();
    var some: bool := *;
    if some {
      copy.metadata := new Metadata();
      assert forall o :: o in copy.metadata.Footprint() ==> o !in cells;
    } else {
      copy.metadata := null;
    }
  }

  method ReassignFailureContext(copy: JobCheckpoint)
    requires copy.Valid() && Returnable(copy)
    modifies copy`failureContext
    ensures copy.Valid() && Returnable(copy) && fresh(copy.Footprint() - old(copy.Footprint()))
  {
    hide ResumePoint.Footprint, Metadata.Footprint, Metadata.OwnMaps;
    var some: bool := *;
    copy.failureContext := null;
    if some {
      copy.failureContext := new FailureContext("", "", "", "", 0, false);
    }
  }

  /** One write of a caller into its copy, of any of these kinds. */
  method WriteCopy(copy: JobCheckpoint)
    requires copy.Valid() && Returnable(copy)
    modifies copy.Footprint()
    ensures copy.Valid() && Returnable(copy)
    ensures forall o :: o in copy.Footprint() ==> o in old(copy.Footprint()) || fresh(o)
  {
    hide JobCheckpoint.OwnCells, JobCheckpoint.Footprint, JobCheckpoint.Valid, Returnable;
    FootprintHolds(copy);
    var kind: nat := *;
    match kind
    case 0 => ReassignSlices(copy);
    case 1 => ReassignResumePoint(copy);
    case 2 => ReassignMetadata(copy);
    case 3 => ReassignFailureContext(copy);
    case _ => WriteInto(copy);
  }

  /** Whatever a caller writes into its copy, all other records are as they were. */
  method Edit(p: Pools, copy: JobCheckpoint, ghost home: Home) returns (ghost home': Home)
    requires Owned(p, home).Valid() && copy in p.live
    modifies copy.Footprint()
    ensures Owned(p, home').Valid()
    ensures forall c :: c in p.stored + p.live && c != copy ==> Same(c)
    ensures forall o :: o in Outside(p, home') ==> o in Outside(p, home) || fresh(o)
  {
    hide Returnable, ResumePoint.Footprint, Metadata.Footprint, Metadata.OwnMaps;
    hide JobCheckpoint.OwnCells, JobCheckpoint.Footprint, JobCheckpoint.Value, JobCheckpoint.Valid;
    WriteCopy(copy);
    var rest := p.(live := p.live - {copy});
    Kept(Owned(rest, home));
    home' := home + map o | o in copy.Footprint() :: copy;
    HandOut(Owned(rest, home), copy, home');
    assert p == rest.(live := rest.live + {copy});
  }

  /** A miss returns the object it caches.  Once a caller has released it, a hit on another
      checkpoint can take it, and the cached entry of one job is then the checkpoint of
      the other. */
  method ReleaseOfCachedMixesJobs(cached: JobCheckpoint, other: JobCheckpoint, rp: ResumePoint, md: Metadata)
    requires other.Valid() && Recyclable(cached, rp, md, other) && FullMaps(rp, md)
    modifies cached, rp.Footprint(), md.Footprint()
    ensures cached.Value() == other.Value() == old(other.Value())
  {
    hide JobCheckpoint.OwnCells, JobCheckpoint.Footprint, JobCheckpoint.Value, JobCheckpoint.Valid;
    hide ResumePoint.Footprint, Metadata.Footprint, Metadata.OwnMaps;
    FootprintHolds(cached);
    CellsAllocated(other);
    assert cached in PoolCells(cached, rp, md);
    assert forall o :: o in other.Footprint() ==> o != cached;
    var rp', md' := ReleaseCheckpoint(cached);
    Untouched(other);
    var copied, ok := CopyCheckpoint(other, cached, rp, md);
  }

  // ----- any number of steps -----

  lemma LiveIsOutside(w: Owned, copy: JobCheckpoint)
    requires w.Valid() && copy in w.pools.live
    ensures copy in copy.Footprint() && copy.Footprint() <= Outside(w.pools, w.home) && copy !in w.pools.stored
  {
    hide JobCheckpoint.OwnCells, JobCheckpoint.Footprint, JobCheckpoint.Valid;
    FootprintHolds(copy);
    assert Whole(w.home, copy);
  }

  /** The copies nobody has written to, with the checkpoint each is a copy of. */
  type Intact = map<JobCheckpoint, JobCheckpoint>

  /** The stored checkpoints have the given values, and so have the copies of each, unless
      they have been edited. */
  ghost predicate Faithful(p: Pools, values: map<JobCheckpoint, CheckpointValue>, intact: Intact,
                           edited: set<JobCheckpoint>)
    reads *
  {
    && values.Keys == p.stored && p.live == intact.Keys + edited
    && (forall c :: c in p.stored ==> c.Value() == values[c])
    && forall c :: c in intact ==> intact[c] in p.stored && c.Value() == values[intact[c]]
  }

  method ServeHit(q: Pools, original: JobCheckpoint, ghost home0: Home, ghost values: map<JobCheckpoint,
                  CheckpointValue>,
                  ghost intact0: Intact, ghost edited0: set<JobCheckpoint>)
    returns (p: Pools, ghost home: Home, ghost intact: Intact, ghost edited: set<JobCheckpoint>)
    requires Owned(q, home0).Valid() && Faithful(q, values, intact0, edited0) && original in q.cached
    modifies Outside(q, home0)
    ensures Owned(p, home).Valid() && p.stored == q.stored && Faithful(p, values, intact, edited)
    ensures forall o :: o in Outside(p, home) ==> o in Outside(q, home0) || fresh(o)
  {
    hide Owned.Valid, Whole, Returnable, ResumePoint.Footprint, Metadata.Footprint;
    hide JobCheckpoint.OwnCells, JobCheckpoint.Footprint, JobCheckpoint.Value, JobCheckpoint.Valid;
    var copy;
    copy, p, home := Hit(q, original, home0);
    intact, edited := intact0[copy := original], edited0;
  }

  method ServeRelease(q: Pools, copy: JobCheckpoint, ghost home0: Home, ghost values: map<JobCheckpoint,
                      CheckpointValue>,
                      ghost intact0: Intact, ghost edited0: set<JobCheckpoint>)
    returns (p: Pools, ghost home: Home, ghost intact: Intact, ghost edited: set<JobCheckpoint>)
    requires Owned(q, home0).Valid() && Faithful(q, values, intact0, edited0) && copy in q.live
    modifies Outside(q, home0)
    ensures Owned(p, home).Valid() && p.stored == q.stored && Faithful(p, values, intact, edited)
    ensures forall o :: o in Outside(p, home) ==> o in Outside(q, home0) || fresh(o)
  {
    hide Owned.Valid, Whole, Returnable, ResumePoint.Footprint, Metadata.Footprint;
    hide JobCheckpoint.OwnCells, JobCheckpoint.Footprint, JobCheckpoint.Value, JobCheckpoint.Valid;
    LiveIsOutside(Owned(q, home0), copy);
    p, home := Release(q, copy, home0);
    intact, edited := intact0 - {copy}, edited0 - {copy};
    assert forall c :: c in p.stored || c in intact ==> c in p.stored + p.live;
  }

  method ServeEdit(q: Pools, copy: JobCheckpoint, ghost home0: Home, ghost values: map<JobCheckpoint, CheckpointValue>,
                   ghost intact0: Intact, ghost edited0: set<JobCheckpoint>)
    returns (p: Pools, ghost home: Home, ghost intact: Intact, ghost edited: set<JobCheckpoint>)
    requires Owned(q, home0).Valid() && Faithful(q, values, intact0, edited0) && copy in q.live
    modifies Outside(q, home0)
    ensures Owned(p, home).Valid() && p.stored == q.stored && Faithful(p, values, intact, edited)
    ensures forall o :: o in Outside(p, home) ==> o in Outside(q, home0) || fresh(o)
  {
    hide Owned.Valid, Whole, Returnable, ResumePoint.Footprint, Metadata.Footprint;
    hide JobCheckpoint.OwnCells, JobCheckpoint.Footprint, JobCheckpoint.Value, JobCheckpoint.Valid;
    LiveIsOutside(Owned(q, home0), copy);
    home := Edit(q, copy, home0);
    p, intact, edited := q, intact0 - {copy}, edited0 + {copy};
    assert forall c :: c in p.stored || c in intact ==> c in q.stored + q.live && c != copy;
  }

  /** A create or a miss caches a checkpoint, or the cache evicts one. */
  method Recache(p: Pools, ghost home: Home) returns (p': Pools)
    requires Owned(p, home).Valid()
    ensures Owned(p', home).Valid() && p' == p.(cached := p'.cached)
  {
    hide Whole, Stored, Returnable, IdleCheckpoint, IdleResumePoint, IdleMetadata;
    p' := p;
    var evict: bool := *;
    if evict && p.cached != {} {
      var c :| c in p.cached;
      p' := p.(cached := p.cached - {c});
    } else if p.stored != {} {
      var c :| c in p.stored;
      p' := p.(cached := p.cached + {c});
    }
  }

  lemma KeepsFaith(p: Pools, p': Pools, values: map<JobCheckpoint, CheckpointValue>, intact: Intact,
                   edited: set<JobCheckpoint>)
    requires p' == p.(cached := p'.cached) && Faithful(p, values, intact, edited)
    ensures Faithful(p', values, intact, edited)
  {
  }

  /** One step of any kind. */
  method ServeOne(q: Pools, ghost home0: Home, ghost values: map<JobCheckpoint, CheckpointValue>,
                  ghost intact0: Intact, ghost edited0: set<JobCheckpoint>)
    returns (p: Pools, ghost home: Home, ghost intact: Intact, ghost edited: set<JobCheckpoint>)
    requires Owned(q, home0).Valid() && Faithful(q, values, intact0, edited0)
    modifies Outside(q, home0)
    ensures Owned(p, home).Valid() && p.stored == q.stored && Faithful(p, values, intact, edited)
    ensures forall o :: o in Outside(p, home) ==> o in Outside(q, home0) || fresh(o)
  {
    hide Owned.Valid, Faithful;
    var hit: bool, release: bool, edit: bool := *, *, *;
    if hit && q.cached != {} {
      var original :| original in q.cached;
      p, home, intact, edited := ServeHit(q, original, home0, values, intact0, edited0);
    } else if release && q.live != {} {
      var copy :| copy in q.live;
      p, home, intact, edited := ServeRelease(q, copy, home0, values, intact0, edited0);
    } else if edit && q.live != {} {
      var copy :| copy in q.live;
      p, home, intact, edited := ServeEdit(q, copy, home0, values, intact0, edited0);
    } else {
      p := Recache(q, home0);
      home, intact, edited := home0, intact0, edited0;
      KeepsFaith(q, p, values, intact, edited);
    }
  }

  /** Hits, releases, writes by callers, caching and evictions in any order, from pools
      that hold anything: no stored checkpoint ever changes, and a copy that its caller has
      not written to has the value its original had at the start, and still has. */
  method Serve(start: Pools, ghost home0: Home, steps: nat)
    returns (p: Pools, ghost home: Home, ghost intact: Intact, ghost edited: set<JobCheckpoint>)
    requires Owned(start, home0).Valid() && start.live == {}
    modifies Outside(start, home0)
    ensures Owned(p, home).Valid() && p.stored == start.stored && p.live == intact.Keys + edited
    ensures forall c :: c in start.stored ==> c.Value() == old(c.Value())
    ensures forall c :: c in intact ==> intact[c] in start.stored && c.Value() == intact[c].Value()
  {
    hide Owned.Valid, JobCheckpoint.Value;
    ghost var values := map c | c in start.stored :: c.Value();
    p, home, intact, edited := start, home0, map[], {};
    for n := 0 to steps
      invariant Owned(p, home).Valid() && p.stored == start.stored && Faithful(p, values, intact, edited)
      invariant forall o :: o in Outside(p, home) ==> o in Outside(start, home0) || fresh(o)
    {
      label before:
      ghost var was := Outside(p, home);
      p, home, intact, edited := ServeOne(p, home, values, intact, edited);
      forall o | o in Outside(p, home) ensures o in Outside(start, home0) || fresh(o) {
        assert o in was || fresh@before(o);
      }
    }
  }
}
