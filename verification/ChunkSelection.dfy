/** Choosing the chunk that stands for a text match in a file. */
module ChunkSelection {
  import opened Common
  import opened ResultOrder

  /** A chunk as far as the choice reads it; content stands for all other fields. */
  datatype Chunk = Chunk(chunkId: string, startLine: int, endLine: int, content: string)

  /** What candidates are compared by. */
  datatype Fit = Fit(weight: int, span: int, startLine: int, chunkId: string)

  /** Larger weight, then smaller span, then earlier start, then smaller ID. */
  predicate Beats(a: Fit, b: Fit) {
    || a.weight > b.weight
    || (a.weight == b.weight && a.span < b.span)
    || (a.weight == b.weight && a.span == b.span && a.startLine < b.startLine)
    || (a.weight == b.weight && a.span == b.span && a.startLine == b.startLine && StringLess(a.chunkId, b.chunkId))
  }

  lemma BeatsTotal(a: Fit, b: Fit)
    ensures a == b || Beats(a, b) || Beats(b, a)
    ensures !(Beats(a, b) && Beats(b, a))
  {
    StringTotal(a.chunkId, b.chunkId);
  }

  lemma BeatsTransitive(a: Fit, b: Fit, c: Fit)
    requires Beats(a, b) && Beats(b, c)
    ensures Beats(a, c)
  {
    Through(a.chunkId, b.chunkId, c.chunkId);
  }

  function Max(a: int, b: int): int {
    if a > b then a else b
  }

  function Min(a: int, b: int): int {
    if a < b then a else b
  }

  /** The fit of a chunk to a line range, None if they do not overlap. */
  function OverlapFit(c: Chunk, startLine: int, endLine: int): Option<Fit> {
    var from, to := Max(c.startLine, startLine), Min(c.endLine, endLine);
    if to < from then None
    else Some(Fit(to - from + 1, c.endLine - c.startLine + 1, c.startLine, c.chunkId))
  }

  /** The fit of a chunk to a query with the given score; chunks without ID never fit. */
  function QueryFit(c: Chunk, score: Chunk -> int): Option<Fit> {
    if c.chunkId == NIL_ID then None
    else
      var span := c.endLine - c.startLine + 1;
      Some(Fit(score(c), if span <= 0 then 1 else span, c.startLine, c.chunkId))
  }

  predicate LineRangesOverlap(startA: int, endA: int, startB: int, endB: int) {
    startA <= endB && startB <= endA
  }

  /** The lines of a range. */
  function Lines(from: int, to: int): (ls: set<int>)
    ensures forall l :: l in ls <==> from <= l <= to
    ensures |ls| == (if to < from then 0 else to - from + 1)
    decreases if to < from then 0 else to - from + 1
  {
    if to < from then {} else Lines(from, to - 1) + {to}
  }

  /** A chunk fits a range exactly if they share a line, and its weight is the number
      of shared lines. */
  lemma WeightCountsSharedLines(c: Chunk, startLine: int, endLine: int)
    ensures var shared := Lines(c.startLine, c.endLine) * Lines(startLine, endLine);
            match OverlapFit(c, startLine, endLine)
            case None => shared == {}
            case Some(fit) => fit.weight == |shared| > 0 && fit.span == |Lines(c.startLine, c.endLine)|
  {
    var from, to := Max(c.startLine, startLine), Min(c.endLine, endLine);
    assert Lines(c.startLine, c.endLine) * Lines(startLine, endLine) == Lines(from, to);
  }

  /** The two overlap tests agree unless one of the ranges is empty: then the
      scoring test says no, whatever the other says. */
  lemma OverlapTestsAgree(c: Chunk, startLine: int, endLine: int)
    ensures OverlapFit(c, startLine, endLine).Some? <==>
              LineRangesOverlap(c.startLine, c.endLine, startLine, endLine)
              && c.startLine <= c.endLine && startLine <= endLine
  {
  }

  /** Chunk i is the winner: it is eligible, nothing eligible beats it, and it is
      the first with its fit. */
  ghost predicate Wins(fits: seq<Option<Fit>>, i: nat) {
    && i < |fits| && fits[i].Some?
    && (forall j :: 0 <= j < |fits| && fits[j].Some? ==> !Beats(fits[j].value, fits[i].value))
    && (forall j :: 0 <= j < i ==> fits[j] != fits[i])
  }

  ghost predicate Selects(fits: seq<Option<Fit>>, best: Option<nat>) {
    match best
    case None => forall j :: 0 <= j < |fits| ==> fits[j].None?
    case Some(i) => Wins(fits, i)
  }

  lemma SelectsSnoc(fits: seq<Option<Fit>>, best: Option<nat>, f: Option<Fit>)
    requires Selects(fits, best)
    ensures f.None? ==> Selects(fits + [f], best)
    ensures f.Some? && best.Some? && !Beats(f.value, fits[best.value].value) ==> Selects(fits + [f], best)
    ensures f.Some? && (best.None? || Beats(f.value, fits[best.value].value)) ==> Selects(fits + [f], Some(|fits|))
  {
    if f.Some? {
      BeatsTotal(f.value, f.value);
    }
    if f.Some? && best.Some? && Beats(f.value, fits[best.value].value) {
      forall j | 0 <= j < |fits| && fits[j].Some?
        ensures !Beats(fits[j].value, f.value) && fits[j] != f
      {
        if Beats(fits[j].value, f.value) {
          BeatsTransitive(fits[j].value, f.value, fits[best.value].value);
        }
      }
    }
  }

  method SelectBestOverlappingChunk(chunks: seq<Chunk>, startLine: int, endLine: int) returns (best: Option<nat>)
    ensures Selects(OverlapFits(chunks, startLine, endLine), best)
  {
    best := None;
    var bestFit := Fit(0, 0, 0, "");
    ghost var fits := OverlapFits(chunks, startLine, endLine);
    for i := 0 to |chunks|
      invariant Selects(fits[..i], best)
      invariant best.Some? ==> fits[best.value] == Some(bestFit)
    {
      SelectsSnoc(fits[..i], best, fits[i]);
      assert fits[..i + 1] == fits[..i] + [fits[i]];
      var fit := OverlapFit(chunks[i], startLine, endLine);
      if fit.Some? && (best.None? || Beats(fit.value, bestFit)) {
        best, bestFit := Some(i), fit.value;
      }
    }
    assert fits[..|chunks|] == fits;
  }

  method SelectBestPathOnlyChunk(chunks: seq<Chunk>, score: Chunk -> int) returns (best: Option<nat>)
    ensures Selects(QueryFits(chunks, score), best)
  {
    best := None;
    var bestFit := Fit(-1, 0, 0, "");
    ghost var fits := QueryFits(chunks, score);
    for i := 0 to |chunks|
      invariant Selects(fits[..i], best)
      invariant best.Some? ==> fits[best.value] == Some(bestFit)
    {
      SelectsSnoc(fits[..i], best, fits[i]);
      assert fits[..i + 1] == fits[..i] + [fits[i]];
      var fit := QueryFit(chunks[i], score);
      if fit.Some? && (best.None? || Beats(fit.value, bestFit)) {
        best, bestFit := Some(i), fit.value;
      }
    }
    assert fits[..|chunks|] == fits;
  }

  function SharedLines(c: Chunk, startLine: int, endLine: int): nat {
    |Lines(c.startLine, c.endLine) * Lines(startLine, endLine)|
  }

  /** The chosen chunk shares the most lines with the range; among those that share as
      many it has the fewest lines, then the first one starts earliest, then has the
      least ID. */
  lemma BestOverlapIs(chunks: seq<Chunk>, startLine: int, endLine: int, i: nat, d: Chunk)
    requires Selects(OverlapFits(chunks, startLine, endLine), Some(i))
    requires d in chunks
    ensures i < |chunks| && SharedLines(chunks[i], startLine, endLine) > 0
    ensures var c := chunks[i];
            var (m, n) := (SharedLines(c, startLine, endLine), SharedLines(d, startLine, endLine));
            var (l, k) := (|Lines(c.startLine, c.endLine)|, |Lines(d.startLine, d.endLine)|);
            && m >= n
            && (m == n ==> l <= k)
            && (m == n && l == k ==> c.startLine <= d.startLine)
            && (m == n && l == k && c.startLine == d.startLine ==> !StringLess(d.chunkId, c.chunkId))
  {
    hide SharedLines, Lines;
    var fits := OverlapFits(chunks, startLine, endLine);
    var j :| 0 <= j < |chunks| && chunks[j] == d;
    OverlapFitIs(chunks[i], startLine, endLine);
    OverlapFitIs(d, startLine, endLine);
    assert fits[j].Some? ==> !Beats(fits[j].value, fits[i].value);
  }

  lemma OverlapFitIs(c: Chunk, startLine: int, endLine: int)
    ensures match OverlapFit(c, startLine, endLine)
            case None => SharedLines(c, startLine, endLine) == 0
            case Some(fit) =>
              && fit.weight == SharedLines(c, startLine, endLine) > 0
              && fit.span == |Lines(c.startLine, c.endLine)|
              && fit.startLine == c.startLine && fit.chunkId == c.chunkId
  {
    WeightCountsSharedLines(c, startLine, endLine);
  }

  /** The lines of a chunk, an empty or inverted range counting as one. */
  function Length(c: Chunk): nat {
    if |Lines(c.startLine, c.endLine)| == 0 then 1 else |Lines(c.startLine, c.endLine)|
  }

  /** The chosen chunk has an ID, and no chunk with an ID has a higher score; among those
      with the same score it is the shortest, then starts earliest, then has the least
      ID. */
  lemma BestPathOnlyIs(chunks: seq<Chunk>, score: Chunk -> int, i: nat, d: Chunk)
    requires Selects(QueryFits(chunks, score), Some(i))
    requires d in chunks && d.chunkId != NIL_ID
    ensures i < |chunks| && chunks[i].chunkId != NIL_ID
    ensures var c := chunks[i];
            && score(c) >= score(d)
            && (score(c) == score(d) ==> Length(c) <= Length(d))
            && (score(c) == score(d) && Length(c) == Length(d) ==> c.startLine <= d.startLine)
            && (score(c) == score(d) && Length(c) == Length(d) && c.startLine == d.startLine ==>
                  !StringLess(d.chunkId, c.chunkId))
  {
    var fits := QueryFits(chunks, score);
    var j :| 0 <= j < |chunks| && chunks[j] == d;
    assert fits[j].Some? && !Beats(fits[j].value, fits[i].value);
  }

  /** Nothing is chosen exactly if there is no candidate. */
  lemma NothingChosenExactlyIf(chunks: seq<Chunk>, startLine: int, endLine: int, score: Chunk -> int,
                               i: Option<nat>, j: Option<nat>)
    requires Selects(OverlapFits(chunks, startLine, endLine), i) && Selects(QueryFits(chunks, score), j)
    ensures i == None <==> forall d :: d in chunks ==> SharedLines(d, startLine, endLine) == 0
    ensures j == None <==> forall d :: d in chunks ==> d.chunkId == NIL_ID
  {
    hide SharedLines;
    forall d ensures OverlapFit(d, startLine, endLine).None? <==> SharedLines(d, startLine, endLine) == 0 {
      OverlapFitIs(d, startLine, endLine);
    }
    assert forall k :: 0 <= k < |chunks| ==>
                         OverlapFits(chunks, startLine, endLine)[k] == OverlapFit(chunks[k], startLine, endLine);
    assert forall k :: 0 <= k < |chunks| ==> QueryFits(chunks, score)[k] == QueryFit(chunks[k], score);
  }

  function OverlapFits(chunks: seq<Chunk>, startLine: int, endLine: int): seq<Option<Fit>> {
    seq(|chunks|, i requires 0 <= i < |chunks| => OverlapFit(chunks[i], startLine, endLine))
  }

  function QueryFits(chunks: seq<Chunk>, score: Chunk -> int): seq<Option<Fit>> {
    seq(|chunks|, i requires 0 <= i < |chunks| => QueryFit(chunks[i], score))
  }

  /** No two candidates have the same ID. */
  ghost predicate DistinctIds(fits: seq<Option<Fit>>) {
    forall i, j :: 0 <= i < j < |fits| && fits[i].Some? && fits[j].Some? ==>
                     fits[i].value.chunkId != fits[j].value.chunkId
  }

  /** The candidates' fits, each with its chunk's own ID. */
  ghost predicate FitsOf(chunks: seq<Chunk>, fit: Chunk -> Option<Fit>, fits: seq<Option<Fit>>) {
    && |fits| == |chunks|
    && (forall i :: 0 <= i < |chunks| ==> fits[i] == fit(chunks[i]))
    && (forall c :: fit(c).Some? ==> fit(c).value.chunkId == c.chunkId)
  }

  /** Whatever candidates are compared by: if they have distinct IDs, the chosen chunk does not
      depend on their order. */
  lemma SelectionIgnoresOrder(a: seq<Chunk>, b: seq<Chunk>, fit: Chunk -> Option<Fit>,
                              fa: seq<Option<Fit>>, fb: seq<Option<Fit>>, i: Option<nat>, j: Option<nat>)
    requires DistinctIds(fa) && multiset(a) == multiset(b)
    requires FitsOf(a, fit, fa) && FitsOf(b, fit, fb) && Selects(fa, i) && Selects(fb, j)
    ensures i.Some? <==> j.Some?
    ensures i.Some? ==> a[i.value] == b[j.value]
  {
    forall c ensures c in a <==> c in b {
      assert c in multiset(a) <==> c in multiset(b);
    }
    if i.Some? {
      assert a[i.value] in b;
      var k :| 0 <= k < |b| && b[k] == a[i.value];
      assert fb[k] == fa[i.value];
    }
    if j.Some? {
      assert b[j.value] in a;
      var k :| 0 <= k < |a| && a[k] == b[j.value];
      assert fa[k] == fb[j.value];
      BeatsTotal(fa[i.value].value, fa[k].value);
      assert !Beats(fa[k].value, fa[i.value].value);
      var l :| 0 <= l < |b| && b[l] == a[i.value];
      assert fb[l] == fa[i.value];
      assert !Beats(fb[l].value, fb[j.value].value);
      assert a[i.value].chunkId == a[k].chunkId;
    }
  }

  lemma ChoiceIgnoresOrder(a: seq<Chunk>, b: seq<Chunk>, startLine: int, endLine: int, i: Option<nat>, j: Option<nat>)
    requires DistinctIds(OverlapFits(a, startLine, endLine)) && multiset(a) == multiset(b)
    requires Selects(OverlapFits(a, startLine, endLine), i) && Selects(OverlapFits(b, startLine, endLine), j)
    ensures i.Some? <==> j.Some?
    ensures i.Some? ==> a[i.value] == b[j.value]
  {
    SelectionIgnoresOrder(a, b, c => OverlapFit(c, startLine, endLine),
                          OverlapFits(a, startLine, endLine), OverlapFits(b, startLine, endLine), i, j);
  }

  lemma PathOnlyChoiceIgnoresOrder(a: seq<Chunk>, b: seq<Chunk>, score: Chunk -> int, i: Option<nat>, j: Option<nat>)
    requires DistinctIds(QueryFits(a, score)) && multiset(a) == multiset(b)
    requires Selects(QueryFits(a, score), i) && Selects(QueryFits(b, score), j)
    ensures i.Some? <==> j.Some?
    ensures i.Some? ==> a[i.value] == b[j.value]
  {
    SelectionIgnoresOrder(a, b, c => QueryFit(c, score), QueryFits(a, score), QueryFits(b, score), i, j);
  }
}
