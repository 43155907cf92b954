/** Reciprocal rank fusion of semantic and text search results. */
module RankFusion {
  import opened Common
  import opened ResultOrder

  datatype EngineHit = EngineHit(result: SearchResult, rank: nat)

  datatype Merged = Merged(semantic: Option<EngineHit>, text: Option<EngineHit>, hasSemantic: bool, hasText: bool)

  const EMPTY := Merged(None, None, false, false)

  function KeyOf(r: SearchResult): string {
    if r.chunkId != NIL_ID then "chunk:" + r.chunkId
    else if r.repository != "" then "file:" + r.repository + "|" + r.filePath
    else "file:" + r.filePath
  }

  function RrfScore(rank: nat): real {
    1.0 / (60.0 + rank as real)
  }

  function HitScore(h: Option<EngineHit>): real {
    if h.Some? then RrfScore(h.value.rank) else 0.0
  }

  function SourceEngine(hasSemantic: bool, hasText: bool): string {
    if hasSemantic && hasText then "both" else if hasSemantic then "embedding" else "zoekt"
  }

  const NO_RESULT := SearchResult(NIL_ID, "", "", 0, 0, "", "", 0.0, 0.0)

  /** The listed result of a merged entry. */
  function Build(m: Merged): SearchResult {
    var payload := if m.semantic.Some? then m.semantic.value.result
                   else if m.text.Some? then m.text.value.result else NO_RESULT;
    var score := HitScore(m.semantic) + HitScore(m.text);
    payload.(sourceEngine := SourceEngine(m.hasSemantic, m.hasText), engineScore := score, similarityScore := score)
  }

  // ----- the declarative side -----

  /** The position, counted from 1, at which k first occurs among the keys. */
  function FirstRank(ks: seq<string>, k: string): (n: Option<nat>)
    ensures n.Some? <==> k in ks
    ensures n.Some? ==> 1 <= n.value <= |ks| && ks[n.value - 1] == k && k !in ks[..n.value - 1]
  {
    if k !in ks then None
    else if ks[0] == k then Some(1)
    else
      var m := FirstRank(ks[1..], k).value;
      assert ks[..m] == [ks[0]] + ks[1..][..m - 1];
      Some(m + 1)
  }

  function KeysOf(rs: seq<SearchResult>): seq<string> {
    seq(|rs|, i requires 0 <= i < |rs| => KeyOf(rs[i]))
  }

  /** The first hit with key k. */
  function FirstHit(rs: seq<SearchResult>, k: string): Option<EngineHit> {
    var n := FirstRank(KeysOf(rs), k);
    if n.Some? then Some(EngineHit(rs[n.value - 1], n.value)) else None
  }

  function MergedOf(sem: seq<SearchResult>, txt: seq<SearchResult>, k: string): Merged {
    Merged(FirstHit(sem, k), FirstHit(txt, k), k in KeysOf(sem), k in KeysOf(txt))
  }

  /** Key k occurs in one of the lists. */
  predicate Occurs(sem: seq<SearchResult>, txt: seq<SearchResult>, k: string) {
    k in KeysOf(sem) || k in KeysOf(txt)
  }

  /** The one result key k is listed with: the best semantic hit if there is one,
      else the best text hit, scored by the first ranks in both lists, and tagged
      with the engines that found it. */
  function Fused(sem: seq<SearchResult>, txt: seq<SearchResult>, k: string): SearchResult {
    Build(MergedOf(sem, txt, k))
  }

  /** The listing is strictly sorted and has exactly one result for each key. */
  ghost predicate IsRanking(sem: seq<SearchResult>, txt: seq<SearchResult>, out: seq<SearchResult>) {
    && StrictlySorted(out)
    && (forall r :: r in out ==> Occurs(sem, txt, KeyOf(r)) && r == Fused(sem, txt, KeyOf(r)))
    && (forall k :: Occurs(sem, txt, k) ==> Fused(sem, txt, k) in out && KeyOf(Fused(sem, txt, k)) == k)
  }

  lemma FusedKey(sem: seq<SearchResult>, txt: seq<SearchResult>, k: string)
    requires Occurs(sem, txt, k)
    ensures KeyOf(Fused(sem, txt, k)) == k
  {
    var m := MergedOf(sem, txt, k);
    var hit := if m.semantic.Some? then m.semantic.value else m.text.value;
    var rs := if m.semantic.Some? then sem else txt;
    assert KeysOf(rs)[hit.rank - 1] == KeyOf(hit.result) == k;
    SameFile(Build(m), hit.result);
  }

  /** The key depends on nothing but the chunk, the repository and the path. */
  lemma SameFile(a: SearchResult, b: SearchResult)
    requires a.chunkId == b.chunkId && a.repository == b.repository && a.filePath == b.filePath
    ensures KeyOf(a) == KeyOf(b)
  {
  }

  // ----- which results are the same hit -----

  /** Two results of one chunk, or, both without a chunk, of one file. */
  predicate SameHit(a: SearchResult, b: SearchResult) {
    if a.chunkId != NIL_ID || b.chunkId != NIL_ID then a.chunkId == b.chunkId
    else a.repository == b.repository && a.filePath == b.filePath
  }

  /** Two different files that read alike once the repository and the path are joined by
      a bar: b's repository, or the repository and a bar, takes up a's path further. */
  predicate NamedAlike(a: SearchResult, b: SearchResult) {
    && a.chunkId == NIL_ID && b.chunkId == NIL_ID && b.repository != ""
    && if a.repository == "" then a.filePath == b.repository + "|" + b.filePath
       else
         var n := |a.repository|;
         && |b.repository| > n && b.repository[..n] == a.repository && b.repository[n] == '|'
         && a.filePath == b.repository[n + 1..] + "|" + b.filePath
  }

  predicate Merges(a: SearchResult, b: SearchResult) {
    SameHit(a, b) || NamedAlike(a, b) || NamedAlike(b, a)
  }

  /** Results are merged if and only if they are the same hit, or two files named alike. */
  lemma MergedExactlyIf(a: SearchResult, b: SearchResult)
    ensures KeyOf(a) == KeyOf(b) <==> Merges(a, b)
  {
    if a.chunkId != NIL_ID || b.chunkId != NIL_ID {
      ChunkKeys(a, b);
    } else {
      FileKeys(a, b);
    }
  }

  lemma AfterPrefix(p: string, a: string, b: string)
    ensures p + a == p + b <==> a == b
  {
    assert (p + a)[|p|..] == a && (p + b)[|p|..] == b;
  }

  lemma ChunkKeys(a: SearchResult, b: SearchResult)
    requires a.chunkId != NIL_ID || b.chunkId != NIL_ID
    ensures KeyOf(a) == KeyOf(b) <==> a.chunkId == b.chunkId
  {
    AfterPrefix("chunk:", a.chunkId, b.chunkId);
    if a.chunkId == NIL_ID || b.chunkId == NIL_ID {
      assert KeyOf(a)[0] != KeyOf(b)[0];
    }
  }

  function FileName(r: SearchResult): string {
    if r.repository != "" then r.repository + "|" + r.filePath else r.filePath
  }

  lemma FileKeys(a: SearchResult, b: SearchResult)
    requires a.chunkId == b.chunkId == NIL_ID
    ensures KeyOf(a) == KeyOf(b) <==> Merges(a, b)
  {
    assert forall r: SearchResult ::
      "file:" + r.repository + "|" + r.filePath == "file:" + (r.repository + "|" + r.filePath);
    AfterPrefix("file:", FileName(a), FileName(b));
    if a.repository != "" && b.repository != "" {
      if |a.repository| <= |b.repository| {
        Splits(a.repository, a.filePath, b.repository, b.filePath);
      } else {
        Splits(b.repository, b.filePath, a.repository, a.filePath);
      }
    }
  }

  /** Two ways to read one name. */
  lemma Splits(r: string, p: string, r': string, p': string)
    requires |r| <= |r'|
    ensures r + "|" + p == r' + "|" + p' <==>
            (r == r' && p == p')
            || (|r| < |r'| && r'[..|r|] == r && r'[|r|] == '|' && p == r'[|r| + 1..] + "|" + p')
  {
    var n, k, k' := |r|, r + "|" + p, r' + "|" + p';
    assert k[..n] == r && k[n] == '|' && k[n + 1..] == p;
    if n < |r'| {
      assert k'[..n] == r'[..n] && k'[n] == r'[n] && k'[n + 1..] == r'[n + 1..] + "|" + p';
      assert k' == k'[..n] + [k'[n]] + k'[n + 1..];
      assert k == k[..n] + [k[n]] + k[n + 1..];
    } else {
      assert k'[..n] == r' && k'[n + 1..] == p';
    }
  }

  /** Names without bars are never ambiguous. */
  lemma NoBars(a: SearchResult, b: SearchResult)
    requires '|' !in a.repository && '|' !in b.repository
    requires a.repository == "" ==> '|' !in a.filePath
    requires b.repository == "" ==> '|' !in b.filePath
    ensures Merges(a, b) <==> SameHit(a, b)
  {
    NoBar(a, b);
    NoBar(b, a);
  }

  lemma NoBar(a: SearchResult, b: SearchResult)
    requires '|' !in b.repository && (a.repository == "" ==> '|' !in a.filePath)
    ensures !NamedAlike(a, b)
  {
    var name := b.repository + "|" + b.filePath;
    assert name[|b.repository|] == '|';
  }

  /** In a ranking every result of either input is listed once, as a result that it
      merges with, and nothing is listed that does not merge with one of them. */
  lemma EachHitOnce(sem: seq<SearchResult>, txt: seq<SearchResult>, out: seq<SearchResult>)
    requires IsRanking(sem, txt, out)
    ensures ListsEachHitOnce(sem, txt, out)
  {
    hide IsRanking, Merges, ListedAt;
    forall r | r in sem || r in txt
      ensures exists i :: ListedAt(out, r, i) && forall j :: ListedAt(out, r, j) ==> j == i
    {
      var i := ListedOnce(sem, txt, out, r);
    }
    forall o | o in out ensures exists r :: (r in sem || r in txt) && Merges(o, r) {
      var r := ListedFor(sem, txt, out, o);
    }
  }

  lemma ListedOnce(sem: seq<SearchResult>, txt: seq<SearchResult>, out: seq<SearchResult>, r: SearchResult)
    returns (i: int)
    requires IsRanking(sem, txt, out) && (r in sem || r in txt)
    ensures ListedAt(out, r, i) && forall j :: ListedAt(out, r, j) ==> j == i
  {
    hide KeyOf, Fused, Occurs, Merges;
    InputOccurs(sem, txt, r);
    i :| 0 <= i < |out| && out[i] == Fused(sem, txt, KeyOf(r));
    MergedExactlyIf(out[i], r);
    forall j | ListedAt(out, r, j) ensures j == i {
      MergedExactlyIf(out[j], r);
      assert out[j] in out;
      OneIndex(out, i, j);
    }
  }

  lemma ListedFor(sem: seq<SearchResult>, txt: seq<SearchResult>, out: seq<SearchResult>, o: SearchResult)
    returns (r: SearchResult)
    requires IsRanking(sem, txt, out) && o in out
    ensures (r in sem || r in txt) && Merges(o, r)
  {
    hide KeyOf, Fused, Merges;
    r := OccursAs(sem, txt, KeyOf(o));
    MergedExactlyIf(o, r);
  }

  ghost predicate ListsEachHitOnce(sem: seq<SearchResult>, txt: seq<SearchResult>, out: seq<SearchResult>) {
    && (forall r :: r in sem || r in txt ==>
          exists i :: ListedAt(out, r, i) && forall j :: ListedAt(out, r, j) ==> j == i)
    && (forall o :: o in out ==> exists r :: (r in sem || r in txt) && Merges(o, r))
  }

  ghost predicate ListedAt(out: seq<SearchResult>, r: SearchResult, i: int) {
    0 <= i < |out| && Merges(out[i], r)
  }

  lemma InputOccurs(sem: seq<SearchResult>, txt: seq<SearchResult>, r: SearchResult)
    requires r in sem || r in txt
    ensures Occurs(sem, txt, KeyOf(r))
  {
    if r in sem {
      var i :| 0 <= i < |sem| && sem[i] == r;
      assert KeysOf(sem)[i] == KeyOf(r);
    } else {
      var i :| 0 <= i < |txt| && txt[i] == r;
      assert KeysOf(txt)[i] == KeyOf(r);
    }
  }

  lemma OccursAs(sem: seq<SearchResult>, txt: seq<SearchResult>, k: string) returns (r: SearchResult)
    requires Occurs(sem, txt, k)
    ensures (r in sem || r in txt) && KeyOf(r) == k
  {
    var rs := if k in KeysOf(sem) then sem else txt;
    var i :| 0 <= i < |rs| && KeysOf(rs)[i] == k;
    r := rs[i];
  }

  lemma OneIndex(out: seq<SearchResult>, i: int, j: int)
    requires StrictlySorted(out) && 0 <= i < |out| && 0 <= j < |out| && out[i] == out[j]
    ensures i == j
  {
    BeforeTotal(out[i], out[i]);
  }

  // ----- the algorithm -----

  function AddHit(m: Merged, hit: EngineHit, fromSemantic: bool): Merged {
    if fromSemantic
    then m.(semantic := if m.semantic.None? || hit.rank < m.semantic.value.rank then Some(hit) else m.semantic,
            hasSemantic := true)
    else m.(text := if m.text.None? || hit.rank < m.text.value.rank then Some(hit) else m.text,
            hasText := true)
  }

  /** The entries are those of the hits merged so far, each key once in the order. */
  ghost predicate Represents(byKey: map<string, Merged>, order: seq<string>, sem: seq<SearchResult>,
                             txt: seq<SearchResult>) {
    && (forall k :: k in byKey <==> Occurs(sem, txt, k))
    && (forall k :: k in byKey ==> byKey[k] == MergedOf(sem, txt, k))
    && (forall k :: k in order <==> k in byKey)
    && (forall i, j :: 0 <= i < j < |order| ==> order[i] != order[j])
  }

  class Merger {
    var byKey: map<string, Merged>
    var order: seq<string>

    constructor ()
      ensures byKey == map[] && order == []
    {
      byKey, order := map[], [];
    }

    method MergeSearchResult(result: SearchResult, rank: nat, fromSemantic: bool)
      modifies this
      ensures var k := KeyOf(result);
              && order == (if k in old(byKey) then old(order) else old(order) + [k])
              && byKey == old(byKey)[k := AddHit(if k in old(byKey) then old(byKey)[k] else EMPTY,
                                                 EngineHit(result, rank), fromSemantic)]
    {
      var k := KeyOf(result);
      var m := EMPTY;
      if k in byKey {
        m := byKey[k];
      } else {
        order := order + [k];
      }
      var hit := EngineHit(result, rank);
      if fromSemantic {
        if m.semantic.None? || rank < m.semantic.value.rank {
          m := m.(semantic := Some(hit));
        }
        m := m.(hasSemantic := true);
      } else {
        if m.text.None? || rank < m.text.value.rank {
          m := m.(text := Some(hit));
        }
        m := m.(hasText := true);
      }
      byKey := byKey[k := m];
    }
  }

  lemma {:induction false} FirstRankSnoc(ks: seq<string>, x: string, k: string)
    ensures FirstRank(ks + [x], k) == if k in ks then FirstRank(ks, k) else if x == k then Some(|ks| + 1) else None
  {
    if ks != [] {
      FirstRankSnoc(ks[1..], x, k);
      assert (ks + [x])[1..] == ks[1..] + [x];
    }
  }

  /** One more result changes the first hit of its own key only, and only if the
      key is new to the list. */
  lemma FirstHitSnoc(rs: seq<SearchResult>, r: SearchResult, k: string)
    ensures FirstHit(rs + [r], k) ==
            if k in KeysOf(rs) then FirstHit(rs, k)
            else if KeyOf(r) == k then Some(EngineHit(r, |rs| + 1)) else None
    ensures k in KeysOf(rs + [r]) <==> k in KeysOf(rs) || k == KeyOf(r)
  {
    assert KeysOf(rs + [r]) == KeysOf(rs) + [KeyOf(r)];
    FirstRankSnoc(KeysOf(rs), KeyOf(r), k);
  }

  lemma AddSemantic(byKey: map<string, Merged>, order: seq<string>, sem: seq<SearchResult>, r: SearchResult,
                    byKey': map<string, Merged>, order': seq<string>, k: string)
    requires Represents(byKey, order, sem, []) && k == KeyOf(r)
    requires order' == if k in byKey then order else order + [k]
    requires byKey' == byKey[k := AddHit(if k in byKey then byKey[k] else EMPTY, EngineHit(r, |sem| + 1), true)]
    ensures Represents(byKey', order', sem + [r], [])
  {
    hide FirstRank, KeyOf;
    forall x ensures x in byKey' <==> Occurs(sem + [r], [], x)
             ensures x in byKey' ==> byKey'[x] == MergedOf(sem + [r], [], x)
    {
      FirstHitSnoc(sem, r, x);
    }
  }

  lemma AddText(byKey: map<string, Merged>, order: seq<string>, sem: seq<SearchResult>, txt: seq<SearchResult>,
                r: SearchResult, byKey': map<string, Merged>, order': seq<string>, k: string)
    requires Represents(byKey, order, sem, txt) && k == KeyOf(r)
    requires order' == if k in byKey then order else order + [k]
    requires byKey' == byKey[k := AddHit(if k in byKey then byKey[k] else EMPTY, EngineHit(r, |txt| + 1), false)]
    ensures Represents(byKey', order', sem, txt + [r])
  {
    hide FirstRank, KeyOf;
    forall x ensures x in byKey' <==> Occurs(sem, txt + [r], x)
             ensures x in byKey' ==> byKey'[x] == MergedOf(sem, txt + [r], x)
    {
      FirstHitSnoc(txt, r, x);
    }
  }

  method MergeSemantic(m: Merger, sem: seq<SearchResult>)
    requires Represents(m.byKey, m.order, [], [])
    modifies m
    ensures Represents(m.byKey, m.order, sem, [])
  {
    for i := 0 to |sem|
      invariant Represents(m.byKey, m.order, sem[..i], [])
    {
      assert sem[..i + 1] == sem[..i] + [sem[i]];
      ghost var byKey, order := m.byKey, m.order;
      m.MergeSearchResult(sem[i], i + 1, true);
      AddSemantic(byKey, order, sem[..i], sem[i], m.byKey, m.order, KeyOf(sem[i]));
    }
    assert sem[..|sem|] == sem;
  }

  method MergeText(m: Merger, ghost sem: seq<SearchResult>, txt: seq<SearchResult>)
    requires Represents(m.byKey, m.order, sem, [])
    modifies m
    ensures Represents(m.byKey, m.order, sem, txt)
  {
    for i := 0 to |txt|
      invariant Represents(m.byKey, m.order, sem, txt[..i])
    {
      assert txt[..i + 1] == txt[..i] + [txt[i]];
      ghost var byKey, order := m.byKey, m.order;
      m.MergeSearchResult(txt[i], i + 1, false);
      AddText(byKey, order, sem, txt[..i], txt[i], m.byKey, m.order, KeyOf(txt[i]));
    }
    assert txt[..|txt|] == txt;
  }

  method BuildAll(m: Merger) returns (results: seq<SearchResult>)
    requires forall k :: k in m.order ==> k in m.byKey
    ensures |results| == |m.order|
    ensures forall j :: 0 <= j < |results| ==> results[j] == Build(m.byKey[m.order[j]])
  {
    results := [];
    for i := 0 to |m.order|
      invariant |results| == i
      invariant forall j :: 0 <= j < i ==> results[j] == Build(m.byKey[m.order[j]])
    {
      results := results + [Build(m.byKey[m.order[i]])];
    }
  }

  method Rank(sem: seq<SearchResult>, txt: seq<SearchResult>) returns (out: seq<SearchResult>)
    ensures IsRanking(sem, txt, out) && ListsEachHitOnce(sem, txt, out)
  {
    var m := new Merger();
    MergeSemantic(m, sem);
    MergeText(m, sem, txt);
    var results := BuildAll(m);
    out := SortResults(results);
    ListingIsRanking(sem, txt, m.byKey, m.order, results, out);
    EachHitOnce(sem, txt, out);
  }

  /** Distinct keys make ties impossible, so the sort has no choice. */
  lemma ListingIsRanking(sem: seq<SearchResult>, txt: seq<SearchResult>, byKey: map<string, Merged>, order: seq<string>,
                         results: seq<SearchResult>, out: seq<SearchResult>)
    requires Represents(byKey, order, sem, txt) && |results| == |order|
    requires forall j :: 0 <= j < |order| ==> results[j] == Build(byKey[order[j]])
    requires multiset(out) == multiset(results) && Sorted(out)
    ensures IsRanking(sem, txt, out)
  {
    hide KeyOf, Build, MergedOf, Occurs, StrictlySorted, Sorted;
    forall r ensures r in out <==> r in results {
      assert r in multiset(out) <==> r in multiset(results);
    }
    forall j | 0 <= j < |order| ensures KeyOf(results[j]) == order[j] && results[j] == Fused(sem, txt, order[j]) {
      assert order[j] in byKey;
      FusedKey(sem, txt, order[j]);
    }
    forall k | Occurs(sem, txt, k) ensures Fused(sem, txt, k) in out && KeyOf(Fused(sem, txt, k)) == k {
      assert k in byKey && k in order;
      FusedKey(sem, txt, k);
    }
    forall r | r in out ensures Occurs(sem, txt, KeyOf(r)) && r == Fused(sem, txt, KeyOf(r)) {
      var j :| 0 <= j < |results| && results[j] == r;
      assert order[j] in byKey;
    }
    forall i, j | 0 <= i < j < |results| ensures KeyOf(results[i]) != KeyOf(results[j]) {
    }
    NoRepeats(results, out);
    NoTies(sem, txt, out);
  }

  lemma NoTies(sem: seq<SearchResult>, txt: seq<SearchResult>, out: seq<SearchResult>)
    requires forall r :: r in out ==> r == Fused(sem, txt, KeyOf(r))
    requires forall i, j :: 0 <= i < j < |out| ==> out[i] != out[j]
    requires Sorted(out)
    ensures StrictlySorted(out)
  {
    forall i, j | 0 <= i < j < |out| ensures Before(out[i], out[j]) {
      assert out[i] != out[j] && out[i] in out && out[j] in out;
      assert KeyOf(out[i]) != KeyOf(out[j]);
      BeforeTotal(out[i], out[j]);
      if Tied(out[i], out[j]) { SameFile(out[i], out[j]); }
    }
  }

  lemma NoRepeats(rs: seq<SearchResult>, out: seq<SearchResult>)
    requires forall i, j :: 0 <= i < j < |rs| ==> KeyOf(rs[i]) != KeyOf(rs[j])
    requires multiset(out) == multiset(rs)
    ensures forall i, j :: 0 <= i < j < |out| ==> out[i] != out[j]
  {
    forall r ensures multiset(rs)[r] <= 1 {
      AtMostOnce(rs, r);
    }
    forall i, j | 0 <= i < j < |out| ensures out[i] != out[j] {
      assert out == out[..j] + [out[j]] + out[j + 1..];
      assert out[i] in out[..j];
      assert multiset(out) == multiset(out[..j]) + multiset{out[j]} + multiset(out[j + 1..]);
      assert multiset(out)[out[i]] <= 1;
    }
  }

  lemma {:induction false} AtMostOnce(rs: seq<SearchResult>, r: SearchResult)
    requires forall i, j :: 0 <= i < j < |rs| ==> KeyOf(rs[i]) != KeyOf(rs[j])
    ensures multiset(rs)[r] <= 1
  {
    if rs != [] {
      AtMostOnce(rs[1..], r);
      assert rs == [rs[0]] + rs[1..];
      assert forall j :: 0 <= j < |rs[1..]| ==> rs[1..][j] != rs[0];
    }
  }

  /** The listing is a function of the two inputs, although the sort is not stable. */
  lemma RankingIsUnique(sem: seq<SearchResult>, txt: seq<SearchResult>, a: seq<SearchResult>, b: seq<SearchResult>)
    requires IsRanking(sem, txt, a) && IsRanking(sem, txt, b)
    ensures a == b
  {
    OneOrder(a, b);
  }

  // ----- what a listed result says -----

  /** i is the index of the first result with key k, or the length if there is none. */
  ghost predicate FirstAt(rs: seq<SearchResult>, k: string, i: nat) {
    && i <= |rs|
    && (forall l :: 0 <= l < i ==> KeyOf(rs[l]) != k)
    && (i < |rs| ==> KeyOf(rs[i]) == k)
  }

  /** Everything but the fields that fusion fills in. */
  predicate SamePayload(a: SearchResult, b: SearchResult) {
    a == b.(sourceEngine := a.sourceEngine, engineScore := a.engineScore, similarityScore := a.similarityScore)
  }

  /** The payload is the earliest semantic result if there is one, else the earliest
      text result; an engine that has the key at index i contributes 1 / (61 + i);
      and the tag tells which engines have it. */
  lemma ListedResult(sem: seq<SearchResult>, txt: seq<SearchResult>, k: string, i: nat, j: nat)
    requires FirstAt(sem, k, i) && FirstAt(txt, k, j) && (i < |sem| || j < |txt|)
    ensures SamePayload(Fused(sem, txt, k), if i < |sem| then sem[i] else txt[j])
    ensures Fused(sem, txt, k).engineScore == Fused(sem, txt, k).similarityScore ==
            (if i < |sem| then 1.0 / (61 + i) as real else 0.0) + (if j < |txt| then 1.0 / (61 + j) as real else 0.0)
    ensures Fused(sem, txt, k).sourceEngine ==
            if i == |sem| then "zoekt" else if j == |txt| then "embedding" else "both"
  {
    hide FirstHit, KeysOf;
    FirstHitAt(sem, k, i);
    FirstHitAt(txt, k, j);
    assert 60.0 + (i + 1) as real == (61 + i) as real && 60.0 + (j + 1) as real == (61 + j) as real;
  }

  lemma FirstRankAt(ks: seq<string>, k: string, i: nat)
    requires i <= |ks| && forall l :: 0 <= l < i ==> ks[l] != k
    requires i < |ks| ==> ks[i] == k
    ensures FirstRank(ks, k) == if i < |ks| then Some(i + 1) else None
    ensures k in ks <==> i < |ks|
  {
    hide FirstRank;
    if i < |ks| {
      var n := FirstRank(ks, k).value;
      forall l | 0 <= l < n - 1 ensures ks[l] != k {
        assert ks[..n - 1][l] == ks[l];
      }
    }
  }

  lemma FirstHitAt(rs: seq<SearchResult>, k: string, i: nat)
    requires FirstAt(rs, k, i)
    ensures FirstHit(rs, k) == if i < |rs| then Some(EngineHit(rs[i], i + 1)) else None
    ensures k in KeysOf(rs) <==> i < |rs|
  {
    hide FirstRank, KeyOf;
    FirstRankAt(KeysOf(rs), k, i);
  }

  lemma RrfDecreases(m: nat, n: nat)
    requires m < n
    ensures 0.0 < RrfScore(n) < RrfScore(m)
  {
    InverseOrder(60.0 + m as real, 60.0 + n as real);
  }

  lemma InverseOrder(a: real, b: real)
    requires 0.0 < a < b
    ensures 0.0 < 1.0 / b < 1.0 / a
  {
    assert 1.0 / b * b == 1.0 && 1.0 / a * a == 1.0;
    assert 1.0 / b * (b - a) > 0.0;
    assert (1.0 / a - 1.0 / b) * a > 0.0;
  }

  /** Key k is found by every engine that finds l, at least as early. */
  ghost predicate AtLeastAsGood(k: Option<EngineHit>, l: Option<EngineHit>) {
    l.Some? ==> k.Some? && k.value.rank <= l.value.rank
  }

  /** A key that both engines rank at least as high as another, and one engine
      higher, is listed before it. */
  lemma DominanceIsKept(sem: seq<SearchResult>, txt: seq<SearchResult>, k: string, l: string)
    requires Occurs(sem, txt, k)
    requires AtLeastAsGood(FirstHit(sem, k), FirstHit(sem, l)) && AtLeastAsGood(FirstHit(txt, k), FirstHit(txt, l))
    requires !AtLeastAsGood(FirstHit(sem, l), FirstHit(sem, k)) || !AtLeastAsGood(FirstHit(txt, l), FirstHit(txt, k))
    ensures Before(Fused(sem, txt, k), Fused(sem, txt, l))
  {
    ScoreOrder(FirstHit(sem, k), FirstHit(sem, l));
    ScoreOrder(FirstHit(txt, k), FirstHit(txt, l));
  }

  lemma ScoreOrder(k: Option<EngineHit>, l: Option<EngineHit>)
    requires AtLeastAsGood(k, l)
    ensures HitScore(k) >= HitScore(l)
    ensures !AtLeastAsGood(l, k) ==> HitScore(k) > HitScore(l)
  {
    if k.Some? && l.Some? && k.value.rank < l.value.rank {
      RrfDecreases(k.value.rank, l.value.rank);
    }
  }
}
