/** The order in which merged search results are listed. */
module ResultOrder {
  /** A search result as far as ranking reads it.  The chunk ID is in its canonical
      text form; names are compared character by character. */
  datatype SearchResult = SearchResult(
    chunkId: string, repository: string, filePath: string, startLine: int, endLine: int,
    content: string, sourceEngine: string, engineScore: real, similarityScore: real)

  const NIL_ID := "00000000-0000-0000-0000-000000000000"

  /** Lexicographic order. */
  predicate StringLess(a: string, b: string) {
    b != "" && (a == "" || a[0] < b[0] || (a[0] == b[0] && StringLess(a[1..], b[1..])))
  }

  /** The strings agree up to there and differ there, in their lengths or by a character. */
  ghost predicate PartAt(a: string, b: string, i: nat) {
    i <= |a| && i < |b| && a[..i] == b[..i] && (i == |a| || a[i] < b[i])
  }

  /** a is less exactly if it is a proper prefix of b or has the smaller character where
      they first differ. */
  lemma {:induction false} StringLessExactlyIf(a: string, b: string)
    ensures StringLess(a, b) <==> exists i: nat :: PartAt(a, b, i)
  {
    if a != "" && b != "" {
      StringLessExactlyIf(a[1..], b[1..]);
      if StringLess(a, b) && a[0] == b[0] {
        var i: nat :| PartAt(a[1..], b[1..], i);
        assert a[..i + 1] == [a[0]] + a[1..][..i] && b[..i + 1] == [b[0]] + b[1..][..i];
        assert PartAt(a, b, i + 1);
      } else if StringLess(a, b) {
        assert PartAt(a, b, 0);
      } else if i: nat :| PartAt(a, b, i) {
        assert i > 0 && a[..i][0] == b[..i][0];
        assert a[1..][..i - 1] == a[..i][1..] && b[1..][..i - 1] == b[..i][1..];
        assert PartAt(a[1..], b[1..], i - 1);
      }
    } else if StringLess(a, b) {
      assert PartAt(a, b, 0);
    }
  }

  lemma {:induction false} StringTotal(a: string, b: string)
    ensures a == b || StringLess(a, b) || StringLess(b, a)
    ensures !(StringLess(a, b) && StringLess(b, a))
    ensures !StringLess(a, a)
  {
    StringIrreflexive(a);
    if a != "" && b != "" {
      StringTotal(a[1..], b[1..]);
      assert a == [a[0]] + a[1..] && b == [b[0]] + b[1..];
    }
  }

  lemma {:induction false} StringIrreflexive(a: string)
    ensures !StringLess(a, a)
  {
    if a != "" {
      StringIrreflexive(a[1..]);
    }
  }

  lemma {:induction false} StringTransitive(a: string, b: string, c: string)
    requires StringLess(a, b) && StringLess(b, c)
    ensures StringLess(a, c)
  {
    if a != "" && a[0] == b[0] == c[0] {
      StringTransitive(a[1..], b[1..], c[1..]);
    }
  }

  /** The comparator of the sort: field by field, a later field only on a tie. */
  predicate Before(a: SearchResult, b: SearchResult) {
    if a.engineScore != b.engineScore then a.engineScore > b.engineScore
    else if a.repository != b.repository then StringLess(a.repository, b.repository)
    else if a.filePath != b.filePath then StringLess(a.filePath, b.filePath)
    else if a.startLine != b.startLine then a.startLine < b.startLine
    else if a.endLine != b.endLine then a.endLine < b.endLine
    else if a.chunkId != b.chunkId then StringLess(a.chunkId, b.chunkId)
    else if a.sourceEngine != b.sourceEngine then StringLess(a.sourceEngine, b.sourceEngine)
    else StringLess(a.content, b.content)
  }

  /** The fields the comparator looks at. */
  predicate Tied(a: SearchResult, b: SearchResult) {
    a.(similarityScore := b.similarityScore) == b
  }

  lemma BeforeTotal(a: SearchResult, b: SearchResult)
    ensures Tied(a, b) || Before(a, b) || Before(b, a)
    ensures !(Before(a, b) && Before(b, a))
    ensures Tied(a, b) ==> !Before(a, b)
  {
    StringTotal(a.repository, b.repository);
    StringTotal(a.filePath, b.filePath);
    StringTotal(a.chunkId, b.chunkId);
    StringTotal(a.sourceEngine, b.sourceEngine);
    StringTotal(a.content, b.content);
  }

  lemma BeforeTransitive(a: SearchResult, b: SearchResult, c: SearchResult)
    requires Before(a, b) && Before(b, c)
    ensures Before(a, c)
  {
    Through(a.repository, b.repository, c.repository);
    Through(a.filePath, b.filePath, c.filePath);
    Through(a.chunkId, b.chunkId, c.chunkId);
    Through(a.sourceEngine, b.sourceEngine, c.sourceEngine);
    Through(a.content, b.content, c.content);
  }

  lemma Through(a: string, b: string, c: string)
    ensures StringLess(a, b) && StringLess(b, c) ==> StringLess(a, c) && a != c
  {
    if StringLess(a, b) && StringLess(b, c) {
      StringTransitive(a, b, c);
      StringTotal(a, c);
    }
  }

  /** What an unstable sort guarantees: no result comes before one that precedes it. */
  ghost predicate Sorted(rs: seq<SearchResult>) {
    forall i, j :: 0 <= i < j < |rs| ==> !Before(rs[j], rs[i])
  }

  ghost predicate StrictlySorted(rs: seq<SearchResult>) {
    forall i, j :: 0 <= i < j < |rs| ==> Before(rs[i], rs[j])
  }

  /** A strictly sorted listing, field by field: the score falls, and among equals of all
      fields before, the repository, the path, the lines, the chunk, the tag and the
      content rise. */
  lemma ListedInOrder(rs: seq<SearchResult>, i: nat, j: nat)
    requires StrictlySorted(rs) && i < j < |rs|
    ensures var (a, b) := (rs[i], rs[j]);
            && a.engineScore >= b.engineScore
            && (a.engineScore == b.engineScore ==>
                  (StringLess(a.repository, b.repository) || a.repository == b.repository)
                  && (a.repository == b.repository ==>
                        (StringLess(a.filePath, b.filePath) || a.filePath == b.filePath)
                        && (a.filePath == b.filePath ==>
                              a.startLine <= b.startLine
                              && (a.startLine == b.startLine ==>
                                    a.endLine <= b.endLine
                                    && (a.endLine == b.endLine ==>
                                          (StringLess(a.chunkId, b.chunkId) || a.chunkId == b.chunkId)
                                          && (a.chunkId == b.chunkId ==>
                                                (StringLess(a.sourceEngine, b.sourceEngine)
                                                 || a.sourceEngine == b.sourceEngine)
                                                && (a.sourceEngine == b.sourceEngine ==>
                                                      StringLess(a.content, b.content))))))))
  {
    assert Before(rs[i], rs[j]);
  }

  /** Sorts in some way; only Sorted and the contents are promised. */
  method SortResults(rs: seq<SearchResult>) returns (out: seq<SearchResult>)
    ensures multiset(out) == multiset(rs) && Sorted(out)
  {
    out := [];
    for n := 0 to |rs|
      invariant multiset(out) == multiset(rs[..n]) && Sorted(out)
    {
      var i := InsertionPoint(out, rs[n]);
      InsertSorted(out, i, rs[n]);
      out := out[..i] + [rs[n]] + out[i..];
      assert rs[..n + 1] == rs[..n] + [rs[n]];
    }
    assert rs[..|rs|] == rs;
  }

  lemma InsertSorted(rs: seq<SearchResult>, i: nat, r: SearchResult)
    requires Sorted(rs) && i <= |rs|
    requires forall j :: 0 <= j < i ==> !Before(r, rs[j])
    requires forall j :: i <= j < |rs| ==> !Before(rs[j], r)
    ensures Sorted(rs[..i] + [r] + rs[i..])
    ensures multiset(rs[..i] + [r] + rs[i..]) == multiset(rs) + multiset{r}
  {
    assert rs == rs[..i] + rs[i..];
    var out := rs[..i] + [r] + rs[i..];
    forall j, k | 0 <= j < k < |out| ensures !Before(out[k], out[j]) {
      assert out[j] == if j < i then rs[j] else if j == i then r else rs[j - 1];
      assert out[k] == if k < i then rs[k] else if k == i then r else rs[k - 1];
    }
  }

  method InsertionPoint(rs: seq<SearchResult>, r: SearchResult) returns (i: nat)
    requires Sorted(rs)
    ensures i <= |rs|
    ensures forall j :: 0 <= j < i ==> !Before(r, rs[j])
    ensures forall j :: i <= j < |rs| ==> !Before(rs[j], r)
  {
    i := 0;
    while i < |rs| && !Before(r, rs[i])
      invariant i <= |rs|
      invariant forall j :: 0 <= j < i ==> !Before(r, rs[j])
    {
      i := i + 1;
    }
    if i < |rs| {
      forall j | i <= j < |rs| ensures !Before(rs[j], r) {
        BeforeTotal(rs[i], r);
        if Before(rs[j], r) {
          BeforeTransitive(rs[j], r, rs[i]);
        }
      }
    }
  }

  /** Strict sorting leaves one order: two strictly sorted listings of the same
      results are the same. */
  lemma {:induction false} OneOrder(a: seq<SearchResult>, b: seq<SearchResult>)
    requires StrictlySorted(a) && StrictlySorted(b)
    requires forall r :: r in a <==> r in b
    ensures a == b
  {
    if a == [] {
      assert forall i :: 0 <= i < |b| ==> b[i] in a;
    } else {
      assert a[0] in b;
      assert b[0] in a;
      FirstIsLeast(a, b[0]);
      FirstIsLeast(b, a[0]);
      BeforeTotal(a[0], b[0]);
      assert a[0] == b[0];
      forall r ensures r in a[1..] <==> r in b[1..] {
        InTail(a, r);
        InTail(b, r);
      }
      OneOrder(a[1..], b[1..]);
    }
  }

  lemma FirstIsLeast(rs: seq<SearchResult>, r: SearchResult)
    requires StrictlySorted(rs) && r in rs
    ensures r == rs[0] || Before(rs[0], r)
  {
  }

  lemma InTail(rs: seq<SearchResult>, r: SearchResult)
    requires StrictlySorted(rs) && rs != []
    ensures r in rs[1..] <==> r in rs && r != rs[0]
  {
    BeforeTotal(rs[0], rs[0]);
  }
}
