/**
 * DataFrame.drop_duplicates() on a labelled table: a row is dropped when an
 * earlier row has the same values in every column; the first occurrence
 * stays, with its row label, and the order of the kept rows is unchanged.
 * The label is not a column, so it takes no part in the comparison.
 */
module Duplicates {

  /** The column values of a labelled table, without the labels. */
  function Values<L, T>(s: seq<(L, T)>): seq<T>
  {
    seq(|s|, i requires 0 <= i < |s| => s[i].1)
  }

  lemma ValuesIndex<L, T>(s: seq<(L, T)>)
    ensures |Values(s)| == |s| && forall i :: 0 <= i < |s| ==> Values(s)[i] == s[i].1
  {
  }

  /** The set of distinct rows of a labelled table. */
  function ValueSet<L, T>(s: seq<(L, T)>): set<T>
  {
    set i | 0 <= i < |s| :: s[i].1
  }

  /** Whole-row deduplication, keeping first occurrences. */
  function Dedup<L, T(==)>(s: seq<(L, T)>): seq<(L, T)>
  {
    if s == [] then []
    else
      var d := Dedup(s[..|s| - 1]);
      var e := s[|s| - 1];
      if e.1 in Values(d) then d else d + [e]
  }

  /** No two rows of `s` have the same values. */
  predicate DistinctValues<L, T(==)>(s: seq<(L, T)>)
  {
    forall i, j :: 0 <= i < j < |s| ==> s[i].1 != s[j].1
  }

  /** Row i of `s` is the first row with its values. */
  predicate FirstOccurrence<L, T(==)>(s: seq<(L, T)>, i: nat)
    requires i < |s|
  {
    forall j :: 0 <= j < i ==> s[j].1 != s[i].1
  }

  lemma ValuesSnoc<L, T>(s: seq<(L, T)>, e: (L, T))
    ensures Values(s + [e]) == Values(s) + [e.1]
  {
  }

  /** One more row is kept exactly when its values are new. */
  lemma DedupSnoc<L, T>(s: seq<(L, T)>, e: (L, T))
    ensures Dedup(s + [e]) == if e.1 in Values(Dedup(s)) then Dedup(s) else Dedup(s) + [e]
  {
    assert (s + [e])[..|s + [e]| - 1] == s;
  }

  /** The deduplicated table has the same distinct rows as the input, and no repeated row. */
  lemma {:induction false} DedupValues<L, T>(s: seq<(L, T)>)
    ensures forall v :: v in Values(Dedup(s)) <==> v in Values(s)
    ensures DistinctValues(Dedup(s))
  {
    if s != [] {
      var init, e := s[..|s| - 1], s[|s| - 1];
      assert s == init + [e];
      DedupValues(init);
      ValuesSnoc(init, e);
      var d := Dedup(init);
      if e.1 !in Values(d) {
        ValuesSnoc(d, e);
        ValuesIndex(d);
      }
    }
  }

  /** Every kept row is the first occurrence of its values. */
  lemma {:induction false} KeptIsFirstOccurrence<L, T>(s: seq<(L, T)>, e: (L, T))
    requires e in Dedup(s)
    ensures exists i :: 0 <= i < |s| && s[i] == e && FirstOccurrence(s, i)
  {
    var init, last := s[..|s| - 1], s[|s| - 1];
    var n := |s| - 1;
    var d := Dedup(init);
    if e in d {
      KeptIsFirstOccurrence(init, e);
      var i :| 0 <= i < |init| && init[i] == e && FirstOccurrence(init, i);
      assert s[i] == e && FirstOccurrence(s, i);
    } else {
      DedupValues(init);
      ValuesIndex(init);
      assert e == last && last.1 !in Values(d);
      assert FirstOccurrence(s, n) by {
        forall j | 0 <= j < n ensures s[j].1 != s[n].1 {
          assert s[j].1 == init[j].1 && init[j].1 in Values(init);
        }
      }
    }
  }

  /** The first occurrence of every row is kept. */
  lemma {:induction false} FirstOccurrenceIsKept<L, T>(s: seq<(L, T)>, i: nat)
    requires i < |s| && FirstOccurrence(s, i)
    ensures s[i] in Dedup(s)
  {
    var init, last := s[..|s| - 1], s[|s| - 1];
    var n := |s| - 1;
    if i < n {
      assert init[i] == s[i] && FirstOccurrence(init, i);
      FirstOccurrenceIsKept(init, i);
    } else {
      DedupValues(init);
      assert last.1 !in Values(init) by {
        forall j | 0 <= j < n ensures init[j].1 != last.1 {
          assert init[j] == s[j];
        }
      }
    }
  }

  /**
   * A row is kept exactly when it is the first occurrence of its values
   * (drop_duplicates keeps the first duplicate).
   */
  lemma DedupKeepsFirstOccurrences<L, T>(s: seq<(L, T)>, e: (L, T))
    ensures e in Dedup(s) <==> exists i :: 0 <= i < |s| && s[i] == e && FirstOccurrence(s, i)
  {
    if e in Dedup(s) {
      KeptIsFirstOccurrence(s, e);
    }
    if exists i :: 0 <= i < |s| && s[i] == e && FirstOccurrence(s, i) {
      var i :| 0 <= i < |s| && s[i] == e && FirstOccurrence(s, i);
      FirstOccurrenceIsKept(s, i);
    }
  }

  lemma {:induction false} DistinctCount<L, T>(s: seq<(L, T)>)
    requires DistinctValues(s)
    ensures |ValueSet(s)| == |s|
  {
    if s != [] {
      var init, e := s[..|s| - 1], s[|s| - 1];
      DistinctCount(init);
      assert ValueSet(s) == ValueSet(init) + {e.1};
      assert e.1 !in ValueSet(init);
    }
  }

  /** The row count after deduplication is the number of distinct rows. */
  lemma DedupCount<L, T>(s: seq<(L, T)>)
    ensures |Dedup(s)| == |ValueSet(s)|
  {
    DedupValues(s);
    DistinctCount(Dedup(s));
    var d := Dedup(s);
    ValuesIndex(d);
    ValuesIndex(s);
    forall v ensures v in ValueSet(d) <==> v in ValueSet(s) {
      assert v in ValueSet(d) <==> v in Values(d);
      assert v in ValueSet(s) <==> v in Values(s);
    }
    assert ValueSet(d) == ValueSet(s);
  }

  /** Appending rows that are all already present changes nothing. */
  lemma {:induction false} DedupAbsorbs<L, T>(s: seq<(L, T)>, t: seq<(L, T)>)
    requires forall v :: v in Values(t) ==> v in Values(s)
    ensures Dedup(s + t) == Dedup(s)
    decreases |t|
  {
    if t == [] {
      assert s + t == s;
    } else {
      var init, e := t[..|t| - 1], t[|t| - 1];
      assert (s + t)[..|s + t| - 1] == s + init;
      ValuesIndex(init);
      ValuesIndex(t);
      assert forall v :: v in Values(init) ==> v in Values(t);
      DedupAbsorbs(s, init);
      DedupValues(s);
      assert e.1 in Values(t);
    }
  }

  /** Importing the same rows twice gives the rows of importing them once. */
  lemma DedupDoubled<L, T>(s: seq<(L, T)>)
    ensures Dedup(s + s) == Dedup(s)
  {
    DedupAbsorbs(s, s);
  }

  /** Every kept row is a row of the input. */
  lemma DedupSubset<L, T>(s: seq<(L, T)>)
    ensures forall e :: e in Dedup(s) ==> e in s
  {
    forall e | e in Dedup(s) ensures e in s {
      KeptIsFirstOccurrence(s, e);
    }
  }

  /** The labels of `s` increase strictly from row to row. */
  predicate IncreasingLabels<T>(s: seq<(nat, T)>)
  {
    forall i, j :: 0 <= i < j < |s| ==> s[i].0 < s[j].0
  }

  /** Dropping rows keeps the remaining labels in order, so labels stay unique. */
  lemma {:induction false} DedupKeepsOrder<T>(s: seq<(nat, T)>)
    requires IncreasingLabels(s)
    ensures IncreasingLabels(Dedup(s))
  {
    if s != [] {
      var init, e := s[..|s| - 1], s[|s| - 1];
      assert IncreasingLabels(init);
      DedupKeepsOrder(init);
      var d := Dedup(init);
      DedupSubset(init);
      forall x | x in d ensures x.0 < e.0 {
        var k :| 0 <= k < |init| && init[k] == x;
        assert s[k] == x;
      }
    }
  }

  /** Deduplication looks at the values only: tables with the same values keep the same values. */
  lemma {:induction false} DedupSameValues<L1, L2, T>(s: seq<(L1, T)>, t: seq<(L2, T)>)
    requires Values(s) == Values(t)
    ensures Values(Dedup(s)) == Values(Dedup(t))
  {
    if s != [] {
      var si, ti := s[..|s| - 1], t[..|t| - 1];
      assert Values(si) == Values(s)[..|s| - 1] && Values(ti) == Values(t)[..|t| - 1];
      DedupSameValues(si, ti);
      assert s[|s| - 1].1 == Values(s)[|s| - 1] == Values(t)[|t| - 1] == t[|t| - 1].1;
      ValuesSnoc(Dedup(si), s[|s| - 1]);
      ValuesSnoc(Dedup(ti), t[|t| - 1]);
    }
  }

  /** drop_duplicates: scan the rows once, keeping each row whose values have not been kept yet. */
  method DropDuplicates<L, T(==)>(s: seq<(L, T)>) returns (r: seq<(L, T)>)
    ensures r == Dedup(s)
  {
    r := [];
    for i := 0 to |s|
      invariant r == Dedup(s[..i])
    {
      assert s[..i + 1][..i] == s[..i];
      if s[i].1 !in Values(r) {
        r := r + [s[i]];
      }
    }
    assert s[..|s|] == s;
  }
}
