/**
 * The review loop: the loaded table in session state, the selected row and
 * the rows similar to it, and the callbacks that set a row's decisions,
 * apply them to the similar rows, save them to the store, move on to the
 * next row to review, and export the table.
 */
module Review {
  import opened Wrappers
  import opened Calendar
  import opened Config
  import opened DateResolver
  import opened Identity
  import opened Records
  import opened Duplicates
  import opened Loader

  // ------------------------------------------------------------- decisions

  function DecisionOf(t: Transaction): Decision
  {
    Decision(t.category, t.split)
  }

  /** Two rows agree on every column except Category and Split. */
  predicate SameFacts(a: Transaction, b: Transaction)
  {
    a.postingDate == b.postingDate && a.details == b.details && a.hash == b.hash &&
    a.group == b.group && a.actualDate == b.actualDate
  }

  /** The row with its Category and Split replaced. */
  function Decide(t: Transaction, d: Decision): (r: Transaction)
    ensures SameFacts(r, t) && DecisionOf(r) == d
  {
    t.(category := d.category, split := d.split)
  }

  /** The labels that occur in a table. */
  function LabelSet(rows: seq<Entry>): set<Label>
  {
    set i | 0 <= i < |rows| :: rows[i].0
  }

  /** No two rows share a label. */
  predicate UniqueLabels(rows: seq<Entry>)
  {
    forall i, j :: 0 <= i < j < |rows| ==> rows[i].0 != rows[j].0
  }

  /**
   * df.loc[l, "Category"] = c; df.loc[l, "Split with Medha"] = s for every l
   * in `labels`: a write by label reaches every row carrying the label.
   */
  function SetDecision(table: seq<Entry>, labels: set<Label>, d: Decision): (r: seq<Entry>)
    ensures |r| == |table|
    ensures forall i :: 0 <= i < |table| ==> r[i].0 == table[i].0 && SameFacts(r[i].1, table[i].1)
    ensures forall i :: 0 <= i < |table| ==>
      DecisionOf(r[i].1) == if table[i].0 in labels then d else DecisionOf(table[i].1)
    ensures forall i :: 0 <= i < |table| && table[i].0 !in labels ==> r[i] == table[i]
  {
    seq(|table|, i requires 0 <= i < |table| =>
      if table[i].0 in labels then (table[i].0, Decide(table[i].1, d)) else table[i])
  }

  /** Writing one set of labels and then another is writing both at once. */
  lemma SetDecisionUnion(table: seq<Entry>, a: set<Label>, b: set<Label>, d: Decision)
    ensures SetDecision(SetDecision(table, a, d), b, d) == SetDecision(table, a + b, d)
  {
    var r1, r2 := SetDecision(SetDecision(table, a, d), b, d), SetDecision(table, a + b, d);
    forall i | 0 <= i < |table| ensures r1[i] == r2[i] {
      assert r1[i].1 == r2[i].1;
    }
  }

  /** A table in which each label names one row has as many labels as rows, and conversely. */
  lemma {:induction false} LabelCount(rows: seq<Entry>)
    ensures |LabelSet(rows)| <= |rows|
    ensures |LabelSet(rows)| == |rows| <==> UniqueLabels(rows)
  {
    if rows != [] {
      var init, last := rows[..|rows| - 1], rows[|rows| - 1];
      LabelCount(init);
      assert LabelSet(rows) == LabelSet(init) + {last.0};
      if last.0 in LabelSet(init) {
        var k :| 0 <= k < |init| && init[k].0 == last.0;
        assert rows[k].0 == rows[|rows| - 1].0;
      } else {
        assert UniqueLabels(rows) <==> UniqueLabels(init) by {
          if UniqueLabels(init) {
            forall i, j | 0 <= i < j < |rows| ensures rows[i].0 != rows[j].0 {
              if j == |rows| - 1 { assert rows[i].0 in LabelSet(init); }
              else { assert rows[i] == init[i] && rows[j] == init[j]; }
            }
          }
        }
      }
    }
  }

  /** Increasing labels, as the load produces them, are unique. */
  lemma IncreasingLabelsUnique(rows: seq<Entry>)
    requires IncreasingLabels(rows)
    ensures |LabelSet(rows)| == |rows|
  {
    LabelCount(rows);
  }

  /**
   * update_dataframe in a table whose labels are unique: only the selected
   * row changes, and only in Category and Split (utils.py:162-166).
   */
  lemma UpdateChangesOnlySelected(table: seq<Entry>, k: int, d: Decision, i: int)
    requires |LabelSet(table)| == |table| && 0 <= k < |table| && 0 <= i < |table|
    ensures var r := SetDecision(table, {table[k].0}, d);
      r[i].0 == table[i].0 && SameFacts(r[i].1, table[i].1) &&
      (i == k ==> DecisionOf(r[i].1) == d) && (i != k ==> r[i] == table[i])
  {
    LabelCount(table);
    if i < k { assert table[i].0 != table[k].0; }
    if k < i { assert table[k].0 != table[i].0; }
  }

  // ---------------------------------------------------------- similar rows

  /**
   * display_row's similar_rows: the rows of the selected row's group under
   * another label, in table order (utils.py:180-181).
   */
  function SimilarRows(table: seq<Entry>, sel: Entry): (r: seq<Entry>)
    ensures |r| <= |table|
    ensures forall e :: e in r <==> e in table && e.1.group == sel.1.group && e.0 != sel.0
  {
    if table == [] then []
    else
      var rest := SimilarRows(table[1..], sel);
      assert forall e :: e in table <==> e == table[0] || e in table[1..];
      if table[0].1.group == sel.1.group && table[0].0 != sel.0 then [table[0]] + rest else rest
  }

  /** The similar_rows entry of session state: present only when some row is similar (utils.py:183-187). */
  function SimilarEntry(table: seq<Entry>, sel: Entry): (r: Option<seq<Entry>>)
    ensures r.Some? <==> exists e :: e in table && e.1.group == sel.1.group && e.0 != sel.0
    ensures r.Some? ==> r.value == SimilarRows(table, sel)
  {
    var s := SimilarRows(table, sel);
    if s == [] then None
    else
      assert s[0] in s;
      Some(s)
  }

  /** The labels apply_to_all writes are those of the rows of the selected group under another label. */
  lemma SimilarLabels(table: seq<Entry>, sel: Entry, l: Label)
    ensures l in LabelSet(SimilarRows(table, sel)) <==>
      exists i :: 0 <= i < |table| && table[i].0 == l && table[i].1.group == sel.1.group && l != sel.0
  {
    var s := SimilarRows(table, sel);
    if l in LabelSet(s) {
      var k :| 0 <= k < |s| && s[k].0 == l;
      assert s[k] in s;
      var i :| 0 <= i < |table| && table[i] == s[k];
    }
    if exists i :: 0 <= i < |table| && table[i].0 == l && table[i].1.group == sel.1.group && l != sel.0 {
      var i :| 0 <= i < |table| && table[i].0 == l && table[i].1.group == sel.1.group && l != sel.0;
      assert table[i] in s;
      var k :| 0 <= k < |s| && s[k] == table[i];
    }
  }

  /**
   * apply_to_all in a table whose labels are unique: exactly the rows of the
   * selected row's group under another label get the new decisions, and
   * nothing else changes (utils.py:180-181, 206-208).
   */
  lemma ApplyToAllChangesExactlySimilar(table: seq<Entry>, sel: Entry, d: Decision, i: int)
    requires |LabelSet(table)| == |table| && 0 <= i < |table|
    ensures var r := SetDecision(table, LabelSet(SimilarRows(table, sel)), d);
      r[i].0 == table[i].0 && SameFacts(r[i].1, table[i].1) &&
      DecisionOf(r[i].1) == if table[i].1.group == sel.1.group && table[i].0 != sel.0 then d else DecisionOf(table[i].1)
  {
    LabelCount(table);
    SimilarLabels(table, sel, table[i].0);
    if table[i].0 in LabelSet(SimilarRows(table, sel)) {
      var j :| 0 <= j < |table| && table[j].0 == table[i].0 && table[j].1.group == sel.1.group && table[i].0 != sel.0;
      assert !(j < i) && !(i < j);
    }
  }

  /** The labels of a stored similar-rows entry; none when the entry is absent. */
  function StoredLabels(o: Option<seq<Entry>>): set<Label>
  {
    if o.Some? then LabelSet(o.value) else {}
  }

  /** The stored entry names exactly the labels of the similar rows. */
  lemma SimilarEntryLabels(table: seq<Entry>, sel: Entry)
    ensures StoredLabels(SimilarEntry(table, sel)) == LabelSet(SimilarRows(table, sel))
  {
  }

  /** Writing decisions never changes which labels are similar to a row. */
  lemma SimilarLabelsKeptByWrite(table: seq<Entry>, labels: set<Label>, d: Decision, sel: Entry)
    ensures LabelSet(SimilarRows(SetDecision(table, labels, d), sel)) == LabelSet(SimilarRows(table, sel))
  {
    var r := SetDecision(table, labels, d);
    forall l ensures l in LabelSet(SimilarRows(r, sel)) <==> l in LabelSet(SimilarRows(table, sel)) {
      SimilarLabels(r, sel, l);
      SimilarLabels(table, sel, l);
      if exists i :: 0 <= i < |r| && r[i].0 == l && r[i].1.group == sel.1.group && l != sel.0 {
        var i :| 0 <= i < |r| && r[i].0 == l && r[i].1.group == sel.1.group && l != sel.0;
        assert table[i].0 == l && table[i].1.group == sel.1.group;
      }
      if exists i :: 0 <= i < |table| && table[i].0 == l && table[i].1.group == sel.1.group && l != sel.0 {
        var i :| 0 <= i < |table| && table[i].0 == l && table[i].1.group == sel.1.group && l != sel.0;
        assert r[i].0 == l && r[i].1.group == sel.1.group;
      }
    }
  }

  /** One direction of SimilarLabelsKeptBySort. */
  lemma SimilarLabelMoves(a: seq<Entry>, b: seq<Entry>, sel: Entry, l: Label)
    requires multiset(a) == multiset(b) && l in LabelSet(SimilarRows(a, sel))
    ensures l in LabelSet(SimilarRows(b, sel))
  {
    SimilarLabels(a, sel, l);
    SimilarLabels(b, sel, l);
    var i :| 0 <= i < |a| && a[i].0 == l && a[i].1.group == sel.1.group && l != sel.0;
    assert a[i] in multiset(b);
    var j :| 0 <= j < |b| && b[j] == a[i];
  }

  /** Reordering the rows never changes which labels are similar to a row. */
  lemma SimilarLabelsKeptBySort(a: seq<Entry>, b: seq<Entry>, sel: Entry)
    requires multiset(a) == multiset(b)
    ensures LabelSet(SimilarRows(a, sel)) == LabelSet(SimilarRows(b, sel))
  {
    forall l | l in LabelSet(SimilarRows(a, sel)) ensures l in LabelSet(SimilarRows(b, sel)) {
      SimilarLabelMoves(a, b, sel, l);
    }
    forall l | l in LabelSet(SimilarRows(b, sel)) ensures l in LabelSet(SimilarRows(a, sel)) {
      SimilarLabelMoves(b, a, sel, l);
    }
  }

  // ------------------------------------------------------------- ordering

  /** The table is in non-decreasing order of Actual Date. */
  predicate SortedByActualDate(rows: seq<Entry>)
  {
    forall i, j :: 0 <= i < j < |rows| ==> Rank(rows[i].1.actualDate) <= Rank(rows[j].1.actualDate)
  }

  /** The first row of a sorted table is not later than any other. */
  lemma SortedHead(rows: seq<Entry>)
    requires SortedByActualDate(rows) && rows != []
    ensures forall x :: x in rows[1..] ==> Rank(rows[0].1.actualDate) <= Rank(x.1.actualDate)
  {
    forall x | x in rows[1..] ensures Rank(rows[0].1.actualDate) <= Rank(x.1.actualDate) {
      var k :| 0 <= k < |rows[1..]| && rows[1..][k] == x;
      assert rows[k + 1] == x;
    }
  }

  /** A row not later than every row of a sorted table can go in front of it. */
  lemma ConsSorted(x: Entry, rest: seq<Entry>)
    requires SortedByActualDate(rest)
    requires forall y :: y in rest ==> Rank(x.1.actualDate) <= Rank(y.1.actualDate)
    ensures SortedByActualDate([x] + rest)
  {
    var r := [x] + rest;
    forall i, j | 0 <= i < j < |r| ensures Rank(r[i].1.actualDate) <= Rank(r[j].1.actualDate) {
      assert r[j] == rest[j - 1];
      if i > 0 { assert r[i] == rest[i - 1]; } else { assert rest[j - 1] in rest; }
    }
  }

  /** Insert one row into a table sorted by Actual Date, before the first later row. */
  function InsertByDate(rows: seq<Entry>, e: Entry): (r: seq<Entry>)
    ensures multiset(r) == multiset(rows) + multiset{e}
  {
    if rows == [] then [e]
    else if Rank(e.1.actualDate) <= Rank(rows[0].1.actualDate) then [e] + rows
    else
      assert rows == [rows[0]] + rows[1..];
      [rows[0]] + InsertByDate(rows[1..], e)
  }

  /** Inserting into a sorted table keeps it sorted. */
  lemma {:induction false} InsertKeepsSorted(rows: seq<Entry>, e: Entry)
    requires SortedByActualDate(rows)
    ensures SortedByActualDate(InsertByDate(rows, e))
  {
    if rows == [] {
    } else if Rank(e.1.actualDate) <= Rank(rows[0].1.actualDate) {
      ConsSorted(e, rows);
    } else {
      var tail := rows[1..];
      var rest := InsertByDate(tail, e);
      InsertKeepsSorted(tail, e);
      SortedHead(rows);
      forall y | y in rest ensures Rank(rows[0].1.actualDate) <= Rank(y.1.actualDate) {
        assert y in multiset(rest);
        if y != e { assert y in multiset(tail); }
      }
      ConsSorted(rows[0], rest);
    }
  }

  /** Insertion sort by Actual Date: a sorted permutation of the rows. */
  method SortRows(rows: seq<Entry>) returns (sorted: seq<Entry>)
    ensures SortedByActualDate(sorted) && multiset(sorted) == multiset(rows)
  {
    sorted := [];
    for i := 0 to |rows|
      invariant SortedByActualDate(sorted) && multiset(sorted) == multiset(rows[..i])
    {
      assert rows[..i + 1] == rows[..i] + [rows[i]];
      InsertKeepsSorted(sorted, rows[i]);
      sorted := InsertByDate(sorted, rows[i]);
    }
    assert rows[..|rows|] == rows;
  }

  /** Every row has a real posting date at midnight and a real actual date, as loaded rows do. */
  predicate RowsWellFormed(rows: seq<Entry>)
  {
    forall i :: 0 <= i < |rows| ==>
      Valid(rows[i].1.postingDate) && IsMidnight(rows[i].1.postingDate) && Valid(rows[i].1.actualDate)
  }

  /** Rows kept under a permutation keep being well formed and keep their labels. */
  lemma PermutationKeeps(a: seq<Entry>, b: seq<Entry>)
    requires multiset(a) == multiset(b)
    ensures |a| == |b| && LabelSet(a) == LabelSet(b)
    ensures RowsWellFormed(a) ==> RowsWellFormed(b)
  {
    assert |a| == |multiset(a)| == |multiset(b)| == |b|;
    forall x ensures x in a <==> x in b {
      assert x in a <==> x in multiset(a);
      assert x in b <==> x in multiset(b);
    }
    forall l ensures l in LabelSet(a) <==> l in LabelSet(b) {
      if l in LabelSet(a) {
        var i :| 0 <= i < |a| && a[i].0 == l;
        assert a[i] in b;
      }
      if l in LabelSet(b) {
        var i :| 0 <= i < |b| && b[i].0 == l;
        assert b[i] in a;
      }
    }
    if RowsWellFormed(a) {
      forall i | 0 <= i < |b|
        ensures Valid(b[i].1.postingDate) && IsMidnight(b[i].1.postingDate) && Valid(b[i].1.actualDate)
      {
        assert b[i] in a;
      }
    }
  }

  /** The position of the first row with category c (df[df["Category"] == c].iloc[0]). */
  function FirstWithCategory(rows: seq<Entry>, c: string): (r: Option<nat>)
    ensures r.Some? ==> (r.value < |rows| && rows[r.value].1.category == c &&
      forall j :: 0 <= j < r.value ==> rows[j].1.category != c)
    ensures r.None? ==> forall j :: 0 <= j < |rows| ==> rows[j].1.category != c
  {
    if rows == [] then None
    else if rows[0].1.category == c then Some(0)
    else
      var k := FirstWithCategory(rows[1..], c);
      assert forall j :: 1 <= j < |rows| ==> rows[j] == rows[1..][j - 1];
      if k.None? then None else Some(k.value + 1)
  }

  /** The position of the row labelled l (df.loc[l]); None is the KeyError of a missing label. */
  function FindLabel(rows: seq<Entry>, l: Label): (r: Option<nat>)
    ensures r.Some? ==> r.value < |rows| && rows[r.value].0 == l
    ensures r.None? <==> l !in LabelSet(rows)
  {
    if rows == [] then None
    else if rows[0].0 == l then Some(0)
    else
      var k := FindLabel(rows[1..], l);
      assert forall j :: 1 <= j < |rows| ==> rows[j] == rows[1..][j - 1];
      assert LabelSet(rows) == {rows[0].0} + LabelSet(rows[1..]) by {
        forall m ensures m in LabelSet(rows) <==> m == rows[0].0 || m in LabelSet(rows[1..]) {
          if m in LabelSet(rows[1..]) {
            var j :| 0 <= j < |rows[1..]| && rows[1..][j].0 == m;
            assert rows[j + 1].0 == m;
          }
        }
      }
      if k.None? then None else Some(k.value + 1)
  }

  /**
   * When some row is still "Other", the row move_to_next_row selects is the
   * earliest of them: no "Other" row has an earlier actual date
   * (utils.py:215-217).
   */
  lemma NextOtherIsEarliest(rows: seq<Entry>, j: int)
    requires SortedByActualDate(rows) && RowsWellFormed(rows)
    requires FirstWithCategory(rows, DefaultCategory).Some?
    requires 0 <= j < |rows| && rows[j].1.category == DefaultCategory
    ensures NotLater(rows[FirstWithCategory(rows, DefaultCategory).value].1.actualDate, rows[j].1.actualDate)
  {
    var k := FirstWithCategory(rows, DefaultCategory).value;
    assert k <= j;
    RankIsChronological(rows[k].1.actualDate, rows[j].1.actualDate);
  }

  /**
   * The selection move_to_next_row makes in a sorted table: the first
   * "Other" row if there is one, or else the row labelled one past the
   * previous selection; `moved` is false when that label is missing, and the
   * selection then stays (utils.py:216-221).
   */
  predicate Advanced(table: seq<Entry>, before: Entry, oldSimilar: Option<seq<Entry>>,
                     selected: Option<Entry>, similar: Option<seq<Entry>>, moved: bool)
  {
    match FirstWithCategory(table, DefaultCategory)
    case Some(k) => moved && selected == Some(table[k]) && similar == SimilarEntry(table, table[k])
    case None =>
      match FindLabel(table, before.0 + 1)
      case Some(n) => moved && selected == Some(table[n]) && similar == SimilarEntry(table, table[n])
      case None => !moved && selected == Some(before) && similar == oldSimilar
  }

  // ------------------------------------------------------------------ save

  /** What save_dataframe writes for one row: the hash recomputed from the row, and its decisions (utils.py:227-230). */
  function StoreRowOf(p: Hashing, t: Transaction): StoreRow
  {
    StoreRow(HashKey(p, t.details.description, t.postingDate, t.details.amount), DecisionOf(t))
  }

  /** The store save_dataframe writes: one line per row of the table, in table order. */
  function Snapshot(p: Hashing, table: seq<Entry>): (r: seq<StoreRow>)
    ensures |r| == |table|
  {
    seq(|table|, i requires 0 <= i < |table| => StoreRowOf(p, table[i].1))
  }

  /**
   * The hash saved for a row that keeps the facts of a loaded row is the hash
   * that row was loaded with, whatever its decisions and its position have
   * become since (utils.py:19-21, 38, 229).
   */
  lemma SavedHashIsLoadedHash(files: seq<seq<RawRow>>, p: Hashing, table: seq<Entry>, i: int, j: int)
    requires Load(files, None, p).Success? && 0 <= i < |Load(files, None, p).value|
    requires 0 <= j < |table| && SameFacts(table[j].1, Load(files, None, p).value[i].1)
    ensures Some(Snapshot(p, table)[j].hash) == Load(files, None, p).value[i].1.hash
  {
    LoadWithoutStoreDefaults(files, p, i);
  }

  /** In particular after any decision write on the loaded table. */
  lemma SavedHashAfterWrite(files: seq<seq<RawRow>>, p: Hashing, labels: set<Label>, d: Decision, i: int)
    requires Load(files, None, p).Success? && 0 <= i < |Load(files, None, p).value|
    ensures var table := Load(files, None, p).value;
      Some(Snapshot(p, SetDecision(table, labels, d))[i].hash) == table[i].1.hash
  {
    var table := Load(files, None, p).value;
    SavedHashIsLoadedHash(files, p, SetDecision(table, labels, d), i, i);
  }

  /** Rows that keep their facts keep carrying the lines of the files. */
  lemma SetDecisionKeepsLines(files: seq<seq<RawRow>>, table: seq<Entry>, labels: set<Label>, d: Decision)
    requires FilesInRows(files, table)
    ensures FilesInRows(files, SetDecision(table, labels, d))
  {
    var r := SetDecision(table, labels, d);
    forall raw | InFiles(files, raw) ensures exists i :: 0 <= i < |r| && Loaded(raw, r[i].1) {
      var i :| 0 <= i < |table| && Loaded(raw, table[i].1);
      assert Loaded(raw, r[i].1);
    }
  }

  lemma PermutationKeepsLines(files: seq<seq<RawRow>>, a: seq<Entry>, b: seq<Entry>)
    requires FilesInRows(files, a) && multiset(a) == multiset(b)
    ensures FilesInRows(files, b)
  {
    forall raw | InFiles(files, raw) ensures exists i :: 0 <= i < |b| && Loaded(raw, b[i].1) {
      var i :| 0 <= i < |a| && Loaded(raw, a[i].1);
      assert a[i] in multiset(b);
      var j :| 0 <= j < |b| && b[j] == a[i];
    }
  }

  /**
   * Saving and loading again restores the decisions: when every line of the
   * files is still a row of the table, each reloaded row has the decisions
   * of a saved row with the same identity hash (utils.py:46, 229-230).
   */
  lemma ReloadRestoresDecisions(files: seq<seq<RawRow>>, p: Hashing, table: seq<Entry>, i: int)
    requires FilesInRows(files, table)
    requires Load(files, Some(Snapshot(p, table)), p).Success?
    requires 0 <= i < |Load(files, Some(Snapshot(p, table)), p).value|
    ensures var t := Load(files, Some(Snapshot(p, table)), p).value[i].1;
      exists j :: 0 <= j < |table| && StoreRowOf(p, table[j].1) == StoreRowOf(p, t)
  {
    var st := Snapshot(p, table);
    var t := Load(files, Some(st), p).value[i].1;
    var h := HashKey(p, t.details.description, t.postingDate, t.details.amount);
    LoadWithStoreRow(files, st, p, i);
    assert DecidedByStore(st, h, DecisionOf(t));
    var raw :| InFiles(files, raw) && Loaded(raw, t);
    var j :| 0 <= j < |table| && Loaded(raw, table[j].1);
    assert StoreRowOf(p, table[j].1).hash == h;
    SnapshotKnowsRow(p, table, j);
    InSnapshot(p, table, StoreRow(h, DecisionOf(t)));
  }

  /** The saved store holds a decision for the hash of every row. */
  lemma SnapshotKnowsRow(p: Hashing, table: seq<Entry>, j: int)
    requires 0 <= j < |table|
    ensures StoreMatches(Snapshot(p, table), StoreRowOf(p, table[j].1).hash) != []
  {
    var r := StoreRowOf(p, table[j].1);
    assert Snapshot(p, table)[j] == r;
    assert r.decision in StoreMatches(Snapshot(p, table), r.hash);
  }

  /** Every line of the saved store is the line of a row. */
  lemma InSnapshot(p: Hashing, table: seq<Entry>, r: StoreRow)
    requires r in Snapshot(p, table)
    ensures exists k :: 0 <= k < |table| && StoreRowOf(p, table[k].1) == r
  {
    var k :| 0 <= k < |Snapshot(p, table)| && Snapshot(p, table)[k] == r;
  }

  /**
   * When the rows sharing an identity hash share their decisions, each
   * reloaded row gets back exactly the decisions of the rows carrying its
   * line.
   */
  lemma ReloadRestoresOwnDecisions(files: seq<seq<RawRow>>, p: Hashing, table: seq<Entry>, i: int, j: int)
    requires FilesInRows(files, table)
    requires forall a, b :: 0 <= a < |table| && 0 <= b < |table| && StoreRowOf(p, table[a].1).hash == StoreRowOf(p, table[b].1).hash ==>
      DecisionOf(table[a].1) == DecisionOf(table[b].1)
    requires Load(files, Some(Snapshot(p, table)), p).Success?
    requires 0 <= i < |Load(files, Some(Snapshot(p, table)), p).value| && 0 <= j < |table|
    requires table[j].1.postingDate == Load(files, Some(Snapshot(p, table)), p).value[i].1.postingDate
    requires table[j].1.details == Load(files, Some(Snapshot(p, table)), p).value[i].1.details
    ensures DecisionOf(Load(files, Some(Snapshot(p, table)), p).value[i].1) == DecisionOf(table[j].1)
  {
    ReloadRestoresDecisions(files, p, table, i);
    var t := Load(files, Some(Snapshot(p, table)), p).value[i].1;
    var k :| 0 <= k < |table| && StoreRowOf(p, table[k].1) == StoreRowOf(p, t);
    assert StoreRowOf(p, table[j].1).hash == StoreRowOf(p, t).hash;
  }

  /** A decision taken from the options keeps every category of the table an option. */
  lemma SetDecisionKeepsOptions(table: seq<Entry>, labels: set<Label>, d: Decision)
    requires forall i :: 0 <= i < |table| ==> table[i].1.category in CategoryOptions
    requires d.category in CategoryOptions
    ensures var r := SetDecision(table, labels, d);
      forall i :: 0 <= i < |r| ==> r[i].1.category in CategoryOptions
  {
    var r := SetDecision(table, labels, d);
    forall i | 0 <= i < |r| ensures r[i].1.category in CategoryOptions {
      assert DecisionOf(r[i].1).category == r[i].1.category;
    }
  }

  // ------------------------------------------------------------ from the load

  lemma LoadedRowWellFormed(files: seq<seq<RawRow>>, store: Option<seq<StoreRow>>, p: Hashing, i: int)
    requires Load(files, store, p).Success? && 0 <= i < |Load(files, store, p).value|
    ensures var t := Load(files, store, p).value[i].1;
      Valid(t.postingDate) && IsMidnight(t.postingDate) && Valid(t.actualDate)
  {
    var t := Load(files, store, p).value[i].1;
    if store.None? {
      DefaultRowFromLine(files, p, i);
      LoadWithoutStoreDefaults(files, p, i);
    } else {
      LoadWithStoreRow(files, store.value, p, i);
    }
    var raw :| InFiles(files, raw) && Loaded(raw, t);
    ParsedPostingDateValid(raw.postingDate);
    ActualDateValid(t.details.description, t.postingDate);
  }

  /** A loaded table can start a session: one row per label, real dates throughout. */
  lemma LoadedTableFitsSession(files: seq<seq<RawRow>>, store: Option<seq<StoreRow>>, p: Hashing)
    requires Load(files, store, p).Success?
    ensures |LabelSet(Load(files, store, p).value)| == |Load(files, store, p).value|
    ensures RowsWellFormed(Load(files, store, p).value)
  {
    LoadLabelsIncrease(files, store, p);
    IncreasingLabelsUnique(Load(files, store, p).value);
    forall i | 0 <= i < |Load(files, store, p).value|
      ensures Valid(Load(files, store, p).value[i].1.postingDate) && IsMidnight(Load(files, store, p).value[i].1.postingDate)
      ensures Valid(Load(files, store, p).value[i].1.actualDate)
    {
      LoadedRowWellFormed(files, store, p, i);
    }
  }

  /** Every line of the files is carried by a loaded row, with or without a store. */
  lemma LoadCoversLines(files: seq<seq<RawRow>>, store: Option<seq<StoreRow>>, p: Hashing)
    requires Load(files, store, p).Success?
    ensures FilesInRows(files, Load(files, store, p).value)
  {
    if store.None? {
      LoadWithoutStoreRows(files, p);
    } else {
      var st := store.value;
      forall raw | InFiles(files, raw)
        ensures exists i :: 0 <= i < |Load(files, store, p).value| && Loaded(raw, Load(files, store, p).value[i].1)
      {
        LoadSucceeds(files, store, p);
        var h := HashKey(p, raw.details.description, ParsePostingDate(raw.postingDate).value, raw.details.amount);
        var d := if StoreMatches(st, h) == [] then DefaultDecision else StoreMatches(st, h)[0];
        LineInStoreRows(files, st, p, raw, d);
      }
    }
  }

  // ------------------------------------------------------------ shared labels

  /** Two exports of one line each, both dated 1 February 2023. */
  const TwoExports: seq<seq<RawRow>> :=
    [[RawRow("01/02/2023", Details("Bakker", "2,50", "", "", "", "", ""))],
     [RawRow("01/02/2023", Details("Slager", "7,10", "", "", "", "", ""))]]

  lemma ConcatOfTwoLines(a: RawRow, b: RawRow)
    ensures Concat([[a], [b]]) == [(0, a), (0, b)]
  {
    var files := [[a], [b]];
    assert files[..1] == [[a]] && [[a]][..0] == [];
    assert Concat([[a]]) == [(0, a)];
  }

  lemma DedupOfTwoLines(a: RawRow, b: RawRow)
    requires a != b
    ensures var s: seq<(Label, RawRow)> := [(0, a), (0, b)]; Dedup(s) == s
  {
    var first: seq<(Label, RawRow)> := [(0, a)];
    DedupSnoc([], (0, a));
    ValuesIndex(first);
    assert Dedup(first) == first && Values(first) == [a];
    DedupSnoc(first, (0, b));
    assert first + [(0, b)] == [(0, a), (0, b)];
  }

  /** As written, the first line of every export keeps label 0. */
  lemma SharedLabelAsWritten(p: Hashing, a: RawRow, b: RawRow)
    requires a != b
    requires ParsePostingDate(a.postingDate).Some? && ParsePostingDate(b.postingDate).Some?
    ensures LoadAsWritten([[a], [b]], None, p).Success?
    ensures var rows := LoadAsWritten([[a], [b]], None, p).value;
      |rows| == 2 && rows[0].0 == 0 && rows[1].0 == 0 &&
      rows[0].1.details == a.details && rows[1].1.details == b.details
  {
    ConcatOfTwoLines(a, b);
    DedupOfTwoLines(a, b);
    var raw := RawTableAsWritten([[a], [b]]);
    assert raw == [(0, a), (0, b)];
    assert DatesParse(raw);
    var keyed := KeyAll(p, ParsedRows(raw));
    assert KeyedTableAsWritten([[a], [b]], p) == Success(keyed);
  }

  /**
   * update_dataframe as written, after loading two exports without a store:
   * setting the decisions of the first export's row also sets them on the
   * second export's row, since both carry label 0 (utils.py:29, 165-166).
   */
  lemma ExampleUpdateHitsOtherExport(p: Hashing, d: Decision)
    ensures LoadAsWritten(TwoExports, None, p).Success?
    ensures var rows := LoadAsWritten(TwoExports, None, p).value;
      |rows| == 2 && rows[0].1.details != rows[1].1.details &&
      DecisionOf(SetDecision(rows, {rows[0].0}, d)[0].1) == d &&
      DecisionOf(SetDecision(rows, {rows[0].0}, d)[1].1) == d
  {
    var a: RawRow := TwoExports[0][0];
    var b: RawRow := TwoExports[1][0];
    assert TwoExports == [[a], [b]];
    ExampleDateParses();
    SharedLabelAsWritten(p, a, b);
    var rows := LoadAsWritten(TwoExports, None, p).value;
    var r := SetDecision(rows, {rows[0].0}, d);
    assert rows[1].0 in {rows[0].0};
  }

  // ---------------------------------------------------------------- export

  /** A line of export.csv: Datum as "%d/%m/%Y", the other input columns, the hash column when present, the decisions with Split as 0 or 1. */
  datatype ExportRow = ExportRow(datum: string, details: Details, hash: Option<string>, category: string, split: int)

  /** export(): group and Actual Date dropped, Datum formatted, Split as an integer (utils.py:238-243). */
  function ExportRowOf(t: Transaction): ExportRow
  {
    ExportRow(FormatPostingDate(t.postingDate), t.details, t.hash, t.category, if t.split then 1 else 0)
  }

  function ExportTable(table: seq<Entry>): (r: seq<ExportRow>)
    ensures |r| == |table|
  {
    seq(|table|, i requires 0 <= i < |table| => ExportRowOf(table[i].1))
  }

  /**
   * An exported line keeps the row's columns and decisions, writes Split as
   * 1 exactly when it is set, and its Datum reads back with the import
   * format to the row's posting date.
   */
  lemma ExportReadsBack(table: seq<Entry>, i: int)
    requires RowsWellFormed(table) && 0 <= i < |table|
    ensures var (e, t) := (ExportTable(table)[i], table[i].1);
      ParsePostingDate(e.datum) == Some(t.postingDate) &&
      e.details == t.details && e.hash == t.hash && e.category == t.category &&
      (e.split == 1 <==> t.split) && (e.split == 0 <==> !t.split)
  {
    PostingDateRoundTrip(table[i].1.postingDate);
  }

  // --------------------------------------------------------------- session

  /** The app's session state and the callbacks of the review page. */
  class Session {
    /** The two opaque computations of the identity hash. */
    const hashing: Hashing
    /** st.session_state.df */
    var table: seq<Entry>
    /** st.session_state["selected_row"], a copy of a row taken when it was selected */
    var selected: Option<Entry>
    /** st.session_state["similar_rows"], absent when deleted */
    var similar: Option<seq<Entry>>
    /** The contents of metadata.csv */
    var store: Option<seq<StoreRow>>
    /** The contents of export.csv */
    var exported: Option<seq<ExportRow>>

    /** Each label names one row, the rows are well formed, and the selected label is in the table. */
    predicate TableValid()
      reads this
    {
      |LabelSet(table)| == |table| && RowsWellFormed(table) &&
      (selected.Some? ==> selected.value.0 in LabelSet(table))
    }

    /**
     * TableValid, and the stored similar rows are those of the selected row,
     * since display_row runs whenever the selection changes
     * (utils.py:198-199, 220-221).
     */
    predicate Valid()
      reads this
    {
      TableValid() && (similar.Some? ==> selected.Some?) &&
      (selected.Some? ==> StoredLabels(similar) == LabelSet(SimilarRows(table, selected.value)))
    }

    /** A session over a freshly loaded table, nothing selected yet. */
    constructor(hashing: Hashing, loaded: seq<Entry>, store: Option<seq<StoreRow>>)
      requires |LabelSet(loaded)| == |loaded| && RowsWellFormed(loaded)
      ensures Valid()
      ensures this.hashing == hashing && table == loaded && selected == None && similar == None
      ensures this.store == store && exported == None
    {
      this.hashing := hashing;
      table := loaded;
      selected := None;
      similar := None;
      this.store := store;
      exported := None;
    }

    /** update_dataframe: the widget values become the selected row's Category and Split (utils.py:162-166). */
    method UpdateDataframe(category: string, split: bool)
      requires Valid() && selected.Some?
      modifies this
      ensures Valid()
      ensures table == SetDecision(old(table), {old(selected).value.0}, Decision(category, split))
      ensures selected == old(selected) && similar == old(similar) && store == old(store) && exported == old(exported)
    {
      table := SetDecision(table, {selected.value.0}, Decision(category, split));
      SimilarLabelsKeptByWrite(old(table), {selected.value.0}, Decision(category, split), selected.value);
      assert LabelSet(table) == LabelSet(old(table)) by {
        forall l ensures l in LabelSet(table) <==> l in LabelSet(old(table)) {
          if l in LabelSet(old(table)) { var i :| 0 <= i < |old(table)| && old(table)[i].0 == l; assert table[i].0 == l; }
        }
      }
    }

    /** display_row's similar-row selection for `row` (utils.py:179-187); the map, photo and calendar lookups are not modelled. */
    method DisplayRow(row: Entry)
      requires TableValid() && selected == Some(row)
      modifies this
      ensures Valid()
      ensures similar == SimilarEntry(table, row)
      ensures table == old(table) && selected == old(selected) && store == old(store) && exported == old(exported)
    {
      similar := SimilarEntry(table, row);
      SimilarEntryLabels(table, row);
    }

    /** show_entry_on_click: the first clicked position is selected and displayed (utils.py:190-199). */
    method ShowEntryOnClick(clicked: seq<nat>)
      requires Valid()
      requires clicked != [] ==> clicked[0] < |table|
      modifies this
      ensures Valid()
      ensures table == old(table) && store == old(store) && exported == old(exported)
      ensures clicked == [] ==> selected == old(selected) && similar == old(similar)
      ensures clicked != [] ==> selected == Some(table[clicked[0]]) && similar == SimilarEntry(table, table[clicked[0]])
    {
      if clicked == [] {
        return;
      }
      assert table[clicked[0]].0 in LabelSet(table);
      selected := Some(table[clicked[0]]);
      DisplayRow(table[clicked[0]]);
    }

    /** df.sort_values(by="Actual Date", inplace=True): some non-decreasing permutation (utils.py:215). */
    method SortByActualDate()
      requires Valid()
      modifies this
      ensures Valid()
      ensures SortedByActualDate(table) && multiset(table) == multiset(old(table))
      ensures selected == old(selected) && similar == old(similar) && store == old(store) && exported == old(exported)
    {
      var sorted := SortRows(table);
      PermutationKeeps(table, sorted);
      if selected.Some? {
        SimilarLabelsKeptBySort(table, sorted, selected.value);
      }
      table := sorted;
    }

    /**
     * move_to_next_row: sort by actual date, then select the first "Other"
     * row, or else the row labelled one past the current selection, and
     * display it (utils.py:214-221).
     */
    method MoveToNextRow() returns (moved: bool)
      requires Valid() && selected.Some?
      modifies this
      ensures Valid()
      ensures SortedByActualDate(table) && multiset(table) == multiset(old(table))
      ensures Advanced(table, old(selected).value, old(similar), selected, similar, moved)
      ensures store == old(store) && exported == old(exported)
    {
      SortByActualDate();
      var k := FirstWithCategory(table, DefaultCategory);
      if k.Some? {
        assert table[k.value].0 in LabelSet(table);
        selected := Some(table[k.value]);
        DisplayRow(table[k.value]);
        return true;
      }
      var n := FindLabel(table, selected.value.0 + 1);
      if n.None? {
        return false;
      }
      assert table[n.value].0 in LabelSet(table);
      selected := Some(table[n.value]);
      DisplayRow(table[n.value]);
      moved := true;
    }

    /** save_dataframe: the store becomes one line per row, hash recomputed (utils.py:224-230). */
    method SaveDataframe()
      modifies this
      ensures store == Some(Snapshot(hashing, table))
      ensures table == old(table) && selected == old(selected) && similar == old(similar) && exported == old(exported)
    {
      var rows: seq<StoreRow> := [];
      for i := 0 to |table|
        invariant rows == Snapshot(hashing, table[..i])
      {
        rows := rows + [StoreRowOf(hashing, table[i].1)];
      }
      assert table[..|table|] == table;
      store := Some(rows);
    }

    /** The loop of apply_to_all: each similar row's label gets the widget values (utils.py:206-208). */
    method WriteSimilar(d: Decision)
      requires Valid() && similar.Some?
      modifies this
      ensures Valid()
      ensures table == SetDecision(old(table), LabelSet(old(similar).value), d)
      ensures table == SetDecision(old(table), LabelSet(SimilarRows(old(table), old(selected).value)), d)
      ensures selected == old(selected) && similar == old(similar) && store == old(store) && exported == old(exported)
    {
      var rows := similar.value;
      for k := 0 to |rows|
        invariant table == SetDecision(old(table), LabelSet(rows[..k]), d)
        invariant selected == old(selected) && similar == old(similar) && store == old(store) && exported == old(exported)
      {
        assert LabelSet(rows[..k + 1]) == LabelSet(rows[..k]) + {rows[k].0} by {
          assert rows[..k + 1] == rows[..k] + [rows[k]];
        }
        SetDecisionUnion(old(table), LabelSet(rows[..k]), {rows[k].0}, d);
        table := SetDecision(table, {rows[k].0}, d);
      }
      assert rows[..|rows|] == rows;
      SimilarLabelsKeptByWrite(old(table), LabelSet(rows), d, selected.value);
      assert LabelSet(table) == LabelSet(old(table)) by {
        forall l ensures l in LabelSet(table) <==> l in LabelSet(old(table)) {
          if l in LabelSet(old(table)) { var i :| 0 <= i < |old(table)| && old(table)[i].0 == l; assert table[i].0 == l; }
        }
      }
    }

    /** apply_to_all: write the similar rows, save, and move on (utils.py:202-211). */
    method ApplyToAll(category: string, split: bool) returns (moved: bool)
      requires Valid() && selected.Some? && similar.Some?
      modifies this
      ensures Valid()
      ensures var written := SetDecision(old(table), LabelSet(SimilarRows(old(table), old(selected).value)), Decision(category, split));
        store == Some(Snapshot(hashing, written)) &&
        SortedByActualDate(table) && multiset(table) == multiset(written) &&
        Advanced(table, old(selected).value, old(similar), selected, similar, moved)
      ensures exported == old(exported)
    {
      WriteSimilar(Decision(category, split));
      SaveDataframe();
      moved := MoveToNextRow();
    }

    /** apply_single_row: save, and move on (utils.py:233-235). */
    method ApplySingleRow() returns (moved: bool)
      requires Valid() && selected.Some?
      modifies this
      ensures Valid()
      ensures store == Some(Snapshot(hashing, old(table)))
      ensures SortedByActualDate(table) && multiset(table) == multiset(old(table))
      ensures Advanced(table, old(selected).value, old(similar), selected, similar, moved)
      ensures exported == old(exported)
    {
      SaveDataframe();
      moved := MoveToNextRow();
    }

    /** export: write export.csv from the table (utils.py:238-243). */
    method Export()
      modifies this
      ensures exported == Some(ExportTable(table))
      ensures table == old(table) && selected == old(selected) && similar == old(similar) && store == old(store)
    {
      exported := Some(ExportTable(table));
    }
  }
}
