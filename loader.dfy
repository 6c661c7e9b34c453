/**
 * load_data: concatenate the raw exports, drop duplicate rows, parse the
 * posting date, compute the identity hash and the group, attach the
 * decisions (defaults without a store, a left join on the hash with one),
 * and resolve the actual date.
 */
module Loader {
  import opened Wrappers
  import opened Calendar
  import opened Config
  import opened Grouping
  import opened DateResolver
  import opened Identity
  import opened Records
  import opened Duplicates

  /** The errors that stop load_data: pd.concat of no files, and a Datum pandas cannot parse. */
  datatype LoadError = NoDataFiles | UnparseableDate(text: string)

  /** A fresh RangeIndex: row i gets label i. */
  function Numbered<T>(xs: seq<T>): (r: seq<(Label, T)>)
    ensures IncreasingLabels(r) && Values(r) == xs
  {
    seq(|xs|, i requires 0 <= i < |xs| => (i, xs[i]))
  }

  /** pd.concat of the files read one by one; each keeps its own labels 0..n-1. */
  function Concat(files: seq<seq<RawRow>>): seq<(Label, RawRow)>
  {
    if files == [] then [] else Concat(files[..|files| - 1]) + Numbered(files[|files| - 1])
  }

  /** Every Datum of the table parses with "%d/%m/%Y". */
  predicate DatesParse(rows: seq<(Label, RawRow)>)
  {
    forall i :: 0 <= i < |rows| ==> ParsePostingDate(rows[i].1.postingDate).Some?
  }

  /** Row i is the first whose Datum does not parse. */
  predicate FirstUnparseable(rows: seq<(Label, RawRow)>, i: int)
  {
    0 <= i < |rows| && ParsePostingDate(rows[i].1.postingDate).None? &&
    forall j :: 0 <= j < i ==> ParsePostingDate(rows[j].1.postingDate).Some?
  }

  /** The position of the first false flag. */
  function FirstFalse(flags: seq<bool>): (k: nat)
    requires false in flags
    ensures k < |flags| && !flags[k] && forall j :: 0 <= j < k ==> flags[j]
  {
    if !flags[0] then 0
    else
      var k := FirstFalse(flags[1..]);
      assert forall j :: 0 <= j < k ==> flags[1..][j] == flags[j + 1];
      k + 1
  }

  /** The position of the value pandas reports when the column does not parse. */
  function FirstUnparseableIndex(rows: seq<(Label, RawRow)>): (k: nat)
    requires !DatesParse(rows)
    ensures FirstUnparseable(rows, k)
  {
    var flags := seq(|rows|, i requires 0 <= i < |rows| => ParsePostingDate(rows[i].1.postingDate).Some?);
    var i :| 0 <= i < |rows| && ParsePostingDate(rows[i].1.postingDate).None?;
    assert !flags[i];
    var k := FirstFalse(flags);
    assert forall j :: 0 <= j < k ==> flags[j] == ParsePostingDate(rows[j].1.postingDate).Some?;
    k
  }

  /** The column with every Datum parsed, labels and other columns unchanged. */
  function ParsedRows(rows: seq<(Label, RawRow)>): (r: seq<(Label, Dated)>)
    requires DatesParse(rows)
    ensures |r| == |rows|
    ensures forall i :: 0 <= i < |rows| ==>
      r[i].0 == rows[i].0 && r[i].1.details == rows[i].1.details &&
      Valid(r[i].1.postingDate) && IsMidnight(r[i].1.postingDate) &&
      ParsePostingDate(rows[i].1.postingDate) == Some(r[i].1.postingDate)
  {
    seq(|rows|, i requires 0 <= i < |rows| => (rows[i].0, Dated(ParsePostingDate(rows[i].1.postingDate).value, rows[i].1.details)))
  }

  /**
   * pd.to_datetime(Datum, format="%d/%m/%Y") over the column: every row is
   * parsed, or the load stops at the first value that cannot be (utils.py:32).
   */
  function ParseDates(rows: seq<(Label, RawRow)>): Result<seq<(Label, Dated)>, LoadError>
  {
    if DatesParse(rows) then Success(ParsedRows(rows))
    else Failure(UnparseableDate(rows[FirstUnparseableIndex(rows)].1.postingDate))
  }

  /** The hash and group of a dated row (utils.py:38, 41). */
  function KeyRow(p: Hashing, d: Dated): Keyed
  {
    Keyed(d.postingDate, d.details,
          HashKey(p, d.details.description, d.postingDate, d.details.amount),
          GroupKey(p.digest, d.details.description))
  }

  function KeyAll(p: Hashing, rows: seq<(Label, Dated)>): seq<(Label, Keyed)>
  {
    seq(|rows|, i requires 0 <= i < |rows| => (rows[i].0, KeyRow(p, rows[i].1)))
  }

  /** A finished review-table row, with its actual date resolved (utils.py:60-61). */
  function Finish(k: Keyed, hash: Option<string>, d: Decision): Transaction
  {
    Transaction(k.postingDate, k.details, hash, k.group, d.category, d.split,
                ActualDate(k.details.description, k.postingDate))
  }

  /** The decisions of a row that no store has seen. */
  const DefaultDecision: Decision := Decision(DefaultCategory, false)

  /** Without a store: Category "Other", Split false, the hash column kept (utils.py:55-58). */
  function WithDefaults(rows: seq<(Label, Keyed)>): seq<Entry>
  {
    seq(|rows|, i requires 0 <= i < |rows| => (rows[i].0, Finish(rows[i].1, Some(rows[i].1.hash), DefaultDecision)))
  }

  /** The decisions the store holds for hash h, in store order. */
  function StoreMatches(store: seq<StoreRow>, h: string): (r: seq<Decision>)
    ensures forall d :: d in r <==> StoreRow(h, d) in store
  {
    if store == [] then []
    else
      var rest := StoreMatches(store[1..], h);
      assert forall x :: x in store <==> x == store[0] || x in store[1..];
      if store[0].hash == h then [store[0].decision] + rest else rest
  }

  /** The decision column a left-joined row carries for hash h: a store decision for h, or none when the store has none. */
  predicate JoinedWith(store: seq<StoreRow>, h: string, o: Option<Decision>)
  {
    if StoreMatches(store, h) == [] then o == None else o.Some? && o.value in StoreMatches(store, h)
  }

  /** The rows one left row contributes to a left join: one per match, or one with no decision. */
  function JoinRow(k: Keyed, store: seq<StoreRow>): (r: seq<(Keyed, Option<Decision>)>)
    ensures |r| >= 1
    ensures forall x :: x in r <==> x.0 == k && JoinedWith(store, k.hash, x.1)
  {
    var m := StoreMatches(store, k.hash);
    if m == [] then [(k, None)]
    else
      var r := seq(|m|, i requires 0 <= i < |m| => (k, Some(m[i])));
      assert forall x :: x in r ==> x.0 == k && x.1.Some? && x.1.value in m;
      assert forall d :: d in m ==> (k, Some(d)) in r by {
        forall d | d in m ensures (k, Some(d)) in r {
          var i :| 0 <= i < |m| && m[i] == d;
          assert r[i] == (k, Some(d));
        }
      }
      r
  }

  /** df.merge(metadata, on="hash", how="left"): left rows in order, each with its matches. */
  function MergeLeft(rows: seq<Keyed>, store: seq<StoreRow>): seq<(Keyed, Option<Decision>)>
  {
    if rows == [] then [] else MergeLeft(rows[..|rows| - 1], store) + JoinRow(rows[|rows| - 1], store)
  }

  /** The decisions a merged row ends with, as the load is evidently meant to fill them: "Other" and false when unmatched. */
  function FillDecision(d: Option<Decision>): Decision
  {
    if d.Some? then d.value else DefaultDecision
  }

  /**
   * The decisions as utils.py:50-52 compute them: astype(str) turns the
   * missing category into the text "nan" before fillna can see it, and
   * astype(bool) turns the missing split into True.
   */
  function FillDecisionAsWritten(d: Option<Decision>): Decision
  {
    if d.Some? then d.value else Decision("nan", true)
  }

  /** The merge branch after deduplication: hash dropped, decisions filled (utils.py:48-52). */
  function MergeFill(rows: seq<(Label, (Keyed, Option<Decision>))>): seq<Entry>
  {
    seq(|rows|, i requires 0 <= i < |rows| => (rows[i].0, Finish(rows[i].1.0, None, FillDecision(rows[i].1.1))))
  }

  function MergeFillAsWritten(rows: seq<(Label, (Keyed, Option<Decision>))>): seq<Entry>
  {
    seq(|rows|, i requires 0 <= i < |rows| => (rows[i].0, Finish(rows[i].1.0, None, FillDecisionAsWritten(rows[i].1.1))))
  }

  /**
   * pd.concat(data, ignore_index=True): the lines of all files, relabelled
   * 0..n-1, so that a label names one line. utils.py:29 leaves out
   * ignore_index, which gives Concat's repeated labels.
   */
  function Stacked(files: seq<seq<RawRow>>): seq<(Label, RawRow)>
  {
    Numbered(Values(Concat(files)))
  }

  /** The deduplicated raw rows of all files, with a label per line (utils.py:26-30). */
  function RawTable(files: seq<seq<RawRow>>): seq<(Label, RawRow)>
  {
    Dedup(Stacked(files))
  }

  /** The deduplicated raw rows as utils.py:29-30 compute them: each file keeps its own labels. */
  function RawTableAsWritten(files: seq<seq<RawRow>>): seq<(Label, RawRow)>
  {
    Dedup(Concat(files))
  }

  /** Parse the Datum column, then compute the hash and the group (utils.py:32-41). */
  function Keying(raw: seq<(Label, RawRow)>, p: Hashing): Result<seq<(Label, Keyed)>, LoadError>
  {
    match ParseDates(raw)
    case Failure(e) => Failure(e)
    case Success(dated) => Success(KeyAll(p, dated))
  }

  /** Everything load_data computes before the decisions are attached (utils.py:24-41). */
  function KeyedTable(files: seq<seq<RawRow>>, p: Hashing): Result<seq<(Label, Keyed)>, LoadError>
  {
    if files == [] then Failure(NoDataFiles) else Keying(RawTable(files), p)
  }

  function KeyedTableAsWritten(files: seq<seq<RawRow>>, p: Hashing): Result<seq<(Label, Keyed)>, LoadError>
  {
    if files == [] then Failure(NoDataFiles) else Keying(RawTableAsWritten(files), p)
  }

  /** The merge, relabelled 0..n-1 as pandas does, then deduplicated (utils.py:46-47). */
  function Joined(keyed: seq<(Label, Keyed)>, store: seq<StoreRow>): seq<(Label, (Keyed, Option<Decision>))>
  {
    Dedup(Numbered(MergeLeft(Values(keyed), store)))
  }

  /**
   * The whole of load_data, with the store's contents when metadata.csv
   * exists, with the two corrections: one label per line, and "Other" and
   * false for rows the store does not know.
   */
  function Load(files: seq<seq<RawRow>>, store: Option<seq<StoreRow>>, p: Hashing): Result<seq<Entry>, LoadError>
  {
    match KeyedTable(files, p)
    case Failure(e) => Failure(e)
    case Success(keyed) =>
      match store
      case None => Success(WithDefaults(keyed))
      case Some(st) => Success(MergeFill(Joined(keyed, st)))
  }

  /**
   * load_data exactly as written: per-file labels (utils.py:29), and the
   * merge branch fills with "nan" and True (utils.py:50-52).
   */
  function LoadAsWritten(files: seq<seq<RawRow>>, store: Option<seq<StoreRow>>, p: Hashing): Result<seq<Entry>, LoadError>
  {
    match KeyedTableAsWritten(files, p)
    case Failure(e) => Failure(e)
    case Success(keyed) =>
      match store
      case None => Success(WithDefaults(keyed))
      case Some(st) => Success(MergeFillAsWritten(Joined(keyed, st)))
  }

  /** load_data: read the files in a loop, concatenate, deduplicate, enrich and merge. */
  method LoadData(files: seq<seq<RawRow>>, store: Option<seq<StoreRow>>, p: Hashing)
    returns (r: Result<seq<Entry>, LoadError>)
    ensures r == Load(files, store, p)
  {
    var lines: seq<RawRow> := [];
    for i := 0 to |files|
      invariant lines == Values(Concat(files[..i]))
    {
      assert files[..i + 1][..i] == files[..i];
      assert Values(Concat(files[..i + 1])) == Values(Concat(files[..i])) + Values(Numbered(files[i]));
      lines := lines + files[i];
    }
    assert files[..|files|] == files;
    if |files| == 0 {
      return Failure(NoDataFiles);
    }
    var raw := DropDuplicates(Numbered(lines));
    var parsed := ParseDates(raw);
    if parsed.Failure? {
      return Failure(parsed.error);
    }
    var keyed := KeyAll(p, parsed.value);
    if store.None? {
      r := Success(WithDefaults(keyed));
    } else {
      var merged := Numbered(MergeLeft(Values(keyed), store.value));
      var kept := DropDuplicates(merged);
      r := Success(MergeFill(kept));
    }
  }

  /** `raw` is a line of one of the export files. */
  ghost predicate InFiles(files: seq<seq<RawRow>>, raw: RawRow)
  {
    exists j :: 0 <= j < |files| && raw in files[j]
  }

  /** `k` is what load_data derives from the export line `raw`. */
  predicate DerivedFrom(p: Hashing, raw: RawRow, k: Keyed)
  {
    ParsePostingDate(raw.postingDate).Some? &&
    k == KeyRow(p, Dated(ParsePostingDate(raw.postingDate).value, raw.details))
  }

  /** `t` carries the parsed Datum and the other columns of the export line `raw`. */
  predicate Loaded(raw: RawRow, t: Transaction)
  {
    ParsePostingDate(raw.postingDate) == Some(t.postingDate) && t.details == raw.details
  }

  /** The row `t` carries a line of the files. */
  ghost predicate FromFiles(files: seq<seq<RawRow>>, t: Transaction)
  {
    exists raw :: InFiles(files, raw) && Loaded(raw, t)
  }

  /** Every row of the table carries a line of the files. */
  ghost predicate RowsFromFiles(files: seq<seq<RawRow>>, rows: seq<Entry>)
  {
    forall i :: 0 <= i < |rows| ==> FromFiles(files, rows[i].1)
  }

  /** Every line of the files is carried by a row of the table. */
  ghost predicate FilesInRows(files: seq<seq<RawRow>>, rows: seq<Entry>)
  {
    forall raw :: InFiles(files, raw) ==> exists i :: 0 <= i < |rows| && Loaded(raw, rows[i].1)
  }

  lemma {:induction false} ConcatAppend(a: seq<seq<RawRow>>, b: seq<seq<RawRow>>)
    ensures Concat(a + b) == Concat(a) + Concat(b)
    decreases |b|
  {
    if b == [] {
      assert a + b == a;
    } else {
      var ab, init, last := a + b, b[..|b| - 1], b[|b| - 1];
      assert ab[..|ab| - 1] == a + init;
      assert ab[|ab| - 1] == last;
      assert Concat(ab) == Concat(a + init) + Numbered(last);
      ConcatAppend(a, init);
      assert Concat(b) == Concat(init) + Numbered(last);
    }
  }

  /** The concatenated table holds exactly the lines of the files. */
  lemma {:induction false} ConcatValues(files: seq<seq<RawRow>>)
    ensures forall raw :: raw in Values(Concat(files)) <==> InFiles(files, raw)
    decreases |files|
  {
    if files != [] {
      var init, last := files[..|files| - 1], files[|files| - 1];
      ConcatValues(init);
      var c := Concat(init);
      var n := Numbered(last);
      assert Values(c + n) == Values(c) + Values(n);
      assert Values(n) == last;
      forall raw ensures raw in Values(Concat(files)) <==> InFiles(files, raw) {
        if InFiles(init, raw) {
          var j :| 0 <= j < |init| && raw in init[j];
          assert files[j] == init[j];
        }
        if InFiles(files, raw) {
          var j :| 0 <= j < |files| && raw in files[j];
          if j < |init| { assert raw in init[j]; }
        }
      }
    }
  }

  /** The deduplicated raw table holds exactly the lines of the files, each once. */
  lemma RawTableValues(files: seq<seq<RawRow>>)
    ensures forall raw :: raw in Values(RawTable(files)) <==> InFiles(files, raw)
    ensures |RawTable(files)| == |ValueSet(Concat(files))|
  {
    var c := Concat(files);
    ConcatValues(files);
    assert Values(Stacked(files)) == Values(c);
    ValuesIndex(c);
    ValuesIndex(Stacked(files));
    DedupValues(Stacked(files));
    DedupCount(Stacked(files));
    forall v ensures v in ValueSet(Stacked(files)) <==> v in ValueSet(c) {
      assert v in ValueSet(Stacked(files)) <==> v in Values(Stacked(files));
      assert v in ValueSet(c) <==> v in Values(c);
    }
    assert ValueSet(Stacked(files)) == ValueSet(c);
  }

  /** The keyed rows of a successful load, one per row of the raw table. */
  lemma KeyedTableShape(files: seq<seq<RawRow>>, p: Hashing)
    requires KeyedTable(files, p).Success?
    ensures files != [] && DatesParse(RawTable(files))
    ensures KeyedTable(files, p).value == KeyAll(p, ParsedRows(RawTable(files)))
  {
  }

  /** There are as many keyed rows as distinct lines in the files. */
  lemma KeyedTableSize(files: seq<seq<RawRow>>, p: Hashing)
    requires KeyedTable(files, p).Success?
    ensures |KeyedTable(files, p).value| == |ValueSet(Concat(files))|
  {
    KeyedTableShape(files, p);
    RawTableValues(files);
  }

  /** Each keyed row is derived from a line of the files. */
  lemma KeyedRowFromLine(files: seq<seq<RawRow>>, p: Hashing, i: int)
    requires KeyedTable(files, p).Success? && 0 <= i < |KeyedTable(files, p).value|
    ensures exists r :: InFiles(files, r) && DerivedFrom(p, r, KeyedTable(files, p).value[i].1)
  {
    KeyedTableShape(files, p);
    var raw := RawTable(files);
    RawTableValues(files);
    RowDerived(p, raw, ParsedRows(raw), i);
    assert raw[i].1 == Values(raw)[i];
  }

  /** Each line of the files gives a keyed row. */
  lemma LineHasKeyedRow(files: seq<seq<RawRow>>, p: Hashing, r: RawRow)
    requires KeyedTable(files, p).Success? && InFiles(files, r)
    ensures exists i :: 0 <= i < |KeyedTable(files, p).value| && DerivedFrom(p, r, KeyedTable(files, p).value[i].1)
  {
    KeyedTableShape(files, p);
    var raw := RawTable(files);
    RawTableValues(files);
    var i :| 0 <= i < |raw| && Values(raw)[i] == r;
    RowDerived(p, raw, ParsedRows(raw), i);
  }

  lemma RowDerived(p: Hashing, raw: seq<(Label, RawRow)>, dated: seq<(Label, Dated)>, i: int)
    requires DatesParse(raw) && dated == ParsedRows(raw) && 0 <= i < |raw|
    ensures i < |KeyAll(p, dated)| && DerivedFrom(p, raw[i].1, KeyAll(p, dated)[i].1)
  {
  }

  /** load_data fails exactly when there are no files or some line's Datum does not parse. */
  lemma LoadSucceeds(files: seq<seq<RawRow>>, store: Option<seq<StoreRow>>, p: Hashing)
    ensures Load(files, store, p).Success? <==>
      files != [] && forall raw :: InFiles(files, raw) ==> ParsePostingDate(raw.postingDate).Some?
    ensures files == [] ==> Load(files, store, p) == Failure(NoDataFiles)
  {
    if files != [] {
      RawTableValues(files);
      var raw := RawTable(files);
      if forall r :: InFiles(files, r) ==> ParsePostingDate(r.postingDate).Some? {
        forall i | 0 <= i < |raw| ensures ParsePostingDate(raw[i].1.postingDate).Some? {
          assert Values(raw)[i] == raw[i].1;
        }
      } else {
        var r :| InFiles(files, r) && ParsePostingDate(r.postingDate).None?;
        var i :| 0 <= i < |raw| && Values(raw)[i] == r;
        assert ParsePostingDate(raw[i].1.postingDate).None?;
      }
    }
  }

  /**
   * Without a store every row is "Other" and not split, and carries its
   * identity hash, its group and its actual date.
   */
  lemma LoadWithoutStoreDefaults(files: seq<seq<RawRow>>, p: Hashing, i: int)
    requires Load(files, None, p).Success? && 0 <= i < |Load(files, None, p).value|
    ensures var t := Load(files, None, p).value[i].1;
      t.category == DefaultCategory && t.category in CategoryOptions && !t.split &&
      t.hash == Some(HashKey(p, t.details.description, t.postingDate, t.details.amount)) &&
      t.group == GroupKey(p.digest, t.details.description) &&
      t.actualDate == ActualDate(t.details.description, t.postingDate)
  {
    CategoryOptionsShape();
  }

  /** Without a store the rows are the distinct lines of the files: as many, each from a line, each line present. */
  lemma LoadWithoutStoreRows(files: seq<seq<RawRow>>, p: Hashing)
    requires Load(files, None, p).Success?
    ensures var rows := Load(files, None, p).value;
      |rows| == |ValueSet(Concat(files))| && RowsFromFiles(files, rows) && FilesInRows(files, rows)
  {
    KeyedTableSize(files, p);
    var rows := Load(files, None, p).value;
    forall i | 0 <= i < |rows| ensures FromFiles(files, rows[i].1) {
      DefaultRowFromLine(files, p, i);
    }
    forall raw | InFiles(files, raw) ensures exists i :: 0 <= i < |rows| && Loaded(raw, rows[i].1) {
      LineInDefaultRows(files, p, raw);
    }
  }

  lemma DefaultRowFromLine(files: seq<seq<RawRow>>, p: Hashing, i: int)
    requires Load(files, None, p).Success? && 0 <= i < |Load(files, None, p).value|
    ensures FromFiles(files, Load(files, None, p).value[i].1)
  {
    var keyed := KeyedTable(files, p).value;
    KeyedRowFromLine(files, p, i);
    var raw :| InFiles(files, raw) && DerivedFrom(p, raw, keyed[i].1);
    assert Loaded(raw, Load(files, None, p).value[i].1);
  }

  lemma LineInDefaultRows(files: seq<seq<RawRow>>, p: Hashing, raw: RawRow)
    requires Load(files, None, p).Success? && InFiles(files, raw)
    ensures exists i :: 0 <= i < |Load(files, None, p).value| && Loaded(raw, Load(files, None, p).value[i].1)
  {
    var keyed := KeyedTable(files, p).value;
    LineHasKeyedRow(files, p, raw);
    var i :| 0 <= i < |keyed| && DerivedFrom(p, raw, keyed[i].1);
    assert Loaded(raw, Load(files, None, p).value[i].1);
  }

  /** Appending lines that are all present already leaves the deduplicated, relabelled table unchanged. */
  lemma DedupNumberedAbsorbs<T>(a: seq<T>, b: seq<T>)
    requires forall v :: v in b ==> v in a
    ensures Dedup(Numbered(a + b)) == Dedup(Numbered(a))
  {
    var t := seq(|b|, i requires 0 <= i < |b| => (|a| + i, b[i]));
    var na := Numbered(a);
    assert Numbered(a + b) == na + t by {
      forall i | 0 <= i < |a + b| ensures Numbered(a + b)[i] == (na + t)[i] {
        if i >= |a| { assert (na + t)[i] == t[i - |a|]; }
      }
    }
    assert Values(t) == b;
    assert Values(na) == a;
    DedupAbsorbs(na, t);
  }

  /** Concatenating the same exports twice loads the same table as once. */
  lemma LoadImportTwice(files: seq<seq<RawRow>>, store: Option<seq<StoreRow>>, p: Hashing)
    ensures Load(files + files, store, p) == Load(files, store, p)
  {
    var v := Values(Concat(files));
    ConcatAppend(files, files);
    assert Values(Concat(files + files)) == v + v;
    DedupNumberedAbsorbs(v, v);
    assert RawTable(files + files) == RawTable(files);
  }

  /** An extra export whose lines all appear in earlier exports changes nothing. */
  lemma LoadAbsorbsOverlap(files: seq<seq<RawRow>>, extra: seq<RawRow>, store: Option<seq<StoreRow>>, p: Hashing)
    requires files != []
    requires forall raw :: raw in extra ==> InFiles(files, raw)
    ensures Load(files + [extra], store, p) == Load(files, store, p)
  {
    var v := Values(Concat(files));
    assert (files + [extra])[..|files|] == files;
    assert Values(Numbered(extra)) == extra;
    assert Values(Concat(files + [extra])) == v + extra;
    ConcatValues(files);
    DedupNumberedAbsorbs(v, extra);
    assert RawTable(files + [extra]) == RawTable(files);
  }

  lemma ParsedSameValues(r1: seq<(Label, RawRow)>, r2: seq<(Label, RawRow)>, p: Hashing)
    requires |r1| == |r2| && forall i :: 0 <= i < |r1| ==> r1[i].1 == r2[i].1
    requires DatesParse(r1)
    ensures DatesParse(r2) && Values(KeyAll(p, ParsedRows(r1))) == Values(KeyAll(p, ParsedRows(r2)))
  {
    var k1, k2 := KeyAll(p, ParsedRows(r1)), KeyAll(p, ParsedRows(r2));
    forall i | 0 <= i < |k1| ensures Values(k1)[i] == Values(k2)[i] {
      assert k1[i].1 == KeyRow(p, Dated(ParsePostingDate(r1[i].1.postingDate).value, r1[i].1.details));
    }
  }

  lemma FailedSameText(r1: seq<(Label, RawRow)>, r2: seq<(Label, RawRow)>)
    requires |r1| == |r2| && forall i :: 0 <= i < |r1| ==> r1[i].1 == r2[i].1
    requires !DatesParse(r1)
    ensures !DatesParse(r2) && r1[FirstUnparseableIndex(r1)].1.postingDate == r2[FirstUnparseableIndex(r2)].1.postingDate
  {
    var k1, k2 := FirstUnparseableIndex(r1), FirstUnparseableIndex(r2);
    assert !(k1 < k2) && !(k2 < k1);
  }

  /** Keying depends on the lines only, not on their labels. */
  lemma KeyingSameValues(r1: seq<(Label, RawRow)>, r2: seq<(Label, RawRow)>, p: Hashing)
    requires Values(r1) == Values(r2)
    ensures Keying(r1, p).Success? == Keying(r2, p).Success?
    ensures Keying(r1, p).Success? ==> Values(Keying(r1, p).value) == Values(Keying(r2, p).value)
    ensures Keying(r1, p).Failure? ==> Keying(r1, p).error == Keying(r2, p).error
  {
    forall i | 0 <= i < |r1| ensures r1[i].1 == r2[i].1 {
      assert Values(r1)[i] == Values(r2)[i];
    }
    if DatesParse(r1) {
      ParsedSameValues(r1, r2, p);
    } else {
      FailedSameText(r1, r2);
    }
  }

  /** The load as written succeeds or fails as the corrected one, on the same rows in the same order. */
  lemma KeyedAsWrittenSameRows(files: seq<seq<RawRow>>, p: Hashing)
    ensures KeyedTableAsWritten(files, p).Success? == KeyedTable(files, p).Success?
    ensures KeyedTable(files, p).Success? ==> Values(KeyedTableAsWritten(files, p).value) == Values(KeyedTable(files, p).value)
    ensures KeyedTable(files, p).Failure? ==> KeyedTableAsWritten(files, p).error == KeyedTable(files, p).error
  {
    if files != [] {
      assert Values(Stacked(files)) == Values(Concat(files));
      DedupSameValues(Concat(files), Stacked(files));
      KeyingSameValues(RawTableAsWritten(files), RawTable(files), p);
    }
  }

  /** The merge holds each left row with each of its store decisions, or with none when unmatched. */
  lemma {:induction false} MergeLeftMembers(rows: seq<Keyed>, store: seq<StoreRow>)
    ensures forall x :: x in MergeLeft(rows, store) <==> x.0 in rows && JoinedWith(store, x.0.hash, x.1)
  {
    if rows != [] {
      var init, last := rows[..|rows| - 1], rows[|rows| - 1];
      MergeLeftMembers(init, store);
      assert rows == init + [last];
      assert forall k :: k in rows <==> k in init || k == last;
    }
  }

  lemma JoinedMembers(keyed: seq<(Label, Keyed)>, store: seq<StoreRow>)
    ensures forall x :: x in Values(Joined(keyed, store)) <==> x.0 in Values(keyed) && JoinedWith(store, x.0.hash, x.1)
  {
    var m := MergeLeft(Values(keyed), store);
    MergeLeftMembers(Values(keyed), store);
    assert Values(Numbered(m)) == m;
    DedupValues(Numbered(m));
    forall x ensures x in Values(Joined(keyed, store)) <==> x in m {
      assert x in Values(Joined(keyed, store)) <==> x in Values(Numbered(m));
    }
  }

  /** The decisions a row with hash h ends with: one the store holds for h, or the defaults when it holds none. */
  predicate DecidedByStore(store: seq<StoreRow>, h: string, d: Decision)
  {
    if StoreMatches(store, h) == [] then d == DefaultDecision else StoreRow(h, d) in store
  }

  /** A row of the join carries a keyed row of the files, with its identity hash, and a decision joined on that hash. */
  lemma JoinedRowFromLine(files: seq<seq<RawRow>>, st: seq<StoreRow>, p: Hashing, i: int)
    requires KeyedTable(files, p).Success? && 0 <= i < |Joined(KeyedTable(files, p).value, st)|
    ensures var x := Joined(KeyedTable(files, p).value, st)[i].1;
      JoinedWith(st, x.0.hash, x.1) &&
      x.0.hash == HashKey(p, x.0.details.description, x.0.postingDate, x.0.details.amount) &&
      x.0.group == GroupKey(p.digest, x.0.details.description) &&
      exists raw :: InFiles(files, raw) && DerivedFrom(p, raw, x.0)
  {
    var keyed := KeyedTable(files, p).value;
    var joined := Joined(keyed, st);
    JoinedMembers(keyed, st);
    var x := joined[i].1;
    assert x in Values(joined) by { assert Values(joined)[i] == x; }
    var j :| 0 <= j < |keyed| && Values(keyed)[j] == x.0;
    KeyedRowFromLine(files, p, j);
  }

  /**
   * With a store every row has lost its hash column, carries a line of the
   * files with its group and actual date, and has the decisions the store
   * holds for its identity hash, or the defaults when the store has none.
   */
  lemma LoadWithStoreRow(files: seq<seq<RawRow>>, st: seq<StoreRow>, p: Hashing, i: int)
    requires Load(files, Some(st), p).Success? && 0 <= i < |Load(files, Some(st), p).value|
    ensures var t := Load(files, Some(st), p).value[i].1;
      t.hash == None &&
      DecidedByStore(st, HashKey(p, t.details.description, t.postingDate, t.details.amount), Decision(t.category, t.split)) &&
      t.group == GroupKey(p.digest, t.details.description) &&
      t.actualDate == ActualDate(t.details.description, t.postingDate) &&
      FromFiles(files, t)
  {
    var joined := Joined(KeyedTable(files, p).value, st);
    JoinedRowFromLine(files, st, p, i);
    var x := joined[i].1;
    var raw :| InFiles(files, raw) && DerivedFrom(p, raw, x.0);
    var t := Load(files, Some(st), p).value[i].1;
    assert t == Finish(x.0, None, FillDecision(x.1));
    assert Loaded(raw, t);
  }

  /** With a store every line of the files reaches the table once per decision the store holds for it, or once with the defaults. */
  lemma LineInStoreRows(files: seq<seq<RawRow>>, st: seq<StoreRow>, p: Hashing, raw: RawRow, d: Decision)
    requires Load(files, Some(st), p).Success? && InFiles(files, raw)
    requires ParsePostingDate(raw.postingDate).Some?
    requires DecidedByStore(st, HashKey(p, raw.details.description, ParsePostingDate(raw.postingDate).value, raw.details.amount), d)
    ensures exists i :: (0 <= i < |Load(files, Some(st), p).value| &&
      Loaded(raw, Load(files, Some(st), p).value[i].1) &&
      Decision(Load(files, Some(st), p).value[i].1.category, Load(files, Some(st), p).value[i].1.split) == d)
  {
    var keyed := KeyedTable(files, p).value;
    var joined := Joined(keyed, st);
    var rows := Load(files, Some(st), p).value;
    LineHasKeyedRow(files, p, raw);
    var j :| 0 <= j < |keyed| && DerivedFrom(p, raw, keyed[j].1);
    var k := keyed[j].1;
    var o := if StoreMatches(st, k.hash) == [] then None else Some(d);
    assert JoinedWith(st, k.hash, o);
    ValuesIndex(keyed);
    ValuesIndex(joined);
    assert k in Values(keyed) by { assert Values(keyed)[j] == k; }
    JoinedMembers(keyed, st);
    assert (k, o) in Values(joined);
    var i :| 0 <= i < |joined| && joined[i].1 == (k, o);
    assert rows[i].1 == Finish(k, None, FillDecision(o));
    assert Loaded(raw, rows[i].1);
  }

  /**
   * Every label of the loaded table names one row: the labels increase from
   * row to row, in both branches (a fresh RangeIndex after the concatenation,
   * and after the merge).
   */
  lemma LoadLabelsIncrease(files: seq<seq<RawRow>>, store: Option<seq<StoreRow>>, p: Hashing)
    requires Load(files, store, p).Success?
    ensures IncreasingLabels(Load(files, store, p).value)
  {
    if store.None? {
      var s := Stacked(files);
      assert IncreasingLabels(s);
      DedupKeepsOrder(s);
      KeyedTableShape(files, p);
    } else {
      var m := MergeLeft(Values(KeyedTable(files, p).value), store.value);
      assert IncreasingLabels(Numbered(m));
      DedupKeepsOrder(Numbered(m));
    }
  }

  /** Every loaded category is one of the options, provided the store only holds options. */
  lemma LoadCategoriesValid(files: seq<seq<RawRow>>, store: Option<seq<StoreRow>>, p: Hashing, i: int)
    requires Load(files, store, p).Success? && 0 <= i < |Load(files, store, p).value|
    requires store.Some? ==> forall r :: r in store.value ==> r.decision.category in CategoryOptions
    ensures Load(files, store, p).value[i].1.category in CategoryOptions
  {
    CategoryOptionsShape();
    if store.None? {
      LoadWithoutStoreDefaults(files, p, i);
    } else {
      LoadWithStoreRow(files, store.value, p, i);
    }
  }

  /** On one joined row the two fills differ exactly when the store had no decision for the row's hash. */
  lemma FillsOfJoinedRow(joined: seq<(Label, (Keyed, Option<Decision>))>, st: seq<StoreRow>, i: int)
    requires 0 <= i < |joined| && JoinedWith(st, joined[i].1.0.hash, joined[i].1.1)
    ensures var (t, u) := (MergeFill(joined)[i], MergeFillAsWritten(joined)[i]);
      if StoreMatches(st, joined[i].1.0.hash) == []
      then t.1.category == DefaultCategory && !t.1.split &&
           u == (t.0, t.1.(category := "nan", split := true)) && u.1.category !in CategoryOptions
      else u == t
  {
    CategoryOptionsShape();
  }

  /**
   * load_data as written differs from the corrected load exactly on the rows
   * the store has no decision for: those get the category "nan", which is not
   * an option, and Split True, instead of "Other" and false (utils.py:50-52).
   */
  lemma AsWrittenUnmatchedRows(files: seq<seq<RawRow>>, st: seq<StoreRow>, p: Hashing, i: int)
    requires Load(files, Some(st), p).Success? && 0 <= i < |Load(files, Some(st), p).value|
    ensures LoadAsWritten(files, Some(st), p).Success?
    ensures |LoadAsWritten(files, Some(st), p).value| == |Load(files, Some(st), p).value|
    ensures var (t, u) := (Load(files, Some(st), p).value[i], LoadAsWritten(files, Some(st), p).value[i]);
      if StoreMatches(st, HashKey(p, t.1.details.description, t.1.postingDate, t.1.details.amount)) == []
      then t.1.category == DefaultCategory && !t.1.split &&
           u == (t.0, t.1.(category := "nan", split := true)) && u.1.category !in CategoryOptions
      else u == t
  {
    var joined := Joined(KeyedTable(files, p).value, st);
    KeyedAsWrittenSameRows(files, p);
    assert Joined(KeyedTableAsWritten(files, p).value, st) == joined;
    assert Load(files, Some(st), p) == Success(MergeFill(joined));
    assert LoadAsWritten(files, Some(st), p) == Success(MergeFillAsWritten(joined));
    JoinedRowFromLine(files, st, p, i);
    FillsOfJoinedRow(joined, st, i);
    var x := joined[i].1;
    assert MergeFill(joined)[i].1.details == x.0.details && MergeFill(joined)[i].1.postingDate == x.0.postingDate;
  }

  /** One export holding one line, dated 1 February 2023. */
  const OneLineExport: seq<seq<RawRow>> := [[RawRow("01/02/2023", Details("Bakker", "2,50", "", "", "", "", ""))]]

  /** With an empty store, any successful load of a non-empty export gives "nan" rows when run as written. */
  lemma EmptyStoreAsWritten(files: seq<seq<RawRow>>, p: Hashing, line: RawRow)
    requires Load(files, Some([]), p).Success? && InFiles(files, line)
    ensures LoadAsWritten(files, Some([]), p).Success?
    ensures |LoadAsWritten(files, Some([]), p).value| >= 1
    ensures LoadAsWritten(files, Some([]), p).value[0].1.category == "nan"
    ensures LoadAsWritten(files, Some([]), p).value[0].1.split
  {
    var keyed := KeyedTable(files, p).value;
    LineHasKeyedRow(files, p, line);
    JoinedMembers(keyed, []);
    assert (keyed[0].1, None) in Values(Joined(keyed, [])) by {
      assert keyed[0].1 in Values(keyed) by { assert Values(keyed)[0] == keyed[0].1; }
    }
    AsWrittenUnmatchedRows(files, [], p, 0);
  }

  /** The store knows no hash: the load as written marks the line "nan" and split. */
  lemma ExampleUnmatchedAsWritten(p: Hashing)
    ensures LoadAsWritten(OneLineExport, Some([]), p).Success?
    ensures |LoadAsWritten(OneLineExport, Some([]), p).value| >= 1
    ensures LoadAsWritten(OneLineExport, Some([]), p).value[0].1.category == "nan"
    ensures LoadAsWritten(OneLineExport, Some([]), p).value[0].1.split
  {
    var files := OneLineExport;
    var line: RawRow := files[0][0];
    assert ParsePostingDate(line.postingDate).Some? by { ExampleDateParses(); }
    assert forall raw :: InFiles(files, raw) ==> raw == line;
    LoadSucceeds(files, Some([]), p);
    EmptyStoreAsWritten(files, p, line);
  }

  lemma ExampleDateFields()
    ensures DayField("01") == Some(1) && MonthField("02") == Some(2) && YearField("2023") == Some(2023)
    ensures ValidDate(2023, 2, 1)
  {
    assert "01"[..1] == "0" && "02"[..1] == "0";
    assert "2023"[..3] == "202" && "202"[..2] == "20" && "20"[..1] == "2";
    assert DecimalValue("20") == 20 && DecimalValue("202") == 202;
  }

  lemma ExampleDateParses()
    ensures ParsePostingDate("01/02/2023") == Some(Timestamp(2023, 2, 1, 0, 0))
  {
    ExampleDateFields();
    ParseOfFields("01", "02", "2023");
    assert "01" + "/" + "02" + "/" + "2023" == "01/02/2023";
  }
}
