/**
 * The closed constants of config.py: the columns read from a bank export,
 * the columns the review adds, and the category enumeration.
 */
module Config {

  /** The recognised input columns, in file order (config.py, RELEVANT_COLUMNS). */
  const RelevantColumns: seq<string> :=
    ["Datum", "Omschrijving", "Bedrag", "Naam tegenpartij",
     "Adres tegenpartij", "gestructureerde mededeling", "Vrije mededeling", "Saldo"]

  /** The two user-decided columns (config.py, ADDED_COLUMNS). */
  const AddedColumns: seq<string> := ["Category", "Split with Medha"]

  /** The closed category enumeration; "Other" is the default (config.py, CATEGORY_OPTIONS). */
  const CategoryOptions: seq<string> :=
    ["Other", "Groceries", "Credit card", "Lunch", "Rent", "Salary",
     "Utilities", "Eating out", "Dates", "Clothes", "Coffee/snacks", "Transport",
     "Health", "Entertainment", "Reinbursement", "Reinbursable", "Paypal"]

  /** The category every freshly imported transaction starts with. */
  const DefaultCategory: string := "Other"

  /** Derived columns added by the loader. */
  const HashColumn: string := "hash"
  const GroupColumn: string := "group"
  const ActualDateColumn: string := "Actual Date"

  predicate Distinct<T(==)>(s: seq<T>)
  {
    forall i, j :: 0 <= i < j < |s| ==> s[i] != s[j]
  }

  /** `cols` with every name listed in `dropped` removed, order kept (DataFrame.drop(columns=...)). */
  function Without(cols: seq<string>, dropped: seq<string>): (r: seq<string>)
    ensures |r| <= |cols|
  {
    if cols == [] then []
    else if cols[0] in dropped then Without(cols[1..], dropped)
    else [cols[0]] + Without(cols[1..], dropped)
  }

  /**
   * The columns of a table loaded without a store, at save time: the input
   * columns, the hash (which the save recomputes in place), the group, the
   * two decisions and the actual date.
   */
  function SaveFrameColumns(): seq<string>
  {
    RelevantColumns + [HashColumn, GroupColumn] + AddedColumns + [ActualDateColumn]
  }

  /** The columns save_dataframe writes to the store for a table loaded without a store (utils.py:230). */
  function StoreColumns(): seq<string>
  {
    Without(SaveFrameColumns(), RelevantColumns + [ActualDateColumn, GroupColumn])
  }

  lemma CategoryOptionsShape()
    ensures |CategoryOptions| == 17
    ensures Distinct(CategoryOptions)
    ensures CategoryOptions[0] == DefaultCategory
    ensures DefaultCategory in CategoryOptions
  {
  }

  lemma RelevantColumnsShape()
    ensures |RelevantColumns| == 8
    ensures Distinct(RelevantColumns)
    ensures "Datum" in RelevantColumns && "Omschrijving" in RelevantColumns && "Bedrag" in RelevantColumns
  {
  }

  lemma {:induction false} WithoutAppend(a: seq<string>, b: seq<string>, dropped: seq<string>)
    ensures Without(a + b, dropped) == Without(a, dropped) + Without(b, dropped)
  {
    if a == [] {
      assert a + b == b;
    } else {
      assert (a + b)[0] == a[0];
      assert (a + b)[1..] == a[1..] + b;
      WithoutAppend(a[1..], b, dropped);
    }
  }

  lemma {:induction false} WithoutAllDropped(a: seq<string>, dropped: seq<string>)
    requires forall c :: c in a ==> c in dropped
    ensures Without(a, dropped) == []
  {
    if a != [] {
      WithoutAllDropped(a[1..], dropped);
    }
  }

  /** For a table loaded without a store, the save-time drop keeps exactly the hash and the two decisions, in that order (utils.py:230). */
  lemma StoreColumnsExact()
    ensures StoreColumns() == [HashColumn] + AddedColumns
  {
    var dropped := RelevantColumns + [ActualDateColumn, GroupColumn];
    var tail := [HashColumn, GroupColumn] + AddedColumns + [ActualDateColumn];
    assert SaveFrameColumns() == RelevantColumns + tail;
    WithoutAppend(RelevantColumns, tail, dropped);
    WithoutAllDropped(RelevantColumns, dropped);
    TailKept(dropped);
  }

  lemma TailKept(dropped: seq<string>)
    requires dropped == RelevantColumns + [ActualDateColumn, GroupColumn]
    ensures Without([HashColumn, GroupColumn] + AddedColumns + [ActualDateColumn], dropped) == [HashColumn] + AddedColumns
  {
    var t := [HashColumn, GroupColumn, "Category", "Split with Medha", ActualDateColumn];
    assert [HashColumn, GroupColumn] + AddedColumns + [ActualDateColumn] == t;
    assert t[4..] == [ActualDateColumn];
    assert Without(t[4..], dropped) == [];
    assert Without(t[3..], dropped) == ["Split with Medha"];
    assert Without(t[2..], dropped) == AddedColumns;
    assert Without(t[1..], dropped) == AddedColumns;
  }

  /** The added columns are not input columns, so the store holds the decisions and the hash only. */
  lemma StoreKeepsDecisionsAndHash()
    ensures forall c :: c in AddedColumns ==> c !in RelevantColumns
    ensures forall c :: c in StoreColumns() <==> c in AddedColumns || c == HashColumn
  {
    StoreColumnsExact();
  }

  lemma {:induction false} WithoutNoneDropped(a: seq<string>, dropped: seq<string>)
    requires forall c :: c in a ==> c !in dropped
    ensures Without(a, dropped) == a
  {
    if a != [] {
      WithoutNoneDropped(a[1..], dropped);
      assert a == [a[0]] + a[1..];
    }
  }

  /** The columns export() writes from a table that still has its hash: group and Actual Date dropped (utils.py:241). */
  function ExportColumns(): seq<string>
  {
    Without(SaveFrameColumns(), [GroupColumn, ActualDateColumn])
  }

  lemma ExportColumnsExact()
    ensures ExportColumns() == RelevantColumns + [HashColumn] + AddedColumns
  {
    var dropped := [GroupColumn, ActualDateColumn];
    var head, tail := RelevantColumns + [HashColumn, GroupColumn], AddedColumns + [ActualDateColumn];
    assert SaveFrameColumns() == head + tail;
    WithoutAppend(head, tail, dropped);
    WithoutAppend(RelevantColumns, [HashColumn, GroupColumn], dropped);
    WithoutAppend(AddedColumns, [ActualDateColumn], dropped);
    WithoutNoneDropped(RelevantColumns, dropped);
    WithoutNoneDropped(AddedColumns, dropped);
    assert Without([HashColumn, GroupColumn], dropped) == [HashColumn];
    assert Without([ActualDateColumn], dropped) == [];
  }

  /**
   * The columns of a table loaded with a store, at save time: the merge drops
   * the hash (utils.py:48), the actual date follows the decisions
   * (utils.py:61), and the save appends the recomputed hash last (utils.py:229).
   */
  function SaveFrameColumnsAfterMerge(): seq<string>
  {
    RelevantColumns + [GroupColumn] + AddedColumns + [ActualDateColumn, HashColumn]
  }

  /** The columns save_dataframe writes to the store for a table loaded with a store (utils.py:230). */
  function StoreColumnsAfterMerge(): seq<string>
  {
    Without(SaveFrameColumnsAfterMerge(), RelevantColumns + [ActualDateColumn, GroupColumn])
  }

  /** For a table loaded with a store, the store is written as the two decisions, then the hash. */
  lemma StoreColumnsAfterMergeExact()
    ensures StoreColumnsAfterMerge() == AddedColumns + [HashColumn]
  {
    var dropped := RelevantColumns + [ActualDateColumn, GroupColumn];
    var tail := [GroupColumn] + AddedColumns + [ActualDateColumn, HashColumn];
    assert SaveFrameColumnsAfterMerge() == RelevantColumns + tail;
    WithoutAppend(RelevantColumns, tail, dropped);
    WithoutAllDropped(RelevantColumns, dropped);
    TailAfterMergeKept(dropped);
  }

  lemma TailAfterMergeKept(dropped: seq<string>)
    requires dropped == RelevantColumns + [ActualDateColumn, GroupColumn]
    ensures Without([GroupColumn] + AddedColumns + [ActualDateColumn, HashColumn], dropped) == AddedColumns + [HashColumn]
  {
    var t := [GroupColumn, "Category", "Split with Medha", ActualDateColumn, HashColumn];
    assert [GroupColumn] + AddedColumns + [ActualDateColumn, HashColumn] == t;
    assert t[5..] == [];
    assert Without(t[4..], dropped) == [HashColumn];
    assert Without(t[3..], dropped) == [HashColumn];
    assert Without(t[2..], dropped) == ["Split with Medha", HashColumn];
    assert Without(t[1..], dropped) == AddedColumns + [HashColumn];
  }
}
