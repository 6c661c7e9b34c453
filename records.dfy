/** The rows the pipeline works on, from a raw export line to a review-table row. */
module Records {
  import opened Wrappers
  import opened Calendar

  /**
   * The seven input columns that pass through the pipeline unchanged:
   * Omschrijving, Bedrag, Naam tegenpartij, Adres tegenpartij,
   * gestructureerde mededeling, Vrije mededeling and Saldo. Amounts are
   * kept as their text.
   */
  datatype Details = Details(
    description: string,
    amount: string,
    counterpartyName: string,
    counterpartyAddress: string,
    structuredMessage: string,
    freeMessage: string,
    balance: string)

  /** A line of a bank export: Datum still as text, then the other columns. */
  datatype RawRow = RawRow(postingDate: string, details: Details)

  /** A row once its Datum is parsed. */
  datatype Dated = Dated(postingDate: Timestamp, details: Details)

  /** A row with its identity hash and group computed, before the decisions are attached. */
  datatype Keyed = Keyed(postingDate: Timestamp, details: Details, hash: string, group: string)

  /** The two user-decided columns: Category and "Split with Medha". */
  datatype Decision = Decision(category: string, split: bool)

  /**
   * A row of the review table. `hash` is present only when no store was
   * merged: the merge branch drops the column (utils.py:48).
   */
  datatype Transaction = Transaction(
    postingDate: Timestamp,
    details: Details,
    hash: Option<string>,
    group: string,
    category: string,
    split: bool,
    actualDate: Timestamp)

  /** A pandas row label. Labels need not be unique: pd.concat keeps each file's own 0..n-1. */
  type Label = nat

  /** A labelled row of a table. */
  type Entry = (Label, Transaction)

  /** A line of the categorisation store (metadata.csv). */
  datatype StoreRow = StoreRow(hash: string, decision: Decision)
}
