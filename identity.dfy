/**
 * hash_f: the identity key of a transaction, a digest of its description,
 * its posting date as str(Timestamp) and its amount scaled by 1/1000. The
 * digest (MD5) and the float rendering of the scaled amount are parameters.
 */
module Identity {
  import opened Calendar

  /**
   * The two computations the model leaves opaque: the hex digest of a text,
   * and str(float(amount) / 1000) for the amount's text.
   */
  datatype Hashing = Hashing(digest: string -> string, scaledAmount: string -> string)

  /** The text hash_f digests: description + str(Datum) + str(amount / 1000). */
  function HashInput(p: Hashing, description: string, postingDate: Timestamp, amount: string): string
  {
    description + TimestampText(postingDate) + p.scaledAmount(amount)
  }

  /** The "hash" column (utils.py:19-21). */
  function HashKey(p: Hashing, description: string, postingDate: Timestamp, amount: string): string
  {
    p.digest(HashInput(p, description, postingDate, amount))
  }
}
