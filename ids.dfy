/** Identifiers.  The source's ids are `uuid.UUID` values; wherever they reach
    the revocation store or a token they are written as `str(uuid)`, the
    canonical 36-character form, and that string is what the model keeps. */
module Ids {

  predicate HexOrHyphen(c: char)
  {
    '0' <= c <= '9' || 'a' <= c <= 'f' || c == '-'
  }

  predicate IsUuid(s: string)
  {
    |s| == 36 && forall i :: 0 <= i < |s| ==> HexOrHyphen(s[i])
  }

  /** `str(uuid.UUID)` */
  type Uuid = s: string | IsUuid(s) witness seq(36, _ => '0')

  /** A rendered UUID contains no ':' and is never the partition name "all". */
  lemma UuidShape(u: Uuid)
    ensures ':' !in u
    ensures u != "all"
  {
  }
}
