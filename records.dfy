/**
 * A catalog entry as the sheet delivers it: every field but the identifier
 * may be missing, and the identifier may come as text or as a number.
 */
module Records {
  import opened Wrappers
  import Numbers

  datatype Id = StringId(text: string) | NumberId(number: int)

  datatype Record = Record(
    id: Id,
    name: Option<string>,
    desc: Option<string>,
    url: Option<string>,
    medientyp: Option<string>,
    imageUrl: Option<string>)

  /** `field || ''`: a missing (or empty) field reads as the empty string. */
  function OrEmpty(field: Option<string>): string {
    field.GetOr("")
  }

  /**
   * `String(id)`: identifiers are compared as text, whatever their type. A
   * numeric identifier's text reads back as the same number.
   */
  function IdString(id: Id): (s: string)
    ensures id.StringId? ==> s == id.text
    ensures id.NumberId? ==> Numbers.ParseInt(s) == Some(id.number)
  {
    match id
    case StringId(t) => t
    case NumberId(n) => Numbers.ParseIntOfIntToString(n); Numbers.IntToString(n)
  }

  /** The group of records whose `Medientyp` is missing or empty. */
  const OTHER_GROUP := "Sonstige"

  /** The record has a category (`Boolean(item.Medientyp)`). */
  predicate HasCategory(r: Record) {
    r.medientyp.Some? && r.medientyp.value != ""
  }

  /** `item.Medientyp || 'Sonstige'`: the result group a record is shown under. */
  function GroupKey(r: Record): string {
    if HasCategory(r) then r.medientyp.value else OTHER_GROUP
  }

  /**
   * The `Sonstige` group holds the records without a category and also those
   * whose category is literally `Sonstige`.
   */
  lemma OtherGroupMembers(r: Record)
    ensures GroupKey(r) == OTHER_GROUP <==> r.medientyp in {None, Some(""), Some(OTHER_GROUP)}
  {
  }
}
