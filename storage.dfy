/**
 * `localStorage` entries as the editor reads them back. Serialising with
 * `JSON.stringify` and reading back with `JSON.parse` is taken to return the
 * value that was written, so an entry holds the value itself.
 */
module Storage {
  import opened Wrappers

  /**
   * An entry: no entry (`getItem` gives null, or an empty string, which the
   * editor treats the same way), text that `JSON.parse` rejects, or a value.
   */
  datatype Slot<T> = Absent | Unparseable | Stored(value: T)

  /**
   * `JSON.parse(localStorage.getItem(k) || fallback)` and
   * `JSON.parse(localStorage.getItem(k)) || fallback`: the stored value, the
   * fallback for a missing entry, and `None` where `JSON.parse` throws.
   */
  function ReadOr<T>(slot: Slot<T>, fallback: T): (r: Option<T>)
    ensures r.None? <==> slot.Unparseable?
    ensures slot.Stored? ==> r == Some(slot.value)
    ensures slot.Absent? ==> r == Some(fallback)
  {
    match slot
    case Absent => Some(fallback)
    case Unparseable => None
    case Stored(v) => Some(v)
  }
}
