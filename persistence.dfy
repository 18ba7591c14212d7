/** The browser's local storage as the app uses it: one slot per key, read
    once at start-up with a fallback, overwritten whole on every save. */
module Persistence {

  /** What a key holds: nothing (or the empty string), text that does not
      parse as JSON, or the JSON text of a value. */
  datatype Slot<T> = Absent | Corrupt | Holds(value: T)

  /** Writing a value: the slot then holds exactly that value. */
  function Save<T>(v: T): Slot<T>
  {
    Holds(v)
  }

  /** Reading a key at start-up: the stored value, or `fallback` when the key
      is missing or its text cannot be parsed (the error is caught). */
  function Load<T>(slot: Slot<T>, fallback: T): (v: T)
    ensures slot.Holds? ==> v == slot.value
    ensures !slot.Holds? ==> v == fallback
  {
    match slot
    case Holds(value) => value
    case _ => fallback
  }

  /** Loading what was saved gives back the value saved, whatever the fallback. */
  lemma LoadAfterSave<T>(v: T, fallback: T)
    ensures Load(Save(v), fallback) == v
  {
  }
}
