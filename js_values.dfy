/** JavaScript property values and IndexedDB keys, as far as the assessment store sees them. */
module JsValues {

  datatype Option<+T> = None | Some(value: T)

  /**
    A property value of a record. JavaScript numbers are modelled as integers;
    `Undefined` is a property that is present but holds `undefined`.
   */
  datatype Value = Number(n: int) | Text(s: string) | Bool(b: bool) | Null | Undefined

  /** A plain JavaScript object: its own enumerable properties, by name. */
  type Obj = map<string, Value>

  /** A valid IndexedDB key among the values above: a number or a string. */
  datatype Key = NumKey(n: int) | TextKey(s: string)

  /** The key a property value denotes, if it is a valid key (booleans, null and undefined are not). */
  function KeyOf(v: Value): (r: Option<Key>)
    ensures r.None? <==> v.Bool? || v.Null? || v.Undefined?
    ensures r.Some? ==> KeyValue(r.value) == v
  {
    match v
    case Number(n) => Some(NumKey(n))
    case Text(s) => Some(TextKey(s))
    case _ => None
  }

  /** The property value a key is written back as when it is injected into a record. */
  function KeyValue(k: Key): (v: Value)
    ensures v.Number? || v.Text?
  {
    match k
    case NumKey(n) => Number(n)
    case TextKey(s) => Text(s)
  }

  /** Writing a key into a record and reading it back gives the same key, and distinct keys stay distinct. */
  lemma KeyValueRoundTrip(j: Key, k: Key)
    ensures KeyOf(KeyValue(k)) == Some(k)
    ensures KeyValue(j) == KeyValue(k) ==> j == k
  {
  }
}
