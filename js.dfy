/**
 * The JavaScript values that cross the boundaries of the word lifecycle: plain objects with
 * string values (a generated test, a learning set, a submitted test) and the literals the
 * generators and handlers use to signal "not enough words".
 */
module Js {

  /** A plain object with string values: its own keys in insertion order, and the value of each key. */
  datatype JsObject = JsObject(keys: seq<string>, values: map<string, string>)

  /** An object's own keys are pairwise distinct and are exactly the keys that carry a value. */
  predicate WellFormed(o: JsObject)
  {
    && (forall i, j :: 0 <= i < j < |o.keys| ==> o.keys[i] != o.keys[j])
    && (forall k :: k in o.keys ==> k in o.values)
    && (forall k :: k in o.values ==> k in o.keys)
  }

  /** `{}` */
  const Empty := JsObject([], map[])

  /** `o[k] = v`: an existing key keeps its place and gets the new value, a new key goes last. */
  function Set(o: JsObject, k: string, v: string): (r: JsObject)
    requires WellFormed(o)
    ensures WellFormed(r)
    ensures r.values == o.values[k := v]
    ensures k in o.keys ==> r.keys == o.keys
    ensures k !in o.keys ==> r.keys == o.keys + [k]
  {
    if k in o.keys then JsObject(o.keys, o.values[k := v]) else JsObject(o.keys + [k], o.values[k := v])
  }

  /** The values a generator can hand back: `undefined`, `null`, `true`, or an object. */
  datatype JsValue = JsUndefined | JsNull | JsTrue | JsObj(obj: JsObject)
}
