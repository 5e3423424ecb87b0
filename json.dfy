/**
 * Parsed JSON values, as `JSON.parse` hands them to the TypeScript code, and
 * JavaScript truthiness. Parsing itself is a foreign library and is not part
 * of this model: parsed values are inputs.
 */
module Json {
  import opened Wrappers

  /** An object keeps its entries in `Object.entries` order, keys distinct. */
  datatype Json =
    | JNull
    | JBool(b: bool)
    | JNum(n: real)
    | JStr(s: string)
    | JArr(items: seq<Json>)
    | JObj(entries: seq<(string, Json)>)

  /** JavaScript truthiness of a value that is present (`undefined` is `None` in `Field`). */
  predicate Truthy(v: Json) {
    match v
    case JNull => false
    case JBool(b) => b
    case JNum(n) => n != 0.0
    case JStr(s) => s != []
    case JArr(_) => true
    case JObj(_) => true
  }

  /**
   * `obj[key]`: `None` stands for `undefined`. `JSON.parse` keeps the last of
   * duplicate keys, so the value is that of the last entry with the key.
   */
  function Field(entries: seq<(string, Json)>, key: string): (r: Option<Json>)
    ensures r.Some? <==> exists i :: 0 <= i < |entries| && entries[i].0 == key
  {
    if entries == [] then None
    else if entries[|entries| - 1].0 == key then Some(entries[|entries| - 1].1)
    else
      var rest := Field(entries[..|entries| - 1], key);
      assert forall i :: 0 <= i < |entries| - 1 ==> entries[..|entries| - 1][i] == entries[i];
      rest
  }

  /** The value found is that of the last entry with the key. */
  lemma {:induction false} FieldLastWins(entries: seq<(string, Json)>, key: string, i: nat)
    requires i < |entries| && entries[i].0 == key && forall j :: i < j < |entries| ==> entries[j].0 != key
    ensures Field(entries, key) == Some(entries[i].1)
  {
    if i < |entries| - 1 {
      FieldLastWins(entries[..|entries| - 1], key, i);
    }
  }


  /** Truthiness of a possibly missing field: `!!obj[key]`. */
  predicate FieldTruthy(f: Option<Json>) {
    f.Some? && Truthy(f.value)
  }

  /** Truthiness of an optional string (`undefined` and `""` are falsy). */
  predicate StrTruthy(s: Option<string>) {
    s.Some? && s.value != []
  }

  /** JavaScript's `a || b` on optional strings. */
  function OrElse(a: Option<string>, b: Option<string>): (r: Option<string>)
    ensures StrTruthy(a) ==> r == a
    ensures !StrTruthy(a) ==> r == b
  {
    if StrTruthy(a) then a else b
  }
}
