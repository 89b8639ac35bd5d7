/** JSON documents as the tool layer exchanges them. Numbers are integers
    only; floating point is not part of the model. */
module JsonValue {

  datatype Json =
    | JNull
    | JBool(b: bool)
    | JInt(i: int)
    | JStr(s: string)
    | JArr(items: seq<Json>)
    | JObj(fields: map<string, Json>)

  /** A JSON array of strings. */
  function StrArray(xs: seq<string>): (r: Json)
    ensures r.JArr? && |r.items| == |xs|
    ensures forall i :: 0 <= i < |xs| ==> r.items[i] == JStr(xs[i])
  {
    JArr(seq(|xs|, i requires 0 <= i < |xs| => JStr(xs[i])))
  }

  /** A JSON array all of whose items are strings. */
  predicate IsStrArray(v: Json) {
    v.JArr? && forall i :: 0 <= i < |v.items| ==> v.items[i].JStr?
  }

  /** The strings of a string array. */
  function Strs(v: Json): (r: seq<string>)
    requires IsStrArray(v)
    ensures |r| == |v.items|
    ensures forall i :: 0 <= i < |r| ==> JStr(r[i]) == v.items[i]
  {
    seq(|v.items|, i requires 0 <= i < |v.items| => v.items[i].s)
  }

  /** Reading a string array back gives the strings that built it. */
  lemma StrArrayRoundTrip(xs: seq<string>)
    ensures IsStrArray(StrArray(xs)) && Strs(StrArray(xs)) == xs
  {
  }
}
