/** The Python values a tool can return, and `_serialize_result`, which turns
    them into a JSON-shaped tree. */
module PyValue {
  import opened Wrappers
  import opened JsonValue

  /** A returned value. Dictionaries have string keys; a pydantic model is
      represented by its `.dict()` dump; any other object by what
      `json.dumps` makes of it (None when it raises `TypeError`) and its
      `str()`. Floats are not part of the model. */
  datatype PyVal =
    | PNone
    | PBool(b: bool)
    | PInt(i: int)
    | PStr(s: string)
    | PList(items: seq<PyVal>)
    | PTuple(items: seq<PyVal>)
    | PDict(entries: map<string, PyVal>)
    | PModel(dump: Json)
    | POpaque(dumps: Option<string>, text: string)

  predicate IsPrimitive(v: PyVal) {
    v.PNone? || v.PBool? || v.PInt? || v.PStr?
  }

  /** The JSON value a primitive stands for. */
  function PrimitiveJson(v: PyVal): Json
    requires IsPrimitive(v)
  {
    match v
    case PNone => JNull
    case PBool(b) => JBool(b)
    case PInt(i) => JInt(i)
    case PStr(s) => JStr(s)
  }

  /** `_serialize_result`: primitives as they are, lists and tuples item by
      item, dictionaries value by value under the same keys, models as their
      dump, anything else as its JSON text or else its `str()`. */
  function Serialize(v: PyVal): (r: Json)
    ensures IsPrimitive(v) ==> r == PrimitiveJson(v)
    ensures v.PList? || v.PTuple? ==>
      && r.JArr? && |r.items| == |v.items|
      && forall i :: 0 <= i < |v.items| ==> r.items[i] == Serialize(v.items[i])
    ensures v.PDict? ==>
      && r.JObj? && r.fields.Keys == v.entries.Keys
      && forall k :: k in v.entries ==> r.fields[k] == Serialize(v.entries[k])
    ensures v.PModel? ==> r == v.dump
    ensures v.POpaque? ==> r.JStr? && (v.dumps.Some? ==> r.s == v.dumps.value) && (v.dumps.None? ==> r.s == v.text)
  {
    match v
    case PNone => JNull
    case PBool(b) => JBool(b)
    case PInt(i) => JInt(i)
    case PStr(s) => JStr(s)
    case PList(items) => JArr(seq(|items|, i requires 0 <= i < |items| => Serialize(items[i])))
    case PTuple(items) => JArr(seq(|items|, i requires 0 <= i < |items| => Serialize(items[i])))
    case PDict(entries) => JObj(map k | k in entries :: Serialize(entries[k]))
    case PModel(dump) => dump
    case POpaque(dumps, text) => JStr(dumps.GetOr(text))
  }

  /** The Python value a JSON document reads as: objects are dictionaries and
      arrays are lists. */
  function FromJson(j: Json): (v: PyVal)
    ensures j.JArr? ==> v.PList? && |v.items| == |j.items|
    ensures j.JObj? ==> v.PDict? && v.entries.Keys == j.fields.Keys
    ensures !j.JArr? && !j.JObj? ==> IsPrimitive(v) && PrimitiveJson(v) == j
  {
    match j
    case JNull => PNone
    case JBool(b) => PBool(b)
    case JInt(i) => PInt(i)
    case JStr(s) => PStr(s)
    case JArr(items) => PList(seq(|items|, i requires 0 <= i < |items| => FromJson(items[i])))
    case JObj(fields) => PDict(map k | k in fields :: FromJson(fields[k]))
  }

  /** A value that is already JSON-shaped serialises to itself. */
  lemma {:induction false} SerializeFromJson(j: Json)
    ensures Serialize(FromJson(j)) == j
    decreases j
  {
    match j
    case JArr(items) =>
      var r := Serialize(FromJson(j));
      forall i | 0 <= i < |items|
        ensures r.items[i] == items[i]
      {
        SerializeFromJson(items[i]);
      }
    case JObj(fields) =>
      var r := Serialize(FromJson(j));
      forall k | k in fields
        ensures r.fields[k] == fields[k]
      {
        SerializeFromJson(fields[k]);
      }
    case _ =>
  }

  /** Serialising the serialised form again changes nothing. */
  lemma SerializeIdempotent(v: PyVal)
    ensures Serialize(FromJson(Serialize(v))) == Serialize(v)
  {
    SerializeFromJson(Serialize(v));
  }
}
