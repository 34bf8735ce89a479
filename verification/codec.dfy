/** `_serialize_value` and `_deserialize_value`: the type-directed text
    encoding of the values the manager stores. JSON text itself is an
    abstract encoder/decoder pair supplied by the caller. */
module Codec {
  import opened Base
  import Text

  /** The Python values the manager is handed. Floats are not modelled. */
  datatype Value =
    | NoneV
    | BoolV(b: bool)
    | IntV(i: int)
    | StrV(s: string)
    | BytesV(bytes: seq<bv8>)
    | ListV(items: seq<Value>)
    | DictV(fields: seq<(string, Value)>)
    | ObjectV(repr: string)   // an object JSON has no encoding for; `str()` gives `repr`

  predicate DistinctKeys(fields: seq<(string, Value)>) {
    forall i, j :: 0 <= i < j < |fields| ==> fields[i].0 != fields[j].0
  }

  /** Values JSON can represent: no bytes and no arbitrary objects anywhere
      inside, no integer longer than `int`'s string conversion allows, and
      each dict's keys distinct, as a Python dict's are. */
  predicate IsJson(v: Value) {
    match v
    case NoneV => true
    case BoolV(_) => true
    case IntV(i) => Text.FitsStrDigits(i)
    case StrV(_) => true
    case BytesV(_) => false
    case ListV(items) => forall i :: 0 <= i < |items| ==> IsJson(items[i])
    case DictV(fields) => DistinctKeys(fields) && forall i :: 0 <= i < |fields| ==> IsJson(fields[i].1)
    case ObjectV(_) => false
  }

  /** The `default_type` argument of `_deserialize_value`. `StrKind` stands
      for every type without a branch of its own. */
  datatype Kind = StrKind | BoolKind | IntKind | DictKind | ListKind

  /** `json.dumps`, `json.loads` (`None` is a decode error) and
      `bytes.decode('utf-8')` (`None` is a decode error). */
  datatype JsonCodec = JsonCodec(
    dumps: Value -> string,
    loads: string -> Option<Value>,
    decodeUtf8: seq<bv8> -> Option<string>)

  /** What the manager relies on from JSON: decoding gives back what was
      encoded, encoded text is never empty, and decoding only yields JSON
      values. */
  ghost predicate Sound(c: JsonCodec) {
    && (forall v :: IsJson(v) ==> c.loads(c.dumps(v)) == Some(v) && c.dumps(v) != "")
    && (forall t :: c.loads(t).Some? ==> IsJson(c.loads(t).value))
  }

  function BoolText(b: bool): string {
    if b then "True" else "False"
  }

  /** `_serialize_value`; `None` is the `ValueError` it raises, also when
      `str()` refuses an integer over the digit limit. */
  function Serialize(c: JsonCodec, v: Value): (r: Option<string>)
    ensures r.None? <==>
      || ((v.ListV? || v.DictV?) && !IsJson(v))
      || (v.IntV? && !Text.FitsStrDigits(v.i))
      || (v.BytesV? && c.decodeUtf8(v.bytes).None?)
    ensures (v.ListV? || v.DictV?) && IsJson(v) ==> r == Some(c.dumps(v))
  {
    match v
    case ListV(_) => if IsJson(v) then Some(c.dumps(v)) else None
    case DictV(_) => if IsJson(v) then Some(c.dumps(v)) else None
    case IntV(i) => if Text.FitsStrDigits(i) then Some(Text.IntToString(i)) else None
    case BoolV(b) => Some(BoolText(b))
    case BytesV(bytes) => c.decodeUtf8(bytes)
    case StrV(s) => Some(s)
    case NoneV => Some("None")
    case ObjectV(repr) => Some(repr)
  }

  /** `_deserialize_value`: Python's `None` in, or text the requested type
      cannot be read from, gives `NoneV` out; it never raises. */
  function Deserialize(c: JsonCodec, raw: Option<string>, kind: Kind): (r: Value)
    ensures raw.None? ==> r == NoneV
    ensures raw.Some? && (kind.DictKind? || kind.ListKind?) && c.loads(raw.value).None? ==> r == NoneV
    ensures raw.Some? && kind.IntKind? && Text.PyInt(raw.value).None? ==> r == NoneV
    ensures raw.Some? && kind.BoolKind? ==> r.BoolV?
    ensures Sound(c) && raw.Some? && (kind.DictKind? || kind.ListKind?) ==> IsJson(r)
  {
    match raw
    case None => NoneV
    case Some(text) =>
      match kind
      case BoolKind => BoolV(Text.IsTrueText(text))
      case IntKind =>
        (match Text.PyInt(text)
         case Some(n) => IntV(n)
         case None => NoneV)
      case DictKind =>
        (match c.loads(text)
         case Some(v) => v
         case None => NoneV)
      case ListKind =>
        (match c.loads(text)
         case Some(v) => v
         case None => NoneV)
      case StrKind => StrV(text)
  }

  /** Dicts and lists come back from their JSON text. */
  lemma JsonRoundTrip(c: JsonCodec, v: Value, kind: Kind)
    requires Sound(c) && IsJson(v) && (v.ListV? || v.DictV?)
    requires kind.DictKind? || kind.ListKind?
    ensures Serialize(c, v).Some? && Deserialize(c, Serialize(c, v), kind) == v
  {
  }

  /** An integer within the digit limit comes back; a longer one is never
      written, and reading the absent value gives `NoneV`. */
  lemma IntRoundTrip(c: JsonCodec, i: int)
    ensures Deserialize(c, Serialize(c, IntV(i)), IntKind) == if Text.FitsStrDigits(i) then IntV(i) else NoneV
  {
    if Text.FitsStrDigits(i) {
      var text := Text.IntToString(i);
      assert Serialize(c, IntV(i)) == Some(text);
      assert Text.PyInt(text) == Some(i) by {
        Text.PyIntOfIntToString(i);
      }
    }
  }

  /** `str(True)` is "True", and "True".lower() == "true". */
  lemma BoolRoundTrip(c: JsonCodec, b: bool)
    ensures Deserialize(c, Serialize(c, BoolV(b)), BoolKind) == BoolV(b)
  {
    assert Text.IsTrueText("True");
  }

  lemma StrRoundTrip(c: JsonCodec, s: string)
    ensures Deserialize(c, Serialize(c, StrV(s)), StrKind) == StrV(s)
  {
  }
}
