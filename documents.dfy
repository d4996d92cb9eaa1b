/** The values a MongoDB collection of this service holds: ObjectIds and their
    text form, clock readings, BSON-like values and documents. */
module Documents {
  import opened Wrappers

  /** An ObjectId is twelve bytes, written as 24 hexadecimal digits. */
  const ObjectIdDigits: nat := 24

  function Pow16(k: nat): (p: nat)
    ensures p > 0
  {
    if k == 0 then 1 else 16 * Pow16(k - 1)
  }

  const ObjectIdSpace: nat := Pow16(ObjectIdDigits)

  type Id = n: nat | n < ObjectIdSpace

  /** A reading of the clock that stands in for `datetime.utcnow()`, in seconds. */
  type Time = nat

  /** The BSON values the documents of this service hold. `Arr` only appears in
      the documents an aggregation builds (the lists `$lookup` produces), and
      `Rec` only in a schema object's `Dict` attribute built from one. */
  datatype Value =
    | Null
    | Bool(b: bool)
    | Str(s: string)
    | Oid(id: Id)
    | Date(t: Time)
    | Arr(items: seq<map<string, Value>>)
    | Rec(entries: map<string, Value>)

  /** The contents of one document, without its `_id`. */
  type Fields = map<string, Value>

  /** A stored document together with its `_id`. */
  datatype Entry = Entry(id: Id, fields: Fields)

  /** The document as a driver returns it: its fields plus `_id`. */
  function Raw(e: Entry): (r: Fields)
    ensures "_id" in r && r["_id"] == Oid(e.id)
    ensures forall k :: k in e.fields && k != "_id" ==> k in r && r[k] == e.fields[k]
    ensures r.Keys == e.fields.Keys + {"_id"}
  {
    e.fields["_id" := Oid(e.id)]
  }

  predicate IsActive(doc: Fields)
  {
    "is_active" in doc && doc["is_active"] == Bool(true)
  }

  predicate IsInactive(doc: Fields)
  {
    "is_active" in doc && doc["is_active"] == Bool(false)
  }

  /** `doc.get(key)` for a text field: the text when the key holds a string. */
  function StrField(doc: Fields, key: string): Option<string>
  {
    if key in doc && doc[key].Str? then Some(doc[key].s) else None
  }

  // ---------------------------------------------------------------------
  // str(ObjectId) and ObjectId(str)
  // ---------------------------------------------------------------------

  function HexDigit(d: nat): (c: char)
    requires d < 16
  {
    if d < 10 then ('0' as int + d) as char else ('a' as int + d - 10) as char
  }

  function DigitValue(c: char): Option<nat>
  {
    if '0' <= c <= '9' then Some(c as int - '0' as int)
    else if 'a' <= c <= 'f' then Some(c as int - 'a' as int + 10)
    else if 'A' <= c <= 'F' then Some(c as int - 'A' as int + 10)
    else None
  }

  /** The lowest `width` hexadecimal digits of `n`, most significant first. */
  function ToHex(n: nat, width: nat): (s: string)
    ensures |s| == width
  {
    if width == 0 then "" else ToHex(n / 16, width - 1) + [HexDigit(n % 16)]
  }

  function FromHex(s: string): Option<nat>
  {
    if s == [] then Some(0)
    else match (FromHex(s[..|s| - 1]), DigitValue(s[|s| - 1]))
      case (Some(high), Some(low)) => Some(16 * high + low)
      case _ => None
  }

  lemma DigitValueOfHexDigit(d: nat)
    requires d < 16
    ensures DigitValue(HexDigit(d)) == Some(d)
  {
  }

  lemma {:induction false} FromHexToHex(n: nat, width: nat)
    requires n < Pow16(width)
    ensures FromHex(ToHex(n, width)) == Some(n)
  {
    if width > 0 {
      var s := ToHex(n, width);
      assert s[..|s| - 1] == ToHex(n / 16, width - 1);
      assert s[|s| - 1] == HexDigit(n % 16);
      assert n / 16 < Pow16(width - 1);
      FromHexToHex(n / 16, width - 1);
      DigitValueOfHexDigit(n % 16);
    }
  }

  /** `str(ObjectId)`: 24 lower-case hexadecimal digits. */
  function IdString(id: Id): (s: string)
    ensures |s| == ObjectIdDigits
  {
    ToHex(id, ObjectIdDigits)
  }

  /** `ObjectId(s)` for a text `s`: defined for 24 hexadecimal digits, an
      `InvalidId` error otherwise. */
  function ParseId(s: string): (r: Option<Id>)
    ensures r.Some? ==> |s| == ObjectIdDigits
  {
    if |s| != ObjectIdDigits then None
    else match FromHex(s)
      case Some(n) => if n < ObjectIdSpace then Some(n) else None
      case None => None
  }

  /** `ObjectId(str(oid)) == oid`. */
  lemma ParseIdString(id: Id)
    ensures ParseId(IdString(id)) == Some(id)
  {
    FromHexToHex(id, ObjectIdDigits);
  }

  /** Distinct ObjectIds have distinct text forms. */
  lemma IdStringInjective(a: Id, b: Id)
    ensures IdString(a) == IdString(b) <==> a == b
  {
    ParseIdString(a);
    ParseIdString(b);
  }
}
