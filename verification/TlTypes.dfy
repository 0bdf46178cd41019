/** TL serialisation of values (kosta-core/src/tl/types.rs).

    A struct of the protocol is a list of fields; its layout is the list of their kinds. Encoding needs
    only the values, decoding follows the layout, both field by field in the order of the source. */
module TlTypes {
  import opened Wrappers
  import opened Arithmetic
  import opened Bytes

  datatype UserStatus = Online | Offline | Typing | Recently | LastWeek | LastMonth

  datatype Kind =
    | IntK                        // i32
    | LongK                       // i64 and the id types
    | FixedK(width: nat)          // Int128, Int256
    | BytesK                      // byte strings and strings
    | BoolK
    | StatusK
    | VecK(item: seq<Kind>)
    | OptK(item: seq<Kind>)

  datatype Value =
    | IntV(i: i32)
    | LongV(l: i64)
    | FixedV(raw: bytes)
    | BytesV(data: bytes)
    | BoolV(b: bool)
    | StatusV(status: UserStatus)
    | VecV(items: seq<Record>)
    | NoneV
    | SomeV(fields: seq<Value>)

  /** One element of a vector: its fields. */
  datatype Record = Record(fields: seq<Value>)

  datatype TlError =
    | UnexpectedEof
    | InvalidStatus
    | CapacityOverflow            // a negative vector count, which panics
    | InvalidConstructor(id: nat)

  /** What a reader leaves: the value and the unread rest, or the error. */
  datatype Parsed<+T> = Got(value: T, rest: bytes) | Bad(error: TlError)

  // ---------- well-typed and encodable values ----------

  predicate HasKind(v: Value, k: Kind)
    decreases k
  {
    match (v, k)
    case (IntV(_), IntK) => true
    case (LongV(_), LongK) => true
    case (FixedV(raw), FixedK(n)) => |raw| == n
    case (BytesV(_), BytesK) => true
    case (BoolV(_), BoolK) => true
    case (StatusV(_), StatusK) => true
    case (VecV(items), VecK(item)) => ItemsHaveKinds(items, item)
    case (NoneV, OptK(_)) => true
    case (SomeV(fields), OptK(item)) => HaveKinds(fields, item)
    case _ => false
  }

  predicate HaveKinds(vs: seq<Value>, ks: seq<Kind>)
    decreases ks, 0
  {
    |vs| == |ks| && forall i :: 0 <= i < |vs| ==> HasKind(vs[i], ks[i])
  }

  predicate ItemsHaveKinds(items: seq<Record>, ks: seq<Kind>)
    decreases ks, 1
  {
    forall i :: 0 <= i < |items| ==> HaveKinds(items[i].fields, ks)
  }

  /** Lengths the wire format can carry. */
  predicate Encodable(v: Value)
    decreases v
  {
    match v
    case BytesV(data) => |data| < TWO_24
    case VecV(items) => |items| < TWO_31 && ItemsEncodable(items)
    case SomeV(fields) => AllEncodable(fields)
    case _ => true
  }

  predicate AllEncodable(vs: seq<Value>)
    decreases vs
  {
    forall i :: 0 <= i < |vs| ==> Encodable(vs[i])
  }

  predicate ItemsEncodable(items: seq<Record>)
    decreases items
  {
    forall i :: 0 <= i < |items| ==> AllEncodable(items[i].fields)
  }

  // ---------- byte strings ----------

  function PaddingLength(len: nat): (n: nat)
    ensures n < 4 && (len + n) % 4 == 0
  {
    (4 - len % 4) % 4
  }

  function Zeros(n: nat): (r: bytes)
    ensures |r| == n
  {
    seq(n, _ => 0)
  }

  function EncodeBytes(data: bytes): bytes {
    var header := if |data| <= 253 then [|data|] else [254] + LeBytes(|data| % TWO_24, 3);
    header + data + Zeros(PaddingLength(|data|))
  }

  function DecodeBytes(b: bytes): (r: Parsed<bytes>) {
    if |b| < 1 then Bad(UnexpectedEof)
    else if b[0] == 254 then
      if |b| < 4 then Bad(UnexpectedEof) else DecodeBody(FromLe(b[1..4]), b[4..])
    else DecodeBody(b[0], b[1..])
  }

  /** The data and its zero padding, once the length is known. */
  function DecodeBody(len: nat, b: bytes): (r: Parsed<bytes>) {
    var total := len + PaddingLength(len);
    if |b| < total then Bad(UnexpectedEof) else Got(b[..len], b[total..])
  }

  /** A byte string survives the wire exactly when its length fits three bytes, whatever follows it. */
  lemma BytesRoundTrip(data: bytes, tail: bytes)
    ensures DecodeBytes(EncodeBytes(data) + tail) == Got(data, tail) <==> |data| < TWO_24
  {
    if |data| <= 253 {
      assert (EncodeBytes(data) + tail)[1..] == Padded(data) + tail;
      BodyRoundTrip(data, tail);
    } else {
      LongHeader(data, tail);
      if |data| < TWO_24 { BodyRoundTrip(data, tail); }
    }
  }

  function Padded(data: bytes): bytes { data + Zeros(PaddingLength(|data|)) }

  lemma LongHeader(data: bytes, tail: bytes)
    requires |data| > 253
    ensures DecodeBytes(EncodeBytes(data) + tail) == DecodeBody(|data| % TWO_24, Padded(data) + tail)
  {
    var b := EncodeBytes(data) + tail;
    var header := LeBytes(|data| % TWO_24, 3);
    assert b == [254] + header + (Padded(data) + tail);
    assert b[1..4] == header && b[4..] == Padded(data) + tail;
    WordSizes();
    FromLeBytes(|data| % TWO_24, 3);
  }

  lemma BodyRoundTrip(data: bytes, tail: bytes)
    ensures DecodeBody(|data|, Padded(data) + tail) == Got(data, tail)
  {
    var b := Padded(data) + tail;
    assert b[..|data|] == data;
    assert b[|data| + PaddingLength(|data|)..] == tail;
  }

  lemma DecodedBytesFit(b: bytes)
    ensures DecodeBytes(b).Got? ==> |DecodeBytes(b).value| < TWO_24
  {
    if |b| >= 4 {
      FromLeBound(b[1..4]);
      WordSizes();
    }
  }

  // ---------- fixed parts ----------

  function Take(n: nat, b: bytes): (r: Parsed<bytes>) {
    if |b| < n then Bad(UnexpectedEof) else Got(b[..n], b[n..])
  }

  lemma TakeAppend(x: bytes, tail: bytes)
    ensures Take(|x|, x + tail) == Got(x, tail)
  {
  }

  function DecodeInt(b: bytes): (r: Parsed<i32>) {
    match Take(4, b)
    case Bad(e) => Bad(e)
    case Got(raw, rest) => Got(DecodeI32(raw), rest)
  }

  lemma IntRoundTrip(i: i32, tail: bytes)
    ensures DecodeInt(EncodeI32(i) + tail) == Got(i, tail)
  {
    TakeAppend(EncodeI32(i), tail);
    IntegersRoundTrip(i, 0);
  }

  function StatusCode(s: UserStatus): i32 {
    match s
    case Online => 0
    case Offline => 1
    case Typing => 2
    case Recently => 3
    case LastWeek => 4
    case LastMonth => 5
  }

  function StatusOf(code: i32): Option<UserStatus> {
    match code
    case 0 => Some(Online)
    case 1 => Some(Offline)
    case 2 => Some(Typing)
    case 3 => Some(Recently)
    case 4 => Some(LastWeek)
    case 5 => Some(LastMonth)
    case _ => None
  }

  // ---------- values ----------

  function EncodeValue(v: Value): bytes
    decreases v
  {
    match v
    case IntV(i) => EncodeI32(i)
    case LongV(l) => EncodeI64(l)
    case FixedV(raw) => raw
    case BytesV(data) => EncodeBytes(data)
    case BoolV(b) => EncodeI32(if b then 1 else 0)
    case StatusV(s) => EncodeI32(StatusCode(s))
    case VecV(items) => EncodeI32(Wrap32(|items|)) + EncodeItems(items)
    case NoneV => EncodeI32(0)
    case SomeV(fields) => EncodeI32(1) + EncodeFields(fields)
  }

  function EncodeFields(vs: seq<Value>): bytes
    decreases vs
  {
    if vs == [] then [] else EncodeValue(vs[0]) + EncodeFields(vs[1..])
  }

  function EncodeItems(items: seq<Record>): bytes
    decreases items
  {
    if items == [] then [] else EncodeFields(items[0].fields) + EncodeItems(items[1..])
  }

  function DecodeValue(k: Kind, b: bytes): Parsed<Value>
    decreases k
  {
    match k
    case IntK =>
      (match DecodeInt(b)
       case Bad(e) => Bad(e)
       case Got(i, rest) => Got(IntV(i), rest))
    case LongK =>
      (match Take(8, b)
       case Bad(e) => Bad(e)
       case Got(raw, rest) => Got(LongV(DecodeI64(raw)), rest))
    case FixedK(n) =>
      (match Take(n, b)
       case Bad(e) => Bad(e)
       case Got(raw, rest) => Got(FixedV(raw), rest))
    case BytesK =>
      (match DecodeBytes(b)
       case Bad(e) => Bad(e)
       case Got(data, rest) => Got(BytesV(data), rest))
    case BoolK =>
      (match DecodeInt(b)
       case Bad(e) => Bad(e)
       case Got(i, rest) => Got(BoolV(i != 0), rest))
    case StatusK =>
      (match DecodeInt(b)
       case Bad(e) => Bad(e)
       case Got(i, rest) => if StatusOf(i).Some? then Got(StatusV(StatusOf(i).value), rest) else Bad(InvalidStatus))
    case VecK(item) =>
      (match DecodeInt(b)
       case Bad(e) => Bad(e)
       case Got(count, rest) =>
         if count < 0 then Bad(CapacityOverflow)
         else
           match DecodeItems(item, count, rest)
           case Bad(e) => Bad(e)
           case Got(items, rest') => Got(VecV(items), rest'))
    case OptK(item) =>
      (match DecodeInt(b)
       case Bad(e) => Bad(e)
       case Got(present, rest) =>
         if present == 0 then Got(NoneV, rest)
         else
           match DecodeFields(item, rest)
           case Bad(e) => Bad(e)
           case Got(fields, rest') => Got(SomeV(fields), rest'))
  }

  function DecodeFields(ks: seq<Kind>, b: bytes): Parsed<seq<Value>>
    decreases ks, 0
  {
    if ks == [] then Got([], b)
    else
      match DecodeValue(ks[0], b)
      case Bad(e) => Bad(e)
      case Got(v, rest) =>
        match DecodeFields(ks[1..], rest)
        case Bad(e) => Bad(e)
        case Got(vs, rest') => Got([v] + vs, rest')
  }

  function DecodeItems(ks: seq<Kind>, count: nat, b: bytes): Parsed<seq<Record>>
    decreases ks, 1, count
  {
    if count == 0 then Got([], b)
    else
      match DecodeFields(ks, b)
      case Bad(e) => Bad(e)
      case Got(fields, rest) =>
        match DecodeItems(ks, count - 1, rest)
        case Bad(e) => Bad(e)
        case Got(items, rest') => Got([Record(fields)] + items, rest')
  }

  // ---------- round trip ----------

  lemma AtomRoundTrip(v: Value, k: Kind, tail: bytes)
    requires HasKind(v, k) && Encodable(v) && !k.VecK? && !k.OptK?
    ensures DecodeValue(k, EncodeValue(v) + tail) == Got(v, tail)
  {
    hide EncodeI64, DecodeI64, EncodeBytes, DecodeBytes, EncodeI32, DecodeI32;
    match v
    case IntV(i) => IntRoundTrip(i, tail);
    case LongV(l) =>
      TakeAppend(EncodeI64(l), tail);
      IntegersRoundTrip(0, l);
    case FixedV(raw) => TakeAppend(raw, tail);
    case BytesV(data) => BytesRoundTrip(data, tail);
    case BoolV(b) => IntRoundTrip(if b then 1 else 0, tail);
    case StatusV(s) => IntRoundTrip(StatusCode(s), tail);
  }

  lemma {:induction false} ValueRoundTrip(v: Value, k: Kind, tail: bytes)
    requires HasKind(v, k) && Encodable(v)
    ensures DecodeValue(k, EncodeValue(v) + tail) == Got(v, tail)
    decreases k
  {
    hide EncodeI32, DecodeInt, DecodeItems, DecodeFields, EncodeItems, EncodeFields, EncodeBytes, Wrap32;
    match v
    case VecV(items) =>
      assert EncodeValue(v) + tail == EncodeI32(|items|) + (EncodeItems(items) + tail);
      IntRoundTrip(|items|, EncodeItems(items) + tail);
      ItemsRoundTrip(items, k.item, tail);
    case NoneV => IntRoundTrip(0, tail);
    case SomeV(fields) =>
      assert EncodeValue(v) + tail == EncodeI32(1) + (EncodeFields(fields) + tail);
      IntRoundTrip(1, EncodeFields(fields) + tail);
      FieldsRoundTrip(fields, k.item, tail);
    case _ => AtomRoundTrip(v, k, tail);
  }

  lemma TailFits(vs: seq<Value>, ks: seq<Kind>)
    requires HaveKinds(vs, ks) && AllEncodable(vs) && vs != []
    ensures HasKind(vs[0], ks[0]) && Encodable(vs[0])
    ensures HaveKinds(vs[1..], ks[1..]) && AllEncodable(vs[1..])
  {
  }

  /** One field read, the rest follows. */
  lemma DecodeFieldsStep(ks: seq<Kind>, b: bytes, v: Value, mid: bytes, vs: seq<Value>, rest: bytes)
    requires ks != [] && DecodeValue(ks[0], b) == Got(v, mid) && DecodeFields(ks[1..], mid) == Got(vs, rest)
    ensures DecodeFields(ks, b) == Got([v] + vs, rest)
  {
  }

  lemma {:induction false} FieldsRoundTrip(vs: seq<Value>, ks: seq<Kind>, tail: bytes)
    requires HaveKinds(vs, ks) && AllEncodable(vs)
    ensures DecodeFields(ks, EncodeFields(vs) + tail) == Got(vs, tail)
    decreases ks, 0
  {
    if vs == [] {
      assert EncodeFields(vs) + tail == tail;
    } else {
      var rest := EncodeFields(vs[1..]) + tail;
      assert EncodeFields(vs) + tail == EncodeValue(vs[0]) + rest;
      TailFits(vs, ks);
      ValueRoundTrip(vs[0], ks[0], rest);
      FieldsRoundTrip(vs[1..], ks[1..], tail);
      DecodeFieldsStep(ks, EncodeFields(vs) + tail, vs[0], rest, vs[1..], tail);
      assert vs == [vs[0]] + vs[1..];
    }
  }

  lemma {:induction false} ItemsRoundTrip(items: seq<Record>, ks: seq<Kind>, tail: bytes)
    requires ItemsHaveKinds(items, ks) && ItemsEncodable(items)
    ensures DecodeItems(ks, |items|, EncodeItems(items) + tail) == Got(items, tail)
    decreases ks, 1, |items|
  {
    if items != [] {
      var rest := EncodeItems(items[1..]) + tail;
      assert EncodeItems(items) + tail == EncodeFields(items[0].fields) + rest;
      FieldsRoundTrip(items[0].fields, ks, rest);
      ItemsRoundTrip(items[1..], ks, tail);
      assert items == [items[0]] + items[1..];
    }
  }

  // ---------- what decoding produces ----------

  /** Whatever decoding accepts has the layout's kinds and lengths the wire can carry. */
  lemma {:induction false} DecodedValue(k: Kind, b: bytes)
    ensures var r := DecodeValue(k, b); r.Got? ==> HasKind(r.value, k) && Encodable(r.value)
    decreases k
  {
    match k
    case BytesK => DecodedBytesFit(b);
    case VecK(item) =>
      var c := DecodeInt(b);
      if c.Got? && c.value >= 0 { DecodedItems(item, c.value, c.rest); }
    case OptK(item) =>
      var c := DecodeInt(b);
      if c.Got? { DecodedFields(item, c.rest); }
    case _ =>
  }

  lemma {:induction false} DecodedFields(ks: seq<Kind>, b: bytes)
    ensures var r := DecodeFields(ks, b); r.Got? ==> HaveKinds(r.value, ks) && AllEncodable(r.value)
    decreases ks, 0
  {
    if ks != [] {
      DecodedValue(ks[0], b);
      var first := DecodeValue(ks[0], b);
      if first.Got? {
        DecodedFields(ks[1..], first.rest);
        var others := DecodeFields(ks[1..], first.rest);
        if others.Got? {
          var r := DecodeFields(ks, b);
          assert r.value[0] == first.value && r.value[1..] == others.value;
        }
      }
    }
  }

  lemma {:induction false} DecodedItems(ks: seq<Kind>, count: nat, b: bytes)
    ensures var r := DecodeItems(ks, count, b);
      r.Got? ==> |r.value| == count && ItemsHaveKinds(r.value, ks) && ItemsEncodable(r.value)
    decreases ks, 1, count
  {
    if count > 0 {
      DecodedFields(ks, b);
      var first := DecodeFields(ks, b);
      if first.Got? {
        DecodedItems(ks, count - 1, first.rest);
        var others := DecodeItems(ks, count - 1, first.rest);
        if others.Got? {
          var r := DecodeItems(ks, count, b);
          assert r.value[0].fields == first.value && r.value[1..] == others.value;
        }
      }
    }
  }
}
