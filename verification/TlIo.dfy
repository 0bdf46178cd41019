/** The writers and readers of kosta-core/src/tl/types.rs, step by step over a growing buffer and an
    advancing cursor, proved against the encoding and decoding functions. */
module TlIo {
  import opened Wrappers
  import opened Bytes
  import opened TlTypes

  class Writer {
    var out: bytes

    constructor ()
      ensures out == []
    {
      out := [];
    }

    method WriteAll(data: bytes)
      modifies this
      ensures out == old(out) + data
    {
      out := out + data;
    }
  }

  class Reader {
    var rest: bytes

    constructor (data: bytes)
      ensures rest == data
    {
      rest := data;
    }

    method ReadExact(n: nat) returns (r: Result<bytes, TlError>)
      modifies this
      ensures Agrees(r, Take(n, old(rest)), rest)
    {
      if |rest| < n { return Err(UnexpectedEof); }
      r := Ok(rest[..n]);
      rest := rest[n..];
    }
  }

  /** A reader's result and position are what the decoding function says. */
  ghost predicate Agrees<T(!new)>(r: Result<T, TlError>, parsed: Parsed<T>, rest: bytes) {
    match parsed
    case Got(v, rest') => r == Ok(v) && rest == rest'
    case Bad(e) => r == Err(e)
  }

  // ---------- writing ----------

  method WriteTlBytes(data: bytes, w: Writer)
    modifies w
    ensures w.out == old(w.out) + EncodeBytes(data)
  {
    var len := |data|;
    if len <= 253 {
      w.WriteAll([len]);
    } else {
      w.WriteAll([254]);
      w.WriteAll(LeBytes(len % TWO_24, 3));
    }
    w.WriteAll(data);
    var padding := PaddingLength(len);
    if padding != 0 {
      w.WriteAll(Zeros(padding));
    }
    assert w.out == old(w.out) + EncodeBytes(data);
  }

  method WriteAtom(v: Value, w: Writer)
    requires !v.VecV? && !v.SomeV?
    modifies w
    ensures w.out == old(w.out) + EncodeValue(v)
  {
    match v {
      case IntV(i) => w.WriteAll(EncodeI32(i));
      case LongV(l) => w.WriteAll(EncodeI64(l));
      case FixedV(raw) => w.WriteAll(raw);
      case BytesV(data) => WriteTlBytes(data, w);
      case BoolV(b) => w.WriteAll(EncodeI32(if b then 1 else 0));
      case StatusV(s) => w.WriteAll(EncodeI32(StatusCode(s)));
      case NoneV => w.WriteAll(EncodeI32(0));
    }
  }

  method WriteValue(v: Value, w: Writer)
    modifies w
    ensures w.out == old(w.out) + EncodeValue(v)
    decreases v
  {
    match v {
      case VecV(items) =>
        w.WriteAll(EncodeI32(Wrap32(|items|)));
        WriteItems(items, w);
      case SomeV(fields) =>
        w.WriteAll(EncodeI32(1));
        WriteFields(fields, w);
      case _ => WriteAtom(v, w);
    }
  }

  method WriteItems(items: seq<Record>, w: Writer)
    modifies w
    ensures w.out == old(w.out) + EncodeItems(items)
    decreases items
  {
    for i := 0 to |items|
      invariant w.out + EncodeItems(items[i..]) == old(w.out) + EncodeItems(items)
    {
      assert items[i..][1..] == items[i + 1..];
      WriteFields(items[i].fields, w);
    }
  }

  method WriteFields(vs: seq<Value>, w: Writer)
    modifies w
    ensures w.out == old(w.out) + EncodeFields(vs)
    decreases vs
  {
    for i := 0 to |vs|
      invariant w.out + EncodeFields(vs[i..]) == old(w.out) + EncodeFields(vs)
    {
      assert vs[i..][1..] == vs[i + 1..];
      WriteValue(vs[i], w);
    }
  }

  // ---------- reading ----------

  method ReadInt(r: Reader) returns (v: Result<i32, TlError>)
    modifies r
    ensures Agrees(v, DecodeInt(old(r.rest)), r.rest)
  {
    var raw := r.ReadExact(4);
    if raw.Err? { return Err(raw.error); }
    return Ok(DecodeI32(raw.value));
  }

  method ReadTlBytes(r: Reader) returns (v: Result<bytes, TlError>)
    modifies r
    ensures Agrees(v, DecodeBytes(old(r.rest)), r.rest)
  {
    ghost var b := r.rest;
    var first := r.ReadExact(1);
    if first.Err? { return Err(first.error); }
    var len: nat;
    if first.value[0] == 254 {
      var buf := r.ReadExact(3);
      if buf.Err? { return Err(buf.error); }
      assert buf.value == b[1..4] && r.rest == b[4..];
      len := FromLe(buf.value);
    } else {
      len := first.value[0];
    }
    v := ReadBody(len, r);
  }

  /** The data of a byte string and its padding, once the length is known. */
  method ReadBody(len: nat, r: Reader) returns (v: Result<bytes, TlError>)
    modifies r
    ensures Agrees(v, DecodeBody(len, old(r.rest)), r.rest)
  {
    ghost var body := r.rest;
    var data := r.ReadExact(len);
    if data.Err? { return Err(data.error); }
    var padding := PaddingLength(len);
    if padding != 0 {
      var pad := r.ReadExact(padding);
      if pad.Err? { return Err(pad.error); }
    }
    assert r.rest == body[len + padding..];
    return Ok(data.value);
  }

  method ReadValue(k: Kind, r: Reader) returns (v: Result<Value, TlError>)
    modifies r
    ensures Agrees(v, DecodeValue(k, old(r.rest)), r.rest)
    decreases k
  {
    match k {
      case IntK =>
        var i := ReadInt(r);
        v := if i.Err? then Err(i.error) else Ok(IntV(i.value));
      case LongK =>
        var raw := r.ReadExact(8);
        v := if raw.Err? then Err(raw.error) else Ok(LongV(DecodeI64(raw.value)));
      case FixedK(n) =>
        var raw := r.ReadExact(n);
        v := if raw.Err? then Err(raw.error) else Ok(FixedV(raw.value));
      case BytesK =>
        var data := ReadTlBytes(r);
        v := if data.Err? then Err(data.error) else Ok(BytesV(data.value));
      case BoolK =>
        var i := ReadInt(r);
        v := if i.Err? then Err(i.error) else Ok(BoolV(i.value != 0));
      case StatusK =>
        var i := ReadInt(r);
        if i.Err? { return Err(i.error); }
        var s := StatusOf(i.value);
        v := if s.Some? then Ok(StatusV(s.value)) else Err(InvalidStatus);
      case VecK(item) =>
        var count := ReadInt(r);
        if count.Err? { return Err(count.error); }
        if count.value < 0 { return Err(CapacityOverflow); }
        var items := ReadItems(item, count.value, r);
        v := if items.Err? then Err(items.error) else Ok(VecV(items.value));
      case OptK(item) =>
        var present := ReadInt(r);
        if present.Err? { return Err(present.error); }
        if present.value == 0 { return Ok(NoneV); }
        var fields := ReadFields(item, r);
        v := if fields.Err? then Err(fields.error) else Ok(SomeV(fields.value));
    }
  }

  /** What a loop that has read some elements still has to produce. */
  function Prepend<T>(done: seq<T>, parsed: Parsed<seq<T>>): Parsed<seq<T>> {
    match parsed
    case Got(v, rest) => Got(done + v, rest)
    case Bad(e) => Bad(e)
  }

  lemma PrependNothing<T>(parsed: Parsed<seq<T>>)
    ensures Prepend([], parsed) == parsed
  {
    if parsed.Got? { assert [] + parsed.value == parsed.value; }
  }

  method ReadItems(ks: seq<Kind>, count: nat, r: Reader) returns (v: Result<seq<Record>, TlError>)
    modifies r
    ensures Agrees(v, DecodeItems(ks, count, old(r.rest)), r.rest)
    decreases ks, 1
  {
    var vec := [];
    PrependNothing(DecodeItems(ks, count, r.rest));
    for i := 0 to count
      invariant Prepend(vec, DecodeItems(ks, count - i, r.rest)) == DecodeItems(ks, count, old(r.rest))
    {
      ghost var before := DecodeItems(ks, count - i, r.rest);
      ghost var others := DecodeFields(ks, r.rest);
      var item := ReadFields(ks, r);
      if item.Err? { return Err(item.error); }
      ghost var more := DecodeItems(ks, count - i - 1, r.rest);
      if more.Got? { assert (vec + [Record(item.value)]) + more.value == vec + ([Record(item.value)] + more.value); }
      vec := vec + [Record(item.value)];
    }
    assert vec + [] == vec;
    return Ok(vec);
  }

  method ReadFields(ks: seq<Kind>, r: Reader) returns (v: Result<seq<Value>, TlError>)
    modifies r
    ensures Agrees(v, DecodeFields(ks, old(r.rest)), r.rest)
    decreases ks, 0
  {
    var fields := [];
    PrependNothing(DecodeFields(ks, r.rest));
    for i := 0 to |ks|
      invariant Prepend(fields, DecodeFields(ks[i..], r.rest)) == DecodeFields(ks, old(r.rest))
    {
      assert ks[i..][1..] == ks[i + 1..];
      var field := ReadValue(ks[i], r);
      if field.Err? { return Err(field.error); }
      ghost var more := DecodeFields(ks[i + 1..], r.rest);
      if more.Got? { assert (fields + [field.value]) + more.value == fields + ([field.value] + more.value); }
      fields := fields + [field.value];
    }
    assert fields + [] == fields;
    return Ok(fields);
  }
}
