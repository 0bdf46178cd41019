/** Lengths of encoded objects, and why the protocol never emits a payload of 127 bytes. */
module TlLengths {
  import opened Wrappers
  import opened Arithmetic
  import opened Bytes
  import opened TlTypes
  import opened TlObjects
  import opened Abridged

  // ---------- short byte strings ----------

  /** How many byte strings of at most 253 bytes a value holds: those with a one-byte header. */
  function ShortStrings(v: Value): nat
    decreases v
  {
    match v
    case BytesV(data) => if |data| <= 253 then 1 else 0
    case VecV(items) => ItemShortStrings(items)
    case SomeV(fields) => FieldShortStrings(fields)
    case _ => 0
  }

  function FieldShortStrings(vs: seq<Value>): nat
    decreases vs
  {
    if vs == [] then 0 else ShortStrings(vs[0]) + FieldShortStrings(vs[1..])
  }

  function ItemShortStrings(items: seq<Record>): nat
    decreases items
  {
    if items == [] then 0 else FieldShortStrings(items[0].fields) + ItemShortStrings(items[1..])
  }

  lemma EncodedBytesLength(data: bytes)
    ensures |EncodeBytes(data)| == (if |data| <= 253 then 1 else 4) + |data| + PaddingLength(|data|)
  {
  }

  // ---------- length modulo four ----------

  predicate Aligned(k: Kind)
    decreases k
  {
    match k
    case FixedK(n) => n % 4 == 0
    case VecK(item) => AllAligned(item)
    case OptK(item) => AllAligned(item)
    case _ => true
  }

  predicate AllAligned(ks: seq<Kind>)
    decreases ks
  {
    forall i :: 0 <= i < |ks| ==> Aligned(ks[i])
  }

  lemma AtomLengthMod4(v: Value, k: Kind)
    requires HasKind(v, k) && Aligned(k) && !v.VecV? && !v.SomeV?
    ensures |EncodeValue(v)| % 4 == ShortStrings(v) % 4
  {
    hide EncodeBytes, PaddingLength;
    if v.BytesV? {
      EncodedBytesLength(v.data);
      PaddedLength(|v.data|, if |v.data| <= 253 then 1 else 4);
    }
  }

  lemma PaddedLength(n: nat, header: nat)
    ensures (header + n + PaddingLength(n)) % 4 == header % 4
  {
    ModShift(header, (n + PaddingLength(n)) / 4, 4);
  }

  lemma AddMod4(a: nat, b: nat, c: nat, d: nat)
    requires a % 4 == b % 4 && c % 4 == d % 4
    ensures (a + c) % 4 == (b + d) % 4
  {
    var i, j := (a - b) / 4, (c - d) / 4;
    assert a == b + i * 4 && c == d + j * 4;
    ModShift(b + d, i + j, 4);
  }

  lemma {:induction false} ValueLengthMod4(v: Value, k: Kind)
    requires HasKind(v, k) && Aligned(k)
    ensures |EncodeValue(v)| % 4 == ShortStrings(v) % 4
    decreases k
  {
    hide EncodeValue, EncodeItems, EncodeFields, ShortStrings, ItemShortStrings, FieldShortStrings;
    match v
    case VecV(items) =>
      VecLength(items);
      ItemsLengthMod4(items, k.item);
      AddMod4(4, 0, |EncodeItems(items)|, ItemShortStrings(items));
    case SomeV(fields) =>
      SomeLength(fields);
      FieldsLengthMod4(fields, k.item);
      AddMod4(4, 0, |EncodeFields(fields)|, FieldShortStrings(fields));
    case _ => AtomLengthMod4(v, k);
  }

  lemma VecLength(items: seq<Record>)
    ensures |EncodeValue(VecV(items))| == 4 + |EncodeItems(items)|
    ensures ShortStrings(VecV(items)) == ItemShortStrings(items)
  {
    hide EncodeItems, ItemShortStrings;
  }

  lemma SomeLength(fields: seq<Value>)
    ensures |EncodeValue(SomeV(fields))| == 4 + |EncodeFields(fields)|
    ensures ShortStrings(SomeV(fields)) == FieldShortStrings(fields)
  {
    hide EncodeFields, FieldShortStrings;
  }

  lemma {:induction false} FieldsLengthMod4(vs: seq<Value>, ks: seq<Kind>)
    requires HaveKinds(vs, ks) && AllAligned(ks)
    ensures |EncodeFields(vs)| % 4 == FieldShortStrings(vs) % 4
    decreases ks, 0
  {
    hide EncodeValue, ShortStrings;
    if vs != [] {
      ValueLengthMod4(vs[0], ks[0]);
      FieldsLengthMod4(vs[1..], ks[1..]);
      AddMod4(|EncodeValue(vs[0])|, ShortStrings(vs[0]), |EncodeFields(vs[1..])|, FieldShortStrings(vs[1..]));
    }
  }

  lemma {:induction false} ItemsLengthMod4(items: seq<Record>, ks: seq<Kind>)
    requires ItemsHaveKinds(items, ks) && AllAligned(ks)
    ensures |EncodeItems(items)| % 4 == ItemShortStrings(items) % 4
    decreases ks, 1, |items|
  {
    hide EncodeFields, FieldShortStrings, HaveKinds;
    if items != [] {
      var first := items[0].fields;
      FieldsLengthMod4(first, ks);
      ItemsLengthMod4(items[1..], ks);
      AddMod4(|EncodeFields(first)|, FieldShortStrings(first), |EncodeItems(items[1..])|, ItemShortStrings(items[1..]));
    }
  }

  lemma LayoutsAligned(tag: Tag)
    ensures AllAligned(Layout(tag))
  {
    assert Aligned(IDS) && Aligned(OptK(MESSAGE_FIELDS)) && Aligned(VecK(MESSAGE_FIELDS));
    assert AllAligned(DIALOG_FIELDS);
  }

  /** The length of an encoded object modulo four is its number of short byte strings modulo four. */
  lemma BoxedLengthMod4(o: TlObject)
    ensures |EncodeBoxed(o)| % 4 == FieldShortStrings(Fields(o)) % 4
  {
    hide EncodeFields, FieldShortStrings, Layout, Fields, Faithful;
    ObjectFaithful(o);
    LayoutsAligned(TagOfObject(o));
    FieldsLengthMod4(Fields(o), Layout(TagOfObject(o)));
    AddMod4(4, 0, |EncodeFields(Fields(o))|, FieldShortStrings(Fields(o)));
  }

  // ---------- bounds ----------

  /** At most the fields at i and j (when they are positions) hold a short string. */
  ghost predicate StringsOnlyAt(vs: seq<Value>, i: int, j: int) {
    forall k :: 0 <= k < |vs| ==> ShortStrings(vs[k]) <= if k == i || k == j then 1 else 0
  }

  lemma {:induction false} TwoStrings(vs: seq<Value>, i: int, j: int)
    requires StringsOnlyAt(vs, i, j)
    ensures FieldShortStrings(vs) <= (if i >= 0 then 1 else 0) + (if j >= 0 then 1 else 0)
  {
    if vs != [] {
      forall k | 0 <= k < |vs| - 1
        ensures ShortStrings(vs[1..][k]) <= if k == i - 1 || k == j - 1 then 1 else 0
      {
        assert vs[1..][k] == vs[k + 1];
      }
      TwoStrings(vs[1..], i - 1, j - 1);
    }
  }

  lemma {:induction false} IdsHoldNoStrings(ids: seq<i64>)
    ensures ItemShortStrings(IdRecords(ids)) == 0
  {
    if ids != [] {
      assert IdRecords(ids)[1..] == IdRecords(ids[1..]);
      TwoStrings(IdRecords(ids)[0].fields, -1, -1);
      IdsHoldNoStrings(ids[1..]);
    }
  }

  /** The length of the fields from the i-th on, one step at a time. */
  lemma LengthFrom(vs: seq<Value>, i: nat)
    requires i <= |vs|
    ensures i == |vs| ==> |EncodeFields(vs[i..])| == 0
    ensures i < |vs| ==> |EncodeFields(vs[i..])| == |EncodeValue(vs[i])| + |EncodeFields(vs[i + 1..])|
  {
    if i < |vs| { assert vs[i..][1..] == vs[i + 1..]; }
  }

  lemma ThreeFields(vs: seq<Value>)
    requires |vs| >= 3
    ensures |EncodeFields(vs)| ==
      |EncodeValue(vs[0])| + |EncodeValue(vs[1])| + |EncodeValue(vs[2])| + |EncodeFields(vs[3..])|
  {
    assert vs[0..] == vs;
    LengthFrom(vs, 0);
    LengthFrom(vs, 1);
    LengthFrom(vs, 2);
  }

  lemma MessageWidth(m: Message)
    ensures |EncodeFields(MessageFields(m))| >= 45
    ensures FieldShortStrings(MessageFields(m)) <= 1
  {
    var vs := MessageFields(m);
    TwoStrings(vs, 3, -1);
    ThreeFields(vs);
    ThreeFields(vs[3..]);
    assert vs[3..][3..] == vs[6..];
    LengthFrom(vs, 6);
    LengthFrom(vs, 7);
    EncodedBytesLength(m.text);
  }

  lemma DialogWidth(d: DialogInfo)
    ensures |EncodeFields(DialogFields(d))| >= 25 * FieldShortStrings(DialogFields(d))
    ensures FieldShortStrings(DialogFields(d)) <= 2
  {
    var vs := DialogFields(d);
    IdsHoldNoStrings(d.participants);
    ThreeFields(vs);
    ThreeFields(vs[3..]);
    assert vs[3..][3..] == [];
    EncodedBytesLength(d.title);
    if d.lastMessage.Some? {
      MessageWidth(d.lastMessage.value);
      TwoStrings(vs, 1, 4);
    } else {
      TwoStrings(vs, 1, -1);
    }
  }

  /** When every record is at least `width` bytes for each short string in it, so are all of them. */
  lemma {:induction false} ItemsWidth(items: seq<Record>, width: nat)
    requires forall i :: 0 <= i < |items| ==>
      |EncodeFields(items[i].fields)| >= width * FieldShortStrings(items[i].fields)
    ensures |EncodeItems(items)| >= width * ItemShortStrings(items)
  {
    if items != [] {
      ItemsWidth(items[1..], width);
      Distributes(width, FieldShortStrings(items[0].fields), ItemShortStrings(items[1..]));
    }
  }

  lemma Distributes(a: nat, b: nat, c: nat)
    ensures a * (b + c) == a * b + a * c
  {
  }

  // ---------- which objects can be 75 bytes ----------

  /** The constructors with three byte strings. */
  predicate HasThreeStrings(o: TlObject) {
    o.ResPQ? || o.PqInnerData? || o.ReqDHParams?
  }

  /** A history is 12 bytes and at least 45 for each short string, and their number decides it modulo four. */
  lemma HistoryLength(o: TlObject)
    requires o.HistoryResult?
    ensures |EncodeBoxed(o)| != 75 && |EncodeBoxed(o)| != 127
  {
    hide EncodeBytes, MessageFields, EncodeFields;
    var items := MessageRecords(o.messages);
    forall i | 0 <= i < |items|
      ensures |EncodeFields(items[i].fields)| >= 45 * FieldShortStrings(items[i].fields)
    {
      MessageWidth(o.messages[i]);
    }
    ItemsWidth(items, 45);
    BoxedLengthMod4(o);
    LengthFrom(Fields(o), 0);
    LengthFrom(Fields(o), 1);
    assert Fields(o)[0..] == Fields(o);
    assert FieldShortStrings(Fields(o)[1..]) == 0 by { TwoStrings(Fields(o)[1..], -1, -1); }
  }

  lemma DialogListLength(o: TlObject)
    requires o.DialogList?
    ensures |EncodeBoxed(o)| != 75
  {
    hide EncodeBytes, DialogFields, EncodeFields;
    var items := DialogRecords(o.dialogs);
    forall i | 0 <= i < |items|
      ensures |EncodeFields(items[i].fields)| >= 25 * FieldShortStrings(items[i].fields)
    {
      DialogWidth(o.dialogs[i]);
    }
    ItemsWidth(items, 25);
    BoxedLengthMod4(o);
    LengthFrom(Fields(o), 0);
    assert Fields(o)[0..] == Fields(o);
    assert FieldShortStrings(Fields(o)[1..]) == 0;
  }

  /** Where the byte strings of the remaining constructors are. */
  function StringPositions(o: TlObject): (int, int) {
    match o
    case ServerDHParamsOk(_, _, _, _) => (2, 3)
    case ServerDHInnerData(_, _, _, _, _, _) => (3, 4)
    case ClientDHInnerData(_, _, _, _) => (3, -1)
    case SetClientDHParams(_, _, _) => (2, -1)
    case Chat(_, _, _, _) => (1, -1)
    case SendMessage(_, _, _) => (1, -1)
    case SignUp(_, _) => (0, 1)
    case CreateGroup(_, _) => (0, -1)
    case _ => (-1, -1)
  }

  lemma FewStrings(o: TlObject)
    requires !HasThreeStrings(o) && !o.HistoryResult? && !o.DialogList?
    ensures FieldShortStrings(Fields(o)) <= 2
  {
    if o.MessageObject? {
      MessageWidth(o.message);
    } else if o.DialogInfoObject? {
      DialogWidth(o.info);
    } else {
      if o.Chat? || o.CreateGroup? { IdsHoldNoStrings(o.participants); }
      var (i, j) := StringPositions(o);
      TwoStrings(Fields(o), i, j);
    }
  }

  /** Only three of the 24 constructors can encode to 75 bytes. */
  lemma Only75(o: TlObject)
    requires |EncodeBoxed(o)| == 75
    ensures HasThreeStrings(o)
  {
    if o.HistoryResult? {
      HistoryLength(o);
    } else if o.DialogList? {
      DialogListLength(o);
    } else if !HasThreeStrings(o) {
      FewStrings(o);
      BoxedLengthMod4(o);
    }
  }

  /** And one more can encode to 127 bytes. */
  lemma Only127(o: TlObject)
    requires |EncodeBoxed(o)| == 127
    ensures HasThreeStrings(o) || o.DialogList?
  {
    if o.HistoryResult? {
      HistoryLength(o);
    } else if !HasThreeStrings(o) && !o.DialogList? {
      FewStrings(o);
      BoxedLengthMod4(o);
    }
  }

  function Dialog(title: bytes): DialogInfo { DialogInfo(0, title, false, [], None, 0) }

  function ThreeDialogs(): TlObject { DialogList([Dialog([]), Dialog([]), Dialog(Zeros(44))]) }

  lemma DialogLength(title: bytes)
    ensures |EncodeFields(DialogFields(Dialog(title)))| == 24 + |EncodeBytes(title)|
  {
    hide EncodeBytes;
    var vs := DialogFields(Dialog(title));
    ThreeFields(vs);
    ThreeFields(vs[3..]);
    assert vs[3..][3..] == [];
    assert IdRecords([]) == [];
  }

  lemma DialogsReach127()
    ensures |EncodeBoxed(ThreeDialogs())| == 127
  {
    hide EncodeFields, EncodeBytes, DialogFields, ConstructorId;
    DialogLength([]);
    DialogLength(Zeros(44));
    EncodedBytesLength([]);
    EncodedBytesLength(Zeros(44));
    var o := ThreeDialogs();
    var items := DialogRecords(o.dialogs);
    assert items == [items[0], items[1], items[2]];
    ThreeItems(items[0], items[1], items[2]);
    assert Fields(o)[0..] == Fields(o);
    LengthFrom(Fields(o), 0);
    LengthFrom(Fields(o), 1);
  }

  lemma ThreeItems(a: Record, b: Record, c: Record)
    ensures |EncodeItems([a, b, c])| == |EncodeFields(a.fields)| + |EncodeFields(b.fields)| + |EncodeFields(c.fields)|
  {
    hide EncodeFields;
    assert [a, b, c][1..] == [b, c] && [b, c][1..] == [c] && [c][1..] == [];
    assert |EncodeItems([c])| == |EncodeFields(c.fields)|;
    assert |EncodeItems([b, c])| == |EncodeFields(b.fields)| + |EncodeFields(c.fields)|;
  }

  // ---------- handshake objects as the two ends build them ----------

  /** Sizes the handshake code produces: 32-bit p and q in their shortest form, one fingerprint, a 64-byte
      signature, and encrypted parts that are whole 16-byte blocks (padding and the authentication tag). */
  predicate BuiltHandshake(o: TlObject) {
    match o
    case ReqPq(_) => true
    case ResPQ(_, _, pq, p, q, fingerprints) =>
      1 <= |pq| <= 8 && 1 <= |p| <= 4 && 1 <= |q| <= 4 && |fingerprints| == 1
    case ReqDHParams(_, _, p, q, _, encryptedData) => 1 <= |p| <= 4 && 1 <= |q| <= 4 && |encryptedData| % 16 == 0
    case ServerDHParamsOk(_, _, encryptedAnswer, signature) => |encryptedAnswer| % 16 == 0 && |signature| == 64
    case SetClientDHParams(_, _, encryptedData) => |encryptedData| % 16 == 0
    case DHGenOk(_, _, _) => true
    case _ => false
  }

  lemma {:induction false} IdsLength(ids: seq<i64>)
    ensures |EncodeItems(IdRecords(ids))| == 8 * |ids|
  {
    if ids != [] {
      assert IdRecords(ids)[1..] == IdRecords(ids[1..]);
      var first := IdRecords(ids)[0].fields;
      assert first[0..] == first;
      LengthFrom(first, 0);
      LengthFrom(first, 1);
      IdsLength(ids[1..]);
    }
  }

  lemma SixFields(vs: seq<Value>)
    requires |vs| == 6
    ensures |EncodeFields(vs)| == |EncodeValue(vs[0])| + |EncodeValue(vs[1])| + |EncodeValue(vs[2])|
      + |EncodeValue(vs[3])| + |EncodeValue(vs[4])| + |EncodeValue(vs[5])|
  {
    ThreeFields(vs);
    ThreeFields(vs[3..]);
    assert vs[3..][3..] == [];
  }

  lemma ResPQLength(o: TlObject)
    requires o.ResPQ?
    ensures |EncodeBoxed(o)| ==
      40 + |EncodeBytes(o.pq)| + |EncodeBytes(o.p)| + |EncodeBytes(o.q)| + 8 * |o.fingerprints|
  {
    SixFields(Fields(o));
    IdsLength(o.fingerprints);
  }

  lemma ReqDHParamsLength(o: TlObject)
    requires o.ReqDHParams?
    ensures |EncodeBoxed(o)| == 44 + |EncodeBytes(o.p)| + |EncodeBytes(o.q)| + |EncodeBytes(o.encryptedData)|
  {
    SixFields(Fields(o));
  }

  lemma SetClientDHParamsLength(o: TlObject)
    requires o.SetClientDHParams?
    ensures |EncodeBoxed(o)| == 36 + |EncodeBytes(o.encryptedData)|
  {
    ThreeFields(Fields(o));
    assert Fields(o)[3..] == [];
  }

  lemma ServerDHParamsOkLength(o: TlObject)
    requires o.ServerDHParamsOk?
    ensures |EncodeBoxed(o)| == 36 + |EncodeBytes(o.encryptedAnswer)| + |EncodeBytes(o.signature)|
  {
    ThreeFields(Fields(o));
    LengthFrom(Fields(o), 3);
    LengthFrom(Fields(o), 4);
  }

  lemma NonceObjectsLength(o: TlObject)
    requires o.ReqPq? || o.DHGenOk?
    ensures |EncodeBoxed(o)| == if o.ReqPq? then 20 else 52
  {
    if o.ReqPq? {
      assert Fields(o)[0..] == Fields(o);
      LengthFrom(Fields(o), 0);
      LengthFrom(Fields(o), 1);
    } else {
      ThreeFields(Fields(o));
      assert Fields(o)[3..] == [];
    }
  }

  lemma BlockStringLength(data: bytes)
    requires |data| % 16 == 0
    ensures |EncodeBytes(data)| % 16 == 1 || (|EncodeBytes(data)| % 16 == 4 && |EncodeBytes(data)| >= 260)
  {
    hide EncodeBytes;
    EncodedBytesLength(data);
    var k := |data| / 16;
    assert |data| == 16 * k && PaddingLength(|data|) == 0;
  }

  lemma SmallStringLength(data: bytes)
    requires 1 <= |data| <= 8
    ensures |EncodeBytes(data)| == if |data| <= 4 then 5 else 9
  {
    EncodedBytesLength(data);
  }

  /** No handshake object is 127 bytes long, and none is 75 bytes long. */
  lemma HandshakeAvoidsMarker(o: TlObject)
    requires BuiltHandshake(o)
    ensures |EncodeBoxed(o)| != 127 && |EncodeBoxed(o)| != 75
  {
    if o.ResPQ? {
      ResPQLength(o);
      SmallStringLength(o.pq);
      SmallStringLength(o.p);
      SmallStringLength(o.q);
    } else if o.ReqDHParams? {
      ReqDHParamsLength(o);
      SmallStringLength(o.p);
      SmallStringLength(o.q);
      BlockStringLength(o.encryptedData);
    } else if o.ServerDHParamsOk? {
      ServerDHParamsOkLength(o);
      EncodedBytesLength(o.signature);
      BlockStringLength(o.encryptedAnswer);
    } else if o.SetClientDHParams? {
      SetClientDHParamsLength(o);
      BlockStringLength(o.encryptedData);
    } else {
      NonceObjectsLength(o);
    }
  }

  /** A ResPQ with other sizes does reach 75 bytes, so the sizes are needed. */
  lemma OtherSizesReach75(nonce: Int128)
    ensures |EncodeBoxed(ResPQ(nonce, nonce, Zeros(32), [], [], []))| == 75
  {
    ResPQLength(ResPQ(nonce, nonce, Zeros(32), [], [], []));
  }
}
