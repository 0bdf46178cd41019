/** The wire format, byte for byte: what each struct's writer emits, spelled out on its own
    (kosta-core/src/tl/constructors.rs, types.rs), and what the readers make of arbitrary bytes. The codecs of
    TlTypes and TlObjects, which are driven by one table of layouts, are proved to agree with it. */
module TlWire {
  import opened Wrappers
  import opened Bytes
  import opened TlTypes
  import opened TlObjects

  // ---------- what is written ----------

  /** A byte string: its length in one byte, or 254 and three bytes with the least significant first; the data;
      and zeros up to a multiple of four. */
  function Str(data: bytes): bytes {
    var n := |data|;
    (if n <= 253 then [n] else [254, n % 256, n / 256 % 256, n / 65536 % 256])
    + data + seq((4 - n % 4) % 4, _ => 0)
  }

  /** A number in four bytes, least significant first. */
  function Word(x: nat): bytes { [x % 256, x / 256 % 256, x / 65536 % 256, x / 16777216 % 256] }

  function Flag(b: bool): bytes { if b then [1, 0, 0, 0] else [0, 0, 0, 0] }

  function Status(s: UserStatus): bytes {
    [match s case Online => 0 case Offline => 1 case Typing => 2 case Recently => 3 case LastWeek => 4 case LastMonth => 5, 0, 0, 0]
  }

  function Cat(parts: seq<bytes>): bytes { if parts == [] then [] else parts[0] + Cat(parts[1..]) }

  /** A vector: the number of elements, and the elements. */
  function Counted(parts: seq<bytes>): bytes { Word(|parts|) + Cat(parts) }

  function Longs(ids: seq<i64>): bytes { Counted(seq(|ids|, i requires 0 <= i < |ids| => EncodeI64(ids[i]))) }

  function MessageParts(m: Message): seq<bytes> {
    [EncodeI64(m.id), EncodeI64(m.chatId), EncodeI64(m.senderId), Str(m.text), EncodeI64(m.timestamp),
     Flag(m.isOutgoing), Flag(m.read), Flag(m.delivered)]
  }

  /** An option: one and the value, or zero. */
  function MaybeMessage(m: Option<Message>): bytes {
    match m
    case Some(last) => [1, 0, 0, 0] + Cat(MessageParts(last))
    case None => [0, 0, 0, 0]
  }

  function DialogParts(d: DialogInfo): seq<bytes> {
    [EncodeI64(d.id), Str(d.title), Flag(d.isGroup), Longs(d.participants), MaybeMessage(d.lastMessage), EncodeI32(d.unreadCount)]
  }

  function Messages(ms: seq<Message>): bytes {
    Counted(seq(|ms|, i requires 0 <= i < |ms| => Cat(MessageParts(ms[i]))))
  }

  function Dialogs(ds: seq<DialogInfo>): bytes {
    Counted(seq(|ds|, i requires 0 <= i < |ds| => Cat(DialogParts(ds[i]))))
  }

  /** The identifier of each struct, and what its writer emits after it, in order. */
  function Written(o: TlObject): (nat, seq<bytes>) {
    match o
    case ReqPq(nonce) => (0x60469778, [nonce])
    case ResPQ(nonce, serverNonce, pq, p, q, keys) =>
      (0x9a2b3c4d, [nonce, serverNonce, Str(pq), Str(p), Str(q), Longs(keys)])
    case PqInnerData(pq, p, q, nonce, serverNonce, newNonce) =>
      (0x83c95aec, [Str(pq), Str(p), Str(q), nonce, serverNonce, newNonce])
    case ReqDHParams(nonce, serverNonce, p, q, key, data) =>
      (0xd712e4be, [nonce, serverNonce, Str(p), Str(q), EncodeI64(key), Str(data)])
    case ServerDHParamsOk(nonce, serverNonce, answer, signature) =>
      (0xd0e60441, [nonce, serverNonce, Str(answer), Str(signature)])
    case ServerDHInnerData(nonce, serverNonce, g, prime, gA, time) =>
      (0xb5890dba, [nonce, serverNonce, EncodeI32(g), Str(prime), Str(gA), EncodeI32(time)])
    case ClientDHInnerData(nonce, serverNonce, retryId, gB) =>
      (0x6643b654, [nonce, serverNonce, EncodeI64(retryId), Str(gB)])
    case SetClientDHParams(nonce, serverNonce, data) => (0xf5045f1f, [nonce, serverNonce, Str(data)])
    case DHGenOk(nonce, serverNonce, hash) => (0x3bcbf734, [nonce, serverNonce, hash])
    case MessageObject(m) => (0x9b9c4b5d, MessageParts(m))
    case Chat(id, title, participants, isGroup) =>
      (0x7a8f3c1e, [EncodeI64(id), Str(title), Longs(participants), Flag(isGroup)])
    case SendMessage(chatId, text, randomId) => (0x1a2b3c4d, [EncodeI64(chatId), Str(text), EncodeI64(randomId)])
    case SendMessageAck(id) => (0x2b3c4d5e, [EncodeI64(id)])
    case GetHistory(chatId, offset, limit) => (0x3c4d5e6f, [EncodeI64(chatId), EncodeI32(offset), EncodeI32(limit)])
    case HistoryResult(messages, total) => (0x4d5e6f70, [Messages(messages), EncodeI32(total)])
    case UserStatusUpdate(userId, status) => (0x5e6f7081, [EncodeI64(userId), Status(status)])
    case SignUp(phone, password) => (0x8a9b7c6d, [Str(phone), Str(password)])
    case CreatePrivateDialog(userId) => (0xa1b2c3d4, [EncodeI64(userId)])
    case CreateGroup(title, participants) => (0xb2c3d4e5, [Str(title), Longs(participants)])
    case AddGroupParticipant(dialogId, userId) => (0xc3d4e5f6, [EncodeI64(dialogId), EncodeI64(userId)])
    case RemoveGroupParticipant(dialogId, userId) => (0xd4e5f607, [EncodeI64(dialogId), EncodeI64(userId)])
    case GetDialogs => (0xf6071829, [])
    case DialogInfoObject(d) => (0x0718293a, DialogParts(d))
    case DialogList(dialogs) => (0x18293a4b, [Dialogs(dialogs)])
  }

  // ---------- the parts agree ----------

  lemma FourBytes(x: nat)
    ensures LeBytes(x, 4) == Word(x) && LeBytes(x, 3) == Word(x)[..3]
  {
    assert LeBytes(x, 4) == [x % 256] + LeBytes(x / 256, 3);
    assert LeBytes(x / 256, 3) == [x / 256 % 256] + LeBytes(x / 256 / 256, 2);
    assert LeBytes(x / 256 / 256, 2) == [x / 256 / 256 % 256] + LeBytes(x / 256 / 256 / 256, 1);
    assert LeBytes(x / 256 / 256 / 256, 1) == [x / 256 / 256 / 256 % 256] + LeBytes(x / 256 / 256 / 256 / 256, 0);
    assert LeBytes(x, 3) == [x % 256] + LeBytes(x / 256, 2);
    assert LeBytes(x / 256, 2) == [x / 256 % 256] + LeBytes(x / 256 / 256, 1);
    assert LeBytes(x / 256 / 256, 1) == [x / 256 / 256 % 256] + LeBytes(x / 256 / 256 / 256, 0);
    assert x / 256 / 256 == x / 65536 && x / 256 / 256 / 256 == x / 16777216;
  }

  lemma ReducedWord(n: nat)
    ensures (n % TWO_24) % 256 == n % 256 && (n % TWO_24) / 256 % 256 == n / 256 % 256 && (n % TWO_24) / 65536 % 256 == n / 65536 % 256
  {
    var q, r := n / TWO_24, n % TWO_24;
    assert n == r + q * TWO_24;
    assert n / 256 == r / 256 + q * 65536 && n / 65536 == r / 65536 + q * 256;
  }

  lemma StrIs(data: bytes)
    ensures EncodeBytes(data) == Str(data)
  {
    var n := |data|;
    FourBytes(n % TWO_24);
    ReducedWord(n);
    assert Zeros(PaddingLength(n)) == seq((4 - n % 4) % 4, _ => 0);
    if n > 253 { assert [254] + LeBytes(n % TWO_24, 3) == [254, n % 256, n / 256 % 256, n / 65536 % 256]; }
  }

  lemma WordIs(n: nat)
    ensures EncodeI32(Wrap32(n)) == Word(n)
  {
    var m := Unsigned32(Wrap32(n));
    FourBytes(m);
    WrapIsMod(n);
    ReducedWord32(n);
  }

  lemma WrapIsMod(n: nat)
    ensures Unsigned32(Wrap32(n)) == n % TWO_32
  {
    var q := (n + TWO_31) / TWO_32;
    assert Wrap32(n) == n - q * TWO_32;
  }

  lemma ReducedWord32(n: nat)
    ensures Word(n % TWO_32) == Word(n)
  {
    var q, r := n / TWO_32, n % TWO_32;
    assert n == r + q * TWO_32;
    assert n % 256 == r % 256;
    assert n / 256 == r / 256 + q * 0x100_0000;
    assert n / 65536 == r / 65536 + q * 0x1_0000;
    assert n / 16777216 == r / 16777216 + q * 256;
    MultipleDrops(r / 256, q * 0x1_0000);
    MultipleDrops(r / 65536, q * 256);
    MultipleDrops(r / 16777216, q);
  }

  lemma MultipleDrops(x: nat, k: nat)
    ensures (x + k * 256) % 256 == x % 256
  {
  }

  lemma FlagIs(b: bool)
    ensures EncodeValue(BoolV(b)) == Flag(b)
  {
    WordIs(if b then 1 else 0);
  }

  lemma StatusIs(s: UserStatus)
    ensures EncodeValue(StatusV(s)) == Status(s)
  {
    WordIs(StatusCode(s));
  }

  /** Fields that encode to the parts encode to their concatenation. */
  lemma {:induction false} FieldsAre(vs: seq<Value>, parts: seq<bytes>)
    requires |vs| == |parts| && forall i :: 0 <= i < |vs| ==> EncodeValue(vs[i]) == parts[i]
    ensures EncodeFields(vs) == Cat(parts)
  {
    hide EncodeValue;
    if vs != [] { FieldsAre(vs[1..], parts[1..]); }
  }

  lemma {:induction false} ItemsAre(items: seq<Record>, parts: seq<bytes>)
    requires |items| == |parts| && forall i :: 0 <= i < |items| ==> EncodeFields(items[i].fields) == parts[i]
    ensures EncodeItems(items) == Cat(parts)
  {
    hide EncodeFields;
    if items != [] { ItemsAre(items[1..], parts[1..]); }
  }

  lemma VectorIs(items: seq<Record>, parts: seq<bytes>)
    requires |items| == |parts| && forall i :: 0 <= i < |items| ==> EncodeFields(items[i].fields) == parts[i]
    ensures EncodeValue(VecV(items)) == Counted(parts)
  {
    hide EncodeFields, EncodeItems, Cat, EncodeI32, Wrap32, Word;
    WordIs(|items|);
    ItemsAre(items, parts);
  }

  lemma OneField(v: Value)
    ensures EncodeFields([v]) == EncodeValue(v)
  {
    assert EncodeFields([v]) == EncodeValue(v) + EncodeFields([]);
  }

  lemma LongsAre(ids: seq<i64>)
    ensures EncodeValue(VecV(IdRecords(ids))) == Longs(ids)
  {
    hide EncodeI64, Counted;
    var parts := seq(|ids|, i requires 0 <= i < |ids| => EncodeI64(ids[i]));
    forall i | 0 <= i < |ids| ensures EncodeFields(IdRecords(ids)[i].fields) == parts[i] { OneField(LongV(ids[i])); }
    VectorIs(IdRecords(ids), parts);
  }

  lemma MessageIs(m: Message)
    ensures EncodeFields(MessageFields(m)) == Cat(MessageParts(m))
  {
    hide EncodeI64, EncodeI32, EncodeBytes, Str, Cat, EncodeFields;
    StrIs(m.text);
    FlagIs(m.isOutgoing);
    FlagIs(m.read);
    FlagIs(m.delivered);
    FieldsAre(MessageFields(m), MessageParts(m));
  }

  lemma MessagesAre(ms: seq<Message>)
    ensures EncodeValue(VecV(MessageRecords(ms))) == Messages(ms)
  {
    hide MessageParts, MessageFields, Counted, Cat, EncodeFields;
    var parts := seq(|ms|, i requires 0 <= i < |ms| => Cat(MessageParts(ms[i])));
    forall i | 0 <= i < |ms| ensures EncodeFields(MessageRecords(ms)[i].fields) == parts[i] { MessageIs(ms[i]); }
    VectorIs(MessageRecords(ms), parts);
  }

  lemma MaybeMessageIs(m: Option<Message>)
    ensures EncodeValue(LastMessageField(m)) == MaybeMessage(m)
  {
    hide MessageParts, MessageFields, Cat, EncodeFields, EncodeI32;
    WordIs(0);
    WordIs(1);
    if m.Some? { MessageIs(m.value); }
  }

  lemma DialogIs(d: DialogInfo)
    ensures EncodeFields(DialogFields(d)) == Cat(DialogParts(d))
  {
    hide EncodeI64, EncodeI32, EncodeBytes, Str, Cat, EncodeFields, Longs, MaybeMessage, IdRecords, LastMessageField, EncodeItems, Flag;
    StrIs(d.title);
    FlagIs(d.isGroup);
    LongsAre(d.participants);
    MaybeMessageIs(d.lastMessage);
    var vs, parts := DialogFields(d), DialogParts(d);
    assert EncodeValue(vs[0]) == parts[0] && EncodeValue(vs[1]) == parts[1] && EncodeValue(vs[5]) == parts[5];
    hide EncodeValue;
    FieldsAre(vs, parts);
  }

  lemma DialogsAre(ds: seq<DialogInfo>)
    ensures EncodeValue(VecV(DialogRecords(ds))) == Dialogs(ds)
  {
    hide DialogParts, DialogFields, Counted, Cat, EncodeFields;
    var parts := seq(|ds|, i requires 0 <= i < |ds| => Cat(DialogParts(ds[i])));
    forall i | 0 <= i < |ds| ensures EncodeFields(DialogRecords(ds)[i].fields) == parts[i] { DialogIs(ds[i]); }
    VectorIs(DialogRecords(ds), parts);
  }

  // ---------- every object ----------

  lemma StringsAre(a: bytes, b: bytes, c: bytes)
    ensures EncodeValue(BytesV(a)) == Str(a) && EncodeValue(BytesV(b)) == Str(b) && EncodeValue(BytesV(c)) == Str(c)
  {
    hide EncodeBytes, Str;
    StrIs(a);
    StrIs(b);
    StrIs(c);
  }

  lemma HandshakeParts(o: TlObject)
    requires o.ReqPq? || o.ResPQ? || o.PqInnerData? || o.ReqDHParams? || o.ServerDHParamsOk? || o.DHGenOk?
      || o.ServerDHInnerData? || o.ClientDHInnerData? || o.SetClientDHParams?
    ensures |Fields(o)| == |Written(o).1| && forall i :: 0 <= i < |Fields(o)| ==> EncodeValue(Fields(o)[i]) == Written(o).1[i]
  {
    hide EncodeI64, EncodeI32, EncodeBytes, Str, Longs, IdRecords, EncodeItems;
    match o
    case ResPQ(_, _, pq, p, q, keys) =>
      StringsAre(pq, p, q);
      LongsAre(keys);
    case PqInnerData(pq, p, q, _, _, _) => StringsAre(pq, p, q);
    case ReqDHParams(_, _, p, q, _, data) => StringsAre(p, q, data);
    case ServerDHParamsOk(_, _, answer, signature) => StringsAre(answer, signature, []);
    case ServerDHInnerData(_, _, _, prime, gA, _) => StringsAre(prime, gA, []);
    case ClientDHInnerData(_, _, _, gB) => StringsAre(gB, [], []);
    case SetClientDHParams(_, _, data) => StringsAre(data, [], []);
    case _ =>
  }

  lemma SmallParts(o: TlObject)
    requires o.Chat? || o.SendMessage? || o.SendMessageAck? || o.GetHistory? || o.UserStatusUpdate? || o.SignUp?
      || o.CreatePrivateDialog? || o.CreateGroup? || o.AddGroupParticipant? || o.RemoveGroupParticipant? || o.GetDialogs?
    ensures |Fields(o)| == |Written(o).1| && forall i :: 0 <= i < |Fields(o)| ==> EncodeValue(Fields(o)[i]) == Written(o).1[i]
  {
    hide EncodeI64, EncodeI32, EncodeBytes, Str, Longs, IdRecords, EncodeItems, Status, StatusCode;
    match o
    case Chat(_, title, participants, isGroup) =>
      StringsAre(title, [], []);
      LongsAre(participants);
      FlagIs(isGroup);
    case SendMessage(_, text, _) => StringsAre(text, [], []);
    case UserStatusUpdate(_, status) => StatusIs(status);
    case SignUp(phone, password) => StringsAre(phone, password, []);
    case CreateGroup(title, participants) =>
      StringsAre(title, [], []);
      LongsAre(participants);
    case _ =>
  }

  lemma PartsAre(o: TlObject)
    ensures EncodeFields(Fields(o)) == Cat(Written(o).1)
  {
    hide EncodeFields, Cat, MessageFields, MessageParts, DialogFields, DialogParts, MessageRecords, DialogRecords, EncodeItems;
    match o
    case MessageObject(m) => MessageIs(m);
    case DialogInfoObject(d) => DialogIs(d);
    case HistoryResult(messages, total) => HistoryParts(messages, total);
    case DialogList(dialogs) =>
      DialogsAre(dialogs);
      OneField(VecV(DialogRecords(dialogs)));
      OnePart(Dialogs(dialogs));
    case _ => FlatParts(o);
  }

  lemma HistoryParts(messages: seq<Message>, total: i32)
    ensures EncodeFields(Fields(HistoryResult(messages, total))) == Cat(Written(HistoryResult(messages, total)).1)
  {
    hide EncodeFields, Cat, EncodeI32, Messages, MessageRecords, EncodeItems;
    MessagesAre(messages);
    TwoFields(VecV(MessageRecords(messages)), IntV(total), Messages(messages), EncodeI32(total));
  }

  lemma OnePart(p: bytes)
    ensures Cat([p]) == p
  {
    assert Cat([p]) == p + Cat([]);
  }

  lemma TwoFields(v: Value, w: Value, p: bytes, q: bytes)
    requires EncodeValue(v) == p && EncodeValue(w) == q
    ensures EncodeFields([v, w]) == Cat([p, q])
  {
    hide EncodeValue;
    FieldsAre([v, w], [p, q]);
  }

  lemma FlatParts(o: TlObject)
    requires !o.MessageObject? && !o.DialogInfoObject? && !o.HistoryResult? && !o.DialogList?
    ensures EncodeFields(Fields(o)) == Cat(Written(o).1)
  {
    hide Fields, Written, EncodeValue, EncodeFields, Cat;
    if o.Chat? || o.SendMessage? || o.SendMessageAck? || o.GetHistory? || o.UserStatusUpdate? || o.SignUp?
      || o.CreatePrivateDialog? || o.CreateGroup? || o.AddGroupParticipant? || o.RemoveGroupParticipant? || o.GetDialogs? {
      SmallParts(o);
    } else {
      HandshakeParts(o);
    }
    FieldsAre(Fields(o), Written(o).1);
  }

  lemma IdentifierIs(o: TlObject)
    ensures ConstructorId(TagOfObject(o)) == Written(o).0
  {
    hide Str, Longs, Messages, Dialogs, MessageParts, DialogParts, Status, Flag, EncodeI64, EncodeI32;
  }

  /** Every object is written as its identifier, least significant byte first, and the parts its own writer emits,
      in order. */
  lemma WireFormat(o: TlObject)
    ensures EncodeBoxed(o) == Word(Written(o).0) + Cat(Written(o).1)
  {
    hide Written, Fields, TagOfObject, ConstructorId, EncodeFields, Cat, EncodeI32, Wrap32, Word;
    IdentifierIs(o);
    PartsAre(o);
    WordIs(ConstructorId(TagOfObject(o)));
  }

  // ---------- what is read ----------

  /** Bytes are accepted as an object only under that object's identifier; they are refused as unknown exactly
      when their first four bytes are no struct's identifier. */
  lemma ReadUnderIdentifier(b: bytes)
    ensures DecodeBoxed(b).Got? ==> |b| >= 4 && FromLe(b[..4]) == Written(DecodeBoxed(b).value).0
    ensures |b| >= 4 ==>
      (DecodeBoxed(b) == Bad(InvalidConstructor(FromLe(b[..4]))) <==> forall o: TlObject :: Written(o).0 != FromLe(b[..4]))
  {
    hide Written, Fields, DecodeFields, FromFields, Layout, ConstructorId, TagOfObject, FromLe;
    if |b| >= 4 {
      var id := FromLe(b[..4]);
      TagFound(id);
      forall o: TlObject ensures Written(o).0 == ConstructorId(TagOfObject(o)) { IdentifierIs(o); }
      forall o: TlObject ensures TagOf(Written(o).0) == Some(TagOfObject(o)) { TagOfConstructorId(TagOfObject(o)); }
      if TagOf(id).Some? {
        var tag := TagOf(id).value;
        FieldsNotInvalid(Layout(tag), b[4..], id);
        forall vs ensures TagOfObject(FromFields(tag, vs)) == tag { TagOfFromFields(tag, vs); }
        assert Written(FromFields(tag, [])).0 == id;
      }
    }
  }

  lemma {:induction false} TagFoundIn(id: nat, tags: seq<Tag>)
    ensures FindTag(id, tags).Some? ==> ConstructorId(FindTag(id, tags).value) == id
  {
    hide ConstructorId;
    if tags != [] { TagFoundIn(id, tags[1..]); }
  }

  lemma TagFound(id: nat)
    ensures TagOf(id).Some? ==> ConstructorId(TagOf(id).value) == id
  {
    hide FindTag, ConstructorId;
    TagFoundIn(id, ALL_TAGS);
  }

  lemma TagOfFromFields(tag: Tag, vs: seq<Value>)
    ensures TagOfObject(FromFields(tag, vs)) == tag
  {
    hide NonceAt, WideNonceAt, DataAt, IdsAt, LongAt, IntAt, BoolAt, StatusAt, MessageOf, DialogOf, MessagesAt, DialogsAt;
  }

  /** Reading the fields of a struct never reports an unknown identifier. */
  lemma {:induction false} ValueNotInvalid(k: Kind, b: bytes, id: nat)
    ensures DecodeValue(k, b) != Bad(InvalidConstructor(id))
    decreases k
  {
    hide DecodeFields, DecodeItems, DecodeI32, DecodeI64, FromLe;
    match k
    case VecK(item) =>
      if DecodeInt(b).Got? && DecodeInt(b).value >= 0 { ItemsNotInvalid(item, DecodeInt(b).value, DecodeInt(b).rest, id); }
    case OptK(item) => if DecodeInt(b).Got? { FieldsNotInvalid(item, DecodeInt(b).rest, id); }
    case _ =>
  }

  lemma {:induction false} FieldsNotInvalid(ks: seq<Kind>, b: bytes, id: nat)
    ensures DecodeFields(ks, b) != Bad(InvalidConstructor(id))
    decreases ks, 0
  {
    hide DecodeValue;
    if ks != [] {
      ValueNotInvalid(ks[0], b, id);
      if DecodeValue(ks[0], b).Got? { FieldsNotInvalid(ks[1..], DecodeValue(ks[0], b).rest, id); }
    }
  }

  lemma {:induction false} ItemsNotInvalid(ks: seq<Kind>, count: nat, b: bytes, id: nat)
    ensures DecodeItems(ks, count, b) != Bad(InvalidConstructor(id))
    decreases ks, 1, count
  {
    hide DecodeFields;
    if count > 0 {
      FieldsNotInvalid(ks, b, id);
      if DecodeFields(ks, b).Got? { ItemsNotInvalid(ks, count - 1, DecodeFields(ks, b).rest, id); }
    }
  }

  /** The number of four bytes, the least significant first. */
  function Number(b0: nat, b1: nat, b2: nat, b3: nat): nat { b0 + 256 * b1 + 65536 * b2 + 16777216 * b3 }

  /** A byte string is read exactly when all of it and its padding are there, whatever the padding holds; a first
      byte of 255 counts as a length. */
  lemma StringsRead(b: bytes)
    ensures b == [] || (b[0] == 254 && |b| < 4) ==> DecodeBytes(b) == Bad(UnexpectedEof)
    ensures b != [] && (b[0] == 254 ==> |b| >= 4) ==>
      var n, h := if b[0] == 254 then Number(b[1], b[2], b[3], 0) else b[0], if b[0] == 254 then 4 else 1;
      var end := h + n + (4 - n % 4) % 4;
      DecodeBytes(b) == if |b| < end then Bad(UnexpectedEof) else Got(b[h..h + n], b[end..])
  {
    hide DecodeBody, FromLe;
    if b != [] && b[0] != 254 {
      BodyRead(b, b[0], 1);
    } else if |b| >= 4 {
      ThreeBytes(b[1..4]);
      assert b[1..4][0] == b[1] && b[1..4][1] == b[2] && b[1..4][2] == b[3];
      BodyRead(b, Number(b[1], b[2], b[3], 0), 4);
    }
  }

  lemma BodyRead(b: bytes, n: nat, h: nat)
    requires h <= |b|
    ensures var end := h + n + (4 - n % 4) % 4;
      DecodeBody(n, b[h..]) == if |b| < end then Bad(UnexpectedEof) else Got(b[h..h + n], b[end..])
  {
    var end := h + n + (4 - n % 4) % 4;
    if |b| >= end { assert b[h..][..n] == b[h..h + n] && b[h..][end - h..] == b[end..]; }
  }

  lemma ThreeBytes(b: bytes)
    requires |b| == 3
    ensures FromLe(b) == Number(b[0], b[1], b[2], 0)
  {
    assert FromLe(b) == b[0] + 256 * FromLe(b[1..]);
    assert b[1..][0] == b[1] && b[1..][1..] == b[2..] && b[2..][1..] == [];
    assert FromLe(b[1..]) == b[1] + 256 * FromLe(b[2..]);
    assert FromLe(b[2..]) == b[2] + 256 * FromLe([]);
  }

  /** Flags and the presence of an option are any nonzero word; statuses are 0 to 5; a vector's count must not be
      negative. */
  lemma WordsRead(b: bytes, item: seq<Kind>)
    requires |b| >= 4
    ensures DecodeValue(BoolK, b) == Got(BoolV(b[..4] != [0, 0, 0, 0]), b[4..])
    ensures DecodeValue(OptK(item), b) == Got(NoneV, b[4..]) <==> b[..4] == [0, 0, 0, 0]
    ensures DecodeValue(StatusK, b) == Bad(InvalidStatus) <==> !(b[0] <= 5 && b[1..4] == [0, 0, 0])
    ensures DecodeValue(VecK(item), b) == Bad(CapacityOverflow) <== b[3] >= 128
  {
    hide DecodeFields, DecodeItems, DecodeI32, StatusOf;
    StatusRange(DecodeI32(b[..4]));
    SmallWord(b[..4]);
    assert DecodeInt(b) == Got(DecodeI32(b[..4]), b[4..]);
    assert b[..4][3] == b[3] && b[..4][0] == b[0] && b[..4][1..] == b[1..4];
    hide DecodeInt;
  }

  /** Every value needs its bytes: a read that finds fewer reports the end of the input. */
  lemma ShortRead(k: Kind, b: bytes)
    requires match k
      case LongK => |b| < 8
      case FixedK(n) => |b| < n
      case BytesK => b == []
      case _ => |b| < 4
    ensures DecodeValue(k, b) == Bad(UnexpectedEof)
  {
  }

  lemma StatusRange(i: i32)
    ensures StatusOf(i).Some? <==> 0 <= i <= 5
  {
  }

  lemma SmallWord(b: bytes)
    requires |b| == 4
    ensures DecodeI32(b) == 0 <==> b == [0, 0, 0, 0]
    ensures DecodeI32(b) < 0 <==> b[3] >= 128
    ensures 0 <= DecodeI32(b) <= 5 <==> b[0] <= 5 && b[1..] == [0, 0, 0]
  {
    FourByteWord(b);
    hide DecodeI32;
    assert b == [b[0], b[1], b[2], b[3]] && b[1..] == [b[1], b[2], b[3]];
  }

  lemma FourByteWord(b: bytes)
    requires |b| == 4
    ensures var x := Number(b[0], b[1], b[2], b[3]);
      DecodeI32(b) == if b[3] < 128 then x else x - TWO_32
  {
    ThreeBytes(b[..3]);
    ThreeBytes(b[1..]);
    assert FromLe(b) == b[0] + 256 * FromLe(b[1..]);
  }
}
