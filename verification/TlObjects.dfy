/** The 24 boxed objects of the protocol (kosta-core/src/tl/constructors.rs). */
module TlObjects {
  import opened Wrappers
  import opened Arithmetic
  import opened Bytes
  import opened TlTypes
  import opened TlIo

  datatype Message = Message(
    id: i64, chatId: i64, senderId: i64, text: bytes, timestamp: i64,
    isOutgoing: bool, read: bool, delivered: bool)

  datatype DialogInfo = DialogInfo(
    id: i64, title: bytes, isGroup: bool, participants: seq<i64>, lastMessage: Option<Message>, unreadCount: i32)

  datatype TlObject =
    | ReqPq(nonce: Int128)
    | ResPQ(nonce: Int128, serverNonce: Int128, pq: bytes, p: bytes, q: bytes, fingerprints: seq<i64>)
    | PqInnerData(pq: bytes, p: bytes, q: bytes, nonce: Int128, serverNonce: Int128, newNonce: Int256)
    | ReqDHParams(nonce: Int128, serverNonce: Int128, p: bytes, q: bytes, fingerprint: i64, encryptedData: bytes)
    | ServerDHParamsOk(nonce: Int128, serverNonce: Int128, encryptedAnswer: bytes, signature: bytes)
    | ServerDHInnerData(nonce: Int128, serverNonce: Int128, g: i32, dhPrime: bytes, gA: bytes, serverTime: i32)
    | ClientDHInnerData(nonce: Int128, serverNonce: Int128, retryId: i64, gB: bytes)
    | SetClientDHParams(nonce: Int128, serverNonce: Int128, encryptedData: bytes)
    | DHGenOk(nonce: Int128, serverNonce: Int128, newNonceHash1: Int128)
    | MessageObject(message: Message)
    | Chat(chatId: i64, title: bytes, participants: seq<i64>, isGroup: bool)
    | SendMessage(chatId: i64, text: bytes, randomId: i64)
    | SendMessageAck(messageId: i64)
    | GetHistory(chatId: i64, offset: i32, limit: i32)
    | HistoryResult(messages: seq<Message>, totalCount: i32)
    | UserStatusUpdate(userId: i64, status: UserStatus)
    | SignUp(phone: bytes, password: bytes)
    | CreatePrivateDialog(userId: i64)
    | CreateGroup(title: bytes, participants: seq<i64>)
    | AddGroupParticipant(dialogId: i64, userId: i64)
    | RemoveGroupParticipant(dialogId: i64, userId: i64)
    | GetDialogs
    | DialogInfoObject(info: DialogInfo)
    | DialogList(dialogs: seq<DialogInfo>)

  /** Which of the 24 constructors an object was built with. */
  datatype Tag =
    | ReqPqT | ResPQT | PqInnerDataT | ReqDHParamsT | ServerDHParamsOkT | ServerDHInnerDataT
    | ClientDHInnerDataT | SetClientDHParamsT | DHGenOkT
    | MessageT | ChatT | SendMessageT | SendMessageAckT | GetHistoryT | HistoryResultT
    | UserStatusT | SignUpT | CreatePrivateDialogT | CreateGroupT | AddGroupParticipantT
    | RemoveGroupParticipantT | GetDialogsT | DialogInfoT | DialogListT

  function ConstructorId(tag: Tag): u32 {
    match tag
    case ReqPqT => 0x60469778
    case ResPQT => 0x9a2b3c4d
    case PqInnerDataT => 0x83c95aec
    case ReqDHParamsT => 0xd712e4be
    case ServerDHParamsOkT => 0xd0e60441
    case ServerDHInnerDataT => 0xb5890dba
    case ClientDHInnerDataT => 0x6643b654
    case SetClientDHParamsT => 0xf5045f1f
    case DHGenOkT => 0x3bcbf734
    case MessageT => 0x9b9c4b5d
    case ChatT => 0x7a8f3c1e
    case SendMessageT => 0x1a2b3c4d
    case SendMessageAckT => 0x2b3c4d5e
    case GetHistoryT => 0x3c4d5e6f
    case HistoryResultT => 0x4d5e6f70
    case UserStatusT => 0x5e6f7081
    case SignUpT => 0x8a9b7c6d
    case CreatePrivateDialogT => 0xa1b2c3d4
    case CreateGroupT => 0xb2c3d4e5
    case AddGroupParticipantT => 0xc3d4e5f6
    case RemoveGroupParticipantT => 0xd4e5f607
    case GetDialogsT => 0xf6071829
    case DialogInfoT => 0x0718293a
    case DialogListT => 0x18293a4b
  }

  const ALL_TAGS: seq<Tag> := [
    ReqPqT, ResPQT, PqInnerDataT, ReqDHParamsT, ServerDHParamsOkT, ServerDHInnerDataT,
    ClientDHInnerDataT, SetClientDHParamsT, DHGenOkT, MessageT, ChatT, SendMessageT, SendMessageAckT,
    GetHistoryT, HistoryResultT, UserStatusT, SignUpT, CreatePrivateDialogT, CreateGroupT,
    AddGroupParticipantT, RemoveGroupParticipantT, GetDialogsT, DialogInfoT, DialogListT]

  function TagOf(id: nat): Option<Tag> {
    FindTag(id, ALL_TAGS)
  }

  function FindTag(id: nat, tags: seq<Tag>): Option<Tag> {
    if tags == [] then None
    else if ConstructorId(tags[0]) == id then Some(tags[0])
    else FindTag(id, tags[1..])
  }

  lemma ConstructorIdsDistinct(s: Tag, t: Tag)
    ensures ConstructorId(s) == ConstructorId(t) ==> s == t
  {
  }

  lemma {:induction false} FindTagComplete(tag: Tag, tags: seq<Tag>)
    requires tag in tags
    ensures FindTag(ConstructorId(tag), tags) == Some(tag)
  {
    if ConstructorId(tags[0]) == ConstructorId(tag) {
      ConstructorIdsDistinct(tags[0], tag);
    } else {
      FindTagComplete(tag, tags[1..]);
    }
  }

  lemma TagOfConstructorId(tag: Tag)
    ensures TagOf(ConstructorId(tag)) == Some(tag)
  {
    var i := match tag
      case ReqPqT => 0 case ResPQT => 1 case PqInnerDataT => 2 case ReqDHParamsT => 3
      case ServerDHParamsOkT => 4 case ServerDHInnerDataT => 5 case ClientDHInnerDataT => 6
      case SetClientDHParamsT => 7 case DHGenOkT => 8 case MessageT => 9 case ChatT => 10
      case SendMessageT => 11 case SendMessageAckT => 12 case GetHistoryT => 13 case HistoryResultT => 14
      case UserStatusT => 15 case SignUpT => 16 case CreatePrivateDialogT => 17 case CreateGroupT => 18
      case AddGroupParticipantT => 19 case RemoveGroupParticipantT => 20 case GetDialogsT => 21
      case DialogInfoT => 22 case DialogListT => 23;
    assert ALL_TAGS[i] == tag;
    FindTagComplete(tag, ALL_TAGS);
  }

  // ---------- layouts ----------

  const NONCE := FixedK(16)
  const IDS := VecK([LongK])
  const MESSAGE_FIELDS := [LongK, LongK, LongK, BytesK, LongK, BoolK, BoolK, BoolK]
  const DIALOG_FIELDS := [LongK, BytesK, BoolK, IDS, OptK(MESSAGE_FIELDS), IntK]

  function Layout(tag: Tag): seq<Kind> {
    match tag
    case ReqPqT => [NONCE]
    case ResPQT => [NONCE, NONCE, BytesK, BytesK, BytesK, IDS]
    case PqInnerDataT => [BytesK, BytesK, BytesK, NONCE, NONCE, FixedK(32)]
    case ReqDHParamsT => [NONCE, NONCE, BytesK, BytesK, LongK, BytesK]
    case ServerDHParamsOkT => [NONCE, NONCE, BytesK, BytesK]
    case ServerDHInnerDataT => [NONCE, NONCE, IntK, BytesK, BytesK, IntK]
    case ClientDHInnerDataT => [NONCE, NONCE, LongK, BytesK]
    case SetClientDHParamsT => [NONCE, NONCE, BytesK]
    case DHGenOkT => [NONCE, NONCE, NONCE]
    case MessageT => MESSAGE_FIELDS
    case ChatT => [LongK, BytesK, IDS, BoolK]
    case SendMessageT => [LongK, BytesK, LongK]
    case SendMessageAckT => [LongK]
    case GetHistoryT => [LongK, IntK, IntK]
    case HistoryResultT => [VecK(MESSAGE_FIELDS), IntK]
    case UserStatusT => [LongK, StatusK]
    case SignUpT => [BytesK, BytesK]
    case CreatePrivateDialogT => [LongK]
    case CreateGroupT => [BytesK, IDS]
    case AddGroupParticipantT => [LongK, LongK]
    case RemoveGroupParticipantT => [LongK, LongK]
    case GetDialogsT => []
    case DialogInfoT => DIALOG_FIELDS
    case DialogListT => [VecK(DIALOG_FIELDS)]
  }

  // ---------- objects to fields ----------

  function IdRecords(ids: seq<i64>): seq<Record> {
    seq(|ids|, i requires 0 <= i < |ids| => Record([LongV(ids[i])]))
  }

  function MessageFields(m: Message): seq<Value> {
    [LongV(m.id), LongV(m.chatId), LongV(m.senderId), BytesV(m.text), LongV(m.timestamp),
     BoolV(m.isOutgoing), BoolV(m.read), BoolV(m.delivered)]
  }

  function DialogFields(d: DialogInfo): seq<Value> {
    [LongV(d.id), BytesV(d.title), BoolV(d.isGroup), VecV(IdRecords(d.participants)),
     LastMessageField(d.lastMessage), IntV(d.unreadCount)]
  }

  function MessageRecords(ms: seq<Message>): seq<Record> {
    seq(|ms|, i requires 0 <= i < |ms| => Record(MessageFields(ms[i])))
  }

  function DialogRecords(ds: seq<DialogInfo>): seq<Record> {
    seq(|ds|, i requires 0 <= i < |ds| => Record(DialogFields(ds[i])))
  }

  function TagOfObject(o: TlObject): Tag {
    match o
    case ReqPq(_) => ReqPqT
    case ResPQ(_, _, _, _, _, _) => ResPQT
    case PqInnerData(_, _, _, _, _, _) => PqInnerDataT
    case ReqDHParams(_, _, _, _, _, _) => ReqDHParamsT
    case ServerDHParamsOk(_, _, _, _) => ServerDHParamsOkT
    case ServerDHInnerData(_, _, _, _, _, _) => ServerDHInnerDataT
    case ClientDHInnerData(_, _, _, _) => ClientDHInnerDataT
    case SetClientDHParams(_, _, _) => SetClientDHParamsT
    case DHGenOk(_, _, _) => DHGenOkT
    case MessageObject(_) => MessageT
    case Chat(_, _, _, _) => ChatT
    case SendMessage(_, _, _) => SendMessageT
    case SendMessageAck(_) => SendMessageAckT
    case GetHistory(_, _, _) => GetHistoryT
    case HistoryResult(_, _) => HistoryResultT
    case UserStatusUpdate(_, _) => UserStatusT
    case SignUp(_, _) => SignUpT
    case CreatePrivateDialog(_) => CreatePrivateDialogT
    case CreateGroup(_, _) => CreateGroupT
    case AddGroupParticipant(_, _) => AddGroupParticipantT
    case RemoveGroupParticipant(_, _) => RemoveGroupParticipantT
    case GetDialogs => GetDialogsT
    case DialogInfoObject(_) => DialogInfoT
    case DialogList(_) => DialogListT
  }

  function Fields(o: TlObject): seq<Value> {
    match o
    case ReqPq(nonce) => [FixedV(nonce)]
    case ResPQ(nonce, serverNonce, pq, p, q, fingerprints) =>
      [FixedV(nonce), FixedV(serverNonce), BytesV(pq), BytesV(p), BytesV(q), VecV(IdRecords(fingerprints))]
    case PqInnerData(pq, p, q, nonce, serverNonce, newNonce) =>
      [BytesV(pq), BytesV(p), BytesV(q), FixedV(nonce), FixedV(serverNonce), FixedV(newNonce)]
    case ReqDHParams(nonce, serverNonce, p, q, fingerprint, encryptedData) =>
      [FixedV(nonce), FixedV(serverNonce), BytesV(p), BytesV(q), LongV(fingerprint), BytesV(encryptedData)]
    case ServerDHParamsOk(nonce, serverNonce, encryptedAnswer, signature) =>
      [FixedV(nonce), FixedV(serverNonce), BytesV(encryptedAnswer), BytesV(signature)]
    case ServerDHInnerData(nonce, serverNonce, g, dhPrime, gA, serverTime) =>
      [FixedV(nonce), FixedV(serverNonce), IntV(g), BytesV(dhPrime), BytesV(gA), IntV(serverTime)]
    case ClientDHInnerData(nonce, serverNonce, retryId, gB) =>
      [FixedV(nonce), FixedV(serverNonce), LongV(retryId), BytesV(gB)]
    case SetClientDHParams(nonce, serverNonce, encryptedData) =>
      [FixedV(nonce), FixedV(serverNonce), BytesV(encryptedData)]
    case DHGenOk(nonce, serverNonce, hash1) => [FixedV(nonce), FixedV(serverNonce), FixedV(hash1)]
    case MessageObject(m) => MessageFields(m)
    case Chat(chatId, title, participants, isGroup) =>
      [LongV(chatId), BytesV(title), VecV(IdRecords(participants)), BoolV(isGroup)]
    case SendMessage(chatId, text, randomId) => [LongV(chatId), BytesV(text), LongV(randomId)]
    case SendMessageAck(messageId) => [LongV(messageId)]
    case GetHistory(chatId, offset, limit) => [LongV(chatId), IntV(offset), IntV(limit)]
    case HistoryResult(messages, totalCount) => [VecV(MessageRecords(messages)), IntV(totalCount)]
    case UserStatusUpdate(userId, status) => [LongV(userId), StatusV(status)]
    case SignUp(phone, password) => [BytesV(phone), BytesV(password)]
    case CreatePrivateDialog(userId) => [LongV(userId)]
    case CreateGroup(title, participants) => [BytesV(title), VecV(IdRecords(participants))]
    case AddGroupParticipant(dialogId, userId) => [LongV(dialogId), LongV(userId)]
    case RemoveGroupParticipant(dialogId, userId) => [LongV(dialogId), LongV(userId)]
    case GetDialogs => []
    case DialogInfoObject(d) => DialogFields(d)
    case DialogList(dialogs) => [VecV(DialogRecords(dialogs))]
  }

  // ---------- fields to objects ----------

  // The fields of a decoded struct are read back by position; decoding has checked their kinds.

  function At(vs: seq<Value>, i: nat): Value { if i < |vs| then vs[i] else NoneV }
  function LongAt(vs: seq<Value>, i: nat): i64 { match At(vs, i) case LongV(l) => l case _ => 0 }
  function IntAt(vs: seq<Value>, i: nat): i32 { match At(vs, i) case IntV(n) => n case _ => 0 }
  function DataAt(vs: seq<Value>, i: nat): bytes { match At(vs, i) case BytesV(data) => data case _ => [] }
  predicate BoolAt(vs: seq<Value>, i: nat) { match At(vs, i) case BoolV(b) => b case _ => false }
  function StatusAt(vs: seq<Value>, i: nat): UserStatus { match At(vs, i) case StatusV(s) => s case _ => Online }
  function ItemsAt(vs: seq<Value>, i: nat): seq<Record> { match At(vs, i) case VecV(items) => items case _ => [] }

  function NonceAt(vs: seq<Value>, i: nat): Int128 {
    match At(vs, i) case FixedV(raw) => (if |raw| == 16 then raw else Zeros(16)) case _ => Zeros(16)
  }

  function WideNonceAt(vs: seq<Value>, i: nat): Int256 {
    match At(vs, i) case FixedV(raw) => (if |raw| == 32 then raw else Zeros(32)) case _ => Zeros(32)
  }

  function IdsAt(vs: seq<Value>, i: nat): seq<i64> {
    var items := ItemsAt(vs, i);
    seq(|items|, j requires 0 <= j < |items| => LongAt(items[j].fields, 0))
  }

  function MessageOf(vs: seq<Value>): Message {
    Message(LongAt(vs, 0), LongAt(vs, 1), LongAt(vs, 2), DataAt(vs, 3), LongAt(vs, 4),
            BoolAt(vs, 5), BoolAt(vs, 6), BoolAt(vs, 7))
  }

  function LastMessageAt(vs: seq<Value>, i: nat): Option<Message> {
    match At(vs, i) case SomeV(fields) => Some(MessageOf(fields)) case _ => None
  }

  function DialogOf(vs: seq<Value>): DialogInfo {
    DialogInfo(LongAt(vs, 0), DataAt(vs, 1), BoolAt(vs, 2), IdsAt(vs, 3), LastMessageAt(vs, 4), IntAt(vs, 5))
  }

  function MessagesAt(vs: seq<Value>, i: nat): seq<Message> {
    var items := ItemsAt(vs, i);
    seq(|items|, j requires 0 <= j < |items| => MessageOf(items[j].fields))
  }

  function DialogsAt(vs: seq<Value>, i: nat): seq<DialogInfo> {
    var items := ItemsAt(vs, i);
    seq(|items|, j requires 0 <= j < |items| => DialogOf(items[j].fields))
  }

  function FromFields(tag: Tag, vs: seq<Value>): TlObject {
    match tag
    case ReqPqT => ReqPq(NonceAt(vs, 0))
    case ResPQT => ResPQ(NonceAt(vs, 0), NonceAt(vs, 1), DataAt(vs, 2), DataAt(vs, 3), DataAt(vs, 4), IdsAt(vs, 5))
    case PqInnerDataT =>
      PqInnerData(DataAt(vs, 0), DataAt(vs, 1), DataAt(vs, 2), NonceAt(vs, 3), NonceAt(vs, 4), WideNonceAt(vs, 5))
    case ReqDHParamsT =>
      ReqDHParams(NonceAt(vs, 0), NonceAt(vs, 1), DataAt(vs, 2), DataAt(vs, 3), LongAt(vs, 4), DataAt(vs, 5))
    case ServerDHParamsOkT => ServerDHParamsOk(NonceAt(vs, 0), NonceAt(vs, 1), DataAt(vs, 2), DataAt(vs, 3))
    case ServerDHInnerDataT =>
      ServerDHInnerData(NonceAt(vs, 0), NonceAt(vs, 1), IntAt(vs, 2), DataAt(vs, 3), DataAt(vs, 4), IntAt(vs, 5))
    case ClientDHInnerDataT => ClientDHInnerData(NonceAt(vs, 0), NonceAt(vs, 1), LongAt(vs, 2), DataAt(vs, 3))
    case SetClientDHParamsT => SetClientDHParams(NonceAt(vs, 0), NonceAt(vs, 1), DataAt(vs, 2))
    case DHGenOkT => DHGenOk(NonceAt(vs, 0), NonceAt(vs, 1), NonceAt(vs, 2))
    case MessageT => MessageObject(MessageOf(vs))
    case ChatT => Chat(LongAt(vs, 0), DataAt(vs, 1), IdsAt(vs, 2), BoolAt(vs, 3))
    case SendMessageT => SendMessage(LongAt(vs, 0), DataAt(vs, 1), LongAt(vs, 2))
    case SendMessageAckT => SendMessageAck(LongAt(vs, 0))
    case GetHistoryT => GetHistory(LongAt(vs, 0), IntAt(vs, 1), IntAt(vs, 2))
    case HistoryResultT => HistoryResult(MessagesAt(vs, 0), IntAt(vs, 1))
    case UserStatusT => UserStatusUpdate(LongAt(vs, 0), StatusAt(vs, 1))
    case SignUpT => SignUp(DataAt(vs, 0), DataAt(vs, 1))
    case CreatePrivateDialogT => CreatePrivateDialog(LongAt(vs, 0))
    case CreateGroupT => CreateGroup(DataAt(vs, 0), IdsAt(vs, 1))
    case AddGroupParticipantT => AddGroupParticipant(LongAt(vs, 0), LongAt(vs, 1))
    case RemoveGroupParticipantT => RemoveGroupParticipant(LongAt(vs, 0), LongAt(vs, 1))
    case GetDialogsT => GetDialogs
    case DialogInfoT => DialogInfoObject(DialogOf(vs))
    case DialogListT => DialogList(DialogsAt(vs, 0))
  }

  lemma IdsRoundTrip(vs: seq<Value>, i: nat, ids: seq<i64>)
    requires i < |vs| && vs[i] == VecV(IdRecords(ids))
    ensures IdsAt(vs, i) == ids && HasKind(vs[i], IDS)
  {
  }

  lemma MessageRoundTrip(m: Message)
    ensures HaveKinds(MessageFields(m), MESSAGE_FIELDS) && MessageOf(MessageFields(m)) == m
  {
  }

  function LastMessageField(last: Option<Message>): Value {
    if last.None? then NoneV else SomeV(MessageFields(last.value))
  }

  lemma LastMessageRoundTrip(vs: seq<Value>, i: nat, last: Option<Message>)
    requires i < |vs| && vs[i] == LastMessageField(last)
    ensures LastMessageAt(vs, i) == last && HasKind(vs[i], OptK(MESSAGE_FIELDS))
  {
    if last.Some? { MessageRoundTrip(last.value); }
  }

  lemma DialogFieldsFit(d: DialogInfo)
    ensures HaveKinds(DialogFields(d), DIALOG_FIELDS)
  {
    hide IdRecords, MessageFields, EncodeFields, EncodeValue;
    var vs := DialogFields(d);
    LastMessageRoundTrip(vs, 4, d.lastMessage);
    IdsRoundTrip(vs, 3, d.participants);
    AtomKinds(d.id, d.title, d.isGroup, d.unreadCount);
    hide HasKind;
    assert HasKind(vs[0], LongK) && HasKind(vs[1], BytesK) && HasKind(vs[2], BoolK);
    assert HasKind(vs[3], IDS) && HasKind(vs[4], OptK(MESSAGE_FIELDS)) && HasKind(vs[5], IntK);
  }

  lemma AtomKinds(l: i64, data: bytes, b: bool, i: i32)
    ensures HasKind(LongV(l), LongK) && HasKind(BytesV(data), BytesK) && HasKind(BoolV(b), BoolK) && HasKind(IntV(i), IntK)
  {
  }

  lemma DialogRoundTrip(d: DialogInfo)
    ensures HaveKinds(DialogFields(d), DIALOG_FIELDS) && DialogOf(DialogFields(d)) == d
  {
    DialogFieldsFit(d);
    LastMessageRoundTrip(DialogFields(d), 4, d.lastMessage);
    IdsRoundTrip(DialogFields(d), 3, d.participants);
  }

  /** The fields of an object fit its layout and determine the object. */
  ghost predicate Faithful(o: TlObject) {
    HaveKinds(Fields(o), Layout(TagOfObject(o))) && FromFields(TagOfObject(o), Fields(o)) == o
  }

  lemma ResPQFaithful(o: TlObject)
    requires o.ResPQ?
    ensures Faithful(o)
  {
    IdsRoundTrip(Fields(o), 5, o.fingerprints);
  }

  lemma PqInnerDataFaithful(o: TlObject)
    requires o.PqInnerData?
    ensures Faithful(o)
  {
  }

  lemma ReqDHParamsFaithful(o: TlObject)
    requires o.ReqDHParams?
    ensures Faithful(o)
  {
  }

  lemma ServerDHInnerDataFaithful(o: TlObject)
    requires o.ServerDHInnerData?
    ensures Faithful(o)
  {
  }

  lemma SignedFaithful(o: TlObject)
    requires o.ServerDHParamsOk? || o.ClientDHInnerData?
    ensures Faithful(o)
  {
  }

  lemma ShortHandshakeFaithful(o: TlObject)
    requires o.ReqPq? || o.SetClientDHParams? || o.DHGenOk?
    ensures Faithful(o)
  {
  }

  lemma ChatFaithful(o: TlObject)
    requires o.Chat?
    ensures Faithful(o)
  {
    IdsRoundTrip(Fields(o), 2, o.participants);
  }

  lemma CreateGroupFaithful(o: TlObject)
    requires o.CreateGroup?
    ensures Faithful(o)
  {
    IdsRoundTrip(Fields(o), 1, o.participants);
  }

  lemma PlainFaithful(o: TlObject)
    requires o.SendMessage? || o.GetHistory? || o.SignUp?
    ensures Faithful(o)
  {
  }

  lemma SmallFaithful(o: TlObject)
    requires o.SendMessageAck? || o.UserStatusUpdate? || o.CreatePrivateDialog? || o.AddGroupParticipant? || o.RemoveGroupParticipant? || o.GetDialogs?
    ensures Faithful(o)
  {
  }

  lemma MessageObjectFaithful(o: TlObject)
    requires o.MessageObject?
    ensures Faithful(o)
  {
    MessageRoundTrip(o.message);
  }

  lemma DialogInfoObjectFaithful(o: TlObject)
    requires o.DialogInfoObject?
    ensures Faithful(o)
  {
    DialogRoundTrip(o.info);
  }

  lemma MessageRecordsRoundTrip(vs: seq<Value>, i: nat, ms: seq<Message>)
    requires i < |vs| && vs[i] == VecV(MessageRecords(ms))
    ensures ItemsHaveKinds(MessageRecords(ms), MESSAGE_FIELDS) && MessagesAt(vs, i) == ms
  {
    forall j | 0 <= j < |ms|
      ensures HaveKinds(MessageRecords(ms)[j].fields, MESSAGE_FIELDS)
      ensures MessagesAt(vs, i)[j] == ms[j]
    {
      MessageRoundTrip(ms[j]);
    }
  }

  lemma DialogRecordsRoundTrip(vs: seq<Value>, i: nat, ds: seq<DialogInfo>)
    requires i < |vs| && vs[i] == VecV(DialogRecords(ds))
    ensures ItemsHaveKinds(DialogRecords(ds), DIALOG_FIELDS) && DialogsAt(vs, i) == ds
  {
    forall j | 0 <= j < |ds|
      ensures HaveKinds(DialogRecords(ds)[j].fields, DIALOG_FIELDS)
      ensures DialogsAt(vs, i)[j] == ds[j]
    {
      DialogRoundTrip(ds[j]);
    }
  }

  lemma SingleField(v: Value, k: Kind)
    requires HasKind(v, k)
    ensures HaveKinds([v], [k])
  {
  }

  lemma TwoFields(v: Value, k: Kind, w: Value, l: Kind)
    requires HasKind(v, k) && HasKind(w, l)
    ensures HaveKinds([v, w], [k, l])
  {
  }

  lemma HistoryKinds(o: TlObject)
    requires o.HistoryResult?
    ensures HaveKinds(Fields(o), Layout(TagOfObject(o)))
  {
    hide FromFields, MessagesAt, MessageFields, MessageOf;
    var items := VecV(MessageRecords(o.messages));
    MessageRecordsRoundTrip(Fields(o), 0, o.messages);
    VectorKind(MessageRecords(o.messages), MESSAGE_FIELDS);
    TwoFields(items, VecK(MESSAGE_FIELDS), IntV(o.totalCount), IntK);
  }

  lemma VectorKind(items: seq<Record>, item: seq<Kind>)
    requires ItemsHaveKinds(items, item)
    ensures HasKind(VecV(items), VecK(item))
  {
    hide ItemsHaveKinds;
  }

  lemma HistoryBack(o: TlObject)
    requires o.HistoryResult?
    ensures FromFields(TagOfObject(o), Fields(o)) == o
  {
    hide HaveKinds, HasKind, ItemsHaveKinds, MessageFields, MessageOf, MessagesAt, MessageRecords;
    MessageRecordsRoundTrip(Fields(o), 0, o.messages);
  }

  lemma HistoryResultFaithful(o: TlObject)
    requires o.HistoryResult?
    ensures Faithful(o)
  {
    hide HaveKinds, FromFields, Fields, Layout;
    HistoryKinds(o);
    HistoryBack(o);
  }

  lemma DialogListKinds(o: TlObject)
    requires o.DialogList?
    ensures HaveKinds(Fields(o), Layout(TagOfObject(o)))
  {
    hide FromFields, DialogsAt, DialogFields, DialogOf;
    DialogRecordsRoundTrip(Fields(o), 0, o.dialogs);
    VectorKind(DialogRecords(o.dialogs), DIALOG_FIELDS);
    SingleField(VecV(DialogRecords(o.dialogs)), VecK(DIALOG_FIELDS));
  }

  lemma DialogListBack(o: TlObject)
    requires o.DialogList?
    ensures FromFields(TagOfObject(o), Fields(o)) == o
  {
    hide HaveKinds, HasKind, ItemsHaveKinds, DialogFields, DialogOf, DialogsAt, DialogRecords;
    DialogRecordsRoundTrip(Fields(o), 0, o.dialogs);
  }

  lemma DialogListFaithful(o: TlObject)
    requires o.DialogList?
    ensures Faithful(o)
  {
    hide HaveKinds, FromFields, Fields, Layout;
    DialogListKinds(o);
    DialogListBack(o);
  }

  lemma ObjectFaithful(o: TlObject)
    ensures Faithful(o)
  {
    if o.ResPQ? { ResPQFaithful(o); }
    else if o.PqInnerData? { PqInnerDataFaithful(o); }
    else if o.ReqDHParams? { ReqDHParamsFaithful(o); }
    else if o.ServerDHInnerData? { ServerDHInnerDataFaithful(o); }
    else if o.ServerDHParamsOk? || o.ClientDHInnerData? { SignedFaithful(o); }
    else if o.ReqPq? || o.SetClientDHParams? || o.DHGenOk? { ShortHandshakeFaithful(o); }
    else if o.Chat? { ChatFaithful(o); }
    else if o.CreateGroup? { CreateGroupFaithful(o); }
    else if o.SendMessage? || o.GetHistory? || o.SignUp? { PlainFaithful(o); }
    else if o.MessageObject? { MessageObjectFaithful(o); }
    else if o.DialogInfoObject? { DialogInfoObjectFaithful(o); }
    else if o.HistoryResult? { HistoryResultFaithful(o); }
    else if o.DialogList? { DialogListFaithful(o); }
    else { SmallFaithful(o); }
  }

  // ---------- boxed objects on the wire ----------

  /** Byte strings shorter than 2^24 and vectors shorter than 2^31, at every depth. */
  predicate EncodableObject(o: TlObject) { AllEncodable(Fields(o)) }

  function EncodeBoxed(o: TlObject): bytes {
    EncodeI32(Wrap32(ConstructorId(TagOfObject(o)))) + EncodeFields(Fields(o))
  }

  function DecodeBoxed(b: bytes): Parsed<TlObject> {
    match Take(4, b)
    case Bad(e) => Bad(e)
    case Got(raw, rest) =>
      var tag := TagOf(FromLe(raw));
      if tag.None? then Bad(InvalidConstructor(FromLe(raw)))
      else
        match DecodeFields(Layout(tag.value), rest)
        case Bad(e) => Bad(e)
        case Got(vs, rest') => Got(FromFields(tag.value, vs), rest')
  }

  /** The identifier is written as a signed and read as an unsigned integer; the bytes agree. */
  lemma IdentifierRoundTrip(tag: Tag)
    ensures TagOf(FromLe(EncodeI32(Wrap32(ConstructorId(tag))))) == Some(tag)
  {
    var id := ConstructorId(tag);
    assert Unsigned32(Wrap32(id)) == id;
    WordSizes();
    FromLeBytes(id, 4);
    TagOfConstructorId(tag);
  }

  lemma DecodeEncodedObject(o: TlObject, tail: bytes)
    requires EncodableObject(o)
    ensures DecodeBoxed(EncodeBoxed(o) + tail) == Got(o, tail)
  {
    var tag := TagOfObject(o);
    var header := EncodeI32(Wrap32(ConstructorId(tag)));
    var body := EncodeFields(Fields(o)) + tail;
    assert EncodeBoxed(o) + tail == header + body;
    TakeAppend(header, body);
    IdentifierRoundTrip(tag);
    ObjectFaithful(o);
    FieldsRoundTrip(Fields(o), Layout(tag), tail);
  }

  lemma IdRecordsEncodable(ids: seq<i64>)
    ensures ItemsEncodable(IdRecords(ids))
  {
    forall j | 0 <= j < |ids| ensures AllEncodable(IdRecords(ids)[j].fields) { }
  }

  lemma ElementsFit(vs: seq<Value>)
    requires AllEncodable(vs)
    ensures forall i: nat :: |DataAt(vs, i)| < TWO_24
    ensures forall i: nat :: |ItemsAt(vs, i)| < TWO_31 && ItemsEncodable(ItemsAt(vs, i))
    ensures forall i: nat :: Encodable(VecV(IdRecords(IdsAt(vs, i))))
  {
    forall i: nat ensures Encodable(VecV(IdRecords(IdsAt(vs, i)))) {
      assert |IdsAt(vs, i)| == |ItemsAt(vs, i)|;
      IdRecordsEncodable(IdsAt(vs, i));
    }
  }

  lemma MessageEncodable(vs: seq<Value>)
    requires AllEncodable(vs)
    ensures AllEncodable(MessageFields(MessageOf(vs)))
  {
    ElementsFit(vs);
  }

  lemma DialogEncodable(vs: seq<Value>)
    requires AllEncodable(vs)
    ensures AllEncodable(DialogFields(DialogOf(vs)))
  {
    ElementsFit(vs);
    match At(vs, 4)
    case SomeV(fields) => MessageEncodable(fields);
    case _ =>
  }

  lemma HistoryEncodable(vs: seq<Value>)
    requires AllEncodable(vs)
    ensures Encodable(VecV(MessageRecords(MessagesAt(vs, 0))))
  {
    ElementsFit(vs);
    forall j | 0 <= j < |ItemsAt(vs, 0)|
      ensures AllEncodable(MessageRecords(MessagesAt(vs, 0))[j].fields)
    {
      MessageEncodable(ItemsAt(vs, 0)[j].fields);
    }
  }

  lemma DialogListEncodable(vs: seq<Value>)
    requires AllEncodable(vs)
    ensures Encodable(VecV(DialogRecords(DialogsAt(vs, 0))))
  {
    ElementsFit(vs);
    forall j | 0 <= j < |ItemsAt(vs, 0)|
      ensures AllEncodable(DialogRecords(DialogsAt(vs, 0))[j].fields)
    {
      DialogEncodable(ItemsAt(vs, 0)[j].fields);
    }
  }

  predicate IsHandshake(tag: Tag) {
    tag.ReqPqT? || tag.ResPQT? || tag.PqInnerDataT? || tag.ReqDHParamsT? || tag.ServerDHParamsOkT?
    || tag.ServerDHInnerDataT? || tag.ClientDHInnerDataT? || tag.SetClientDHParamsT? || tag.DHGenOkT?
  }

  lemma HandshakeEncodable(tag: Tag, vs: seq<Value>)
    requires AllEncodable(vs) && IsHandshake(tag)
    ensures EncodableObject(FromFields(tag, vs))
  {
    ElementsFit(vs);
  }

  predicate IsNested(tag: Tag) {
    tag.MessageT? || tag.DialogInfoT? || tag.HistoryResultT? || tag.DialogListT?
  }

  lemma FlatEncodable(tag: Tag, vs: seq<Value>)
    requires AllEncodable(vs) && !IsHandshake(tag) && !IsNested(tag)
    ensures EncodableObject(FromFields(tag, vs))
  {
    ElementsFit(vs);
  }

  lemma PairEncodable(v: Value, w: Value)
    requires Encodable(v) && Encodable(w)
    ensures AllEncodable([v, w])
  {
  }

  lemma NestedEncodable(tag: Tag, vs: seq<Value>)
    requires AllEncodable(vs) && IsNested(tag)
    ensures EncodableObject(FromFields(tag, vs))
  {
    hide MessageFields, DialogFields, MessageRecords, DialogRecords, MessagesAt, DialogsAt, MessageOf, DialogOf;
    match tag
    case MessageT => MessageEncodable(vs);
    case DialogInfoT => DialogEncodable(vs);
    case HistoryResultT =>
      HistoryEncodable(vs);
      PairEncodable(VecV(MessageRecords(MessagesAt(vs, 0))), IntV(IntAt(vs, 1)));
    case DialogListT => DialogListEncodable(vs);
  }

  lemma DecodedObjectEncodable(b: bytes)
    ensures DecodeBoxed(b).Got? ==> EncodableObject(DecodeBoxed(b).value)
  {
    var head := Take(4, b);
    if head.Got? {
      var tag := TagOf(FromLe(head.value));
      if tag.Some? {
        var fields := DecodeFields(Layout(tag.value), head.rest);
        DecodedFields(Layout(tag.value), head.rest);
        if fields.Got? {
          if IsHandshake(tag.value) { HandshakeEncodable(tag.value, fields.value); }
          else if IsNested(tag.value) { NestedEncodable(tag.value, fields.value); }
          else { FlatEncodable(tag.value, fields.value); }
        }
      }
    }
  }

  /** Every object comes back from the wire, with whatever followed it left unread, exactly when its
      byte strings and vectors have lengths the format can carry. */
  lemma BoxedRoundTrip(o: TlObject, tail: bytes)
    ensures DecodeBoxed(EncodeBoxed(o) + tail) == Got(o, tail) <==> EncodableObject(o)
  {
    if EncodableObject(o) {
      DecodeEncodedObject(o, tail);
    } else {
      DecodedObjectEncodable(EncodeBoxed(o) + tail);
    }
  }

  /** No encoding is a prefix of the encoding of another object. */
  lemma EncodingsPrefixFree(o: TlObject, o': TlObject)
    requires EncodableObject(o) && EncodableObject(o')
    requires EncodeBoxed(o) <= EncodeBoxed(o')
    ensures o == o'
  {
    hide EncodeBoxed, DecodeBoxed, EncodableObject;
    var tail := EncodeBoxed(o')[|EncodeBoxed(o)|..];
    assert EncodeBoxed(o) + tail == EncodeBoxed(o') + [];
    DecodeEncodedObject(o, tail);
    DecodeEncodedObject(o', []);
  }

  /** Whatever bytes were accepted, writing the object again and reading it gives the same object. */
  lemma AcceptedBytesNormalise(b: bytes)
    requires DecodeBoxed(b).Got?
    ensures DecodeBoxed(EncodeBoxed(DecodeBoxed(b).value)) == Got(DecodeBoxed(b).value, [])
  {
    var o := DecodeBoxed(b).value;
    DecodedObjectEncodable(b);
    DecodeEncodedObject(o, []);
    assert EncodeBoxed(o) + [] == EncodeBoxed(o);
  }

  method WriteBoxed(o: TlObject, w: Writer)
    modifies w
    ensures w.out == old(w.out) + EncodeBoxed(o)
  {
    w.WriteAll(EncodeI32(Wrap32(ConstructorId(TagOfObject(o)))));
    WriteFields(Fields(o), w);
  }

  method ReadBoxed(r: Reader) returns (o: Result<TlObject, TlError>)
    modifies r
    ensures Agrees(o, DecodeBoxed(old(r.rest)), r.rest)
  {
    var raw := r.ReadExact(4);
    if raw.Err? { return Err(raw.error); }
    var tag := TagOf(FromLe(raw.value));
    if tag.None? { return Err(InvalidConstructor(FromLe(raw.value))); }
    var fields := ReadFields(Layout(tag.value), r);
    if fields.Err? { return Err(fields.error); }
    return Ok(FromFields(tag.value, fields.value));
  }
}
