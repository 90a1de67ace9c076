/** The packets of the service, authentication and connection protocols (RFC 4252, RFC 4254) that the server sends and reads. */
module Messages {
  import opened Octets
  import opened Wrappers
  import opened Wire
  import UserAuth

  const MSG_DISCONNECT: byte := 1
  const MSG_SERVICE_REQUEST: byte := 5
  const MSG_SERVICE_ACCEPT: byte := 6
  const MSG_USERAUTH_FAILURE: byte := 51
  const MSG_USERAUTH_SUCCESS: byte := 52
  const MSG_USERAUTH_PK_OK: byte := 60
  const MSG_GLOBAL_REQUEST: byte := 80
  const MSG_REQUEST_FAILURE: byte := 82
  const MSG_CHANNEL_OPEN: byte := 90
  const MSG_CHANNEL_OPEN_CONFIRMATION: byte := 91
  const MSG_CHANNEL_WINDOW_ADJUST: byte := 93
  const MSG_CHANNEL_DATA: byte := 94
  const MSG_CHANNEL_EXTENDED_DATA: byte := 95
  const MSG_CHANNEL_EOF: byte := 96
  const MSG_CHANNEL_CLOSE: byte := 97
  const MSG_CHANNEL_REQUEST: byte := 98
  const MSG_CHANNEL_SUCCESS: byte := 99
  const MSG_CHANNEL_FAILURE: byte := 100

  const MAX_DATA_LEN := 4096
  const WINDOW_SIZE: uint32 := 65536
  const WINDOW_BUMP: uint32 := 262144
  /** The longest payload the server sends once it encrypts: a full data chunk. */
  const MAX_SENT_LEN := 4105

  function ExitStatusName(): (b: Bytes)
    ensures |b| == 11
  {
    Ascii("exit-status")
  }

  // ----- what the server sends -----

  datatype Message =
    | ServiceAccept(service: Field)
    | AuthFailure
    | AuthSuccess
    | PkOk(alg: Field, blob: Field)
    | RequestFailure
    | OpenConfirm(recipient: uint32, sender: uint32, window: uint32, maxPacket: uint32)
    | ChannelSuccess(recipient: uint32)
    | ChannelFailure(recipient: uint32)
    | Adjust(recipient: uint32, amount: uint32)
    | Data(recipient: uint32, data: Field)
    | Eof(recipient: uint32)
    | Close(recipient: uint32)
    | ExitStatus(recipient: uint32, code: uint32)
  {
    function Payload(): Bytes {
      match this
      case ServiceAccept(service) => [MSG_SERVICE_ACCEPT] + Str(service)
      case AuthFailure => [MSG_USERAUTH_FAILURE] + Str(UserAuth.PublicKey()) + [0]
      case AuthSuccess => [MSG_USERAUTH_SUCCESS]
      case PkOk(alg, blob) => [MSG_USERAUTH_PK_OK] + Str(alg) + Str(blob)
      case RequestFailure => [MSG_REQUEST_FAILURE]
      case OpenConfirm(recipient, sender, window, maxPacket) =>
        [MSG_CHANNEL_OPEN_CONFIRMATION] + U32(recipient) + U32(sender) + U32(window) + U32(maxPacket)
      case ChannelSuccess(recipient) => [MSG_CHANNEL_SUCCESS] + U32(recipient)
      case ChannelFailure(recipient) => [MSG_CHANNEL_FAILURE] + U32(recipient)
      case Adjust(recipient, amount) => [MSG_CHANNEL_WINDOW_ADJUST] + U32(recipient) + U32(amount)
      case Data(recipient, data) => [MSG_CHANNEL_DATA] + U32(recipient) + Str(data)
      case Eof(recipient) => [MSG_CHANNEL_EOF] + U32(recipient)
      case Close(recipient) => [MSG_CHANNEL_CLOSE] + U32(recipient)
      case ExitStatus(recipient, code) =>
        [MSG_CHANNEL_REQUEST] + U32(recipient) + Str(ExitStatusName()) + [0] + U32(code)
    }

    /** The variable parts are short enough for the buffers the server builds its packets in. */
    predicate Fits() {
      match this
      case ServiceAccept(service) => |service| <= 64
      case PkOk(alg, blob) => |alg| <= 64 && |blob| <= 64
      case Data(_, data) => |data| <= MAX_DATA_LEN
      case _ => true
    }

    function Len(): nat {
      match this
      case ServiceAccept(service) => 5 + |service|
      case AuthFailure => 15
      case AuthSuccess => 1
      case PkOk(alg, blob) => 9 + |alg| + |blob|
      case RequestFailure => 1
      case OpenConfirm(_, _, _, _) => 17
      case ChannelSuccess(_) => 5
      case ChannelFailure(_) => 5
      case Adjust(_, _) => 9
      case Data(_, data) => 9 + |data|
      case Eof(_) => 5
      case Close(_) => 5
      case ExitStatus(_, _) => 25
    }

    lemma PayloadLength()
      ensures |Payload()| == Len()
      ensures Fits() ==> 1 <= Len() <= MAX_SENT_LEN
    {
    }

    /** The cipher blocks of an encrypted packet with this message. */
    function Blocks(): nat {
      (Len() + 24) / 16
    }
  }

  // ----- what the server reads -----

  /** A global request: None when malformed, otherwise whether a reply is wanted. The length is subtracted before comparing. */
  function ReadGlobal(p: Bytes): Option<bool> {
    if |p| < 6 || p[0] != MSG_GLOBAL_REQUEST then None
    else
      var len := U32At(p, 1);
      if len == 0 || len >= |p| - 5 then None else Some(p[5 + len] != 0)
  }

  datatype OpenRequest = OpenRequest(kind: Bytes, sender: uint32, window: uint32, maxPacket: uint32)

  function ReadOpen(p: Bytes): Option<OpenRequest> {
    match ReadString(p, 1)
    case None => None
    case Some(kind) =>
      match ReadU32(p, kind.next)
      case None => None
      case Some(sender) =>
        match ReadU32(p, kind.next + 4)
        case None => None
        case Some(window) =>
          match ReadU32(p, kind.next + 8)
          case None => None
          case Some(maxPacket) => Some(OpenRequest(kind.data, sender, window, maxPacket))
  }

  /** Channel data for the given channel, with nothing behind it. */
  function ReadData(p: Bytes, channel: uint32): Option<Bytes> {
    if p == [] || p[0] != MSG_CHANNEL_DATA || ReadU32(p, 1) != Some(channel) then None
    else
      match ReadString(p, 5)
      case None => None
      case Some(v) => if v.next == |p| then Some(v.data) else None
  }

  /** A window adjustment for the given channel. */
  function ReadAdjust(p: Bytes, channel: uint32): Option<uint32> {
    if p == [] || p[0] != MSG_CHANNEL_WINDOW_ADJUST || ReadU32(p, 1) != Some(channel) then None else ReadU32(p, 5)
  }

  /** Channel data for the given channel, whether or not something is behind them. */
  function CarriedData(p: Bytes, channel: uint32): Option<Bytes> {
    if p == [] || p[0] != MSG_CHANNEL_DATA || ReadU32(p, 1) != Some(channel) then None
    else
      match ReadString(p, 5)
      case None => None
      case Some(v) => Some(v.data)
  }

  /** A service request for this service. */
  predicate AsksFor(p: Bytes, service: Bytes) {
    && p != [] && p[0] == MSG_SERVICE_REQUEST
    && var name := ReadString(p, 1);
    && name.Some? && name.value.data == service
  }

  /** EOF or CLOSE for the given channel: five bytes exactly. */
  predicate IsChannelEnd(p: Bytes, channel: uint32) {
    |p| == 5 && (p[0] == MSG_CHANNEL_EOF || p[0] == MSG_CHANNEL_CLOSE) && U32At(p, 1) == channel
  }

  predicate IsClose(p: Bytes, channel: uint32) {
    IsChannelEnd(p, channel) && p[0] == MSG_CHANNEL_CLOSE
  }

  /** The head of a channel request: kind, whether a reply is wanted, and where its own data begin. */
  datatype ChannelRequest = ChannelRequest(kind: Bytes, wantReply: bool, next: nat)

  function ReadRequest(p: Bytes): Option<ChannelRequest> {
    match ReadString(p, 5)
    case None => None
    case Some(kind) =>
      if kind.next >= |p| then None else Some(ChannelRequest(kind.data, p[kind.next] != 0, kind.next + 1))
  }

  // ----- what the client makes of a packet while it waits for output -----

  datatype Seen =
    | Nothing            // the loop goes on
    | Broken             // the client gives up
    | Output(data: Bytes)
    | Status(code: uint32)
    | AtEnd(closed: bool)

  /** recv_data on one packet, apart from a KEXINIT, which starts a key exchange. */
  function ClientSees(p: Bytes, channel: uint32): Seen {
    if p == [] then Nothing
    else if p[0] == MSG_CHANNEL_DATA then ClientSeesData(p, channel, 5)
    else if p[0] == MSG_CHANNEL_EXTENDED_DATA then ClientSeesData(p, channel, 9)
    else if p[0] == MSG_CHANNEL_REQUEST then ClientSeesRequest(p, channel)
    else if p[0] == MSG_CHANNEL_EOF then AtEnd(false)
    else if p[0] == MSG_CHANNEL_CLOSE then AtEnd(true)
    else Nothing
  }

  function ClientSeesData(p: Bytes, channel: uint32, off: nat): Seen {
    if ReadU32(p, 1) != Some(channel) then Broken
    else
      match ReadString(p, off)
      case None => Broken
      case Some(v) => Output(v.data)
  }

  function ClientSeesRequest(p: Bytes, channel: uint32): Seen {
    if ReadU32(p, 1) != Some(channel) then Broken
    else
      match ReadRequest(p)
      case None => Broken
      case Some(r) =>
        if r.kind != ExitStatusName() then Nothing
        else
          match ReadU32(p, r.next)
          case None => Broken
          case Some(code) => Status(code)
  }

  /** What a message of the server means to a client that waits for output on this channel. */
  function Meaning(m: Message): Seen {
    match m
    case Data(_, data) => Output(data)
    case ExitStatus(_, code) => Status(code)
    case Eof(_) => AtEnd(false)
    case Close(_) => AtEnd(true)
    case _ => Nothing
  }

  predicate Addresses(m: Message, channel: uint32) {
    match m
    case Data(recipient, _) => recipient == channel
    case ExitStatus(recipient, _) => recipient == channel
    case _ => true
  }

  /** The client reads from each packet of the server what the server put into it. */
  lemma {:induction false} ClientUnderstands(m: Message, channel: uint32)
    requires Addresses(m, channel)
    ensures ClientSees(m.Payload(), channel) == Meaning(m)
  {
    match m {
      case Data(_, data) => DataReads(channel, data);
      case ExitStatus(_, code) => StatusReads(channel, code);
      case _ =>
    }
  }

  lemma {:induction false} DataReads(channel: uint32, data: Field)
    ensures ReadData(Data(channel, data).Payload(), channel) == Some(data)
    ensures ClientSees(Data(channel, data).Payload(), channel) == Output(data)
  {
    var p := Data(channel, data).Payload();
    assert p[1..] == U32(channel) + Str(data);
    ReadU32From(p, 1, channel, Str(data));
    assert Str(data) + [] == Str(data);
    ReadStringFrom(p, 5, data, []);
  }

  lemma {:induction false} StatusReads(channel: uint32, code: uint32)
    ensures ClientSees(ExitStatus(channel, code).Payload(), channel) == Status(code)
  {
    hide Value, ToBytes, Pow256;
    var p := ExitStatus(channel, code).Payload();
    var tail := [0] + U32(code);
    assert p[1..] == U32(channel) + (Str(ExitStatusName()) + tail);
    ReadU32From(p, 1, channel, Str(ExitStatusName()) + tail);
    ReadStringFrom(p, 5, ExitStatusName(), tail);
    assert p[20] == p[20..][0] && p[21..] == U32(code) + [];
    ReadU32From(p, 21, code, []);
  }

  // ----- the same, written out -----

  /** Every message, byte by byte. */
  lemma {:induction false} PayloadWritten(m: Message)
    ensures m.Payload() ==
      match m
      case ServiceAccept(service) => [6] + Str(service)
      case AuthFailure => [51] + Str(Ascii("publickey")) + [0]
      case AuthSuccess => [52]
      case PkOk(alg, blob) => [60] + Str(alg) + Str(blob)
      case RequestFailure => [82]
      case OpenConfirm(recipient, sender, window, maxPacket) => [91] + U32(recipient) + U32(sender) + U32(window) + U32(maxPacket)
      case ChannelSuccess(recipient) => [99] + U32(recipient)
      case ChannelFailure(recipient) => [100] + U32(recipient)
      case Adjust(recipient, amount) => [93] + U32(recipient) + U32(amount)
      case Data(recipient, data) => [94] + U32(recipient) + Str(data)
      case Eof(recipient) => [96] + U32(recipient)
      case Close(recipient) => [97] + U32(recipient)
      case ExitStatus(recipient, code) => [98] + U32(recipient) + Str(Ascii("exit-status")) + [0] + U32(code)
  {
    hide U32, Str;
  }

  lemma {:induction false} HeadAndWord(head: Bytes, n: uint32, p: Bytes)
    requires |head| <= |p|
    ensures head + U32(n) <= p <==> head <= p && ReadU32(p, |head|) == Some(n)
  {
    PrefixSplit(head, U32(n), p);
    ReadU32Exactly(p, |head|, n);
  }

  lemma {:induction false} HeadAndString(head: Bytes, s: Bytes, p: Bytes)
    requires |head| <= |p| && |s| < 0x1_0000_0000
    ensures head + Str(s) <= p <==> head <= p && ReadString(p, |head|) == Some(View(s, |head| + 4 + |s|))
  {
    PrefixSplit(head, Str(s), p);
    ReadStringExactly(p, |head|, s);
  }

  lemma {:induction false} HeadAndByte(head: Bytes, b: byte, p: Bytes)
    requires |head| < |p|
    ensures head + [b] <= p <==> head <= p && p[|head|] == b
  {
    PrefixSplit(head, [b], p);
  }

  /** A channel open: kind, sender, window and packet size, in this order. */
  lemma {:induction false} OpenExactly(p: Bytes, r: OpenRequest)
    requires p != [] && |r.kind| < 0x1_0000_0000
    ensures ReadOpen(p) == Some(r) <==> [p[0]] + Str(r.kind) + U32(r.sender) + U32(r.window) + U32(r.maxPacket) <= p
  {
    hide ReadString, ReadU32, U32, Str;
    var k := [p[0]] + Str(r.kind);
    HeadAndString([p[0]], r.kind, p);
    if k <= p {
      HeadAndWord(k, r.sender, p);
      if k + U32(r.sender) <= p {
        HeadAndWord(k + U32(r.sender), r.window, p);
        if k + U32(r.sender) + U32(r.window) <= p {
          HeadAndWord(k + U32(r.sender) + U32(r.window), r.maxPacket, p);
        }
      }
    }
  }

  /** A global request names itself and says whether it wants a reply; a name is required. */
  lemma {:induction false} GlobalExactly(p: Bytes, want: bool)
    ensures ReadGlobal(p) == Some(want) <==>
      exists kind: Bytes, w: byte :: 0 < |kind| < 0x1_0000_0000 && [80] + Str(kind) + [w] <= p && want == (w != 0)
  {
    if ReadGlobal(p) == Some(want) {
      var n: nat := U32At(p, 1);
      var kind := p[5..5 + n];
      assert ReadString(p, 1) == Some(View(kind, 5 + n));
      HeadAndString([80], kind, p);
      HeadAndByte([80] + Str(kind), p[5 + n], p);
      assert [80] + Str(kind) + [p[5 + n]] <= p;
    }
    if kind: Bytes, w: byte :| 0 < |kind| < 0x1_0000_0000 && [80] + Str(kind) + [w] <= p && want == (w != 0) {
      GlobalReads(p, kind, w);
    }
  }

  lemma {:induction false} GlobalReads(p: Bytes, kind: Bytes, w: byte)
    requires 0 < |kind| < 0x1_0000_0000 && [80] + Str(kind) + [w] <= p
    ensures ReadGlobal(p) == Some(w != 0)
  {
    HeadAndByte([80] + Str(kind), w, p);
    HeadAndString([80], kind, p);
  }

  /** Channel data: whole packets in a session, and beginnings of packets outside. */
  lemma {:induction false} DataExactly(p: Bytes, channel: uint32, data: Bytes)
    requires |data| < 0x1_0000_0000
    ensures ReadData(p, channel) == Some(data) <==> p == [94] + U32(channel) + Str(data)
    ensures CarriedData(p, channel) == Some(data) <==> [94] + U32(channel) + Str(data) <= p
  {
    hide ReadString, ReadU32, U32, Str;
    if p != [] {
      HeadAndWord([94], channel, p);
      if [94] + U32(channel) <= p {
        HeadAndString([94] + U32(channel), data, p);
      }
      PrefixSplit([94] + U32(channel), Str(data), p);
      WholePrefix([94] + U32(channel) + Str(data), p);
    }
  }

  lemma WholePrefix(a: Bytes, p: Bytes)
    ensures a == p <==> a <= p && |a| == |p|
  {
  }

  lemma {:induction false} AdjustExactly(p: Bytes, channel: uint32, amount: uint32)
    ensures ReadAdjust(p, channel) == Some(amount) <==> [93] + U32(channel) + U32(amount) <= p
  {
    hide ReadU32, U32;
    if p != [] {
      HeadAndWord([93], channel, p);
      if [93] + U32(channel) <= p {
        HeadAndWord([93] + U32(channel), amount, p);
      }
      PrefixSplit([93] + U32(channel), U32(amount), p);
    }
  }

  lemma {:induction false} AsksExactly(p: Bytes, service: Bytes)
    requires |service| < 0x1_0000_0000
    ensures AsksFor(p, service) <==> [5] + Str(service) <= p
  {
    hide ReadString, U32, Str;
    if p != [] {
      HeadAndString([5], service, p);
    }
  }

  lemma {:induction false} EndExactly(p: Bytes, channel: uint32)
    ensures IsChannelEnd(p, channel) <==> p == [96] + U32(channel) || p == [97] + U32(channel)
    ensures IsClose(p, channel) <==> p == [97] + U32(channel)
  {
    hide U32;
    if p != [] {
      HeadAndWord([96], channel, p);
      HeadAndWord([97], channel, p);
      WholePrefix([96] + U32(channel), p);
      WholePrefix([97] + U32(channel), p);
    }
  }

  /** The head of a channel request: its kind behind the channel, whether it wants a reply, and where its own data begin. */
  lemma {:induction false} RequestExactly(p: Bytes, kind: Bytes, w: byte)
    requires |p| >= 5 && |kind| < 0x1_0000_0000
    ensures p[..5] + Str(kind) + [w] <= p ==> ReadRequest(p) == Some(ChannelRequest(kind, w != 0, 10 + |kind|))
    ensures ReadRequest(p).Some? ==> var r := ReadRequest(p).value;
      |r.kind| < 0x1_0000_0000 && 0 < r.next <= |p| && p[..5] + Str(r.kind) + [p[r.next - 1]] <= p
      && r == ChannelRequest(r.kind, p[r.next - 1] != 0, 10 + |r.kind|)
  {
    hide U32, Str;
    var head := p[..5];
    if head + Str(kind) + [w] <= p {
      HeadAndByte(head + Str(kind), w, p);
      HeadAndString(head, kind, p);
    }
    if ReadRequest(p).Some? {
      var r := ReadRequest(p).value;
      ReadIsStr(p, 5);
      HeadAndString(head, r.kind, p);
      HeadAndByte(head + Str(r.kind), p[r.next - 1], p);
    }
  }

  /** What a waiting client makes of a packet: output, a status, the end, or nothing; anything malformed makes it give up. */
  lemma {:induction false} OutputSeenExactly(p: Bytes, channel: uint32, data: Bytes)
    requires |data| < 0x1_0000_0000
    ensures ClientSees(p, channel) == Output(data) <==>
      || [94] + U32(channel) + Str(data) <= p
      || exists kind: uint32 :: [95] + U32(channel) + U32(kind) + Str(data) <= p
  {
    hide ReadString, ReadU32, U32, Str;
    if p != [] {
      HeadAndWord([94], channel, p);
      HeadAndWord([95], channel, p);
      if [94] + U32(channel) <= p {
        HeadAndString([94] + U32(channel), data, p);
      }
      PrefixSplit([94] + U32(channel), Str(data), p);
      ExtendedSeen(p, channel, data);
    }
  }

  lemma {:induction false} ExtendedSeen(p: Bytes, channel: uint32, data: Bytes)
    requires p != [] && |data| < 0x1_0000_0000
    ensures p[0] == 95 && ReadU32(p, 1) == Some(channel) && ReadString(p, 9) == Some(View(data, 13 + |data|)) <==>
            exists kind: uint32 :: [95] + U32(channel) + U32(kind) + Str(data) <= p
  {
    hide ReadString, U32, Str;
    HeadAndWord([95], channel, p);
    if p[0] == 95 && ReadU32(p, 1) == Some(channel) && ReadString(p, 9) == Some(View(data, 13 + |data|)) {
      var kind := U32At(p, 5);
      HeadAndWord([95] + U32(channel), kind, p);
      HeadAndString([95] + U32(channel) + U32(kind), data, p);
    }
    if kind: uint32 :| [95] + U32(channel) + U32(kind) + Str(data) <= p {
      var head := [95] + U32(channel) + U32(kind);
      PrefixSplit(head, Str(data), p);
      PrefixSplit([95] + U32(channel), U32(kind), p);
      HeadAndString(head, data, p);
    }
  }

  lemma {:induction false} StatusSeenExactly(p: Bytes, channel: uint32, code: uint32)
    ensures ClientSees(p, channel) == Status(code) <==>
      exists w: byte :: [98] + U32(channel) + Str(Ascii("exit-status")) + [w] + U32(code) <= p
  {
    hide U32, Str, ReadString, ReadU32, Ascii;
    if ClientSees(p, channel) == Status(code) {
      StatusSeen(p, channel, code);
    }
    if w: byte :| [98] + U32(channel) + Str(Ascii("exit-status")) + [w] + U32(code) <= p {
      StatusRead(p, channel, w, code);
    }
  }

  lemma {:induction false} StatusSeen(p: Bytes, channel: uint32, code: uint32)
    requires ClientSees(p, channel) == Status(code)
    ensures exists w: byte :: [98] + U32(channel) + Str(Ascii("exit-status")) + [w] + U32(code) <= p
  {
    hide U32, Str, ReadString, ReadU32;
    var r := ReadRequest(p).value;
    HeadAndWord([98], channel, p);
    RequestExactly(p, r.kind, 0);
    assert p[..5] == [98] + U32(channel);
    var head := [98] + U32(channel) + Str(r.kind) + [p[r.next - 1]];
    HeadAndWord(head, code, p);
  }

  lemma {:induction false} StatusRead(p: Bytes, channel: uint32, w: byte, code: uint32)
    requires [98] + U32(channel) + Str(Ascii("exit-status")) + [w] + U32(code) <= p
    ensures ClientSees(p, channel) == Status(code)
  {
    hide U32, Str, ReadString, ReadU32;
    var start := [98] + U32(channel);
    var head := start + Str(Ascii("exit-status")) + [w];
    HeadAndWord(head, code, p);
    assert p[..5] == head[..5] == start;
    HeadAndWord([98], channel, p);
    RequestExactly(p, Ascii("exit-status"), w);
  }

  lemma {:induction false} EndSeenExactly(p: Bytes, channel: uint32, closed: bool)
    ensures ClientSees(p, channel) == AtEnd(closed) <==> p != [] && p[0] == if closed then 97 else 96
  {
    hide ReadString, ReadU32;
  }

  /** Whatever is neither output, a status nor an end: passed over if it is no channel data and no malformed request. */
  lemma {:induction false} RestSeenExactly(p: Bytes, channel: uint32)
    ensures p == [] || p[0] !in {94, 95, 96, 97, 98} ==> ClientSees(p, channel) == Nothing
    ensures p != [] && p[0] in {94, 95} ==> ClientSees(p, channel).Output? || ClientSees(p, channel) == Broken
    ensures p != [] && p[0] == 98 ==>
      (ClientSees(p, channel) == Nothing <==> exists kind, w :: OtherRequest(p, channel, kind, w))
      && (ClientSees(p, channel).Status? || ClientSees(p, channel) == Broken || ClientSees(p, channel) == Nothing)
  {
    hide U32, Str, ReadString, ReadU32, ReadRequest, OtherRequest, Ascii;
    if p != [] && p[0] == 98 {
      if ClientSees(p, channel) == Nothing {
        OtherSeen(p, channel);
      }
      if kind, w :| OtherRequest(p, channel, kind, w) {
        OtherPassed(p, channel, kind, w);
      }
    }
  }

  /** A well-formed channel request for the client's channel, of another kind than an exit status. */
  ghost predicate OtherRequest(p: Bytes, channel: uint32, kind: Bytes, w: byte) {
    |kind| < 0x1_0000_0000 && kind != Ascii("exit-status") && [98] + U32(channel) + Str(kind) + [w] <= p
  }

  lemma {:induction false} OtherSeen(p: Bytes, channel: uint32)
    requires p != [] && p[0] == 98 && ClientSees(p, channel) == Nothing
    ensures exists kind, w :: OtherRequest(p, channel, kind, w)
  {
    hide U32, Str, ReadString, ReadU32;
    HeadAndWord([98], channel, p);
    var r := ReadRequest(p).value;
    RequestExactly(p, [], 0);
    assert p[..5] == [98] + U32(channel);
    assert OtherRequest(p, channel, r.kind, p[r.next - 1]);
  }

  lemma {:induction false} OtherPassed(p: Bytes, channel: uint32, kind: Bytes, w: byte)
    requires OtherRequest(p, channel, kind, w)
    ensures ClientSees(p, channel) == Nothing
  {
    hide U32, Str, ReadString, ReadU32;
    var start := [98] + U32(channel);
    assert p[..5] == start;
    HeadAndWord([98], channel, p);
    RequestExactly(p, kind, w);
  }

  // ----- messages tell each other apart -----

  /** The first byte tells the kind of the message. */
  lemma {:induction false} SameKind(a: Message, b: Message)
    requires a.Payload()[..1] == b.Payload()[..1]
    ensures a.ServiceAccept? == b.ServiceAccept? && a.PkOk? == b.PkOk? && a.OpenConfirm? == b.OpenConfirm?
    ensures a.ChannelSuccess? == b.ChannelSuccess? && a.ChannelFailure? == b.ChannelFailure? && a.Adjust? == b.Adjust?
    ensures a.Data? == b.Data? && a.Eof? == b.Eof? && a.Close? == b.Close? && a.ExitStatus? == b.ExitStatus?
    ensures a.AuthFailure? == b.AuthFailure? && a.AuthSuccess? == b.AuthSuccess? && a.RequestFailure? == b.RequestFailure?
  {
    hide U32, Str;
    FirstByte(a);
    FirstByte(b);
  }

  lemma {:induction false} FirstByte(m: Message)
    ensures |m.Payload()| > 0 && m.Payload()[..1] ==
      match m
      case ServiceAccept(_) => [6]
      case AuthFailure => [51]
      case AuthSuccess => [52]
      case PkOk(_, _) => [60]
      case RequestFailure => [82]
      case OpenConfirm(_, _, _, _) => [91]
      case ChannelSuccess(_) => [99]
      case ChannelFailure(_) => [100]
      case Adjust(_, _) => [93]
      case Data(_, _) => [94]
      case Eof(_) => [96]
      case Close(_) => [97]
      case ExitStatus(_, _) => [98]
  {
    hide U32, Str;
    PayloadWritten(m);
  }

  /** The bytes determine the message. */
  lemma {:induction false} PayloadInjective(a: Message, b: Message)
    requires a.Payload() == b.Payload()
    ensures a == b
  {
    hide U32, Str;
    SameKind(a, b);
    match a {
      case ServiceAccept(s) =>
        SplitString([6], s, [], b.service, []);
      case PkOk(alg, blob) =>
        SplitString([60], alg, Str(blob), b.alg, Str(b.blob));
        SplitString([], blob, [], b.blob, []);
      case OpenConfirm(_, _, _, _) =>
        ConfirmInjective(a, b);
      case ChannelSuccess(recipient) =>
        SplitWord([99], recipient, [], b.recipient, []);
      case ChannelFailure(recipient) =>
        SplitWord([100], recipient, [], b.recipient, []);
      case Adjust(recipient, amount) =>
        SplitWord([93], recipient, U32(amount), b.recipient, U32(b.amount));
        U32Injective(amount, b.amount);
      case Data(recipient, data) =>
        SplitWord([94], recipient, Str(data), b.recipient, Str(b.data));
        SplitString([], data, [], b.data, []);
      case Eof(recipient) =>
        SplitWord([96], recipient, [], b.recipient, []);
      case Close(recipient) =>
        SplitWord([97], recipient, [], b.recipient, []);
      case ExitStatus(_, _) =>
        StatusInjective(a, b);
      case _ =>
    }
  }

  lemma {:induction false} ConfirmInjective(a: Message, b: Message)
    requires a.OpenConfirm? && b.OpenConfirm? && a.Payload() == b.Payload()
    ensures a == b
  {
    hide U32, Str;
    LastWord([91] + U32(a.recipient) + U32(a.sender) + U32(a.window), a.maxPacket,
             [91] + U32(b.recipient) + U32(b.sender) + U32(b.window), b.maxPacket);
    LastWord([91] + U32(a.recipient) + U32(a.sender), a.window, [91] + U32(b.recipient) + U32(b.sender), b.window);
    LastWord([91] + U32(a.recipient), a.sender, [91] + U32(b.recipient), b.sender);
    LastWord([91], a.recipient, [91], b.recipient);
  }

  lemma {:induction false} StatusInjective(a: Message, b: Message)
    requires a.ExitStatus? && b.ExitStatus? && a.Payload() == b.Payload()
    ensures a == b
  {
    hide U32, Str;
    var name := Str(ExitStatusName());
    LastWord([98] + U32(a.recipient) + name + [0], a.code, [98] + U32(b.recipient) + name + [0], b.code);
    var x, y := [98] + U32(a.recipient), [98] + U32(b.recipient);
    assert (x + name + [0])[..5] == x && (y + name + [0])[..5] == y;
    LastWord([98], a.recipient, [98], b.recipient);
  }

  lemma {:induction false} LastWord(x: Bytes, m: uint32, y: Bytes, n: uint32)
    requires x + U32(m) == y + U32(n)
    ensures x == y && m == n
  {
    hide U32;
    var p, q := x + U32(m), y + U32(n);
    assert p[..|p| - 4] == x && q[..|q| - 4] == y && p[|p| - 4..] == U32(m) && q[|q| - 4..] == U32(n);
    U32Injective(m, n);
  }

  lemma {:induction false} SplitWord(head: Bytes, m: uint32, x: Bytes, n: uint32, y: Bytes)
    requires head + U32(m) + x == head + U32(n) + y
    ensures m == n && x == y
  {
    hide U32;
    var p, q := head + U32(m) + x, head + U32(n) + y;
    assert p[|head|..|head| + 4] == U32(m) && q[|head|..|head| + 4] == U32(n);
    assert p[|head| + 4..] == x && q[|head| + 4..] == y;
    U32Injective(m, n);
  }

  lemma {:induction false} SplitString(head: Bytes, s: Bytes, x: Bytes, t: Bytes, y: Bytes)
    requires |s| < 0x1_0000_0000 && |t| < 0x1_0000_0000
    requires head + Str(s) + x == head + Str(t) + y
    ensures s == t && x == y
  {
    hide Str;
    var p, q := head + Str(s) + x, head + Str(t) + y;
    assert p[|head|..] == Str(s) + x && q[|head|..] == Str(t) + y;
    StrSplits(s, x, t, y);
  }
}
