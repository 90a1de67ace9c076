/**
 * The consumer of the output stream: the client's recv_data and the loop that prints what it delivers, and what they print
 * when the packets come from this server.
 */
module ClientOutput {
  import opened Octets
  import opened Wrappers
  import KexInit
  import opened Messages
  import opened ServerTrace

  // ----- the client -----

  datatype Mode = Waiting | Ended(closed: bool) | StoppedEmpty | GaveUp

  /** What the client has printed, the exit status it has stored, and whether it still waits for more. */
  datatype Reader = Reader(out: Bytes, status: Option<uint32>, mode: Mode)

  /** At most a buffer of it. */
  function Copied(data: Bytes): Bytes {
    if |data| > MAX_DATA_LEN then data[..MAX_DATA_LEN] else data
  }

  function Step(r: Reader, p: Bytes, channel: uint32): Reader {
    if r.mode != Waiting then r
    else
      match ClientSees(p, channel)
      case Nothing => r
      case Broken => r.(mode := GaveUp)
      case Output(data) => if Copied(data) == [] then r.(mode := StoppedEmpty) else r.(out := r.out + Copied(data))
      case Status(code) => r.(status := Some(code))
      case AtEnd(closed) => r.(mode := Ended(closed))
  }

  /** What a client that starts to wait for output makes of these packets. */
  function Read(packets: seq<Bytes>, channel: uint32): Reader {
    if packets == [] then Reader([], None, Waiting)
    else Step(Read(packets[..|packets| - 1], channel), packets[|packets| - 1], channel)
  }

  lemma {:induction false} ReadNext(packets: seq<Bytes>, from: nat, k: nat, channel: uint32)
    requires from <= k < |packets|
    ensures Read(packets[from..k + 1], channel) == Step(Read(packets[from..k], channel), packets[k], channel)
  {
    var next := packets[from..k + 1];
    assert next[..|next| - 1] == packets[from..k] && next[|next| - 1] == packets[k];
  }

  /** Whether a packet is the reply to a channel request. */
  predicate IsReply(p: Bytes) {
    p != [] && (p[0] == MSG_CHANNEL_SUCCESS || p[0] == MSG_CHANNEL_FAILURE)
  }

  /** wait_for_message for such a reply: other packets are skipped, 32 in all. A KEXINIT, or a reply beyond the buffer, ends it. */
  function ReplyAt(packets: seq<Bytes>, from: nat, n: nat): Option<nat>
    decreases n
  {
    if n == 0 || from >= |packets| then None
    else
      var p := packets[from];
      if p != [] && p[0] == KexInit.MSG_KEXINIT then None
      else if IsReply(p) then (if |p| > REPLY_MAX then None else Some(from))
      else ReplyAt(packets, from + 1, n - 1)
  }

  const REPLY_MAX := 256
  const WAIT_LIMIT := 32

  /** The first reply is found behind packets that are none, if there are not too many of them. */
  lemma {:induction false} ReplyFound(packets: seq<Bytes>, from: nat, at: nat, n: nat)
    requires from <= at < |packets| && at - from < n && IsReply(packets[at]) && |packets[at]| <= REPLY_MAX
    requires forall i | from <= i < at :: !IsReply(packets[i]) && (packets[i] != [] ==> packets[i][0] != KexInit.MSG_KEXINIT)
    ensures ReplyAt(packets, from, n) == Some(at)
    decreases n
  {
    if from < at {
      ReplyFound(packets, from + 1, at, n - 1);
    }
  }

  /** The reply that is waited for, in the packets from an index on: the first of its kind, among the first n, behind no KEXINIT. */
  lemma {:induction false} ReplyAtExactly(packets: seq<Bytes>, from: nat, n: nat, at: nat)
    requires from <= |packets|
    ensures ReplyAt(packets, from, n) == Some(at) <==>
      && from <= at < |packets| && at - from < n && 0 < |packets[at]| <= 256 && (packets[at][0] == 99 || packets[at][0] == 100)
      && forall i | from <= i < at :: packets[i] == [] || packets[i][0] !in {20, 99, 100}
    decreases n
  {
    if n > 0 && from < |packets| {
      var p := packets[from];
      if !IsReply(p) && (p == [] || p[0] != 20) {
        ReplyAtExactly(packets, from + 1, n - 1, at);
      }
    }
  }

  datatype Taken = Failed | Chunk(data: Bytes)

  class Client {
    const localChannelId: uint32
    /** The packets that the packet layer will deliver, and how many of them were taken. */
    const packets: seq<Bytes>
    var next: nat
    /** Where the client began to wait for output. */
    ghost var begun: nat
    /** The layer below has failed although there were packets left. */
    ghost var lost: bool
    var channelOpen: bool
    var remoteExitStatus: uint32
    var remoteExitStatusValid: bool
    var printed: Bytes

    constructor (localChannelId: uint32, packets: seq<Bytes>)
      ensures this.localChannelId == localChannelId && this.packets == packets && next == begun == 0
      ensures channelOpen && !remoteExitStatusValid && printed == [] && !lost
    {
      this.localChannelId := localChannelId;
      this.packets := packets;
      next, begun, channelOpen, remoteExitStatus, remoteExitStatusValid, printed, lost := 0, 0, true, 0, false, [], false;
    }

    function StoredStatus(): Option<uint32>
      reads this`remoteExitStatus, this`remoteExitStatusValid
    {
      if remoteExitStatusValid then Some(remoteExitStatus) else None
    }

    /** What the fields say about the packets taken so far. */
    ghost predicate Tracks(mode: Mode)
      reads this
    {
      begun <= next <= |packets| && Read(packets[begun..next], localChannelId) == Reader(printed, StoredStatus(), mode)
    }

    /** recv_packet: the next packet, or failure at any time. */
    method RecvPacket() returns (p: Option<Bytes>)
      requires next <= |packets|
      modifies this`next, this`lost
      ensures p.None? ==> next == old(next) && (next == |packets| || lost)
      ensures lost == (old(lost) || (p.None? && next < |packets|))
      ensures p.Some? ==> old(next) < |packets| && p.value == packets[old(next)] && next == old(next) + 1
      ensures p.Some? && begun <= old(next) ==>
        Read(packets[begun..next], localChannelId) == Step(Read(packets[begun..old(next)], localChannelId), p.value, localChannelId)
    {
      var fails: bool :| true;
      if fails || next == |packets| {
        lost := lost || next < |packets|;
        return None;
      }
      p := Some(packets[next]);
      if begun <= next {
        ReadNext(packets, begun, next, localChannelId);
      }
      next := next + 1;
    }

    /** What is handed over agrees with the reading: a failure, the end, or the next data. */
    ghost predicate Delivers(t: Taken)
      reads this
    {
      match t
      case Failed => Tracks(Waiting) || Tracks(GaveUp)
      case Chunk(data) =>
        if data == [] then Tracks(Ended(false)) || (Tracks(Ended(true)) && !channelOpen) || Tracks(StoppedEmpty)
        else begun <= next <= |packets| && Read(packets[begun..next], localChannelId) == Reader(printed + data, StoredStatus(), Waiting)
    }

    /** One packet of recv_data: None if there is more to wait for. */
    method TakeOne() returns (t: Option<Taken>)
      requires Tracks(Waiting)
      modifies this`next, this`lost, this`channelOpen, this`remoteExitStatus, this`remoteExitStatusValid
      ensures old(next) <= next <= |packets| && (t != Some(Failed) ==> old(next) < next)
      ensures t == Some(Failed) ==> Tracks(GaveUp) || next == |packets| || lost
      ensures if t.Some? then Delivers(t.value) else Tracks(Waiting)
    {
      hide Read, ClientSees;
      var p := RecvPacket();
      if p.None? {
        return Some(Failed);
      }
      match ClientSees(p.value, localChannelId) {
        case Nothing =>
          t := None;
        case Broken =>
          t := Some(Failed);
        case Output(data) =>
          t := Some(Chunk(Copied(data)));
        case Status(code) =>
          remoteExitStatus, remoteExitStatusValid := code, true;
          t := None;
        case AtEnd(closed) =>
          if closed {
            channelOpen := false;
          }
          t := Some(Chunk([]));
      }
    }

    /** netnox_ssh_client_recv_data: skips packets until there are data to hand over, or the end. An empty chunk is the end. */
    method RecvData() returns (t: Taken)
      requires Tracks(Waiting)
      modifies this`next, this`lost, this`channelOpen, this`remoteExitStatus, this`remoteExitStatusValid
      ensures old(next) <= next <= |packets| && (t.Chunk? ==> old(next) < next)
      ensures t.Failed? ==> Tracks(GaveUp) || next == |packets| || lost
      ensures Delivers(t)
    {
      hide Read;
      while true
        invariant Tracks(Waiting) && old(next) <= next
        decreases |packets| - next
      {
        var taken := TakeOne();
        if taken.Some? {
          return taken.value;
        }
      }
    }

    /** netnox_ssh_client_exec from the sent request on: waits for the reply, which must be a success. */
    method AwaitReply() returns (ok: bool)
      requires next <= |packets|
      modifies this`next, this`lost
      ensures old(next) <= next <= |packets|
      ensures ok ==> old(next) < next && ReplyAt(packets, old(next), WAIT_LIMIT) == Some(next - 1)
      ensures ok ==> packets[next - 1] != [] && packets[next - 1][0] == MSG_CHANNEL_SUCCESS
      ensures !ok && !lost ==> var at := ReplyAt(packets, old(next), WAIT_LIMIT);
        at.None? || (at.value < |packets| && packets[at.value] != [] && packets[at.value][0] != 99)
    {
      var turns := 0;
      while turns < WAIT_LIMIT
        invariant 0 <= turns <= WAIT_LIMIT && old(next) <= next <= |packets|
        invariant ReplyAt(packets, old(next), WAIT_LIMIT) == ReplyAt(packets, next, WAIT_LIMIT - turns)
      {
        var p := RecvPacket();
        if p.None? || (p.value != [] && p.value[0] == KexInit.MSG_KEXINIT) {
          return false;
        }
        if IsReply(p.value) {
          return |p.value| <= REPLY_MAX && p.value[0] == MSG_CHANNEL_SUCCESS;
        }
        turns := turns + 1;
      }
      ok := false;
    }

    /** noxssh_print_channel_output, as far as it concerns packets: prints until there is an end or a failure. */
    method PrintChannelOutput(horizon: nat) returns (ghost mode: Mode)
      requires next <= |packets| && printed == [] && !remoteExitStatusValid
      modifies this
      ensures begun == old(next) && Tracks(mode)
    {
      var turns := 0;
      begun := next;
      while turns < horizon
        invariant begun == old(next) && Tracks(Waiting)
      {
        turns := turns + 1;
        var ready: int :| true;
        if ready < 0 {
          return Waiting;
        }
        if ready > 0 {
          var t := RecvData();
          if t.Failed? || t.data == [] {
            return Read(packets[begun..next], localChannelId).mode;
          }
          printed := printed + t.data;
        }
      }
      mode := Waiting;
    }
  }

  // ----- the client behind this server -----

  /** The packets of the session: what was sent from its beginning on, in order. */
  function SessionPackets(trace: seq<Event>): seq<Bytes> {
    if trace == [] then []
    else
      var front, e := trace[..|trace| - 1], trace[|trace| - 1];
      SessionPackets(front) + (if e.Sent? && e.ok && Rank(StateOf(front).channel) >= 2 then [e.msg.Payload()] else [])
  }

  function ReadSoFar(trace: seq<Event>): Reader {
    Read(SessionPackets(trace), StateOf(trace).peer)
  }

  /** What the reader has, compared with what the server has sent and stored, at each stage of the channel. */
  ghost predicate InStep(r: Reader, st: State, sent: Bytes) {
    match st.channel
    case NoChannel => r == Reader([], None, Waiting) && sent == [] && st.status == None
    case Open => r == Reader([], None, Waiting) && sent == [] && st.status == None
    case InSession => r == Reader(sent, None, Waiting) && st.status == None
    case StatusSent => r == Reader(sent, st.status, Waiting) && st.status.Some?
    case EofSent => r == Reader(sent, st.status, Ended(false)) && st.status.Some?
    case Closed => AtMost(r, st, sent)
    case Stopped => AtMost(r, st, sent)
  }

  /** A prefix of what was sent; and behind an EOF, all of it, with the exit status. */
  ghost predicate AtMost(r: Reader, st: State, sent: Bytes) {
    && r.out <= sent && (r.mode.Waiting? || r.mode.Ended?)
    && (r.mode == Ended(false) ==> r.out == sent && r.status == st.status && st.status.Some?)
    && (r.mode.Waiting? ==> st.channel == Stopped || sent == [])
  }

  lemma {:induction false} QuietEvent(cx: Context, r: Reader, st: State, e: Event, sent: Bytes)
    requires Allowed(cx, st, e) && !e.Sent? && InStep(r, st, sent)
    ensures InStep(r, AfterEvent(st, e), sent) && AfterEvent(st, e).peer == st.peer
  {
  }

  lemma {:induction false} EarlyKinds(cx: Context, st: State, m: Message, ok: bool)
    requires Allowed(cx, st, Sent(m, ok)) && Rank(st.channel) < 2
    ensures !m.Data? && !m.ExitStatus? && !m.Eof? && (m.Close? ==> st.channel == Open)
    ensures m.OpenConfirm? ==> st.channel == NoChannel
  {
    hide AfterEvent, WantsReply, IsChannelEnd;
  }

  lemma {:induction false} EarlyEffect(st: State, m: Message, ok: bool)
    requires !m.Data? && !m.ExitStatus? && !m.Eof?
    ensures var s := AfterEvent(st, Sent(m, ok));
      && s.status == st.status && (m.OpenConfirm? || s.peer == st.peer)
      && s.channel == if m.OpenConfirm? then (if ok then Open else Stopped)
                      else if m.Close? then (if ok then Closed else Stopped) else st.channel
  {
    hide ReplyAfter, WindowAfter, DrainAfter, HandledAfter, CountAfter, ChildAfter;
  }

  /** A message that was sent before the session concerns nobody who reads the session's output. */
  lemma {:induction false} EarlyMessage(cx: Context, r: Reader, st: State, m: Message, ok: bool, sent: Bytes)
    requires Allowed(cx, st, Sent(m, ok)) && Rank(st.channel) < 2 && InStep(r, st, sent)
    ensures !m.Data? && InStep(r, AfterEvent(st, Sent(m, ok)), sent)
    ensures Rank(st.channel) == 1 ==> AfterEvent(st, Sent(m, ok)).peer == st.peer
  {
    hide AfterEvent, Allowed;
    EarlyKinds(cx, st, m, ok);
    EarlyEffect(st, m, ok);
  }

  lemma {:induction false} SessionMessage(cx: Context, r: Reader, st: State, m: Message, sent: Bytes)
    requires Allowed(cx, st, Sent(m, true)) && Rank(st.channel) >= 2 && InStep(r, st, sent)
    ensures InStep(Step(r, m.Payload(), st.peer), AfterEvent(st, Sent(m, true)), if m.Data? then sent + m.data else sent)
    ensures AfterEvent(st, Sent(m, true)).peer == st.peer
  {
    assert Addresses(m, st.peer);
    ClientUnderstands(m, st.peer);
    MeaningStep(cx, r, st, m, Step(r, m.Payload(), st.peer), sent);
  }

  /** Step, when the packet means what the message says. */
  ghost predicate StepsBy(r: Reader, m: Message, next: Reader) {
    if r.mode != Waiting then next == r
    else
      match m
      case Data(_, data) =>
        next == if Copied(data) == [] then r.(mode := StoppedEmpty) else r.(out := r.out + Copied(data))
      case ExitStatus(_, code) => next == r.(status := Some(code))
      case Eof(_) => next == r.(mode := Ended(false))
      case Close(_) => next == r.(mode := Ended(true))
      case _ => next == r
  }

  lemma {:induction false} MeaningStep(cx: Context, r: Reader, st: State, m: Message, next: Reader, sent: Bytes)
    requires Allowed(cx, st, Sent(m, true)) && Rank(st.channel) >= 2 && InStep(r, st, sent) && StepsBy(r, m, next)
    ensures InStep(next, AfterEvent(st, Sent(m, true)), if m.Data? then sent + m.data else sent)
    ensures AfterEvent(st, Sent(m, true)).peer == st.peer
  {
  }

  /** A message that could not be sent stops the session, or changes nothing for the reader. */
  lemma {:induction false} LostMessage(cx: Context, r: Reader, st: State, m: Message, sent: Bytes)
    requires Allowed(cx, st, Sent(m, false)) && Rank(st.channel) >= 2 && InStep(r, st, sent)
    ensures InStep(r, AfterEvent(st, Sent(m, false)), if m.Data? then sent + m.data else sent)
    ensures AfterEvent(st, Sent(m, false)).peer == st.peer
  {
  }

  lemma {:induction false} NoPacketsYet(cx: Context, trace: seq<Event>)
    requires Lawful(cx, trace) && Rank(StateOf(trace).channel) < 2
    ensures SessionPackets(trace) == []
  {
    if trace != [] {
      LastStep(cx, trace);
      StepForward(cx, StateOf(trace[..|trace| - 1]), trace[|trace| - 1]);
      NoPacketsYet(cx, trace[..|trace| - 1]);
    }
  }

  /** At every moment of every run, a client that has read what was sent so far is in step with the server. */
  lemma {:induction false} ReaderInStep(cx: Context, trace: seq<Event>)
    requires Lawful(cx, trace)
    ensures InStep(ReadSoFar(trace), StateOf(trace), DataSent(trace))
    decreases |trace|
  {
    hide *;
    if trace == [] {
      ReaderAtStart();
    } else {
      LastStep(cx, trace);
      ReaderInStep(cx, trace[..|trace| - 1]);
      ReaderStep(cx, trace[..|trace| - 1], trace[|trace| - 1]);
      assert trace == trace[..|trace| - 1] + [trace[|trace| - 1]];
    }
  }

  lemma {:induction false} ReaderAtStart()
    ensures InStep(ReadSoFar([]), StateOf([]), DataSent([]))
  {
  }

  lemma {:induction false} ReaderStep(cx: Context, front: seq<Event>, e: Event)
    requires Lawful(cx, front) && Allowed(cx, StateOf(front), e)
    requires InStep(ReadSoFar(front), StateOf(front), DataSent(front))
    ensures InStep(ReadSoFar(front + [e]), StateOf(front + [e]), DataSent(front + [e]))
  {
    var st, r, sent := StateOf(front), ReadSoFar(front), DataSent(front);
    Unfolded(front, e);
    if !e.Sent? {
      QuietEvent(cx, r, st, e, sent);
    } else if Rank(st.channel) < 2 {
      NoPacketsYet(cx, front);
      EarlyMessage(cx, r, st, e.msg, e.ok, sent);
    } else if e.ok {
      SessionMessage(cx, r, st, e.msg, sent);
      ReadSnoc(SessionPackets(front), e.msg.Payload(), st.peer);
    } else {
      LostMessage(cx, r, st, e.msg, sent);
    }
  }

  lemma {:induction false} Unfolded(front: seq<Event>, e: Event)
    ensures StateOf(front + [e]) == AfterEvent(StateOf(front), e)
    ensures DataSent(front + [e]) == if e.Sent? && e.msg.Data? then DataSent(front) + e.msg.data else DataSent(front)
    ensures SessionPackets(front + [e])
         == if e.Sent? && e.ok && Rank(StateOf(front).channel) >= 2 then SessionPackets(front) + [e.msg.Payload()]
            else SessionPackets(front)
  {
    assert (front + [e])[..|front|] == front;
  }

  lemma {:induction false} ReadSnoc(packets: seq<Bytes>, p: Bytes, channel: uint32)
    ensures Read(packets + [p], channel) == Step(Read(packets, channel), p, channel)
  {
    assert (packets + [p])[..|packets|] == packets;
  }

  // ----- any number of packets -----

  /** The first k packets are what had been sent at some moment of the run. */
  lemma {:induction false} MomentOf(trace: seq<Event>, k: nat) returns (j: nat)
    requires k <= |SessionPackets(trace)|
    ensures j <= |trace| && SessionPackets(trace[..j]) == SessionPackets(trace)[..k]
  {
    if k == |SessionPackets(trace)| {
      j := |trace|;
      assert trace[..j] == trace;
    } else {
      j := MomentOf(trace[..|trace| - 1], k);
      assert trace[..|trace| - 1][..j] == trace[..j];
    }
  }

  lemma {:induction false} SaidGrows(trace: seq<Event>, j: nat)
    requires j <= |trace|
    ensures Said(trace[..j]) <= Said(trace)
    decreases |trace|
  {
    if j == |trace| {
      assert trace[..j] == trace;
    } else {
      SaidGrows(trace[..|trace| - 1], j);
      assert trace[..|trace| - 1][..j] == trace[..j];
    }
  }

  /** Nothing is read from the child once the exit status is out. */
  lemma {:induction false} SaidSettled(cx: Context, trace: seq<Event>, j: nat)
    requires Lawful(cx, trace) && j <= |trace| && Rank(At(trace, j).channel) >= 3
    ensures Said(trace) == Said(trace[..j])
    decreases |trace|
  {
    hide AfterEvent, Allowed, StateOf;
    if j == |trace| {
      assert trace[..j] == trace;
    } else {
      LastStep(cx, trace);
      SaidSettledStep(cx, trace, j);
      SaidSettled(cx, trace[..|trace| - 1], j);
      assert trace[..|trace| - 1][..j] == trace[..j];
    }
  }

  lemma {:induction false} SaidSettledStep(cx: Context, trace: seq<Event>, j: nat)
    requires Lawful(cx, trace) && j < |trace| && Rank(At(trace, j).channel) >= 3
    ensures !trace[|trace| - 1].ChildSaid?
    ensures At(trace[..|trace| - 1], j) == At(trace, j)
  {
    hide AfterEvent, Allowed, StateOf;
    Forward(cx, trace, j, |trace| - 1);
    LastStep(cx, trace);
    NotSaidLate(cx, StateOf(trace[..|trace| - 1]), trace[|trace| - 1]);
    assert trace[..|trace| - 1][..j] == trace[..j];
  }

  lemma {:induction false} NotSaidLate(cx: Context, st: State, e: Event)
    requires Allowed(cx, st, e) && Rank(st.channel) >= 3
    ensures !e.ChildSaid?
  {
  }

  lemma {:induction false} PendingSettled(cx: Context, trace: seq<Event>)
    requires Lawful(cx, trace)
    ensures StateOf(trace).channel != InSession ==> StateOf(trace).child.pending == []
  {
    if trace != [] {
      LastStep(cx, trace);
      PendingSettled(cx, trace[..|trace| - 1]);
      PendingStep(cx, StateOf(trace[..|trace| - 1]), trace[|trace| - 1]);
    }
  }

  lemma {:induction false} PendingStep(cx: Context, st: State, e: Event)
    requires Allowed(cx, st, e) && (st.channel != InSession ==> st.child.pending == [])
    ensures AfterEvent(st, e).channel != InSession ==> AfterEvent(st, e).child.pending == []
  {
  }

  /** The channel number stays once a channel is confirmed, and the exit status once it is out. */
  lemma {:induction false} PeerStays(cx: Context, trace: seq<Event>, i: nat, j: nat)
    requires Lawful(cx, trace) && i <= j <= |trace|
    ensures Rank(At(trace, i).channel) >= 1 ==> At(trace, j).peer == At(trace, i).peer
    ensures Rank(At(trace, i).channel) >= 3 ==> At(trace, j).status == At(trace, i).status
    decreases j - i
  {
    hide AfterEvent, Allowed, StateOf;
    if i < j {
      PeerStays(cx, trace, i, j - 1);
      Forward(cx, trace, i, j - 1);
      PeerNext(cx, trace, j - 1);
    }
  }

  lemma {:induction false} PeerNext(cx: Context, trace: seq<Event>, j: nat)
    requires Lawful(cx, trace) && j < |trace|
    ensures Rank(At(trace, j).channel) >= 1 ==> At(trace, j + 1).peer == At(trace, j).peer
    ensures Rank(At(trace, j).channel) >= 3 ==> At(trace, j + 1).status == At(trace, j).status
  {
    AtNext(trace, j);
    LawfulAt(cx, trace, j);
    PeerStep(cx, At(trace, j), trace[j]);
  }

  lemma {:induction false} PeerStep(cx: Context, st: State, e: Event)
    requires Allowed(cx, st, e)
    ensures Rank(st.channel) >= 1 ==> AfterEvent(st, e).peer == st.peer
    ensures Rank(st.channel) >= 3 ==> AfterEvent(st, e).status == st.status
  {
  }

  lemma {:induction false} EndedStays(packets: seq<Bytes>, k: nat, channel: uint32)
    requires k <= |packets| && Read(packets[..k], channel).mode != Waiting
    ensures Read(packets, channel) == Read(packets[..k], channel)
    decreases |packets|
  {
    if k == |packets| {
      assert packets[..k] == packets;
    } else {
      var front := packets[..|packets| - 1];
      assert front[..k] == packets[..k];
      EndedStays(front, k, channel);
    }
  }

  lemma {:induction false} PacketsGrow(trace: seq<Event>, j: nat)
    requires j <= |trace|
    ensures SessionPackets(trace[..j]) <= SessionPackets(trace)
    decreases |trace|
  {
    if j == |trace| {
      assert trace[..j] == trace;
    } else {
      PacketsGrow(trace[..|trace| - 1], j);
      assert trace[..|trace| - 1][..j] == trace[..j];
    }
  }

  /** What a client has of the session once it has read the first k of its packets. */
  function ReadFirst(trace: seq<Event>, k: nat): Reader
    requires k <= |SessionPackets(trace)|
  {
    Read(SessionPackets(trace)[..k], StateOf(trace).peer)
  }

  lemma {:induction false} ReadAtMoment(cx: Context, trace: seq<Event>, k: nat) returns (j: nat)
    requires Lawful(cx, trace) && k <= |SessionPackets(trace)|
    ensures j <= |trace| && InStep(ReadFirst(trace, k), At(trace, j), DataSent(trace[..j]))
  {
    j := MomentOf(trace, k);
    LawfulPrefix(cx, trace, j);
    ReaderInStep(cx, trace[..j]);
    assert trace[..|trace|] == trace;
    PeerStays(cx, trace, j, |trace|);
    if Rank(At(trace, j).channel) < 1 {
      NoPacketsYet(cx, trace[..j]);
    }
  }

  /**
   * End to end, for every run of the server and however far the client has read: what is printed is a prefix of the child's
   * output, and the client never stops at an empty chunk. When it has seen the EOF, the child's output had ended and the child
   * had exited; the client has printed all that the child ever said, and the status it has stored is the child's exit code.
   */
  lemma {:induction false} EndToEnd(cx: Context, trace: seq<Event>, k: nat)
    requires Lawful(cx, trace) && k <= |SessionPackets(trace)|
    ensures var r := ReadFirst(trace, k);
      && r.out <= Said(trace) && (r.mode.Waiting? || r.mode.Ended?)
      && (r.mode == Ended(false) ==> r.out == Said(trace) && r.status.Some? && ChildDone(trace, r.status.value))
  {
    var r := ReadFirst(trace, k);
    var j := ReadAtMoment(cx, trace, k);
    LawfulPrefix(cx, trace, j);
    OutputConserved(cx, trace[..j]);
    SaidGrows(trace, j);
    if r.mode == Ended(false) {
      PendingSettled(cx, trace[..j]);
      assert DataSent(trace[..j]) + [] == DataSent(trace[..j]);
      SaidSettled(cx, trace, j);
      StatusStays(cx, trace, j);
      StatusOfDoneChild(cx, trace);
    }
  }

  lemma {:induction false} StatusStays(cx: Context, trace: seq<Event>, j: nat)
    requires Lawful(cx, trace) && j <= |trace| && Rank(At(trace, j).channel) >= 3
    ensures StateOf(trace).status == At(trace, j).status
  {
    PeerStays(cx, trace, j, |trace|);
    assert trace[..|trace|] == trace;
  }

  lemma {:induction false} EndSeen(cx: Context, trace: seq<Event>, b: nat)
    requires Lawful(cx, trace) && b < |trace| && trace[b].Sent? && trace[b].msg.Eof? && trace[b].ok
    ensures ReadSoFar(trace[..b + 1]).mode == Ended(false) && Rank(At(trace, b + 1).channel) == 4
  {
    hide Allowed, StateOf, Read, SessionPackets;
    LawfulPrefix(cx, trace, b + 1);
    LawfulAt(cx, trace, b);
    AtNext(trace, b);
    ReaderInStep(cx, trace[..b + 1]);
  }

  lemma {:induction false} EndStillSeen(cx: Context, trace: seq<Event>, j: nat)
    requires Lawful(cx, trace) && j <= |trace| && ReadSoFar(trace[..j]).mode == Ended(false)
    requires Rank(At(trace, j).channel) >= 1
    ensures ReadSoFar(trace).mode == Ended(false)
  {
    PacketsGrow(trace, j);
    PeerAtEnd(cx, trace, j);
    PrefixEnded(SessionPackets(trace[..j]), SessionPackets(trace), StateOf(trace).peer);
  }

  lemma {:induction false} PeerAtEnd(cx: Context, trace: seq<Event>, j: nat)
    requires Lawful(cx, trace) && j <= |trace| && Rank(At(trace, j).channel) >= 1
    ensures StateOf(trace[..j]).peer == StateOf(trace).peer
  {
    PeerStays(cx, trace, j, |trace|);
    assert trace[..|trace|] == trace;
  }

  lemma {:induction false} PrefixEnded(early: seq<Bytes>, packets: seq<Bytes>, channel: uint32)
    requires early <= packets && Read(early, channel).mode == Ended(false)
    ensures Read(packets, channel).mode == Ended(false)
  {
    assert packets[..|early|] == early;
    EndedStays(packets, |early|, channel);
  }

  /**
   * When the server has sent its EOF, a client that reads all packets has the child's whole output and its exit code, and the
   * child is done.
   */
  lemma {:induction false} CleanCompletion(cx: Context, trace: seq<Event>, b: nat)
    requires Lawful(cx, trace) && b < |trace| && trace[b].Sent? && trace[b].msg.Eof? && trace[b].ok
    ensures var r := ReadSoFar(trace);
      r.status.Some? && r == Reader(Said(trace), r.status, Ended(false)) && ChildDone(trace, r.status.value)
  {
    hide Allowed, AfterEvent, StateOf, Read, SessionPackets, Said, ChildDone, Lawful;
    EndSeen(cx, trace, b);
    EndStillSeen(cx, trace, b + 1);
    EndToEnd(cx, trace, |SessionPackets(trace)|);
    assert SessionPackets(trace)[..|SessionPackets(trace)|] == SessionPackets(trace);
  }
}
