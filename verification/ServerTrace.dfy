/**
 * What one server connection may do after the key exchange, as a policy over the trace of its events: authentication, one
 * channel, one session, its data, and the drain behind it. Server shows that the code keeps to the policy.
 */
module ServerTrace {
  import opened Octets
  import opened Wrappers
  import opened Cipher
  import opened Wire
  import Packet
  import UserAuth
  import opened Messages

  /** What a connection is judged against: the crypto library and the session id of its key exchange. */
  datatype Context = Context(suite: Suite, sessionId: Digest)

  /** How waitpid says a child has ended: with its exit code, or by a signal. */
  datatype ChildStatus = Exited(code: byte) | Signalled(signal: byte)

  datatype Event =
    | Received(payload: Bytes)
    | Sent(msg: Message, ok: bool)
    | AuthTried                                                    // an authentication request is processed
    | Asked(user: Bytes, key: Digest, yes: bool)                   // the callback's answer
    | Login(user: Bytes, key: Digest, signature: Signature)        // the user is stored
    | SessionBegan(user: Bytes, window: uint32, pty: bool)
    | ChildSaid(data: Bytes)                                       // read from the child
    | ChildEnded                                                   // the child's output has ended
    | ChildExited(how: ChildStatus)                                // the child was reaped
    | ChildFed(data: Bytes)                                        // written to the child, completely
    | Dropped(data: Bytes)                                         // for the channel, outside a session
    | EotFed                                                       // byte 4, for an EOF under a terminal
    | Credited(amount: uint32)                                     // a window adjustment is added
    | SessionEnded(clean: bool)
    | ClockRead(now: uint64)
    | DeadlineSet(deadline: uint64)
    | Finished(ok: bool)

  datatype Channel = NoChannel | Open | InSession | StatusSent | EofSent | Closed | Stopped

  datatype Approval = Approval(user: Bytes, key: Digest)

  /**
   * What concerns the child: channel data that nothing was done with yet, what was read from it and written to it, and whether
   * its output and it have ended.
   */
  datatype Child = Child(
    pty: bool, owed: Option<Bytes>, pending: Bytes, written: Bytes, eots: nat, ended: bool, exited: Option<ChildStatus>)

  /** The deadline, the last reading of the clock since the last packet, and the readings since the deadline was set. */
  datatype Drain = Drain(deadline: uint64, clock: Option<uint64>, expired: bool, readings: nat)

  /** Authentication requests; packets sent, packets that could not be sent, and the cipher blocks of both. */
  datatype Counts = Counts(tries: nat, packets: nat, fails: nat, blocks: nat)

  datatype State = State(
    done: bool, approved: Option<Approval>, user: Option<Bytes>,
    due: bool,                                   // an authentication request waits for its answer
    reply: Option<Message>,                      // the answer that the last packet waits for
    channel: Channel, peer: uint32, status: Option<uint32>,
    last: Bytes, handled: bool,                  // the last packet, and whether it has had its effect
    granted: bool,                               // the last packet was a channel request, and its acceptance was sent
    window: nat,                                 // what the peer may still send
    remote: int, child: Child, drain: Drain, count: Counts)

  function Initial(): State {
    State(false, None, None, false, None, NoChannel, 0, None, [], true, false, 0, 0,
          Child(false, None, [], [], 0, false, None), Drain(0, None, false, 0), Counts(0, 0, 0, 0))
  }

  predicate Busy(c: Channel) {
    c == InSession || c == StatusSent || c == EofSent
  }

  /** A channel request that asks for a reply. */
  predicate WantsReply(p: Bytes) {
    && p != [] && p[0] == MSG_CHANNEL_REQUEST
    && var r := ReadRequest(p);
    && r.Some? && r.value.wantReply
  }

  /** Nothing about the last packet is left to be done. */
  predicate Clear(st: State) {
    st.reply.None? && st.child.owed.None?
  }

  predicate MayReceive(st: State) {
    && st.channel != StatusSent && st.channel != EofSent && Clear(st)
    && (st.drain.deadline != 0 ==> st.drain.clock.Some? && st.drain.clock.value < st.drain.deadline)
  }

  // ----- what a packet is answered with -----

  /** What data of this length leave of the window: data beyond it are not subtracted. */
  function WindowLeft(window: nat, len: nat): (left: nat)
    ensures left <= window
  {
    if window >= len then window - len else window
  }

  function AdjustAt(window: nat): Option<Message> {
    if window <= WINDOW_SIZE then Some(Adjust(0, WINDOW_BUMP)) else None
  }

  /** The answer to requests: service requests get none in a session, nor for a service that is not there or not yet. */
  function RequestReply(p: Bytes, loggedIn: bool, inSession: bool): Option<Message> {
    if ReadGlobal(p) == Some(true) then Some(RequestFailure)
    else if inSession then None
    else if AsksFor(p, UserAuth.Userauth()) then Some(ServiceAccept(UserAuth.Userauth()))
    else if loggedIn && AsksFor(p, UserAuth.Connection()) then Some(ServiceAccept(UserAuth.Connection()))
    else None
  }

  /** The data that a packet brings for the channel: in a session, nothing may be behind them. */
  function DataFor(p: Bytes, inSession: bool): Option<Bytes> {
    if inSession then ReadData(p, 0) else CarriedData(p, 0)
  }

  /** What packet p is answered with when it is received in this state. */
  function ReplyTo(st: State, p: Bytes): Option<Message> {
    var data := DataFor(p, st.channel == InSession);
    if data.Some? then AdjustAt(WindowLeft(st.window, |data.value|))
    else RequestReply(p, st.user.Some?, st.channel == InSession)
  }

  /** The status reported for a child: its exit code, or 128 and the number of the signal. */
  predicate Reports(exited: Option<ChildStatus>, code: uint32) {
    match exited
    case None => false
    case Some(Exited(c)) => code == c
    case Some(Signalled(signal)) => code == 128 + signal
  }

  predicate MaySend(st: State, m: Message) {
    match m
    case AuthFailure => st.due
    case PkOk(_, _) => st.due
    case AuthSuccess => st.due && st.user.Some?
    case OpenConfirm(_, _, window, _) =>
      && window == WINDOW_SIZE && st.last != [] && st.last[0] == MSG_CHANNEL_OPEN
      && st.channel == NoChannel && st.user.Some? && !st.due && st.drain.deadline == 0 && st.child.owed.None?
    case ChannelSuccess(recipient) => st.channel == Open && recipient == st.peer && WantsReply(st.last) && !st.handled
    case ChannelFailure(recipient) => st.channel == Open && recipient == st.peer && WantsReply(st.last) && !st.handled
    case Data(recipient, data) =>
      st.channel == InSession && recipient == st.peer && data == st.child.pending && 0 < |data| <= st.remote
    case ExitStatus(recipient, code) =>
      && st.channel == InSession && recipient == st.peer && st.child.pending == [] && Clear(st)
      && st.child.ended && Reports(st.child.exited, code)
    case Eof(recipient) => st.channel == StatusSent && recipient == st.peer
    case Close(recipient) =>
      && recipient == st.peer && st.child.pending == [] && Clear(st)
      && (st.channel == EofSent || (st.channel in {Open, InSession} && IsClose(st.last, 0)))
    case _ => st.reply == Some(m)
  }

  predicate Allowed(cx: Context, st: State, e: Event) {
    && !st.done && (st.drain.expired ==> e.Finished?)
    && match e
       case Received(_) => MayReceive(st)
       case Sent(m, _) => m.Fits() && MaySend(st, m)
       case AuthTried => st.count.tries < 6 && st.user.None?
       case Asked(_, _, _) => st.user.None?
       case Login(user, key, signature) =>
         && st.user.None? && st.approved == Some(Approval(user, key)) && 1 <= |user| <= UserAuth.MAX_USERNAME_LEN
         && cx.suite.edVerify(key, UserAuth.ToSign(cx.sessionId, UserAuth.Request(user, 1, key)), signature)
       case SessionBegan(user, _, _) =>
         && st.channel == Open && st.user == Some(user) && Clear(st)
         && st.last != [] && st.last[0] == MSG_CHANNEL_REQUEST && (WantsReply(st.last) ==> st.granted)
       case ChildSaid(data) => st.channel == InSession && !st.child.ended && st.child.pending == [] && data != []
       case ChildEnded => st.channel == InSession && !st.child.ended && st.child.pending == []
       case ChildExited(_) => st.channel == InSession && st.child.exited.None?
       case ChildFed(data) => st.channel == InSession && st.child.owed == Some(data) && |data| <= st.window
       case Dropped(data) => st.channel != InSession && st.child.owed == Some(data)
       case EotFed =>
         st.channel == InSession && st.child.pty && !st.handled && IsChannelEnd(st.last, 0) && !IsClose(st.last, 0)
       case Credited(amount) => st.channel == InSession && !st.handled && ReadAdjust(st.last, 0) == Some(amount)
       case SessionEnded(clean) => st.child.pending == [] && if clean then st.channel == Closed else true
       case ClockRead(_) => Clear(st)
       case DeadlineSet(deadline) =>
         && st.drain.deadline == 0 && !Busy(st.channel) && st.channel != Open
         && st.drain.clock.Some? && deadline == st.drain.clock.value + 10000
       case Finished(ok) => ok ==> Clear(st)
  }

  // ----- the effect of an event, part by part -----

  function ApprovedAfter(a: Option<Approval>, e: Event): Option<Approval> {
    match e
    case AuthTried => None
    case Asked(user, key, yes) => if yes then Some(Approval(user, key)) else None
    case _ => a
  }

  predicate AnswersLogin(e: Event) {
    e.Sent? && (e.msg.AuthFailure? || e.msg.PkOk? || e.msg.AuthSuccess?)
  }

  /** Where the channel stands after a message was sent, or after sending it failed. */
  function ChannelAfterSend(c: Channel, m: Message, ok: bool): Channel {
    match m
    case OpenConfirm(_, _, _, _) => if ok then Open else Stopped
    case Data(_, _) => if ok then c else Stopped
    case ExitStatus(_, _) => if ok then StatusSent else Stopped
    case Eof(_) => if ok then EofSent else Stopped
    case Close(_) => if ok then Closed else Stopped
    case _ => c
  }

  function ChannelAfter(c: Channel, e: Event): Channel {
    match e
    case Sent(m, ok) => ChannelAfterSend(c, m, ok)
    case SessionBegan(_, _, _) => InSession
    case SessionEnded(clean) => if clean then c else Stopped
    case _ => c
  }

  /** Data are taken off the window, adjustments are added to it, whether or not they can be sent. */
  function WindowAfter(window: nat, e: Event): nat {
    match e
    case Sent(m, _) => (match m case OpenConfirm(_, _, w, _) => w case Adjust(_, amount) => window + amount case _ => window)
    case ChildFed(data) => WindowLeft(window, |data|)
    case Dropped(data) => WindowLeft(window, |data|)
    case _ => window
  }

  /** An answer to a request, or to channel data. */
  predicate Replies(e: Event) {
    e.Sent? && (e.msg.ServiceAccept? || e.msg.RequestFailure? || e.msg.Adjust?)
  }

  /** The answer that is due: to a request at once, to data when they are taken off the window. */
  function ReplyAfter(reply: Option<Message>, window: nat, loggedIn: bool, inSession: bool, e: Event): Option<Message> {
    match e
    case Received(p) => if DataFor(p, inSession).Some? then None else RequestReply(p, loggedIn, inSession)
    case ChildFed(data) => AdjustAt(WindowLeft(window, |data|))
    case Dropped(data) => AdjustAt(WindowLeft(window, |data|))
    case _ => if Replies(e) then None else reply
  }

  predicate AnswersRequest(e: Event) {
    e.Sent? && (e.msg.ChannelSuccess? || e.msg.ChannelFailure?)
  }

  function HandledAfter(handled: bool, e: Event): bool {
    !e.Received? && (handled || e.ChildFed? || e.EotFed? || e.Credited? || AnswersRequest(e))
  }

  function RemoteAfter(remote: int, e: Event): int {
    match e
    case Sent(m, _) => if m.Data? then remote - |m.data| else remote
    case SessionBegan(_, window, _) => window
    case Credited(amount) => remote + amount
    case _ => remote
  }

  function ChildAfter(c: Child, inSession: bool, e: Event): Child {
    match e
    case Received(p) => c.(owed := DataFor(p, inSession))
    case Sent(m, _) => if m.Data? then c.(pending := []) else c
    case SessionBegan(_, _, pty) => c.(pty := pty)
    case ChildSaid(data) => c.(pending := data)
    case ChildEnded => c.(ended := true)
    case ChildExited(how) => c.(exited := Some(how))
    case ChildFed(data) => c.(owed := None, written := c.written + data)
    case EotFed => c.(written := c.written + [4], eots := c.eots + 1)
    case Dropped(_) => c.(owed := None)
    case _ => c
  }

  function AfterReading(d: Drain, now: uint64): Drain {
    Drain(d.deadline, Some(now), d.deadline != 0 && now >= d.deadline, if d.deadline != 0 then d.readings + 1 else d.readings)
  }

  function DrainAfter(d: Drain, e: Event): Drain {
    match e
    case Received(_) => d.(clock := None)
    case ClockRead(now) => AfterReading(d, now)
    case DeadlineSet(deadline) => d.(deadline := deadline, clock := None)
    case _ => d
  }

  /** Encryption uses up counter values before sending is tried, so a packet that could not be sent counts its blocks as well. */
  function CountSend(c: Counts, m: Message, ok: bool): Counts {
    Counts(c.tries, if ok then c.packets + 1 else c.packets, if ok then c.fails else c.fails + 1, c.blocks + m.Blocks())
  }

  function CountAfter(c: Counts, e: Event): Counts {
    match e
    case Sent(m, ok) => CountSend(c, m, ok)
    case AuthTried => c.(tries := c.tries + 1)
    case _ => c
  }

  function AfterEvent(st: State, e: Event): State {
    State(
      st.done || e.Finished?,
      ApprovedAfter(st.approved, e),
      if e.Login? then Some(e.user) else st.user,
      if e.AuthTried? then true else st.due && !AnswersLogin(e),
      ReplyAfter(st.reply, st.window, st.user.Some?, st.channel == InSession, e),
      ChannelAfter(st.channel, e),
      if e.Sent? && e.msg.OpenConfirm? then e.msg.recipient else st.peer,
      if e.Sent? && e.msg.ExitStatus? && e.ok then Some(e.msg.code) else st.status,
      if e.Received? then e.payload else st.last,
      HandledAfter(st.handled, e),
      if AnswersRequest(e) then e.ok && e.msg.ChannelSuccess? else st.granted && !e.Received?,
      WindowAfter(st.window, e),
      RemoteAfter(st.remote, e),
      ChildAfter(st.child, st.channel == InSession, e),
      DrainAfter(st.drain, e),
      CountAfter(st.count, e))
  }

  function StateOf(trace: seq<Event>): State {
    if trace == [] then Initial() else AfterEvent(StateOf(trace[..|trace| - 1]), trace[|trace| - 1])
  }

  /** The state that event k of the trace finds. */
  function At(trace: seq<Event>, k: nat): State
    requires k <= |trace|
  {
    StateOf(trace[..k])
  }

  ghost predicate AllowedAt(cx: Context, trace: seq<Event>, k: nat)
    requires k < |trace|
  {
    Allowed(cx, At(trace, k), trace[k])
  }

  /** A trace within the policy: every event is allowed where it happens. */
  ghost predicate Lawful(cx: Context, trace: seq<Event>) {
    forall k: nat | k < |trace| :: AllowedAt(cx, trace, k)
  }

  lemma {:induction false} LawfulAt(cx: Context, trace: seq<Event>, k: nat)
    requires Lawful(cx, trace) && k < |trace|
    ensures Allowed(cx, At(trace, k), trace[k])
  {
    assert AllowedAt(cx, trace, k);
  }

  lemma {:induction false} LawfulPrefix(cx: Context, trace: seq<Event>, k: nat)
    requires Lawful(cx, trace) && k <= |trace|
    ensures Lawful(cx, trace[..k])
  {
    forall i: nat | i < k
      ensures AllowedAt(cx, trace[..k], i)
    {
      assert AllowedAt(cx, trace, i) && trace[..k][..i] == trace[..i];
    }
  }

  /** The last event of a lawful trace, seen from the state in front of it. */
  lemma {:induction false} LastStep(cx: Context, trace: seq<Event>)
    requires Lawful(cx, trace) && trace != []
    ensures var n := |trace| - 1;
      && Lawful(cx, trace[..n]) && Allowed(cx, StateOf(trace[..n]), trace[n])
      && StateOf(trace) == AfterEvent(StateOf(trace[..n]), trace[n])
  {
    LawfulPrefix(cx, trace, |trace| - 1);
    LawfulAt(cx, trace, |trace| - 1);
  }

  lemma {:induction false} AtNext(trace: seq<Event>, k: nat)
    requires k < |trace|
    ensures At(trace, k + 1) == AfterEvent(At(trace, k), trace[k])
  {
    assert trace[..k + 1][..k] == trace[..k];
  }

  lemma {:induction false} LawfulGrows(cx: Context, trace: seq<Event>, e: Event)
    requires Lawful(cx, trace) && Allowed(cx, StateOf(trace), e)
    ensures Lawful(cx, trace + [e]) && StateOf(trace + [e]) == AfterEvent(StateOf(trace), e)
  {
    var next := trace + [e];
    assert next[..|trace|] == trace;
    forall k: nat | k < |next|
      ensures AllowedAt(cx, next, k)
    {
      if k < |trace| {
        assert AllowedAt(cx, trace, k) && next[..k] == trace[..k];
      }
    }
  }

  // ----- the channel only moves forward -----

  function Rank(c: Channel): nat {
    match c
    case NoChannel => 0
    case Open => 1
    case InSession => 2
    case StatusSent => 3
    case EofSent => 4
    case Closed => 5
    case Stopped => 6
  }

  lemma {:induction false} StepForward(cx: Context, st: State, e: Event)
    requires Allowed(cx, st, e)
    ensures Rank(st.channel) <= Rank(AfterEvent(st, e).channel)
    ensures st.user.Some? ==> AfterEvent(st, e).user == st.user
    ensures st.drain.deadline != 0 ==> AfterEvent(st, e).drain.deadline == st.drain.deadline
    ensures st.count.tries <= AfterEvent(st, e).count.tries
    ensures st.count.tries <= 6 ==> AfterEvent(st, e).count.tries <= 6
  {
  }

  lemma {:induction false} ForwardAt(cx: Context, trace: seq<Event>, k: nat)
    requires Lawful(cx, trace) && k < |trace|
    ensures Rank(At(trace, k).channel) <= Rank(At(trace, k + 1).channel)
    ensures At(trace, k).user.Some? ==> At(trace, k + 1).user == At(trace, k).user
    ensures At(trace, k).drain.deadline != 0 ==> At(trace, k + 1).drain.deadline == At(trace, k).drain.deadline
    ensures At(trace, k).count.tries <= At(trace, k + 1).count.tries
  {
    AtNext(trace, k);
    LawfulAt(cx, trace, k);
    StepForward(cx, At(trace, k), trace[k]);
  }

  /** Between two points of a trace, the channel has moved forward, and user and deadline have stayed once they were set. */
  lemma {:induction false} Forward(cx: Context, trace: seq<Event>, i: nat, j: nat)
    requires Lawful(cx, trace) && i <= j <= |trace|
    ensures Rank(At(trace, i).channel) <= Rank(At(trace, j).channel)
    ensures At(trace, i).user.Some? ==> At(trace, j).user == At(trace, i).user
    ensures At(trace, i).drain.deadline != 0 ==> At(trace, j).drain.deadline == At(trace, i).drain.deadline
    ensures At(trace, i).count.tries <= At(trace, j).count.tries
    decreases j - i
  {
    hide AfterEvent, Allowed, StateOf;
    if i < j {
      Forward(cx, trace, i, j - 1);
      ForwardAt(cx, trace, j - 1);
    }
  }

  predicate Confirms(e: Event) {
    e.Sent? && e.msg.OpenConfirm?
  }

  predicate Closes(e: Event) {
    e.Sent? && e.msg.Close?
  }

  predicate Speaks(e: Event) {
    e.Sent? && (e.msg.Data? || e.msg.Eof? || e.msg.ExitStatus?)
  }

  /** Where in the life of a channel these events belong. */
  lemma {:induction false} RankOfEvent(cx: Context, st: State, e: Event)
    requires Allowed(cx, st, e)
    ensures var r, s := Rank(st.channel), Rank(AfterEvent(st, e).channel);
      && (Confirms(e) ==> r == 0 && s >= 1) && (e.SessionBegan? ==> r == 1 && s == 2)
      && (Speaks(e) ==> r <= 3 && (!e.ok ==> s == 6)) && (Closes(e) ==> 1 <= r <= 4 && s >= 5)
  {
  }

  lemma {:induction false} RankAt(cx: Context, trace: seq<Event>, k: nat)
    requires Lawful(cx, trace) && k < |trace|
    ensures var r, s := Rank(At(trace, k).channel), Rank(At(trace, k + 1).channel);
      && (Confirms(trace[k]) ==> r == 0 && s >= 1) && (trace[k].SessionBegan? ==> r == 1 && s == 2)
      && (Speaks(trace[k]) ==> r <= 3 && (!trace[k].ok ==> s == 6)) && (Closes(trace[k]) ==> 1 <= r <= 4 && s >= 5)
  {
    LawfulAt(cx, trace, k);
    AtNext(trace, k);
    RankOfEvent(cx, At(trace, k), trace[k]);
  }

  /** At most one channel is confirmed and at most one session runs, whatever the client asks for. */
  lemma {:induction false} OneChannelOneSession(cx: Context, trace: seq<Event>, i: nat, j: nat)
    requires Lawful(cx, trace) && i < j < |trace|
    ensures !(Confirms(trace[i]) && Confirms(trace[j]))
    ensures !(trace[i].SessionBegan? && trace[j].SessionBegan?)
  {
    Forward(cx, trace, i + 1, j);
    RankAt(cx, trace, i);
    RankAt(cx, trace, j);
  }

  /** Somebody is logged in and no authentication request waits for an answer. */
  predicate Settled(st: State) {
    st.user.Some? && !st.due
  }

  lemma {:induction false} SettledStep(cx: Context, st: State, e: Event)
    requires Allowed(cx, st, e)
    ensures Settled(st) ==> Settled(AfterEvent(st, e))
    ensures 1 <= Rank(AfterEvent(st, e).channel) <= 5 ==> Settled(AfterEvent(st, e)) || 1 <= Rank(st.channel) <= 5
  {
  }

  lemma {:induction false} SettledOnceOpen(cx: Context, trace: seq<Event>)
    requires Lawful(cx, trace) && 1 <= Rank(StateOf(trace).channel) <= 5
    ensures Settled(StateOf(trace))
  {
    if trace != [] {
      LastStep(cx, trace);
      var front := trace[..|trace| - 1];
      SettledStep(cx, StateOf(front), trace[|trace| - 1]);
      if 1 <= Rank(StateOf(front).channel) <= 5 {
        SettledOnceOpen(cx, front);
      }
    }
  }

  lemma {:induction false} StaysSettled(cx: Context, trace: seq<Event>, i: nat, j: nat)
    requires Lawful(cx, trace) && i <= j <= |trace| && Settled(At(trace, i))
    ensures Settled(At(trace, j))
    decreases j - i
  {
    hide AfterEvent, Allowed;
    if i < j {
      StaysSettled(cx, trace, i, j - 1);
      AtNext(trace, j - 1);
      LawfulAt(cx, trace, j - 1);
      SettledStep(cx, At(trace, j - 1), trace[j - 1]);
    }
  }

  /** The server goes on to the next packet, looks at the clock, or returns with success. */
  predicate MovesOn(e: Event) {
    e.Received? || e.ClockRead? || e == Finished(true)
  }

  /** The answer that is still to come: known, or known as soon as the data are taken. */
  function Outstanding(st: State): Option<Message> {
    if st.child.owed.Some? then AdjustAt(WindowLeft(st.window, |st.child.owed.value|)) else st.reply
  }

  /** An answer and data are never due at once. */
  predicate OneThing(st: State) {
    st.child.owed.Some? ==> st.reply.None?
  }

  lemma {:induction false} OneThingStep(cx: Context, st: State, e: Event)
    requires Allowed(cx, st, e) && OneThing(st)
    ensures OneThing(AfterEvent(st, e))
  {
  }

  lemma {:induction false} OneThingAtATime(cx: Context, trace: seq<Event>)
    requires Lawful(cx, trace)
    ensures OneThing(StateOf(trace))
  {
    if trace != [] {
      LastStep(cx, trace);
      OneThingAtATime(cx, trace[..|trace| - 1]);
      OneThingStep(cx, StateOf(trace[..|trace| - 1]), trace[|trace| - 1]);
    }
  }

  lemma {:induction false} ReceivedOutstanding(st: State, p: Bytes)
    ensures Outstanding(AfterEvent(st, Received(p))) == ReplyTo(st, p)
  {
  }

  /** Only the answer itself changes what is outstanding, and it is the answer that was. */
  lemma {:induction false} OutstandingStep(cx: Context, st: State, e: Event)
    requires Allowed(cx, st, e) && OneThing(st) && !e.Received?
    ensures Replies(e) ==> Outstanding(st) == Some(e.msg) && Outstanding(AfterEvent(st, e)).None?
    ensures !Replies(e) ==> Outstanding(AfterEvent(st, e)) == Outstanding(st)
    ensures MovesOn(e) ==> Outstanding(st).None?
  {
  }

  lemma {:induction false} OutstandingAt(cx: Context, trace: seq<Event>, k: nat)
    requires Lawful(cx, trace) && k < |trace| && !trace[k].Received?
    ensures Replies(trace[k]) ==> Outstanding(At(trace, k)) == Some(trace[k].msg) && Outstanding(At(trace, k + 1)).None?
    ensures !Replies(trace[k]) ==> Outstanding(At(trace, k + 1)) == Outstanding(At(trace, k))
  {
    LawfulPrefix(cx, trace, k);
    OneThingAtATime(cx, trace[..k]);
    LawfulAt(cx, trace, k);
    AtNext(trace, k);
    OutstandingStep(cx, At(trace, k), trace[k]);
  }

  /** The events from r to k, both excluded, are about the packet received at r. */
  ghost predicate LastReceived(trace: seq<Event>, r: nat, k: nat) {
    r < k <= |trace| && trace[r].Received? && forall m | r < m < k :: !trace[m].Received?
  }

  /** No answer in between. */
  ghost predicate Silent(trace: seq<Event>, r: nat, k: nat)
    requires k <= |trace|
  {
    forall m | r < m < k :: !Replies(trace[m])
  }

  /** One answer in between, and it is this one. */
  ghost predicate AnsweredBy(trace: seq<Event>, r: nat, k: nat, m: nat, msg: Message)
    requires k <= |trace|
  {
    && r < m < k && Replies(trace[m]) && trace[m].msg == msg
    && forall n | r < n < k && n != m :: !Replies(trace[n])
  }

  /** What has become, up to k, of the packet received at r. */
  lemma {:induction false} AnswerSoFar(cx: Context, trace: seq<Event>, r: nat, k: nat) returns (m: nat)
    requires Lawful(cx, trace) && LastReceived(trace, r, k)
    ensures var due := ReplyTo(At(trace, r), trace[r].payload);
      if due.None? || Outstanding(At(trace, k)).Some? then Silent(trace, r, k) && Outstanding(At(trace, k)) == due
      else AnsweredBy(trace, r, k, m, due.value)
    decreases k
  {
    hide AfterEvent, Allowed;
    m := 0;
    if k == r + 1 {
      AtNext(trace, r);
      ReceivedOutstanding(At(trace, r), trace[r].payload);
    } else {
      m := AnswerSoFar(cx, trace, r, k - 1);
      OutstandingAt(cx, trace, k - 1);
      if Replies(trace[k - 1]) {
        m := k - 1;
      }
    }
  }

  lemma {:induction false} NothingOutstanding(cx: Context, trace: seq<Event>, k: nat)
    requires Lawful(cx, trace) && k < |trace| && MovesOn(trace[k])
    ensures Outstanding(At(trace, k)).None?
  {
    LawfulAt(cx, trace, k);
  }

  /**
   * From each packet to the point where the server moves on, there is exactly one answer if the packet has one, and it is that
   * one; and none if it has not. A server that does not move on fails the connection.
   */
  lemma {:induction false} AnsweredExactly(cx: Context, trace: seq<Event>, r: nat, k: nat) returns (m: nat)
    requires Lawful(cx, trace) && k < |trace| && LastReceived(trace, r, k) && MovesOn(trace[k])
    ensures var due := ReplyTo(At(trace, r), trace[r].payload);
      if due.None? then Silent(trace, r, k) else AnsweredBy(trace, r, k, m, due.value)
  {
    m := AnswerSoFar(cx, trace, r, k);
    NothingOutstanding(cx, trace, k);
  }

  // ----- after a CLOSE -----

  /** Late in the life of a channel, only packets of the peer are answered. */
  lemma {:induction false} LateSend(cx: Context, st: State, m: Message, ok: bool)
    requires Allowed(cx, st, Sent(m, ok)) && Rank(st.channel) >= 5 && Settled(st)
    ensures Replies(Sent(m, ok)) && st.reply == Some(m)
  {
  }

  lemma {:induction false} LateReply(cx: Context, trace: seq<Event>, j: nat)
    requires Lawful(cx, trace) && j < |trace| && trace[j].Sent? && Rank(At(trace, j).channel) >= 5 && Settled(At(trace, j))
    ensures Replies(trace[j]) && At(trace, j).reply == Some(trace[j].msg)
  {
    LawfulAt(cx, trace, j);
    LateSend(cx, At(trace, j), trace[j].msg, trace[j].ok);
  }

  lemma {:induction false} ClosesClear(cx: Context, st: State, e: Event)
    requires Allowed(cx, st, e) && Closes(e)
    ensures Clear(st) && Clear(AfterEvent(st, e))
  {
  }

  /** Something is outstanding only since a packet was received. */
  lemma {:induction false} ReceivedSince(cx: Context, trace: seq<Event>, i: nat, j: nat) returns (r: nat)
    requires Lawful(cx, trace) && i < j <= |trace| && Closes(trace[i]) && !Clear(At(trace, j))
    ensures i < r < j && LastReceived(trace, r, j)
    decreases j
  {
    hide AfterEvent, Allowed, StateOf;
    hide AfterEvent, Allowed;
    ClearBehindClose(cx, trace, i);
    r := j - 1;
    if !trace[j - 1].Received? {
      NotClearBefore(cx, trace, j - 1);
      r := ReceivedSince(cx, trace, i, j - 1);
    }
  }

  lemma {:induction false} ClearBehindClose(cx: Context, trace: seq<Event>, i: nat)
    requires Lawful(cx, trace) && i < |trace| && Closes(trace[i])
    ensures Clear(At(trace, i + 1))
  {
    LawfulAt(cx, trace, i);
    AtNext(trace, i);
    ClosesClear(cx, At(trace, i), trace[i]);
  }

  lemma {:induction false} NotClearBefore(cx: Context, trace: seq<Event>, k: nat)
    requires Lawful(cx, trace) && k < |trace| && !trace[k].Received? && !Clear(At(trace, k + 1))
    ensures !Clear(At(trace, k))
  {
    LawfulAt(cx, trace, k);
    AtNext(trace, k);
    if Clear(At(trace, k)) {
      StaysClear(cx, At(trace, k), trace[k]);
    }
  }

  lemma {:induction false} StaysClear(cx: Context, st: State, e: Event)
    requires Allowed(cx, st, e) && !e.Received? && Clear(st)
    ensures Clear(AfterEvent(st, e))
  {
  }

  /** The packet received last before j, behind i, is the one that is answered at j, and j is the only answer so far. */
  ghost predicate AnswersAt(trace: seq<Event>, i: nat, r: nat, j: nat)
    requires j < |trace|
  {
    && i < r < j && LastReceived(trace, r, j) && Silent(trace, r, j) && trace[j].Sent?
    && ReplyTo(At(trace, r), trace[r].payload) == Some(trace[j].msg)
  }

  /**
   * After a CLOSE was sent, or was tried, no session begins, and whatever is still sent is the one answer to the packet
   * received last, which came in behind the CLOSE. AnsweredExactly says that each such packet gets its answer.
   */
  lemma {:induction false} NothingAfterClose(cx: Context, trace: seq<Event>, i: nat, j: nat)
    requires Lawful(cx, trace) && i < j < |trace| && Closes(trace[i])
    ensures !trace[j].SessionBegan?
    ensures trace[j].Sent? ==> exists r :: AnswersAt(trace, i, r, j)
  {
    Forward(cx, trace, i + 1, j);
    RankAt(cx, trace, i);
    RankAt(cx, trace, j);
    if trace[j].Sent? {
      RepliesAfterClose(cx, trace, i, j);
      OutstandingAt(cx, trace, j);
      var r := ReceivedSince(cx, trace, i, j);
      var m := AnswerSoFar(cx, trace, r, j);
      assert AnswersAt(trace, i, r, j);
    }
  }

  /** From a packet behind a CLOSE to the point where the server moves on: what is sent is its answer, and nothing else. */
  ghost predicate SentOnly(trace: seq<Event>, r: nat, k: nat, due: Option<Message>)
    requires k <= |trace|
  {
    if due.None? then forall m | r < m < k :: !trace[m].Sent?
    else exists m :: r < m < k && trace[m].Sent? && trace[m].msg == due.value && forall n | r < n < k && n != m :: !trace[n].Sent?
  }

  /** A packet that comes in after the CLOSE is answered if and only if ReplyTo gives an answer, with that and nothing else. */
  lemma {:induction false} AfterCloseExactly(cx: Context, trace: seq<Event>, i: nat, r: nat, k: nat)
    requires Lawful(cx, trace) && k < |trace| && LastReceived(trace, r, k) && MovesOn(trace[k]) && i < r && Closes(trace[i])
    ensures SentOnly(trace, r, k, ReplyTo(At(trace, r), trace[r].payload))
  {
    var m := AnsweredExactly(cx, trace, r, k);
    forall n | r < n < k && trace[n].Sent?
      ensures Replies(trace[n])
    {
      RepliesAfterClose(cx, trace, i, n);
    }
  }

  lemma {:induction false} RepliesAfterClose(cx: Context, trace: seq<Event>, i: nat, j: nat)
    requires Lawful(cx, trace) && i < j < |trace| && Closes(trace[i]) && trace[j].Sent?
    ensures Replies(trace[j]) && At(trace, j).reply == Some(trace[j].msg)
  {
    Forward(cx, trace, i + 1, j);
    RankAt(cx, trace, i);
    LawfulPrefix(cx, trace, i);
    SettledOnceOpen(cx, trace[..i]);
    StaysSettled(cx, trace, i, j);
    LateReply(cx, trace, j);
  }

  /** Behind a CLOSE that was sent, and below the deadline if one is set. */
  predicate InDrain(st: State) {
    st.channel == Closed && !st.done && !st.drain.expired && MayReceive(st)
  }

  lemma {:induction false} RequestAnswered(cx: Context, trace: seq<Event>, st: State, p: Bytes, m: Message, ok: bool)
    returns (next: seq<Event>)
    requires Lawful(cx, trace) && st == StateOf(trace) && InDrain(st) && m.Fits()
    requires DataFor(p, false).None? && RequestReply(p, st.user.Some?, false) == Some(m)
    ensures Lawful(cx, next) && next == trace + [Received(p)] + [Sent(m, ok)]
  {
    var s;
    next, s := Extended(cx, trace, st, Received(p));
    RequestPosed(st, p);
    next, s := Extended(cx, next, s, Sent(m, ok));
  }

  lemma {:induction false} RequestPosed(st: State, p: Bytes)
    requires InDrain(st) && DataFor(p, false).None?
    ensures var s := AfterEvent(st, Received(p));
      s.reply == RequestReply(p, st.user.Some?, false) && !s.done && !s.drain.expired
  {
  }

  lemma {:induction false} DataAnswered(cx: Context, trace: seq<Event>, st: State, p: Bytes, ok: bool) returns (next: seq<Event>)
    requires Lawful(cx, trace) && st == StateOf(trace) && InDrain(st)
    requires DataFor(p, false).Some? && WindowLeft(st.window, |DataFor(p, false).value|) <= WINDOW_SIZE
    ensures Lawful(cx, next)
    ensures next == trace + [Received(p)] + [Dropped(DataFor(p, false).value)] + [Sent(Adjust(0, WINDOW_BUMP), ok)]
  {
    var s;
    next, s := Extended(cx, trace, st, Received(p));
    DataPosed(st, p);
    next, s := Extended(cx, next, s, Dropped(DataFor(p, false).value));
    next, s := Extended(cx, next, s, Sent(Adjust(0, WINDOW_BUMP), ok));
  }

  lemma {:induction false} DataPosed(st: State, p: Bytes)
    requires InDrain(st) && DataFor(p, false).Some? && WindowLeft(st.window, |DataFor(p, false).value|) <= WINDOW_SIZE
    ensures var s := AfterEvent(st, Received(p));
      && s.child.owed == DataFor(p, false) && s.channel == Closed && !s.done && !s.drain.expired
      && var t := AfterEvent(s, Dropped(DataFor(p, false).value));
      && t.reply == Some(Adjust(0, WINDOW_BUMP)) && !t.done && !t.drain.expired
  {
  }

  lemma {:induction false} ReplyFits(p: Bytes, loggedIn: bool, inSession: bool)
    ensures var m := RequestReply(p, loggedIn, inSession); m.Some? ==> m.value.Fits()
  {
  }

  /** Every packet that ReplyTo has an answer for can come in behind a CLOSE, and is answered. */
  lemma {:induction false} DrainAnswers(cx: Context, trace: seq<Event>, p: Bytes, m: Message, ok: bool) returns (next: seq<Event>)
    requires Lawful(cx, trace) && InDrain(StateOf(trace)) && ReplyTo(StateOf(trace), p) == Some(m)
    ensures Lawful(cx, next) && trace + [Received(p)] <= next && next[|next| - 1] == Sent(m, ok)
  {
    if DataFor(p, false).Some? {
      next := DataAnswered(cx, trace, StateOf(trace), p, ok);
    } else {
      ReplyFits(p, StateOf(trace).user.Some?, false);
      next := RequestAnswered(cx, trace, StateOf(trace), p, m, ok);
    }
  }

  lemma {:induction false} Extended(cx: Context, trace: seq<Event>, st: State, e: Event) returns (next: seq<Event>, s: State)
    requires Lawful(cx, trace) && st == StateOf(trace) && Allowed(cx, st, e)
    ensures next == trace + [e] && Lawful(cx, next) && s == AfterEvent(st, e) == StateOf(next)
  {
    LawfulGrows(cx, trace, e);
    next, s := trace + [e], AfterEvent(st, e);
  }

  // A login, a channel that the client closes at once, and the drain, step by step.

  lemma {:induction false} Tried(cx: Context) returns (trace: seq<Event>, st: State)
    ensures Lawful(cx, trace) && st == StateOf(trace) == Initial().(due := true, count := st.count)
  {
    trace, st := Extended(cx, [], Initial(), AuthTried);
  }

  lemma {:induction false} Approved(cx: Context, user: Bytes, key: Digest) returns (trace: seq<Event>, st: State)
    ensures Lawful(cx, trace)
    ensures st == StateOf(trace) == Initial().(due := true, approved := Some(Approval(user, key)), count := st.count)
  {
    trace, st := Tried(cx);
    trace, st := Extended(cx, trace, st, Asked(user, key, true));
  }

  ghost predicate Verifies(cx: Context, user: Bytes, key: Digest, signature: Signature) {
    && 1 <= |user| <= UserAuth.MAX_USERNAME_LEN
    && cx.suite.edVerify(key, UserAuth.ToSign(cx.sessionId, UserAuth.Request(user, 1, key)), signature)
  }

  lemma {:induction false} LoggedIn(cx: Context, user: Bytes, key: Digest, signature: Signature) returns (trace: seq<Event>, st: State)
    requires Verifies(cx, user, key, signature)
    ensures Lawful(cx, trace)
    ensures st == StateOf(trace)
         == Initial().(due := true, approved := Some(Approval(user, key)), user := Some(user), count := st.count)
  {
    trace, st := Approved(cx, user, key);
    trace, st := Extended(cx, trace, st, Login(user, key, signature));
  }

  lemma {:induction false} Welcomed(cx: Context, user: Bytes, key: Digest, signature: Signature) returns (trace: seq<Event>, st: State)
    requires Verifies(cx, user, key, signature)
    ensures Lawful(cx, trace)
    ensures st == StateOf(trace) == Initial().(approved := Some(Approval(user, key)), user := Some(user), count := st.count)
  {
    trace, st := LoggedIn(cx, user, key, signature);
    trace, st := Extended(cx, trace, st, Sent(AuthSuccess, true));
  }

  /** CHANNEL_OPEN for a session, as a client with nothing to receive may send it. */
  function OpenPayload(): Bytes {
    [MSG_CHANNEL_OPEN] + Str(Ascii("session")) + U32(0) + U32(0) + U32(32768)
  }

  lemma {:induction false} AsksToOpen(cx: Context, user: Bytes, key: Digest, signature: Signature) returns (trace: seq<Event>, st: State)
    requires Verifies(cx, user, key, signature)
    ensures Lawful(cx, trace)
    ensures st == StateOf(trace)
         == Initial().(approved := Some(Approval(user, key)), user := Some(user), last := OpenPayload(), handled := false,
                       count := st.count)
  {
    trace, st := Welcomed(cx, user, key, signature);
    trace, st := Extended(cx, trace, st, Received(OpenPayload()));
  }

  lemma {:induction false} Opened(cx: Context, user: Bytes, key: Digest, signature: Signature)
    returns (trace: seq<Event>, st: State)
    requires Verifies(cx, user, key, signature)
    ensures Lawful(cx, trace)
    ensures st == StateOf(trace)
         == Initial().(approved := Some(Approval(user, key)), user := Some(user), channel := Open, window := WINDOW_SIZE,
                       last := OpenPayload(), handled := false, count := st.count)
  {
    trace, st := AsksToOpen(cx, user, key, signature);
    trace, st := Extended(cx, trace, st, Sent(OpenConfirm(0, 0, WINDOW_SIZE, 32768), true));
  }

  lemma {:induction false} CloseReads()
    ensures IsClose(Close(0).Payload(), 0)
  {
    U32AtOf([MSG_CHANNEL_CLOSE], 0, []);
    assert [MSG_CHANNEL_CLOSE] + U32(0) + [] == Close(0).Payload();
  }

  /** The channel is closed, with the client's CLOSE received last. */
  ghost predicate JustClosed(st: State) {
    && st.channel == Closed && Clear(st) && !st.done && st.window == WINDOW_SIZE && st.user.Some?
    && st.drain == Drain(0, None, false, 0)
  }

  lemma {:induction false} PeerCloses(cx: Context, user: Bytes, key: Digest, signature: Signature)
    returns (trace: seq<Event>, st: State)
    requires Verifies(cx, user, key, signature)
    ensures Lawful(cx, trace) && st == StateOf(trace)
    ensures JustClosed(st.(channel := Closed)) && st.channel == Open && st.child.pending == [] && st.peer == 0
    ensures st.last == Close(0).Payload()
  {
    trace, st := Opened(cx, user, key, signature);
    CloseReads();
    trace, st := Extended(cx, trace, st, Received(Close(0).Payload()));
  }

  lemma {:induction false} Closing(cx: Context, user: Bytes, key: Digest, signature: Signature)
    returns (trace: seq<Event>, st: State, i: nat)
    requires Verifies(cx, user, key, signature)
    ensures Lawful(cx, trace) && st == StateOf(trace) && JustClosed(st) && i < |trace| && Closes(trace[i])
  {
    trace, st := PeerCloses(cx, user, key, signature);
    CloseReads();
    i := |trace|;
    trace, st := Extended(cx, trace, st, Sent(Close(0), true));
  }

  lemma {:induction false} DrainBegins(cx: Context, trace: seq<Event>, st: State) returns (next: seq<Event>, s: State)
    requires Lawful(cx, trace) && st == StateOf(trace) && JustClosed(st)
    ensures Lawful(cx, next) && trace <= next && s == StateOf(next)
    ensures JustClosed(s.(drain := Drain(0, None, false, 0))) && s.drain == Drain(10000, None, false, 0)
  {
    hide StateOf;
    next, s := Extended(cx, trace, st, ClockRead(0));
    next, s := Extended(cx, next, s, DeadlineSet(10000));
  }

  /** The client closes its channel at once, and the drain has begun. */
  lemma {:induction false} Drained(cx: Context, user: Bytes, key: Digest, signature: Signature)
    returns (trace: seq<Event>, i: nat)
    requires Verifies(cx, user, key, signature)
    ensures Lawful(cx, trace) && InDrain(StateOf(trace)) && StateOf(trace).window == WINDOW_SIZE
    ensures i < |trace| && Closes(trace[i])
  {
    var st;
    trace, st, i := Closing(cx, user, key, signature);
    trace, st := DrainBegins(cx, trace, st);
    trace, st := Extended(cx, trace, st, ClockRead(1));
  }

  /** A lawful trace in which a window adjustment follows a CLOSE, for any user whose key verifies. */
  lemma {:induction false} AdjustAfterClose(cx: Context, user: Bytes, key: Digest, signature: Signature)
    returns (trace: seq<Event>, i: nat, j: nat)
    requires Verifies(cx, user, key, signature)
    ensures Lawful(cx, trace) && i < j < |trace| && Closes(trace[i]) && trace[j] == Sent(Adjust(0, WINDOW_BUMP), true)
  {
    hide AfterEvent, Allowed, StateOf;
    trace, i := Drained(cx, user, key, signature);
    DataReads(0, []);
    trace := DrainAnswers(cx, trace, Data(0, []).Payload(), Adjust(0, WINDOW_BUMP), true);
    j := |trace| - 1;
  }

  lemma {:induction false} OpenedBy(cx: Context, st: State, e: Event)
    requires Allowed(cx, st, e) && 1 <= Rank(AfterEvent(st, e).channel) <= 5
    ensures (Confirms(e) && e.ok) || 1 <= Rank(st.channel) <= 5
  {
  }

  lemma {:induction false} ReachedOpen(cx: Context, trace: seq<Event>, k: nat) returns (i: nat)
    requires Lawful(cx, trace) && k <= |trace| && 1 <= Rank(At(trace, k).channel) <= 5
    ensures i < k && Confirms(trace[i]) && trace[i].ok
  {
    assert k > 0;
    AtNext(trace, k - 1);
    LawfulAt(cx, trace, k - 1);
    OpenedBy(cx, At(trace, k - 1), trace[k - 1]);
    if Confirms(trace[k - 1]) && trace[k - 1].ok {
      i := k - 1;
    } else {
      i := ReachedOpen(cx, trace, k - 1);
    }
  }

  lemma {:induction false} ClosableIsOpen(cx: Context, st: State, e: Event)
    requires Allowed(cx, st, e) && (Closes(e) || Speaks(e) || e.SessionBegan?)
    ensures 1 <= Rank(st.channel) <= 5
  {
  }

  /** A CLOSE, and any data, EOF, exit status or session, comes only after a confirmation that was sent. */
  lemma {:induction false} ConfirmedBefore(cx: Context, trace: seq<Event>, k: nat)
    requires Lawful(cx, trace) && k < |trace|
    requires Closes(trace[k]) || Speaks(trace[k]) || trace[k].SessionBegan?
    ensures exists i :: 0 <= i < k && Confirms(trace[i]) && trace[i].ok
  {
    LawfulAt(cx, trace, k);
    ClosableIsOpen(cx, At(trace, k), trace[k]);
    var i := ReachedOpen(cx, trace, k);
  }

  // ----- how a session may end -----

  /** The three messages of an orderly end, in order. */
  ghost predicate OrderlyEnd(trace: seq<Event>, k: nat) {
    exists a, b, c :: 0 <= a < b < c < k <= |trace|
      && trace[a].Sent? && trace[a].msg.ExitStatus? && trace[a].ok
      && trace[b].Sent? && trace[b].msg.Eof? && trace[b].ok
      && Closes(trace[c]) && trace[c].ok
  }

  /** A CLOSE that answers the peer's: the packet last received before it was a CLOSE for this channel. */
  ghost predicate AnsweredClose(trace: seq<Event>, k: nat) {
    exists c :: 0 <= c < k <= |trace| && Closes(trace[c]) && trace[c].ok && IsClose(At(trace, c).last, 0)
  }

  lemma {:induction false} MovedBy(cx: Context, st: State, e: Event)
    requires Allowed(cx, st, e)
    ensures var c := AfterEvent(st, e).channel;
      c != st.channel ==> match c
        case StatusSent => e.Sent? && e.msg.ExitStatus? && e.ok
        case EofSent => e.Sent? && e.msg.Eof? && e.ok && st.channel == StatusSent
        case Closed => Closes(e) && e.ok && (st.channel == EofSent || IsClose(st.last, 0))
        case _ => true
  {
  }

  lemma {:induction false} MovedAt(cx: Context, trace: seq<Event>, k: nat)
    requires Lawful(cx, trace) && k < |trace|
    ensures var c, d, e := At(trace, k).channel, At(trace, k + 1).channel, trace[k];
      d != c ==> match d
        case StatusSent => e.Sent? && e.msg.ExitStatus? && e.ok
        case EofSent => e.Sent? && e.msg.Eof? && e.ok && c == StatusSent
        case Closed => Closes(e) && e.ok && (c == EofSent || IsClose(At(trace, k).last, 0))
        case _ => true
  {
    AtNext(trace, k);
    LawfulAt(cx, trace, k);
    MovedBy(cx, At(trace, k), trace[k]);
  }

  lemma {:induction false} ReachedStatus(cx: Context, trace: seq<Event>, k: nat) returns (a: nat)
    requires Lawful(cx, trace) && k <= |trace| && At(trace, k).channel == StatusSent
    ensures a < k && trace[a].Sent? && trace[a].msg.ExitStatus? && trace[a].ok
  {
    assert k > 0;
    MovedAt(cx, trace, k - 1);
    if At(trace, k - 1).channel == StatusSent {
      a := ReachedStatus(cx, trace, k - 1);
    } else {
      a := k - 1;
    }
  }

  lemma {:induction false} ReachedEof(cx: Context, trace: seq<Event>, k: nat) returns (b: nat)
    requires Lawful(cx, trace) && k <= |trace| && At(trace, k).channel == EofSent
    ensures b < k && trace[b].Sent? && trace[b].msg.Eof? && trace[b].ok && At(trace, b).channel == StatusSent
  {
    hide AfterEvent, Allowed;
    assert k > 0;
    MovedAt(cx, trace, k - 1);
    if At(trace, k - 1).channel == EofSent {
      b := ReachedEof(cx, trace, k - 1);
    } else {
      b := k - 1;
    }
  }

  lemma {:induction false} ReachedClosed(cx: Context, trace: seq<Event>, k: nat)
    requires Lawful(cx, trace) && k <= |trace| && At(trace, k).channel == Closed
    ensures OrderlyEnd(trace, k) || AnsweredClose(trace, k)
  {
    hide AfterEvent, Allowed;
    assert k > 0;
    MovedAt(cx, trace, k - 1);
    if At(trace, k - 1).channel == Closed {
      ReachedClosed(cx, trace, k - 1);
    } else if At(trace, k - 1).channel == EofSent {
      var b := ReachedEof(cx, trace, k - 1);
      var a := ReachedStatus(cx, trace, b);
    }
  }

  /** A session ends cleanly only after exit status, EOF and CLOSE, in this order, or after answering the peer's CLOSE. */
  lemma {:induction false} CleanEnd(cx: Context, trace: seq<Event>, k: nat)
    requires Lawful(cx, trace) && k < |trace| && trace[k] == SessionEnded(true)
    ensures OrderlyEnd(trace, k) || AnsweredClose(trace, k)
  {
    LawfulAt(cx, trace, k);
    ReachedClosed(cx, trace, k);
  }

  // ----- who a session runs for -----

  lemma {:induction false} ApprovedBy(st: State, e: Event)
    ensures var a := AfterEvent(st, e).approved;
      a.Some? && a != st.approved ==> e == Asked(a.value.user, a.value.key, true)
  {
  }

  lemma {:induction false} StoredBy(st: State, e: Event)
    ensures var u := AfterEvent(st, e).user;
      u.Some? && u != st.user ==> e.Login? && e.user == u.value
  {
  }

  lemma {:induction false} WasApproved(trace: seq<Event>, k: nat, a: Approval) returns (i: nat)
    requires k <= |trace| && At(trace, k).approved == Some(a)
    ensures i < k && trace[i] == Asked(a.user, a.key, true)
  {
    assert k > 0;
    AtNext(trace, k - 1);
    ApprovedBy(At(trace, k - 1), trace[k - 1]);
    if At(trace, k - 1).approved == Some(a) {
      i := WasApproved(trace, k - 1, a);
    } else {
      i := k - 1;
    }
  }

  lemma {:induction false} WasStored(trace: seq<Event>, k: nat, user: Bytes) returns (j: nat)
    requires k <= |trace| && At(trace, k).user == Some(user)
    ensures j < k && trace[j].Login? && trace[j].user == user
  {
    assert k > 0;
    AtNext(trace, k - 1);
    StoredBy(At(trace, k - 1), trace[k - 1]);
    if At(trace, k - 1).user == Some(user) {
      j := WasStored(trace, k - 1, user);
    } else {
      j := k - 1;
    }
  }

  /** The callback approved this user with a key, and that key verified a signature of this user's request in this session. */
  ghost predicate Authorised(cx: Context, trace: seq<Event>, k: nat, user: Bytes) {
    exists i, j :: 0 <= i < j < k <= |trace| && trace[j].Login? && trace[j].user == user
      && trace[i] == Asked(user, trace[j].key, true) && |user| <= UserAuth.MAX_USERNAME_LEN
      && cx.suite.edVerify(trace[j].key, UserAuth.ToSign(cx.sessionId, UserAuth.Request(user, 1, trace[j].key)),
                           trace[j].signature)
  }

  /** A session runs only for a user who was approved and whose key verified over this session's id. */
  lemma {:induction false} SessionIsAuthorised(cx: Context, trace: seq<Event>, k: nat)
    requires Lawful(cx, trace) && k < |trace| && trace[k].SessionBegan?
    ensures Authorised(cx, trace, k, trace[k].user)
  {
    LawfulAt(cx, trace, k);
    var j := WasStored(trace, k, trace[k].user);
    LawfulAt(cx, trace, j);
    var i := WasApproved(trace, j, Approval(trace[j].user, trace[j].key));
  }

  /** The stored user never changes: there is at most one login. */
  lemma {:induction false} OneLogin(cx: Context, trace: seq<Event>, i: nat, j: nat)
    requires Lawful(cx, trace) && i < j < |trace|
    ensures !(trace[i].Login? && trace[j].Login?)
  {
    LawfulAt(cx, trace, j);
    AtNext(trace, i);
    Forward(cx, trace, i + 1, j);
  }

  function CountTries(trace: seq<Event>): nat {
    if trace == [] then 0
    else CountTries(trace[..|trace| - 1]) + (if trace[|trace| - 1].AuthTried? then 1 else 0)
  }

  lemma {:induction false} TriesCounted(trace: seq<Event>)
    ensures StateOf(trace).count.tries == CountTries(trace)
  {
    if trace != [] {
      TriesCounted(trace[..|trace| - 1]);
      CountStep(StateOf(trace[..|trace| - 1]), trace[|trace| - 1]);
    }
  }

  /** At most six authentication requests are ever processed. */
  lemma {:induction false} AtMostSixTries(cx: Context, trace: seq<Event>)
    requires Lawful(cx, trace)
    ensures CountTries(trace) <= 6
  {
    if trace != [] {
      LastStep(cx, trace);
      AtMostSixTries(cx, trace[..|trace| - 1]);
      TriesCounted(trace[..|trace| - 1]);
    }
  }

  /** Packets that were sent. */
  function CountSent(trace: seq<Event>): nat {
    if trace == [] then 0
    else
      var e := trace[|trace| - 1];
      CountSent(trace[..|trace| - 1]) + (if e.Sent? && e.ok then 1 else 0)
  }

  lemma {:induction false} PacketsCounted(trace: seq<Event>)
    ensures StateOf(trace).count.packets == CountSent(trace)
  {
    if trace != [] {
      PacketsCounted(trace[..|trace| - 1]);
      CountStep(StateOf(trace[..|trace| - 1]), trace[|trace| - 1]);
    }
  }

  lemma {:induction false} CountStep(st: State, e: Event)
    ensures AfterEvent(st, e).count.packets == st.count.packets + (if e.Sent? && e.ok then 1 else 0)
    ensures AfterEvent(st, e).count.tries == st.count.tries + (if e.AuthTried? then 1 else 0)
  {
  }

  // ----- session data are conserved -----

  /** Everything read from the child. */
  function Said(trace: seq<Event>): Bytes {
    if trace == [] then []
    else
      var e := trace[|trace| - 1];
      Said(trace[..|trace| - 1]) + (if e.ChildSaid? then e.data else [])
  }

  /** Everything put into data packets; a packet that could not be sent is the last one. */
  function DataSent(trace: seq<Event>): Bytes {
    if trace == [] then []
    else
      var e := trace[|trace| - 1];
      DataSent(trace[..|trace| - 1]) + (if e.Sent? && e.msg.Data? then e.msg.data else [])
  }

  /** Everything received for the child while the session runs. */
  function DataReceived(trace: seq<Event>): Bytes {
    if trace == [] then []
    else
      var front, e := trace[..|trace| - 1], trace[|trace| - 1];
      DataReceived(front) + (
        if e.Received? && StateOf(front).channel == InSession && ReadData(e.payload, 0).Some?
        then ReadData(e.payload, 0).value else [])
  }

  /** The data of channel packets that were written to the child. */
  function Fed(trace: seq<Event>): Bytes {
    if trace == [] then []
    else
      var e := trace[|trace| - 1];
      Fed(trace[..|trace| - 1]) + (if e.ChildFed? then e.data else [])
  }

  /** The window at the start of the session and everything added to it since. */
  function Credit(trace: seq<Event>): nat {
    if trace == [] then 0
    else
      var e := trace[|trace| - 1];
      Credit(trace[..|trace| - 1]) + (if e.SessionBegan? then e.window else if e.Credited? then e.amount else 0)
  }

  /** What the child says goes into data packets, all of it, in order, and nothing else: at most the last chunk is still in hand. */
  lemma {:induction false} OutputConserved(cx: Context, trace: seq<Event>)
    requires Lawful(cx, trace)
    ensures Said(trace) == DataSent(trace) + StateOf(trace).child.pending
  {
    if trace != [] {
      LastStep(cx, trace);
      OutputConserved(cx, trace[..|trace| - 1]);
      OutputStep(cx, StateOf(trace[..|trace| - 1]), trace[|trace| - 1], Said(trace[..|trace| - 1]), DataSent(trace[..|trace| - 1]));
    }
  }

  lemma {:induction false} OutputStep(cx: Context, st: State, e: Event, said: Bytes, sent: Bytes)
    requires Allowed(cx, st, e) && said == sent + st.child.pending
    ensures said + (if e.ChildSaid? then e.data else [])
         == sent + (if e.Sent? && e.msg.Data? then e.msg.data else []) + AfterEvent(st, e).child.pending
  {
    PendingBy(cx, st, e);
  }

  lemma {:induction false} PendingBy(cx: Context, st: State, e: Event)
    requires Allowed(cx, st, e)
    ensures e.ChildSaid? ==> st.child.pending == [] && AfterEvent(st, e).child.pending == e.data
    ensures e.Sent? && e.msg.Data? ==> st.child.pending == e.msg.data && AfterEvent(st, e).child.pending == []
    ensures !e.ChildSaid? && !(e.Sent? && e.msg.Data?) ==> AfterEvent(st, e).child.pending == st.child.pending
  {
  }

  /** When a session has ended, however it ended, everything read from the child has gone into data packets. */
  lemma {:induction false} OutputComplete(cx: Context, trace: seq<Event>, k: nat)
    requires Lawful(cx, trace) && k < |trace| && trace[k].SessionEnded?
    ensures Said(trace[..k]) == DataSent(trace[..k])
  {
    LawfulPrefix(cx, trace, k);
    OutputConserved(cx, trace[..k]);
    LawfulAt(cx, trace, k);
  }

  /** A data packet, EOF or exit status that could not be sent is the last of its kind: nothing of the sort follows it. */
  lemma {:induction false} FailedIsLast(cx: Context, trace: seq<Event>, i: nat, j: nat)
    requires Lawful(cx, trace) && i < j < |trace| && Speaks(trace[i]) && !trace[i].ok
    ensures !Speaks(trace[j]) && !Closes(trace[j])
  {
    Forward(cx, trace, i + 1, j);
    RankAt(cx, trace, i);
    RankAt(cx, trace, j);
  }

  function Owed(st: State): Bytes {
    if st.channel == InSession && st.child.owed.Some? then st.child.owed.value else []
  }

  /** While a session runs, what was received for the child has been written to it, but for the packet in hand. */
  lemma {:induction false} InputConserved(cx: Context, trace: seq<Event>)
    requires Lawful(cx, trace)
    ensures Rank(StateOf(trace).channel) <= 2 ==> DataReceived(trace) == Fed(trace) + Owed(StateOf(trace))
  {
    if trace != [] {
      LastStep(cx, trace);
      StepForward(cx, StateOf(trace[..|trace| - 1]), trace[|trace| - 1]);
      InputConserved(cx, trace[..|trace| - 1]);
      if Rank(StateOf(trace).channel) <= 2 {
        InputStep(cx, StateOf(trace[..|trace| - 1]), trace[|trace| - 1], DataReceived(trace[..|trace| - 1]), Fed(trace[..|trace| - 1]));
      }
    }
  }

  lemma {:induction false} InputStep(cx: Context, st: State, e: Event, received: Bytes, fed: Bytes)
    requires Allowed(cx, st, e) && received == fed + Owed(st)
    requires Rank(AfterEvent(st, e).channel) <= 2
    ensures received + (if e.Received? && st.channel == InSession && ReadData(e.payload, 0).Some?
                        then ReadData(e.payload, 0).value else [])
         == fed + (if e.ChildFed? then e.data else []) + Owed(AfterEvent(st, e))
  {
  }

  lemma {:induction false} NothingOwedAtEnd(cx: Context, st: State, e: Event)
    requires Allowed(cx, st, e) && st.channel == InSession && e.Sent? && (e.msg.ExitStatus? || e.msg.Close?)
    ensures Owed(st) == []
  {
  }

  // ----- what was really written to the child -----

  lemma {:induction false} WrittenStep(cx: Context, st: State, e: Event)
    requires Allowed(cx, st, e)
    ensures AfterEvent(st, e).child.written
         == st.child.written + (if e.ChildFed? then e.data else if e.EotFed? then [4] else [])
    ensures AfterEvent(st, e).child.eots == st.child.eots + (if e.EotFed? then 1 else 0)
    ensures e.EotFed? ==> st.child.pty && IsChannelEnd(st.last, 0) && !IsClose(st.last, 0) && st.channel == InSession
  {
  }

  /** The bytes written are the data of the packets, and a byte 4 for each EOF that was passed on to a terminal. */
  lemma {:induction false} WrittenCounted(cx: Context, trace: seq<Event>)
    requires Lawful(cx, trace)
    ensures |StateOf(trace).child.written| == |Fed(trace)| + StateOf(trace).child.eots
    ensures StateOf(trace).child.eots == 0 ==> StateOf(trace).child.written == Fed(trace)
  {
    if trace != [] {
      LastStep(cx, trace);
      WrittenCounted(cx, trace[..|trace| - 1]);
      WrittenStep(cx, StateOf(trace[..|trace| - 1]), trace[|trace| - 1]);
    }
  }

  /** An EOF was received while a session with a terminal ran. */
  ghost predicate TerminalGotEof(trace: seq<Event>) {
    exists k :: 0 <= k < |trace| && At(trace, k).channel == InSession && At(trace, k).child.pty
      && IsChannelEnd(At(trace, k).last, 0) && !IsClose(At(trace, k).last, 0)
  }

  lemma {:induction false} EotNeedsEof(cx: Context, trace: seq<Event>)
    requires Lawful(cx, trace) && StateOf(trace).child.eots > 0
    ensures TerminalGotEof(trace)
  {
    hide IsChannelEnd, IsClose, AfterEvent;
    if trace != [] {
      LastStep(cx, trace);
      var n := |trace| - 1;
      WrittenStep(cx, StateOf(trace[..n]), trace[n]);
      assert At(trace, n) == StateOf(trace[..n]);
      if StateOf(trace[..n]).child.eots > 0 {
        EotNeedsEof(cx, trace[..n]);
        var k :| 0 <= k < n && At(trace[..n], k).channel == InSession && At(trace[..n], k).child.pty
          && IsChannelEnd(At(trace[..n], k).last, 0) && !IsClose(At(trace[..n], k).last, 0);
        assert trace[..n][..k] == trace[..k];
        assert At(trace, k) == At(trace[..n], k);
      }
    }
  }

  /** What was written is what was received, exactly while no byte 4 was written; and that takes a terminal and an EOF. */
  lemma {:induction false} WrittenIsFed(cx: Context, trace: seq<Event>)
    requires Lawful(cx, trace)
    ensures StateOf(trace).child.written == Fed(trace) <==> StateOf(trace).child.eots == 0
    ensures !TerminalGotEof(trace) ==> StateOf(trace).child.written == Fed(trace)
  {
    WrittenCounted(cx, trace);
    if StateOf(trace).child.eots > 0 {
      EotNeedsEof(cx, trace);
    }
  }

  /** While a session runs, what was received is what was written and the packet in hand, unless a terminal has got an EOF. */
  lemma {:induction false} InputWritten(cx: Context, trace: seq<Event>)
    requires Lawful(cx, trace) && Rank(StateOf(trace).channel) <= 2
    ensures var child := StateOf(trace).child;
      && (child.eots == 0 <==> DataReceived(trace) == child.written + Owed(StateOf(trace)))
      && (!TerminalGotEof(trace) ==> child.eots == 0)
  {
    InputConserved(cx, trace);
    WrittenIsFed(cx, trace);
    WrittenCounted(cx, trace);
    if StateOf(trace).child.eots > 0 {
      EotNeedsEof(cx, trace);
    }
  }

  /**
   * When the exit status is sent, or the peer's CLOSE answered, all that was received has been written to the child; and
   * nothing else was, exactly unless a byte 4 was passed on to a terminal for an EOF.
   */
  lemma {:induction false} InputComplete(cx: Context, trace: seq<Event>, k: nat)
    requires Lawful(cx, trace) && k < |trace| && At(trace, k).channel == InSession
    requires trace[k].Sent? && (trace[k].msg.ExitStatus? || trace[k].msg.Close?)
    ensures DataReceived(trace[..k]) == Fed(trace[..k])
    ensures DataReceived(trace[..k]) == At(trace, k).child.written <==> At(trace, k).child.eots == 0
    ensures !TerminalGotEof(trace[..k]) ==> At(trace, k).child.eots == 0
  {
    LawfulAt(cx, trace, k);
    LawfulPrefix(cx, trace, k);
    InputConserved(cx, trace[..k]);
    NothingOwedAtEnd(cx, At(trace, k), trace[k]);
    WrittenIsFed(cx, trace[..k]);
    if At(trace, k).child.eots > 0 {
      EotNeedsEof(cx, trace[..k]);
    }
  }

  // ----- the child's end -----

  /** A status that was sent is reported for a child whose output had ended. */
  ghost predicate StatusReported(st: State) {
    st.status.Some? ==> st.child.ended && Reports(st.child.exited, st.status.value)
  }

  lemma {:induction false} StatusIsExit(cx: Context, trace: seq<Event>)
    requires Lawful(cx, trace)
    ensures StatusReported(StateOf(trace))
  {
    if trace != [] {
      LastStep(cx, trace);
      StatusIsExit(cx, trace[..|trace| - 1]);
      StatusStep(cx, StateOf(trace[..|trace| - 1]), trace[|trace| - 1]);
    }
  }

  lemma {:induction false} StatusStep(cx: Context, st: State, e: Event)
    requires Allowed(cx, st, e) && StatusReported(st)
    ensures StatusReported(AfterEvent(st, e))
  {
  }

  /**
   * The child's output ended, after all that was read of it, and the child was reaped; the code is the byte it exited with, or
   * 128 and the signal that ended it.
   */
  ghost predicate ChildDone(trace: seq<Event>, code: uint32) {
    && (exists i :: 0 <= i < |trace| && trace[i] == ChildEnded && Said(trace[..i]) == Said(trace))
    && (exists e :: e in trace && e.ChildExited?)
    && (forall c: byte :: ChildExited(Exited(c)) in trace ==> code == c)
    && (forall n: byte :: ChildExited(Signalled(n)) in trace ==> code == 128 + n)
  }

  lemma {:induction false} ChildStep(cx: Context, st: State, e: Event)
    requires Allowed(cx, st, e)
    ensures st.child.ended ==> AfterEvent(st, e).child.ended && !e.ChildSaid? && !e.ChildEnded?
    ensures AfterEvent(st, e).child.ended && !st.child.ended ==> e.ChildEnded?
  {
  }

  lemma {:induction false} WasEnded(cx: Context, trace: seq<Event>) returns (i: nat)
    requires Lawful(cx, trace) && StateOf(trace).child.ended
    ensures i < |trace| && trace[i] == ChildEnded && Said(trace[..i]) == Said(trace)
  {
    var n := |trace| - 1;
    LastStep(cx, trace);
    ChildStep(cx, StateOf(trace[..n]), trace[n]);
    if StateOf(trace[..n]).child.ended {
      i := WasEnded(cx, trace[..n]);
      assert trace[..n][..i] == trace[..i];
    } else {
      i := n;
    }
  }

  lemma {:induction false} ExitStep(cx: Context, st: State, e: Event)
    requires Allowed(cx, st, e)
    ensures AfterEvent(st, e).child.exited == if e.ChildExited? then Some(e.how) else st.child.exited
    ensures e.ChildExited? ==> st.child.exited.None?
  {
  }

  /** A child is reaped once at most, and how it ended is remembered. */
  lemma {:induction false} ExitsOnce(cx: Context, trace: seq<Event>)
    requires Lawful(cx, trace)
    ensures forall how :: StateOf(trace).child.exited == Some(how) <==> ChildExited(how) in trace
  {
    if trace != [] {
      var n := |trace| - 1;
      LastStep(cx, trace);
      ExitsOnce(cx, trace[..n]);
      ExitStep(cx, StateOf(trace[..n]), trace[n]);
      assert trace == trace[..n] + [trace[n]];
    }
  }

  /** An exit status is sent only for a child that is done, and it is its own. */
  lemma {:induction false} StatusOfDoneChild(cx: Context, trace: seq<Event>)
    requires Lawful(cx, trace) && StateOf(trace).status.Some?
    ensures ChildDone(trace, StateOf(trace).status.value)
  {
    StatusIsExit(cx, trace);
    var i := WasEnded(cx, trace);
    ExitsOnce(cx, trace);
    assert ChildExited(StateOf(trace).child.exited.value) in trace;
  }

  // ----- counter values -----

  lemma {:induction false} BlocksStep(cx: Context, st: State, e: Event)
    requires Allowed(cx, st, e)
    ensures var c, d := st.count, AfterEvent(st, e).count;
      if e.Sent? then
        d.blocks == c.blocks + e.msg.Blocks() && d.packets + d.fails == c.packets + c.fails + 1 && e.msg.Blocks() <= 258
      else d == c.(tries := d.tries)
  {
    if e.Sent? {
      e.msg.PayloadLength();
    }
  }

  /** No packet of the server takes more than 258 cipher blocks. */
  lemma {:induction false} BlocksBound(cx: Context, trace: seq<Event>)
    requires Lawful(cx, trace)
    ensures var c := StateOf(trace).count; c.blocks <= 258 * (c.packets + c.fails)
  {
    if trace != [] {
      LastStep(cx, trace);
      BlocksBound(cx, trace[..|trace| - 1]);
      BlocksStep(cx, StateOf(trace[..|trace| - 1]), trace[|trace| - 1]);
    }
  }

  lemma {:induction false} BlocksAt(cx: Context, trace: seq<Event>, k: nat)
    requires Lawful(cx, trace) && k < |trace|
    ensures At(trace, k + 1).count.blocks == At(trace, k).count.blocks + if trace[k].Sent? then trace[k].msg.Blocks() else 0
  {
    AtNext(trace, k);
    LawfulAt(cx, trace, k);
    BlocksStep(cx, At(trace, k), trace[k]);
  }

  lemma {:induction false} BlocksGrow(cx: Context, trace: seq<Event>, i: nat, j: nat)
    requires Lawful(cx, trace) && i <= j <= |trace|
    ensures At(trace, i).count.blocks <= At(trace, j).count.blocks
    decreases j - i
  {
    hide AfterEvent, Allowed, StateOf;
    if i < j {
      BlocksGrow(cx, trace, i, j - 1);
      BlocksAt(cx, trace, j - 1);
    }
  }

  /**
   * The counter that encrypts block a of the packet of event i, sent or not: the counter starts at the IV, and moves on by
   * the blocks of each packet before sending it is tried.
   */
  function CounterOf(iv: Block, trace: seq<Event>, i: nat, a: nat): Block
    requires i <= |trace|
  {
    CtrAdd(CtrAdd(iv, At(trace, i).count.blocks), a)
  }

  /** No two packets of a connection share a counter value, whether or not sending them succeeded. */
  lemma {:induction false} CountersDisjoint(cx: Context, trace: seq<Event>, iv: Block, i: nat, j: nat, a: nat, b: nat)
    requires Lawful(cx, trace) && StateOf(trace).count.blocks < 0x1_0000_0000
    requires i < j < |trace| && trace[i].Sent? && trace[j].Sent?
    requires a < trace[i].msg.Blocks() && b < trace[j].msg.Blocks()
    ensures CounterOf(iv, trace, i, a) != CounterOf(iv, trace, j, b)
  {
    hide AfterEvent, Allowed;
    BlocksAt(cx, trace, i);
    BlocksAt(cx, trace, j);
    BlocksGrow(cx, trace, i + 1, j);
    BlocksGrow(cx, trace, j + 1, |trace|);
    assert trace[..|trace|] == trace;
    SeparateCounters(iv, At(trace, i).count.blocks, a, At(trace, j).count.blocks, b);
  }

  lemma {:induction false} SeparateCounters(iv: Block, m: nat, a: nat, n: nat, b: nat)
    requires m + a < n && n + b < 0x1_0000_0000
    ensures CtrAdd(CtrAdd(iv, m), a) != CtrAdd(CtrAdd(iv, n), b)
  {
    Packet.WordFits(|iv|);
    Packet.DistinctBlocks(iv, m, a, n, b);
  }

  // ----- windows -----

  /** The peer's window is respected: what was sent and what is left of the window add up to what was granted. */
  lemma {:induction false} WindowConserved(cx: Context, trace: seq<Event>)
    requires Lawful(cx, trace)
    ensures |DataSent(trace)| + StateOf(trace).remote == Credit(trace)
    ensures StateOf(trace).remote >= 0
    ensures Rank(StateOf(trace).channel) < 2 ==> StateOf(trace).remote == 0
  {
    if trace != [] {
      LastStep(cx, trace);
      StepForward(cx, StateOf(trace[..|trace| - 1]), trace[|trace| - 1]);
      WindowConserved(cx, trace[..|trace| - 1]);
    }
  }

  /** The window granted with the channel and everything added to it since. */
  function Granted(trace: seq<Event>): nat {
    if trace == [] then 0
    else
      var before, e := Granted(trace[..|trace| - 1]), trace[|trace| - 1];
      if !e.Sent? then before
      else
        match e.msg
        case OpenConfirm(_, _, window, _) => window
        case Adjust(_, amount) => before + amount
        case _ => before
  }

  /** The data taken since, in a session or outside; those beyond the window are not counted. */
  function Taken(trace: seq<Event>): nat {
    if trace == [] then 0
    else
      var front, e := trace[..|trace| - 1], trace[|trace| - 1];
      match e
      case Sent(OpenConfirm(_, _, _, _), _) => 0
      case ChildFed(data) => Taken(front) + |data|
      case Dropped(data) => Taken(front) + if |data| <= StateOf(front).window then |data| else 0
      case _ => Taken(front)
  }

  predicate WindowBounded(st: State) {
    && st.window <= 327680
    && (st.reply.Some? && st.reply.value.Adjust? ==> st.reply.value.amount == 262144 && st.window <= 65536)
  }

  lemma {:induction false} LocalWindowStep(cx: Context, st: State, e: Event)
    requires Allowed(cx, st, e) && WindowBounded(st)
    ensures WindowBounded(AfterEvent(st, e))
  {
  }

  /** The server's own window never exceeds 327680. */
  lemma {:induction false} LocalWindowBound(cx: Context, trace: seq<Event>)
    requires Lawful(cx, trace)
    ensures WindowBounded(StateOf(trace))
  {
    if trace != [] {
      LastStep(cx, trace);
      LocalWindowBound(cx, trace[..|trace| - 1]);
      LocalWindowStep(cx, StateOf(trace[..|trace| - 1]), trace[|trace| - 1]);
    }
  }

  /** The server's own window: what it has taken and what is left of the window add up to what it has granted. */
  lemma {:induction false} LocalWindowConserved(cx: Context, trace: seq<Event>)
    requires Lawful(cx, trace)
    ensures Taken(trace) + StateOf(trace).window == Granted(trace)
  {
    if trace != [] {
      LastStep(cx, trace);
      LocalWindowConserved(cx, trace[..|trace| - 1]);
      LocalTaken(cx, StateOf(trace[..|trace| - 1]), trace[|trace| - 1]);
    }
  }

  /** What an event takes off the window and what it adds. */
  lemma {:induction false} LocalTaken(cx: Context, st: State, e: Event)
    requires Allowed(cx, st, e)
    ensures var w := AfterEvent(st, e).window;
      match e
      case Sent(OpenConfirm(_, _, window, _), _) => w == window
      case Sent(Adjust(_, amount), _) => w == st.window + amount
      case ChildFed(data) => w + |data| == st.window
      case Dropped(data) => w + (if |data| <= st.window then |data| else 0) == st.window
      case _ => w == st.window
  {
  }

  // ----- the drain -----

  /** The deadline is nonzero and, once set, never set again. */
  lemma {:induction false} OneDeadline(cx: Context, trace: seq<Event>, i: nat, j: nat)
    requires Lawful(cx, trace) && i < j < |trace| && trace[i].DeadlineSet?
    ensures trace[i].deadline >= 10000 && !trace[j].DeadlineSet? && At(trace, j).drain.deadline == trace[i].deadline
  {
    AtNext(trace, i);
    Forward(cx, trace, i + 1, j);
    LawfulAt(cx, trace, i);
    LawfulAt(cx, trace, j);
  }

  lemma {:induction false} ReadBy(st: State, e: Event)
    requires AfterEvent(st, e).drain.clock.Some?
    ensures e == ClockRead(AfterEvent(st, e).drain.clock.value) || (AfterEvent(st, e).drain.clock == st.drain.clock && !e.Received?)
  {
  }

  lemma {:induction false} WasRead(trace: seq<Event>, k: nat, now: uint64) returns (c: nat)
    requires k <= |trace| && At(trace, k).drain.clock == Some(now)
    ensures c < k && trace[c] == ClockRead(now)
    ensures forall m | c < m < k :: !trace[m].Received?
  {
    hide AfterEvent, Allowed;
    assert k > 0;
    AtNext(trace, k - 1);
    ReadBy(At(trace, k - 1), trace[k - 1]);
    if trace[k - 1] == ClockRead(now) {
      c := k - 1;
    } else {
      c := WasRead(trace, k - 1, now);
    }
  }

  /** Each later receive follows a reading of the clock below the deadline, taken since the receive before it. */
  ghost predicate ReadBelow(trace: seq<Event>, j: nat, deadline: uint64) {
    exists c :: 0 <= c < j <= |trace| && trace[c].ClockRead? && trace[c].now < deadline
      && forall m | c < m < j :: !trace[m].Received?
  }

  lemma {:induction false} ReceivesBeforeDeadline(cx: Context, trace: seq<Event>, i: nat, j: nat)
    requires Lawful(cx, trace) && i < j < |trace| && trace[i].DeadlineSet? && trace[j].Received?
    ensures ReadBelow(trace, j, trace[i].deadline)
  {
    OneDeadline(cx, trace, i, j);
    LawfulAt(cx, trace, j);
    var c := WasRead(trace, j, At(trace, j).drain.clock.value);
  }

  /** The clock moves on by at least one millisecond from each reading to the next. */
  ghost predicate Ticks(trace: seq<Event>) {
    forall a, b | 0 <= a < b < |trace| && trace[a].ClockRead? && trace[b].ClockRead? :: trace[a].now < trace[b].now
  }

  lemma {:induction false} StopsAfter(cx: Context, st: State, e: Event)
    requires Allowed(cx, st, e)
    ensures !st.done && (st.drain.expired ==> e.Finished? && AfterEvent(st, e).done)
    ensures e.ClockRead? && 0 < st.drain.deadline <= e.now ==> AfterEvent(st, e).drain.expired
  {
  }

  lemma {:induction false} DoneEnds(cx: Context, trace: seq<Event>, k: nat)
    requires Lawful(cx, trace) && k <= |trace| && At(trace, k).done
    ensures k == |trace|
  {
    if k < |trace| {
      LawfulAt(cx, trace, k);
    }
  }

  /** Once a reading has reached the deadline, the server only returns. */
  lemma {:induction false} ExpiredEnds(cx: Context, trace: seq<Event>, i: nat, c: nat)
    requires Lawful(cx, trace) && i < c < |trace| && trace[i].DeadlineSet?
    requires trace[c].ClockRead? && trace[c].now >= trace[i].deadline
    ensures |trace| <= c + 2
    ensures |trace| == c + 2 ==> trace[c + 1].Finished?
  {
    OneDeadline(cx, trace, i, c);
    LawfulAt(cx, trace, c);
    StopsAfter(cx, At(trace, c), trace[c]);
    AtNext(trace, c);
    if c + 1 < |trace| {
      LawfulAt(cx, trace, c + 1);
      StopsAfter(cx, At(trace, c + 1), trace[c + 1]);
      AtNext(trace, c + 1);
      DoneEnds(cx, trace, c + 2);
    }
  }

  function CountReads(trace: seq<Event>, i: nat, j: nat): nat
    requires i <= j <= |trace|
    decreases j - i
  {
    if i == j then 0 else CountReads(trace, i, j - 1) + (if trace[j - 1].ClockRead? then 1 else 0)
  }

  lemma {:induction false} DeadlineFromClock(cx: Context, trace: seq<Event>, i: nat) returns (c: nat)
    requires Lawful(cx, trace) && i < |trace| && trace[i].DeadlineSet?
    ensures c < i && trace[c].ClockRead? && trace[i].deadline == trace[c].now + 10000
  {
    LawfulAt(cx, trace, i);
    c := WasRead(trace, i, At(trace, i).drain.clock.value);
  }

  /** Readings after the one that set the deadline are later by at least their number, and all but the last are below it. */
  lemma {:induction false} ReadsBound(cx: Context, trace: seq<Event>, i: nat, j: nat, c0: nat) returns (c: nat)
    requires Lawful(cx, trace) && Ticks(trace) && c0 < i < j <= |trace|
    requires trace[i].DeadlineSet? && trace[c0].ClockRead? && trace[i].deadline == trace[c0].now + 10000
    ensures c < j && trace[c].ClockRead? && (c == c0 || c > i)
    ensures CountReads(trace, i + 1, j) <= trace[c].now - trace[c0].now
    ensures CountReads(trace, i + 1, j) <= 10000
    decreases j
  {
    if j == i + 1 {
      c := c0;
    } else {
      c := ReadsBound(cx, trace, i, j - 1, c0);
      if trace[j - 1].ClockRead? {
        NotYetExpired(cx, trace, i, c, j - 1);
        c := j - 1;
      }
    }
  }

  lemma {:induction false} NotYetExpired(cx: Context, trace: seq<Event>, i: nat, c: nat, j: nat)
    requires Lawful(cx, trace) && i < j < |trace| && c < j && trace[i].DeadlineSet?
    requires trace[c].ClockRead? && trace[j].ClockRead?
    ensures c > i ==> trace[c].now < trace[i].deadline
  {
    if c > i && trace[c].now >= trace[i].deadline {
      ExpiredEnds(cx, trace, i, c);
    }
  }

  lemma {:induction false} ReadingStep(cx: Context, st: State, e: Event)
    requires Allowed(cx, st, e)
    ensures st.drain.deadline == 0 && st.drain.readings == 0 ==> AfterEvent(st, e).drain.readings == 0
    ensures st.drain.deadline != 0 ==>
      AfterEvent(st, e).drain.readings == st.drain.readings + if e.ClockRead? then 1 else 0
    ensures st.drain.deadline == 0 && AfterEvent(st, e).drain.deadline != 0 ==> e.DeadlineSet?
  {
  }

  /** The readings counted in the state are those behind the event that set the deadline. */
  lemma {:induction false} ReadingsCounted(cx: Context, trace: seq<Event>) returns (i: nat)
    requires Lawful(cx, trace)
    ensures StateOf(trace).drain.deadline == 0 ==> StateOf(trace).drain.readings == 0
    ensures StateOf(trace).drain.deadline != 0 ==> i < |trace| && trace[i].DeadlineSet?
    ensures StateOf(trace).drain.deadline != 0 ==> StateOf(trace).drain.readings == CountReads(trace, i + 1, |trace|)
  {
    i := 0;
    if trace != [] {
      LastStep(cx, trace);
      var n := |trace| - 1;
      i := ReadingsCounted(cx, trace[..n]);
      ReadingStep(cx, StateOf(trace[..n]), trace[n]);
      if StateOf(trace[..n]).drain.deadline == 0 {
        i := n;
      } else {
        CountsInFront(trace, n, i + 1, n);
      }
    }
  }

  lemma {:induction false} CountsInFront(trace: seq<Event>, n: nat, i: nat, j: nat)
    requires i <= j <= n <= |trace|
    ensures CountReads(trace[..n], i, j) == CountReads(trace, i, j)
    decreases j - i
  {
    if i < j {
      CountsInFront(trace, n, i, j - 1);
    }
  }

  /** With a clock that moves on from reading to reading, it is read at most 10000 times in the drain. */
  lemma {:induction false} DrainEnds(cx: Context, trace: seq<Event>)
    requires Lawful(cx, trace) && Ticks(trace)
    ensures StateOf(trace).drain.readings <= 10000
  {
    var i := ReadingsCounted(cx, trace);
    if StateOf(trace).drain.deadline != 0 {
      var c0 := DeadlineFromClock(cx, trace, i);
      var c := ReadsBound(cx, trace, i, |trace|, c0);
    }
  }
}
