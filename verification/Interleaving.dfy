/**
 * Two sequential programs over two byte streams, interleaved freely: first a scripted exchange of four messages each way,
 * then any encrypted traffic. The scripts are parameters here; HandshakeSteps shows that the real programs follow them.
 */
module Interleaving {
  import opened Octets
  import opened Wrappers
  import opened Cipher
  import opened Wire
  import opened Packet
  import opened Handshake

  type Program = (Side, Bytes) -> Option<Move>

  datatype Role = Client | Server

  /** Messages sent in the first i moves. The client sends on every other move, the server on its moves 1, 3, 5 and 6. */
  function Sent(r: Role, i: nat): nat {
    match r
    case Client => if i < 1 then 0 else if i < 3 then 1 else if i < 5 then 2 else if i < 7 then 3 else 4
    case Server => if i < 2 then 0 else if i < 4 then 1 else if i < 6 then 2 else if i < 7 then 3 else 4
  }

  function Taken(r: Role, i: nat): nat
    requires i <= 8
  {
    i - Sent(r, i)
  }

  predicate SendsAt(r: Role, i: nat) {
    Sent(r, i + 1) == Sent(r, i) + 1
  }

  /** A program with the states it goes through and the messages it sends. */
  datatype Part = Part(role: Role, program: Program, states: seq<Side>, msgs: seq<Bytes>, items: seq<seq<Item>>)
  {
    ghost predicate Shaped() {
      |states| == 9 && |msgs| == 4 && |items| == 4 && forall i :: 0 <= i <= 8 ==> states[i].pc == i
    }
  }

  /** Move i of the program: it sends its next message, or takes the peer's next one, and waits while there is nothing. */
  ghost predicate StepOk(p: Part, peer: Part, i: nat, rest: Bytes)
    requires p.Shaped() && peer.Shaped() && i < 8
  {
    if SendsAt(p.role, i) then
      var k := Sent(p.role, i);
      p.program(p.states[i], rest) == Some(Move(p.states[i + 1], rest, p.msgs[k], p.items[k], []))
    else
      var k := Taken(p.role, i);
      && p.program(p.states[i], peer.msgs[k] + rest) == Some(Move(p.states[i + 1], rest, [], [], peer.items[k]))
      && p.program(p.states[i], []) == None
  }

  ghost predicate Follows(p: Part, peer: Part) {
    && p.Shaped() && peer.Shaped() && p.states[8].out == peer.states[8].inp && peer.states[8].inp.encrypted
    && forall i: nat, rest :: i < 8 ==> StepOk(p, peer, i, rest)
  }

  /** The programs as they run. */
  datatype Machine = Machine(suite: Suite, client: Program, server: Program)

  /** The programs and their scripts. */
  datatype System = System(suite: Suite, client: Part, server: Part)
  {
    function Runs(): Machine {
      Machine(suite, client.program, server.program)
    }

    /** Both programs follow their scripts, and switch to encryption with directions that fit together. */
    ghost predicate Correct() {
      && client.role == Client && server.role == Server
      && Follows(client, server) && Follows(server, client)
    }

    ghost predicate Shaped() {
      client.role == Client && server.role == Server && client.Shaped() && server.Shaped()
    }
  }

  // ----- the two-party machine -----

  /** Both sides, the bytes in flight each way, and what has been sent and taken so far. */
  datatype World = World(c: Side, v: Side, c2s: Bytes, s2c: Bytes,
                         sentC: seq<Item>, gotV: seq<Item>, sentV: seq<Item>, gotC: seq<Item>)

  datatype Action = ClientProgram | ServerProgram
    | ClientSends(payload: Bytes, padding: Bytes) | ServerSends(payload: Bytes, padding: Bytes)
    | ClientTakes | ServerTakes

  /** Once its program is done, a side may send any packet and take any packet. */
  function DataSend(s: Suite, x: Side, m: Outgoing): Option<Move> {
    if x.pc != 8 || !Sendable(x.out, m.payload, m.padding) || |m.payload| > MAX_PACKET_LEN then None
    else Some(Move(x.(out := Next(x.out, FrameLen(m))), [], Encode(s, x.out, m.payload, m.padding),
                   [Item(x.out.encrypted, m.payload)], []))
  }

  function DataTake(s: Suite, x: Side, input: Bytes): Option<Move> {
    if x.pc != 8 then None
    else
      match Decode(s, x.inp, input, MAX_PACKET_LEN)
      case None => None
      case Some(r) => Some(Move(x.(inp := r.half), r.rest, [], [], [Item(x.inp.encrypted, r.payload)]))
  }

  function ClientActs(w: World, m: Option<Move>): Option<World> {
    if m.None? then None
    else Some(w.(c := m.value.side, c2s := w.c2s + m.value.bytes, sentC := w.sentC + m.value.sent,
                 s2c := m.value.rest, gotC := w.gotC + m.value.got))
  }

  function ServerActs(w: World, m: Option<Move>): Option<World> {
    if m.None? then None
    else Some(w.(v := m.value.side, s2c := w.s2c + m.value.bytes, sentV := w.sentV + m.value.sent,
                 c2s := m.value.rest, gotV := w.gotV + m.value.got))
  }

  predicate ByClient(a: Action) {
    a.ClientProgram? || a.ClientSends? || a.ClientTakes?
  }

  /** What an action of the side makes of it, on what has arrived. */
  function MoveOf(y: Machine, w: World, a: Action): Option<Move> {
    match a
    case ClientProgram => if w.c.pc < 8 then y.client(w.c, w.s2c) else None
    case ServerProgram => if w.v.pc < 8 then y.server(w.v, w.c2s) else None
    case ClientSends(p, pad) =>
      var m := DataSend(y.suite, w.c, Outgoing(p, pad));
      if m.None? then None else Some(m.value.(rest := w.s2c))
    case ServerSends(p, pad) =>
      var m := DataSend(y.suite, w.v, Outgoing(p, pad));
      if m.None? then None else Some(m.value.(rest := w.c2s))
    case ClientTakes => DataTake(y.suite, w.c, w.s2c)
    case ServerTakes => DataTake(y.suite, w.v, w.c2s)
  }

  function Perform(y: Machine, w: World, a: Action): Option<World> {
    if ByClient(a) then ClientActs(w, MoveOf(y, w, a)) else ServerActs(w, MoveOf(y, w, a))
  }

  function Begin(c: Side, v: Side): World {
    World(c, v, [], [], [], [], [], [])
  }

  function PerformAll(y: Machine, w: World, actions: seq<Action>): Option<World>
    decreases |actions|
  {
    if actions == [] then Some(w)
    else
      match PerformAll(y, w, actions[..|actions| - 1])
      case None => None
      case Some(u) => Perform(y, u, actions[|actions| - 1])
  }

  /** The world is reached from the beginning of both scripts. */
  ghost predicate Leads(y: System, actions: seq<Action>, w: World)
    requires y.Shaped()
  {
    PerformAll(y.Runs(), Begin(y.client.states[0], y.server.states[0]), actions) == Some(w)
  }

  // ----- one direction -----

  /** Messages a to b of a script, as bytes and as packets. */
  function Msgs(p: Part, a: nat, b: nat): Bytes
    requires a <= b <= |p.msgs|
    decreases b - a
  {
    if a == b then [] else p.msgs[a] + Msgs(p, a + 1, b)
  }

  function Items(p: Part, a: nat, b: nat): seq<Item>
    requires a <= b <= |p.items|
    decreases b - a
  {
    if a == b then [] else p.items[a] + Items(p, a + 1, b)
  }

  function DataItems(pending: seq<Outgoing>): seq<Item> {
    if pending == [] then [] else [Item(true, pending[0].payload)] + DataItems(pending[1..])
  }

  lemma {:induction false} MsgsSnoc(p: Part, a: nat, b: nat)
    requires a <= b < |p.msgs| == |p.items|
    ensures Msgs(p, a, b + 1) == Msgs(p, a, b) + p.msgs[b] && Items(p, a, b + 1) == Items(p, a, b) + p.items[b]
    decreases b - a
  {
    if a < b {
      MsgsSnoc(p, a + 1, b);
    }
  }

  lemma {:induction false} DataItemsSnoc(pending: seq<Outgoing>, m: Outgoing)
    ensures DataItems(pending + [m]) == DataItems(pending) + [Item(true, m.payload)]
  {
    if pending == [] {
      assert pending + [m] == [m] && [m][1..] == [];
    } else {
      DataItemsSnoc(pending[1..], m);
      assert (pending + [m])[1..] == pending[1..] + [m];
    }
  }

  /** One direction: the sender x at move i, the receiver z at move j, the bytes between them, and the histories. */
  datatype Flow = Flow(x: Side, z: Side, wire: Bytes, sent: seq<Item>, got: seq<Item>)

  /** The receiving state from which the encrypted packets in flight will be read. */
  function ReadState(to: Part, z: Side): Half
    requires |to.states| == 9
  {
    if z.pc == 8 then z.inp else to.states[8].inp
  }

  /**
   * In flight: the scripted messages from a to b, then the pending encrypted packets, encoded from the receiver's state on.
   * The histories of sent and taken packets differ by exactly these.
   */
  ghost predicate Between(s: Suite, from: Part, a: nat, b: nat, h: Half, pending: seq<Outgoing>,
                          wire: Bytes, sent: seq<Item>, got: seq<Item>)
    requires from.Shaped()
  {
    && a <= b <= 4
    && AllSendable(h, pending, MAX_PACKET_LEN)
    && wire == Msgs(from, a, b) + EncodeAll(s, h, pending, MAX_PACKET_LEN)
    && sent == got + Items(from, a, b) + DataItems(pending)
  }

  /** The invariant of one direction; the sender's state is the receiver's, moved on over the pending packets. */
  ghost predicate InFlight(s: Suite, from: Part, to: Part, f: Flow, pending: seq<Outgoing>)
    requires from.Shaped() && to.Shaped()
  {
    && f.x.pc <= 8 && f.z.pc <= 8
    && var h := ReadState(to, f.z);
    && h.encrypted
    && Between(s, from, Taken(to.role, f.z.pc), Sent(from.role, f.x.pc), h, pending, f.wire, f.sent, f.got)
    && (f.x.pc < 8 ==> pending == [] && h == to.states[8].inp)
    && (f.x.pc == 8 ==> f.x.out == After(h, pending))
  }

  /** Everything but the two directions is as the script says. */
  ghost predicate OnScript(p: Part, x: Side)
    requires p.Shaped()
  {
    x.pc <= 8 && x == if x.pc < 8 then p.states[x.pc] else p.states[8].(out := x.out, inp := x.inp)
  }

  lemma {:induction false} BetweenSends(
    s: Suite, from: Part, a: nat, b: nat, h: Half, wire: Bytes, sent: seq<Item>, got: seq<Item>)
    requires from.Shaped() && Between(s, from, a, b, h, [], wire, sent, got) && b < 4
    ensures Between(s, from, a, b + 1, h, [], wire + from.msgs[b], sent + from.items[b], got)
  {
    MsgsSnoc(from, a, b);
    assert Msgs(from, a, b) + [] == Msgs(from, a, b) && Msgs(from, a, b + 1) + [] == Msgs(from, a, b + 1);
    assert got + Items(from, a, b + 1) + [] == (got + Items(from, a, b) + []) + from.items[b];
  }

  /** The sender makes a scripted send. */
  lemma {:induction false} FlowSends(s: Suite, from: Part, to: Part, f: Flow)
    requires from.Shaped() && to.Shaped() && InFlight(s, from, to, f, [])
    requires f.x.pc < 7 && SendsAt(from.role, f.x.pc)
    ensures Sent(from.role, f.x.pc) < 4
    ensures var k := Sent(from.role, f.x.pc);
      InFlight(s, from, to, f.(x := from.states[f.x.pc + 1], wire := f.wire + from.msgs[k], sent := f.sent + from.items[k]), [])
  {
    BetweenSends(s, from, Taken(to.role, f.z.pc), Sent(from.role, f.x.pc), ReadState(to, f.z), f.wire, f.sent, f.got);
  }

  /** Bytes on the wire at a scripted receive are the next message of the script. */
  lemma {:induction false} NextMessage(s: Suite, from: Part, to: Part, f: Flow, pending: seq<Outgoing>)
    requires from.Shaped() && to.Shaped() && InFlight(s, from, to, f, pending)
    requires f.z.pc < 8 && !SendsAt(to.role, f.z.pc) && f.wire != []
    ensures Taken(to.role, f.z.pc) < Sent(from.role, f.x.pc) <= 4
  {
  }

  /** The receiver makes a scripted receive. */
  lemma {:induction false} FlowTakes(s: Suite, from: Part, to: Part, f: Flow, pending: seq<Outgoing>)
    requires from.Shaped() && to.Shaped() && InFlight(s, from, to, f, pending)
    requires f.z.pc < 8 && !SendsAt(to.role, f.z.pc) && f.wire != []
    ensures var k := Taken(to.role, f.z.pc);
      && k < 4 && from.msgs[k] <= f.wire
      && InFlight(s, from, to,
           f.(z := to.states[f.z.pc + 1], wire := f.wire[|from.msgs[k]|..], got := f.got + from.items[k]), pending)
  {
    hide Between;
    NextMessage(s, from, to, f, pending);
    var k := Taken(to.role, f.z.pc);
    BetweenTakes(s, from, k, Sent(from.role, f.x.pc), ReadState(to, f.z), pending, f.wire, f.sent, f.got);
    StateAfterTake(to, f.z);
  }

  lemma {:induction false} StateAfterTake(to: Part, z: Side)
    requires to.Shaped() && z.pc < 8 && !SendsAt(to.role, z.pc)
    ensures ReadState(to, to.states[z.pc + 1]) == ReadState(to, z)
    ensures Taken(to.role, z.pc + 1) == Taken(to.role, z.pc) + 1
    ensures to.states[z.pc + 1].pc == z.pc + 1
  {
  }

  lemma {:induction false} BetweenTakes(s: Suite, from: Part, a: nat, b: nat, h: Half, pending: seq<Outgoing>,
                                        wire: Bytes, sent: seq<Item>, got: seq<Item>)
    requires from.Shaped() && Between(s, from, a, b, h, pending, wire, sent, got) && a < b
    ensures from.msgs[a] <= wire
    ensures Between(s, from, a + 1, b, h, pending, wire[|from.msgs[a]|..], sent, got + from.items[a])
  {
    CutFront(from.msgs[a], Msgs(from, a + 1, b), EncodeAll(s, h, pending, MAX_PACKET_LEN));
    MoveFront(got, from.items[a], Items(from, a + 1, b), DataItems(pending));
  }

  lemma CutFront(m: Bytes, rest: Bytes, tail: Bytes)
    ensures var w := m + rest + tail;
      m <= w && w[|m|..] == rest + tail
  {
  }

  lemma MoveFront(got: seq<Item>, first: seq<Item>, rest: seq<Item>, tail: seq<Item>)
    ensures got + (first + rest) + tail == got + first + rest + tail
  {
  }

  /** A side moves on without sending: nothing changes for its outgoing direction, except that it may now send data. */
  lemma {:induction false} SenderMovesOn(s: Suite, from: Part, to: Part, f: Flow)
    requires from.Shaped() && to.Shaped() && InFlight(s, from, to, f, [])
    requires f.x.pc < 8 && !SendsAt(from.role, f.x.pc)
    requires from.states[8].out == to.states[8].inp
    ensures InFlight(s, from, to, f.(x := from.states[f.x.pc + 1]), [])
  {
  }

  /** A side moves on without taking: nothing changes for its incoming direction. */
  lemma {:induction false} TakerMovesOn(s: Suite, from: Part, to: Part, f: Flow, pending: seq<Outgoing>)
    requires from.Shaped() && to.Shaped() && InFlight(s, from, to, f, pending)
    requires f.z.pc < 7 && SendsAt(to.role, f.z.pc)
    ensures InFlight(s, from, to, f.(z := to.states[f.z.pc + 1]), pending)
  {
  }

  /** A side whose program is done sends a packet. */
  lemma {:induction false} FlowSendsData(s: Suite, from: Part, to: Part, f: Flow, pending: seq<Outgoing>, m: Outgoing)
    requires from.Shaped() && to.Shaped() && InFlight(s, from, to, f, pending)
    requires DataSend(s, f.x, m).Some?
    ensures var v := DataSend(s, f.x, m).value;
      InFlight(s, from, to, f.(x := v.side, wire := f.wire + v.bytes, sent := f.sent + v.sent), pending + [m])
  {
    var h, a, b := ReadState(to, f.z), Taken(to.role, f.z.pc), Sent(from.role, f.x.pc);
    RunGrows(s, h, pending, m, MAX_PACKET_LEN);
    DataItemsSnoc(pending, m);
    assert f.x.out.encrypted;
    Grown(Msgs(from, a, b), EncodeAll(s, h, pending, MAX_PACKET_LEN), Encode(s, f.x.out, m.payload, m.padding));
    MoveBack(f.got + Items(from, a, b), DataItems(pending), Item(true, m.payload));
  }

  lemma Grown(a: Bytes, b: Bytes, c: Bytes)
    ensures a + b + c == a + (b + c)
  {
  }

  lemma MoveBack(a: seq<Item>, b: seq<Item>, c: Item)
    ensures a + b + [c] == a + (b + [c])
  {
  }

  /** A side whose program is done takes the first pending packet: it decodes, to the payload that was sent. */
  lemma {:induction false} FlowTakesData(s: Suite, from: Part, to: Part, f: Flow, pending: seq<Outgoing>)
    requires from.Shaped() && to.Shaped() && InFlight(s, from, to, f, pending)
    requires f.z.pc == 8 && pending != []
    ensures DataTake(s, f.z, f.wire).Some?
    ensures var v := DataTake(s, f.z, f.wire).value;
      && v.got == [Item(true, pending[0].payload)] && v.bytes == [] && v.sent == []
      && v.side == f.z.(inp := v.side.inp)
      && InFlight(s, from, to, f.(z := v.side, wire := v.rest, got := f.got + v.got), pending[1..])
  {
    BetweenTakesData(s, from, f.z.inp, pending, f.wire, f.sent, f.got);
  }

  lemma {:induction false} BetweenTakesData(
    s: Suite, from: Part, h: Half, pending: seq<Outgoing>, wire: Bytes, sent: seq<Item>, got: seq<Item>)
    requires from.Shaped() && Between(s, from, 4, 4, h, pending, wire, sent, got) && pending != []
    ensures Decode(s, h, wire, MAX_PACKET_LEN).Some?
    ensures var r := Decode(s, h, wire, MAX_PACKET_LEN).value;
      && r.payload == pending[0].payload && r.half == Next(h, FrameLen(pending[0]))
      && Between(s, from, 4, 4, r.half, pending[1..], r.rest, sent, got + [Item(true, pending[0].payload)])
  {
    RunShrinks(s, h, pending, MAX_PACKET_LEN);
    EmptyFront(Msgs(from, 4, 4), EncodeAll(s, h, pending, MAX_PACKET_LEN));
    EmptyFront(Msgs(from, 4, 4), EncodeAll(s, Next(h, FrameLen(pending[0])), pending[1..], MAX_PACKET_LEN));
    FirstItem(got, Items(from, 4, 4), Item(true, pending[0].payload), DataItems(pending[1..]));
  }

  lemma EmptyFront(none: Bytes, s: Bytes)
    requires none == []
    ensures none + s == s
  {
  }

  lemma FirstItem(got: seq<Item>, none: seq<Item>, i: Item, rest: seq<Item>)
    requires none == []
    ensures got + none + ([i] + rest) == got + [i] + none + rest
  {
  }

  /** With nothing pending there is nothing to take. */
  lemma {:induction false} NothingToTake(s: Suite, from: Part, to: Part, f: Flow)
    requires from.Shaped() && to.Shaped() && InFlight(s, from, to, f, [])
    requires f.z.pc == 8
    ensures DataTake(s, f.z, f.wire) == None
  {
    assert f.wire == [];
  }

  // ----- the invariant of the whole machine -----

  function ToServer(w: World): Flow {
    Flow(w.c, w.v, w.c2s, w.sentC, w.gotV)
  }

  function ToClient(w: World): Flow {
    Flow(w.v, w.c, w.s2c, w.sentV, w.gotC)
  }

  ghost predicate Inv(y: System, w: World, pc: seq<Outgoing>, pv: seq<Outgoing>)
    requires y.Shaped()
  {
    && OnScript(y.client, w.c) && OnScript(y.server, w.v)
    && InFlight(y.suite, y.client, y.server, ToServer(w), pc)
    && InFlight(y.suite, y.server, y.client, ToClient(w), pv)
  }

  /** One program move of either side, with its outgoing and its incoming direction. */
  lemma {:induction false} ProgramMove(s: Suite, p: Part, peer: Part, o: Flow, f: Flow, pending: seq<Outgoing>, m: Move)
    requires Follows(p, peer) && o.x == f.z && o.x.pc < 8 && OnScript(p, o.x)
    requires InFlight(s, p, peer, o, []) && InFlight(s, peer, p, f, pending)
    requires p.program(o.x, f.wire) == Some(m)
    ensures OnScript(p, m.side) && m.side == p.states[o.x.pc + 1]
    ensures InFlight(s, p, peer, o.(x := m.side, wire := o.wire + m.bytes, sent := o.sent + m.sent), [])
    ensures InFlight(s, peer, p, f.(z := m.side, wire := m.rest, got := f.got + m.got), pending)
  {
    if SendsAt(p.role, o.x.pc) {
      ProgramSends(s, p, peer, o, f, pending, m);
    } else {
      ProgramTakes(s, p, peer, o, f, pending, m);
    }
  }

  lemma {:induction false} ProgramSends(s: Suite, p: Part, peer: Part, o: Flow, f: Flow, pending: seq<Outgoing>, m: Move)
    requires Follows(p, peer) && o.x == f.z && o.x.pc < 8 && OnScript(p, o.x) && SendsAt(p.role, o.x.pc)
    requires InFlight(s, p, peer, o, []) && InFlight(s, peer, p, f, pending)
    requires p.program(o.x, f.wire) == Some(m)
    ensures OnScript(p, m.side) && m.side == p.states[o.x.pc + 1]
    ensures InFlight(s, p, peer, o.(x := m.side, wire := o.wire + m.bytes, sent := o.sent + m.sent), [])
    ensures InFlight(s, peer, p, f.(z := m.side, wire := m.rest, got := f.got + m.got), pending)
  {
    SendStep(p, peer, o.x.pc, f.wire, m);
    FlowSends(s, p, peer, o);
    ProgramSendsIn(s, p, peer, f, pending, m);
    ScriptedState(p, o.x.pc + 1);
  }

  lemma {:induction false} SendStep(p: Part, peer: Part, i: nat, wire: Bytes, m: Move)
    requires Follows(p, peer) && i < 7 && SendsAt(p.role, i) && p.program(p.states[i], wire) == Some(m)
    ensures var k := Sent(p.role, i);
      k < 4 && m == Move(p.states[i + 1], wire, p.msgs[k], p.items[k], [])
  {
    assert StepOk(p, peer, i, wire);
  }

  /** The incoming direction of a scripted send. */
  lemma {:induction false} ProgramSendsIn(s: Suite, p: Part, peer: Part, f: Flow, pending: seq<Outgoing>, m: Move)
    requires p.Shaped() && peer.Shaped() && f.z.pc < 7 && SendsAt(p.role, f.z.pc)
    requires InFlight(s, peer, p, f, pending)
    requires m.side == p.states[f.z.pc + 1] && m.rest == f.wire && m.got == []
    ensures InFlight(s, peer, p, f.(z := m.side, wire := m.rest, got := f.got + m.got), pending)
  {
    TakesNothing(f, m);
    TakerMovesOn(s, peer, p, f, pending);
  }

  lemma TakesNothing(f: Flow, m: Move)
    requires m.rest == f.wire && m.got == []
    ensures f.(z := m.side, wire := m.rest, got := f.got + m.got) == f.(z := m.side)
  {
  }

  lemma {:induction false} ProgramTakes(s: Suite, p: Part, peer: Part, o: Flow, f: Flow, pending: seq<Outgoing>, m: Move)
    requires Follows(p, peer) && o.x == f.z && o.x.pc < 8 && OnScript(p, o.x) && !SendsAt(p.role, o.x.pc)
    requires InFlight(s, p, peer, o, []) && InFlight(s, peer, p, f, pending)
    requires p.program(o.x, f.wire) == Some(m)
    ensures OnScript(p, m.side) && m.side == p.states[o.x.pc + 1]
    ensures InFlight(s, p, peer, o.(x := m.side, wire := o.wire + m.bytes, sent := o.sent + m.sent), [])
    ensures InFlight(s, peer, p, f.(z := m.side, wire := m.rest, got := f.got + m.got), pending)
  {
    WaitsForBytes(p, peer, o.x.pc, f.wire, m);
    FlowTakes(s, peer, p, f, pending);
    TakeStep(p, peer, o.x.pc, f.wire, m);
    ProgramTakesOut(s, p, peer, o, m);
    ScriptedState(p, o.x.pc + 1);
  }

  /** The outgoing direction of a scripted receive. */
  lemma {:induction false} ProgramTakesOut(s: Suite, p: Part, peer: Part, o: Flow, m: Move)
    requires p.Shaped() && peer.Shaped() && o.x.pc < 8 && !SendsAt(p.role, o.x.pc)
    requires InFlight(s, p, peer, o, []) && p.states[8].out == peer.states[8].inp
    requires m.side == p.states[o.x.pc + 1] && m.bytes == [] && m.sent == []
    ensures InFlight(s, p, peer, o.(x := m.side, wire := o.wire + m.bytes, sent := o.sent + m.sent), [])
  {
    AppendsNothing(o, m);
    SenderMovesOn(s, p, peer, o);
  }

  lemma AppendsNothing(o: Flow, m: Move)
    requires m.bytes == [] && m.sent == []
    ensures o.(x := m.side, wire := o.wire + m.bytes, sent := o.sent + m.sent) == o.(x := m.side)
  {
  }

  lemma {:induction false} ScriptedState(p: Part, i: nat)
    requires p.Shaped() && i <= 8
    ensures OnScript(p, p.states[i])
  {
  }

  lemma {:induction false} WaitsForBytes(p: Part, peer: Part, i: nat, wire: Bytes, m: Move)
    requires Follows(p, peer) && i < 8 && !SendsAt(p.role, i) && p.program(p.states[i], wire) == Some(m)
    ensures wire != []
  {
    assert StepOk(p, peer, i, []);
  }

  lemma {:induction false} TakeStep(p: Part, peer: Part, i: nat, wire: Bytes, m: Move)
    requires Follows(p, peer) && i < 8 && !SendsAt(p.role, i)
    requires Taken(p.role, i) < 4 && peer.msgs[Taken(p.role, i)] <= wire
    requires p.program(p.states[i], wire) == Some(m)
    ensures var k := Taken(p.role, i);
      m == Move(p.states[i + 1], wire[|peer.msgs[k]|..], [], [], peer.items[k])
  {
    var k := Taken(p.role, i);
    var rest := wire[|peer.msgs[k]|..];
    assert wire == peer.msgs[k] + rest;
    assert StepOk(p, peer, i, rest);
  }

  /** A program move is possible unless it waits for a message that the peer has not sent yet. */
  lemma {:induction false} CanMove(s: Suite, p: Part, peer: Part, f: Flow, pending: seq<Outgoing>)
    requires Follows(p, peer) && f.z.pc < 8 && OnScript(p, f.z)
    requires InFlight(s, peer, p, f, pending)
    requires MayMove(p.role, f.z.pc, peer.role, f.x.pc)
    ensures p.program(f.z, f.wire).Some?
  {
    var i := f.z.pc;
    if SendsAt(p.role, i) {
      assert StepOk(p, peer, i, f.wire);
    } else {
      var k := Taken(p.role, i);
      BetweenTakes(s, peer, k, Sent(peer.role, f.x.pc), ReadState(p, f.z), pending, f.wire, f.sent, f.got);
      var rest := f.wire[|peer.msgs[k]|..];
      assert f.wire == peer.msgs[k] + rest;
      assert StepOk(p, peer, i, rest);
    }
  }

  lemma {:induction false} Initially(y: System)
    requires y.Shaped() && y.client.states[8].inp.encrypted && y.server.states[8].inp.encrypted
    ensures Inv(y, Begin(y.client.states[0], y.server.states[0]), [], [])
  {
    var w := Begin(y.client.states[0], y.server.states[0]);
    FlowStarts(y.suite, y.client, y.server, ToServer(w));
    FlowStarts(y.suite, y.server, y.client, ToClient(w));
  }

  lemma {:induction false} FlowStarts(s: Suite, from: Part, to: Part, f: Flow)
    requires from.Shaped() && to.Shaped() && to.states[8].inp.encrypted
    requires f.x.pc == 0 && f.z.pc == 0 && f.wire == [] && f.sent == [] && f.got == []
    ensures InFlight(s, from, to, f, [])
  {
  }

  lemma {:induction false} Preserved(y: System, w: World, a: Action, w': World, pc: seq<Outgoing>, pv: seq<Outgoing>)
    returns (pc': seq<Outgoing>, pv': seq<Outgoing>)
    requires y.Correct() && Inv(y, w, pc, pv) && Perform(y.Runs(), w, a) == Some(w')
    ensures Inv(y, w', pc', pv')
  {
    hide Inv;
    match a {
      case ClientProgram =>
        ClientMovePreserves(y, w, pc, pv, y.client.program(w.c, w.s2c).value);
        pc', pv' := pc, pv;
      case ServerProgram =>
        ServerMovePreserves(y, w, pc, pv, y.server.program(w.v, w.c2s).value);
        pc', pv' := pc, pv;
      case ClientSends(p, pad) =>
        ClientSendPreserves(y, w, pc, pv, Outgoing(p, pad));
        pc', pv' := pc + [Outgoing(p, pad)], pv;
      case ServerSends(p, pad) =>
        ServerSendPreserves(y, w, pc, pv, Outgoing(p, pad));
        pc', pv' := pc, pv + [Outgoing(p, pad)];
      case ClientTakes =>
        ClientTakePreserves(y, w, pc, pv);
        pc', pv' := pc, pv[1..];
      case ServerTakes =>
        ServerTakePreserves(y, w, pc, pv);
        pc', pv' := pc[1..], pv;
    }
  }

  lemma {:induction false} ClientMovePreserves(y: System, w: World, pc: seq<Outgoing>, pv: seq<Outgoing>, m: Move)
    requires y.Shaped() && Follows(y.client, y.server) && Inv(y, w, pc, pv) && w.c.pc < 8
    requires y.client.program(w.c, w.s2c) == Some(m)
    ensures Inv(y, ClientActs(w, Some(m)).value, pc, pv)
  {
    ProgramMove(y.suite, y.client, y.server, ToServer(w), ToClient(w), pv, m);
  }

  lemma {:induction false} ServerMovePreserves(y: System, w: World, pc: seq<Outgoing>, pv: seq<Outgoing>, m: Move)
    requires y.Shaped() && Follows(y.server, y.client) && Inv(y, w, pc, pv) && w.v.pc < 8
    requires y.server.program(w.v, w.c2s) == Some(m)
    ensures Inv(y, ServerActs(w, Some(m)).value, pc, pv)
  {
    ProgramMove(y.suite, y.server, y.client, ToClient(w), ToServer(w), pc, m);
  }

  lemma {:induction false} ClientSendPreserves(y: System, w: World, pc: seq<Outgoing>, pv: seq<Outgoing>, m: Outgoing)
    requires y.Shaped() && Inv(y, w, pc, pv) && DataSend(y.suite, w.c, m).Some?
    ensures Inv(y, ClientActs(w, Some(DataSend(y.suite, w.c, m).value.(rest := w.s2c))).value, pc + [m], pv)
  {
    SendsPreserve(y.suite, y.client, y.server, ToServer(w), ToClient(w), pc, pv, m);
  }

  lemma {:induction false} ServerSendPreserves(y: System, w: World, pc: seq<Outgoing>, pv: seq<Outgoing>, m: Outgoing)
    requires y.Shaped() && Inv(y, w, pc, pv) && DataSend(y.suite, w.v, m).Some?
    ensures Inv(y, ServerActs(w, Some(DataSend(y.suite, w.v, m).value.(rest := w.c2s))).value, pc, pv + [m])
  {
    SendsPreserve(y.suite, y.server, y.client, ToClient(w), ToServer(w), pv, pc, m);
  }

  lemma {:induction false} ClientTakePreserves(y: System, w: World, pc: seq<Outgoing>, pv: seq<Outgoing>)
    requires y.Shaped() && Inv(y, w, pc, pv) && DataTake(y.suite, w.c, w.s2c).Some?
    ensures pv != [] && Inv(y, ClientActs(w, DataTake(y.suite, w.c, w.s2c)).value, pc, pv[1..])
  {
    TakesPreserve(y.suite, y.server, y.client, ToClient(w), ToServer(w), pv, pc);
  }

  lemma {:induction false} ServerTakePreserves(y: System, w: World, pc: seq<Outgoing>, pv: seq<Outgoing>)
    requires y.Shaped() && Inv(y, w, pc, pv) && DataTake(y.suite, w.v, w.c2s).Some?
    ensures pc != [] && Inv(y, ServerActs(w, DataTake(y.suite, w.v, w.c2s)).value, pc[1..], pv)
  {
    TakesPreserve(y.suite, y.client, y.server, ToServer(w), ToClient(w), pc, pv);
  }

  /** A data send changes the sender's outgoing state only. */
  lemma {:induction false} SendsPreserve(
    s: Suite, p: Part, peer: Part, o: Flow, f: Flow, pending: seq<Outgoing>, other: seq<Outgoing>, m: Outgoing)
    requires p.Shaped() && peer.Shaped() && o.x == f.z && OnScript(p, o.x)
    requires InFlight(s, p, peer, o, pending) && InFlight(s, peer, p, f, other)
    requires DataSend(s, o.x, m).Some?
    ensures var v := DataSend(s, o.x, m).value;
      && OnScript(p, v.side) && v.got == []
      && InFlight(s, p, peer, o.(x := v.side, wire := o.wire + v.bytes, sent := o.sent + v.sent), pending + [m])
      && InFlight(s, peer, p, f.(z := v.side, got := f.got + v.got), other)
  {
    FlowSendsData(s, p, peer, o, pending, m);
    assert f.got + [] == f.got;
  }

  /** A data receive changes the receiver's incoming state only. */
  lemma {:induction false} TakesPreserve(
    s: Suite, peer: Part, p: Part, f: Flow, o: Flow, pending: seq<Outgoing>, other: seq<Outgoing>)
    requires p.Shaped() && peer.Shaped() && o.x == f.z && OnScript(p, f.z)
    requires InFlight(s, peer, p, f, pending) && InFlight(s, p, peer, o, other)
    requires DataTake(s, f.z, f.wire).Some?
    ensures pending != []
    ensures var v := DataTake(s, f.z, f.wire).value;
      && OnScript(p, v.side)
      && InFlight(s, peer, p, f.(z := v.side, wire := v.rest, got := f.got + v.got), pending[1..])
      && InFlight(s, p, peer, o.(x := v.side, wire := o.wire + v.bytes, sent := o.sent + v.sent), other)
  {
    SomethingToTake(s, peer, p, f, pending);
    FlowTakesData(s, peer, p, f, pending);
    TakesOut(s, p, peer, o, other, DataTake(s, f.z, f.wire).value);
  }

  lemma {:induction false} SomethingToTake(s: Suite, from: Part, to: Part, f: Flow, pending: seq<Outgoing>)
    requires from.Shaped() && to.Shaped() && InFlight(s, from, to, f, pending) && DataTake(s, f.z, f.wire).Some?
    ensures pending != [] && f.z.pc == 8
  {
    if pending == [] {
      NothingToTake(s, from, to, f);
    }
  }

  /** The outgoing direction of a data receive. */
  lemma {:induction false} TakesOut(s: Suite, p: Part, peer: Part, o: Flow, other: seq<Outgoing>, m: Move)
    requires p.Shaped() && peer.Shaped() && InFlight(s, p, peer, o, other) && OnScript(p, o.x) && o.x.pc == 8
    requires m.side == o.x.(inp := m.side.inp) && m.bytes == [] && m.sent == []
    ensures OnScript(p, m.side)
    ensures InFlight(s, p, peer, o.(x := m.side, wire := o.wire + m.bytes, sent := o.sent + m.sent), other)
  {
    AppendsNothing(o, m);
  }

  lemma {:induction false} Reachable(y: System, actions: seq<Action>, w: World) returns (pc: seq<Outgoing>, pv: seq<Outgoing>)
    requires y.Correct() && Leads(y, actions, w)
    ensures Inv(y, w, pc, pv)
    decreases |actions|
  {
    if actions == [] {
      Initially(y);
      pc, pv := [], [];
    } else {
      var n := |actions| - 1;
      var u := PerformAll(y.Runs(), Begin(y.client.states[0], y.server.states[0]), actions[..n]).value;
      pc, pv := Reachable(y, actions[..n], u);
      pc, pv := Preserved(y, u, actions[n], w, pc, pv);
    }
  }

  // ----- what holds in every reachable world -----

  /** Packets are taken in the order and in the mode they were sent in: each history of taken packets is a prefix. */
  lemma {:induction false} InOrderAndMode(y: System, actions: seq<Action>, w: World)
    requires y.Correct() && Leads(y, actions, w)
    ensures w.gotV <= w.sentC && w.gotC <= w.sentV
  {
    var pc, pv := Reachable(y, actions, w);
    FlowInOrder(y.suite, y.client, y.server, ToServer(w), pc);
    FlowInOrder(y.suite, y.server, y.client, ToClient(w), pv);
  }

  lemma {:induction false} FlowInOrder(s: Suite, from: Part, to: Part, f: Flow, pending: seq<Outgoing>)
    requires from.Shaped() && to.Shaped() && InFlight(s, from, to, f, pending)
    ensures f.got <= f.sent
    ensures Taken(to.role, f.z.pc) <= Sent(from.role, f.x.pc)
  {
  }

  /** Between two finished programs, only pending packets separate what was sent from what was taken. */
  lemma {:induction false} FlowDone(s: Suite, from: Part, to: Part, f: Flow, pending: seq<Outgoing>)
    requires from.Shaped() && to.Shaped() && InFlight(s, from, to, f, pending)
    requires f.x.pc == 8 && f.z.pc == 8
    ensures f.sent == f.got + DataItems(pending) && f.x.out == After(f.z.inp, pending)
  {
    assert Items(from, 4, 4) == [];
    assert f.got + [] == f.got;
  }

  lemma {:induction false} PendingIff(got: seq<Item>, sent: seq<Item>, pending: seq<Outgoing>)
    requires sent == got + DataItems(pending)
    ensures got == sent <==> pending == []
  {
    if pending != [] {
      assert |sent| > |got|;
    }
  }

  /** Until both programs are done, one of them can move. */
  lemma {:induction false} NeverStuck(y: System, actions: seq<Action>, w: World)
    requires y.Correct() && Leads(y, actions, w)
    requires w.c.pc < 8 || w.v.pc < 8
    ensures Perform(y.Runs(), w, ClientProgram).Some? || Perform(y.Runs(), w, ServerProgram).Some?
  {
    hide Inv, InFlight;
    var pc, pv := Reachable(y, actions, w);
    FlowInOrder(y.suite, y.client, y.server, ToServer(w), pc);
    FlowInOrder(y.suite, y.server, y.client, ToClient(w), pv);
    OneMayMove(w.c.pc, w.v.pc);
    if w.c.pc < 8 && MayMove(Client, w.c.pc, Server, w.v.pc) {
      CanMove(y.suite, y.client, y.server, ToClient(w), pv);
    } else {
      CanMove(y.suite, y.server, y.client, ToServer(w), pc);
    }
  }

  /** The next move is a send, or takes a message that is there. */
  predicate MayMove(r: Role, i: nat, peer: Role, j: nat)
    requires i < 8
  {
    SendsAt(r, i) || Taken(r, i) < Sent(peer, j)
  }

  /** The two scripts never wait for each other. */
  lemma OneMayMove(i: nat, j: nat)
    requires i <= 8 && j <= 8 && (i < 8 || j < 8)
    requires Taken(Client, i) <= Sent(Server, j) && Taken(Server, j) <= Sent(Client, i)
    ensures (i < 8 && MayMove(Client, i, Server, j)) || (j < 8 && MayMove(Server, j, Client, i))
  {
  }

  /** When both programs are done, every packet in flight can be taken. */
  lemma {:induction false} DataArrives(y: System, actions: seq<Action>, w: World)
    requires y.Correct() && Leads(y, actions, w) && w.v.pc == 8 && w.c.pc == 8
    ensures w.gotV != w.sentC ==> Perform(y.Runs(), w, ServerTakes).Some?
    ensures w.gotC != w.sentV ==> Perform(y.Runs(), w, ClientTakes).Some?
  {
    var pc, pv := Reachable(y, actions, w);
    TakesPossible(y, w, pc, pv);
    TakesPerform(y.Runs(), w);
  }

  lemma {:induction false} TakesPerform(m: Machine, w: World)
    ensures DataTake(m.suite, w.v, w.c2s).Some? ==> Perform(m, w, ServerTakes).Some?
    ensures DataTake(m.suite, w.c, w.s2c).Some? ==> Perform(m, w, ClientTakes).Some?
  {
  }

  lemma {:induction false} TakesPossible(y: System, w: World, pc: seq<Outgoing>, pv: seq<Outgoing>)
    requires y.Shaped() && Inv(y, w, pc, pv) && w.v.pc == 8 && w.c.pc == 8
    ensures w.gotV != w.sentC ==> DataTake(y.suite, w.v, w.c2s).Some?
    ensures w.gotC != w.sentV ==> DataTake(y.suite, w.c, w.s2c).Some?
  {
    if w.gotV != w.sentC {
      FlowArrives(y.suite, y.client, y.server, ToServer(w), pc);
    }
    if w.gotC != w.sentV {
      FlowArrives(y.suite, y.server, y.client, ToClient(w), pv);
    }
  }

  lemma {:induction false} FlowArrives(s: Suite, from: Part, to: Part, f: Flow, pending: seq<Outgoing>)
    requires from.Shaped() && to.Shaped() && InFlight(s, from, to, f, pending)
    requires f.x.pc == 8 && f.z.pc == 8 && f.got != f.sent
    ensures DataTake(s, f.z, f.wire).Some?
  {
    FlowDone(s, from, to, f, pending);
    PendingIff(f.got, f.sent, pending);
    FlowTakesData(s, from, to, f, pending);
  }

  /** When both programs are done, the sides hold what their scripts say; with nothing in flight the directions agree crosswise. */
  lemma {:induction false} Agreement(y: System, actions: seq<Action>, w: World)
    requires y.Correct() && Leads(y, actions, w)
    requires w.c.pc == 8 && w.v.pc == 8
    ensures w.c == y.client.states[8].(out := w.c.out, inp := w.c.inp)
    ensures w.v == y.server.states[8].(out := w.v.out, inp := w.v.inp)
    ensures w.gotV == w.sentC ==> w.c.out == w.v.inp
    ensures w.gotC == w.sentV ==> w.v.out == w.c.inp
  {
    var pc, pv := Reachable(y, actions, w);
    FlowDone(y.suite, y.client, y.server, ToServer(w), pc);
    FlowDone(y.suite, y.server, y.client, ToClient(w), pv);
    PendingIff(w.gotV, w.sentC, pc);
    PendingIff(w.gotC, w.sentV, pv);
  }

  /** While nothing but the two programs has run, each side holds exactly what its script says, its directions included. */
  lemma {:induction false} ProgramsOnly(y: System, actions: seq<Action>, w: World)
    requires y.Correct() && Leads(y, actions, w)
    requires forall a :: a in actions ==> a == ClientProgram || a == ServerProgram
    ensures Inv(y, w, [], []) && w.c == y.client.states[w.c.pc] && w.v == y.server.states[w.v.pc]
    decreases |actions|
  {
    if actions == [] {
      Initially(y);
    } else {
      var n := |actions| - 1;
      var u := PerformAll(y.Runs(), Begin(y.client.states[0], y.server.states[0]), actions[..n]).value;
      assert forall a :: a in actions[..n] ==> a in actions;
      assert actions[n] in actions;
      ProgramsOnly(y, actions[..n], u);
      ProgramsOnlyStep(y, u, actions[n], w);
    }
  }

  lemma {:induction false} ProgramsOnlyStep(y: System, w: World, a: Action, w': World)
    requires y.Correct() && Inv(y, w, [], []) && Perform(y.Runs(), w, a) == Some(w')
    requires a == ClientProgram || a == ServerProgram
    requires w.c == y.client.states[w.c.pc] && w.v == y.server.states[w.v.pc]
    ensures Inv(y, w', [], []) && w'.c == y.client.states[w'.c.pc] && w'.v == y.server.states[w'.v.pc]
  {
    hide InFlight;
    if a == ClientProgram {
      var m := y.client.program(w.c, w.s2c).value;
      ClientMovePreserves(y, w, [], [], m);
      ProgramMove(y.suite, y.client, y.server, ToServer(w), ToClient(w), [], m);
    } else {
      var m := y.server.program(w.v, w.c2s).value;
      ServerMovePreserves(y, w, [], [], m);
      ProgramMove(y.suite, y.server, y.client, ToClient(w), ToServer(w), [], m);
    }
  }
}
