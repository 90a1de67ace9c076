/**
 * The exchange byte by byte: a send puts its bytes on the stream in as many pieces as the transport likes, and the peer may act
 * in between on what has arrived. Every such run is a run of whole messages, so the theorems of FirstExchange hold of it.
 */
module PartialTransfer {
  import opened Octets
  import opened Wrappers
  import opened Cipher
  import opened Wire
  import opened Packet
  import opened Identification
  import opened Handshake
  import opened Interleaving
  import FirstExchange
  import KexInit

  // ----- more input does not change what a move makes of the beginning -----

  /** Whatever the program makes of this input it makes of any longer one, and leaves the rest alone. */
  ghost predicate Extends(p: Program, x: Side, input: Bytes, tail: Bytes) {
    var m := p(x, input);
    m.Some? ==> p(x, input + tail) == Some(m.value.(rest := m.value.rest + tail))
  }

  lemma {:induction false} Slices(input: Bytes, tail: Bytes, n: nat)
    requires n <= |input|
    ensures (input + tail)[..n] == input[..n] && (input + tail)[n..] == input[n..] + tail
  {
  }

  lemma {:induction false} PlainExtends(h: Half, input: Bytes, tail: Bytes, max: nat)
    requires DecodePlain(h, input, max).Some?
    ensures var r := DecodePlain(h, input, max).value;
      DecodePlain(h, input + tail, max) == Some(r.(rest := r.rest + tail))
  {
    assert (input + tail)[0..4] == input[0..4];
    Slices(input, tail, 4 + U32At(input, 0));
  }

  lemma {:induction false} RestExtends(s: Suite, h: Half, first: Block, m: nat, input: Bytes, tail: Bytes, max: nat)
    requires DecodeRest(s, h, first, m, input, max).Some?
    ensures var r := DecodeRest(s, h, first, m, input, max).value;
      DecodeRest(s, h, first, m, input + tail, max) == Some(r.(rest := r.rest + tail))
  {
    Slices(input, tail, m);
    Slices(input, tail, m + MAC_LEN);
    assert (input + tail)[m..m + MAC_LEN] == input[m..m + MAC_LEN];
  }

  lemma {:induction false} EncryptedExtends(s: Suite, h: Half, input: Bytes, tail: Bytes, max: nat)
    requires DecodeEncrypted(s, h, input, max).Some?
    ensures var r := DecodeEncrypted(s, h, input, max).value;
      DecodeEncrypted(s, h, input + tail, max) == Some(r.(rest := r.rest + tail))
  {
    hide DecodeRest, Ctr;
    Slices(input, tail, 16);
    var first := Ctr(s, h.key, input[..16], h.counter);
    var packetLen := U32At(first, 0);
    RestExtends(s, h.(counter := CtrAdd(h.counter, 1)), first, packetLen - 12, input[16..], tail, max);
  }

  lemma {:induction false} DecodeExtends(s: Suite, h: Half, input: Bytes, tail: Bytes, max: nat)
    requires Decode(s, h, input, max).Some?
    ensures var r := Decode(s, h, input, max).value;
      Decode(s, h, input + tail, max) == Some(r.(rest := r.rest + tail))
  {
    hide DecodePlain, DecodeEncrypted;
    if h.encrypted {
      EncryptedExtends(s, h, input, tail, max);
    } else {
      PlainExtends(h, input, tail, max);
    }
  }

  lemma {:induction false} SkipLineExtends(input: Bytes, tail: Bytes)
    requires SkipLine(input).Some?
    ensures var l := SkipLine(input).value; SkipLine(input + tail) == Some(l.(rest := l.rest + tail))
  {
    Slices(input, tail, 1);
    if input[0] != LF {
      SkipLineExtends(input[1..], tail);
    }
  }

  lemma {:induction false} ReadLineExtends(used: Bytes, input: Bytes, tail: Bytes)
    requires ReadLine(used, input).Some?
    ensures var l := ReadLine(used, input).value; ReadLine(used, input + tail) == Some(l.(rest := l.rest + tail))
    decreases |input|
  {
    if |used| == MAX_IDENT_LEN {
      SkipLineExtends(input, tail);
    } else {
      Slices(input, tail, 1);
      if input[0] == CR {
        ReadLineExtends(used, input[1..], tail);
      } else if input[0] != LF {
        ReadLineExtends(used + [input[0]], input[1..], tail);
      }
    }
  }

  lemma {:induction false} FindIdentExtends(input: Bytes, tail: Bytes, n: nat)
    requires FindIdent(input, n).Some?
    ensures var l := FindIdent(input, n).value; FindIdent(input + tail, n) == Some(l.(rest := l.rest + tail))
    decreases n
  {
    hide ReadLine, CString, IsIdent;
    ReadLineExtends([], input, tail);
    var line := ReadLine([], input).value;
    if !IsIdent(CString(line.text)) {
      FindIdentExtends(line.rest, tail, n - 1);
    }
  }

  lemma {:induction false} WaitForExtends(g: Config, h: Half, input: Bytes, tail: Bytes, wanted: byte, max: nat, n: nat)
    requires WaitFor(g, h, input, wanted, max, n).Some?
    ensures var r := WaitFor(g, h, input, wanted, max, n).value;
      WaitFor(g, h, input + tail, wanted, max, n) == Some(r.(rest := r.rest + tail))
    decreases n
  {
    hide Decode;
    DecodeExtends(g.suite, h, input, tail, MAX_PACKET_LEN);
    var r := Decode(g.suite, h, input, MAX_PACKET_LEN).value;
    if r.payload == [] || (r.payload[0] != KexInit.MSG_KEXINIT && r.payload[0] != wanted) {
      WaitForExtends(g, r.half, r.rest, tail, wanted, max, n - 1);
    }
  }

  lemma {:induction false} LineExtends(g: Config, x: Side, input: Bytes, tail: Bytes)
    ensures var m := TakeLine(x, input); m.Some? ==> TakeLine(x, input + tail) == Some(m.value.(rest := m.value.rest + tail))
  {
    hide FindIdent;
    if TakeLine(x, input).Some? {
      FindIdentExtends(input, tail, MAX_BANNER_LINES);
    }
  }

  lemma {:induction false} KexInitExtends(g: Config, x: Side, input: Bytes, tail: Bytes, accepts: Bytes -> bool)
    ensures var m := TakeKexInit(g, x, input, accepts);
      m.Some? ==> TakeKexInit(g, x, input + tail, accepts) == Some(m.value.(rest := m.value.rest + tail))
  {
    hide Decode;
    if Decode(g.suite, x.inp, input, MAX_PACKET_LEN).Some? {
      DecodeExtends(g.suite, x.inp, input, tail, MAX_PACKET_LEN);
    }
  }

  lemma {:induction false} ReplyExtends(g: Config, x: Side, input: Bytes, tail: Bytes)
    ensures var m := ClientTakesReply(g, x, input);
      m.Some? ==> ClientTakesReply(g, x, input + tail) == Some(m.value.(rest := m.value.rest + tail))
  {
    hide WaitFor, ReadReply, Hash, VerifyHost;
    if WaitFor(g, x.inp, input, MSG_KEX_ECDH_REPLY, 2048, g.waitLimit).Some? {
      WaitForExtends(g, x.inp, input, tail, MSG_KEX_ECDH_REPLY, 2048, g.waitLimit);
    }
  }

  lemma {:induction false} ClientNewKeysExtends(g: Config, x: Side, input: Bytes, tail: Bytes)
    ensures var m := ClientTakesNewKeys(g, x, input);
      m.Some? ==> ClientTakesNewKeys(g, x, input + tail) == Some(m.value.(rest := m.value.rest + tail))
  {
    hide WaitFor, SwitchClient;
    if WaitFor(g, x.inp, input, MSG_NEWKEYS, 2048, g.waitLimit).Some? {
      WaitForExtends(g, x.inp, input, tail, MSG_NEWKEYS, 2048, g.waitLimit);
    }
  }

  lemma {:induction false} ServerInitExtends(g: Config, x: Side, input: Bytes, tail: Bytes)
    ensures var m := ServerTakesInit(g, x, input);
      m.Some? ==> ServerTakesInit(g, x, input + tail) == Some(m.value.(rest := m.value.rest + tail))
  {
    hide Decode, ReadString, Hash;
    if Decode(g.suite, x.inp, input, 2048).Some? {
      DecodeExtends(g.suite, x.inp, input, tail, 2048);
    }
  }

  lemma {:induction false} ServerNewKeysExtends(g: Config, x: Side, input: Bytes, tail: Bytes)
    ensures var m := ServerTakesNewKeys(g, x, input);
      m.Some? ==> ServerTakesNewKeys(g, x, input + tail) == Some(m.value.(rest := m.value.rest + tail))
  {
    hide Decode, SwitchServer;
    if Decode(g.suite, x.inp, input, 64).Some? {
      DecodeExtends(g.suite, x.inp, input, tail, 64);
    }
  }

  lemma {:induction false} ClientExtends(g: Config, x: Side, input: Bytes, tail: Bytes)
    ensures Extends(FirstExchange.ClientRuns(g), x, input, tail)
  {
    hide TakeLine, TakeKexInit, ClientTakesReply, ClientTakesNewKeys, Sendable, Encode, Next;
    LineExtends(g, x, input, tail);
    KexInitExtends(g, x, input, tail, KexInit.ClientAccepts);
    ReplyExtends(g, x, input, tail);
    ClientNewKeysExtends(g, x, input, tail);
  }

  lemma {:induction false} ServerExtends(g: Config, x: Side, input: Bytes, tail: Bytes)
    ensures Extends(FirstExchange.ServerRuns(g), x, input, tail)
  {
    hide TakeLine, TakeKexInit, ServerTakesInit, ServerTakesNewKeys, Sendable, Encode, Next;
    LineExtends(g, x, input, tail);
    KexInitExtends(g, x, input, tail, KexInit.ServerAccepts);
    ServerInitExtends(g, x, input, tail);
    ServerNewKeysExtends(g, x, input, tail);
  }

  lemma {:induction false} DataTakeExtends(s: Suite, x: Side, input: Bytes, tail: Bytes)
    ensures var m := DataTake(s, x, input); m.Some? ==> DataTake(s, x, input + tail) == Some(m.value.(rest := m.value.rest + tail))
  {
    hide Decode;
    if Decode(s, x.inp, input, MAX_PACKET_LEN).Some? {
      DecodeExtends(s, x.inp, input, tail, MAX_PACKET_LEN);
    }
  }

  // ----- the machine that moves bytes -----

  /**
   * Two ends and two streams, with what each end has still to put on its stream. A side that is in the middle of a send does
   * nothing else. Bytes that a receive has read count as on the stream until the receive is complete.
   */
  datatype Halfway = Halfway(w: World, fromClient: Bytes, fromServer: Bytes)
  {
    /** The world in which every send is complete. */
    function Whole(): World {
      w.(c2s := w.c2s + fromClient, s2c := w.s2c + fromServer)
    }
  }

  datatype Step = Act(a: Action) | ClientPushes(n: nat) | ServerPushes(n: nat)

  /** An action begins when the side's last send is out; its own bytes wait to be pushed. */
  function Acts(y: Machine, x: Halfway, a: Action): Option<Halfway> {
    match MoveOf(y, x.w, a)
    case None => None
    case Some(m) =>
      if ByClient(a) then
        if x.fromClient != [] then None
        else Some(x.(w := ClientActs(x.w, Some(m.(bytes := []))).value, fromClient := m.bytes))
      else
        if x.fromServer != [] then None
        else Some(x.(w := ServerActs(x.w, Some(m.(bytes := []))).value, fromServer := m.bytes))
  }

  function TakeStep(y: Machine, x: Halfway, s: Step): Option<Halfway> {
    match s
    case Act(a) => Acts(y, x, a)
    case ClientPushes(n) =>
      if 0 < n <= |x.fromClient| then
        Some(x.(w := x.w.(c2s := x.w.c2s + x.fromClient[..n]), fromClient := x.fromClient[n..]))
      else None
    case ServerPushes(n) =>
      if 0 < n <= |x.fromServer| then
        Some(x.(w := x.w.(s2c := x.w.s2c + x.fromServer[..n]), fromServer := x.fromServer[n..]))
      else None
  }

  function TakeSteps(y: Machine, x: Halfway, steps: seq<Step>): Option<Halfway> {
    if steps == [] then Some(x)
    else
      match TakeSteps(y, x, steps[..|steps| - 1])
      case None => None
      case Some(u) => TakeStep(y, u, steps[|steps| - 1])
  }

  // ----- a run of bytes is a run of messages -----

  lemma {:induction false} MoveExtends(g: Config, w: World, a: Action, toClient: Bytes, toServer: Bytes)
    requires MoveOf(Programs(g), w, a).Some?
    ensures var m := MoveOf(Programs(g), w, a).value;
      MoveOf(Programs(g), w.(s2c := w.s2c + toClient, c2s := w.c2s + toServer), a)
        == Some(m.(rest := m.rest + if ByClient(a) then toClient else toServer))
  {
    hide ClientMove, ServerMove, Decode, Encode, Sendable, Next;
    match a {
      case ClientProgram => ClientExtends(g, w.c, w.s2c, toClient);
      case ServerProgram => ServerExtends(g, w.v, w.c2s, toServer);
      case ClientTakes => DataTakeExtends(g.suite, w.c, w.s2c, toClient);
      case ServerTakes => DataTakeExtends(g.suite, w.v, w.c2s, toServer);
      case ClientSends(_, _) =>
      case ServerSends(_, _) =>
    }
  }

  function Programs(g: Config): Machine {
    Machine(g.suite, FirstExchange.ClientRuns(g), FirstExchange.ServerRuns(g))
  }

  /** An action halfway is the action on the whole, and a push changes nothing there. */
  lemma {:induction false} Simulates(g: Config, x: Halfway, s: Step, z: Halfway)
    requires TakeStep(Programs(g), x, s) == Some(z)
    ensures if s.Act? then Perform(Programs(g), x.Whole(), s.a) == Some(z.Whole()) else z.Whole() == x.Whole()
  {
    hide MoveOf;
    match s {
      case Act(a) =>
        MoveExtends(g, x.w, a, x.fromServer, x.fromClient);
        WholeAfter(x, a, MoveOf(Programs(g), x.w, a).value, z);
      case ClientPushes(n) =>
        Regroup(x.w.c2s, x.fromClient[..n], x.fromClient[n..]);
        assert x.fromClient[..n] + x.fromClient[n..] == x.fromClient;
      case ServerPushes(n) =>
        Regroup(x.w.s2c, x.fromServer[..n], x.fromServer[n..]);
        assert x.fromServer[..n] + x.fromServer[n..] == x.fromServer;
    }
  }

  lemma {:induction false} WholeAfter(x: Halfway, a: Action, m: Move, z: Halfway)
    requires if ByClient(a) then
        x.fromClient == [] && z == x.(w := ClientActs(x.w, Some(m.(bytes := []))).value, fromClient := m.bytes)
      else x.fromServer == [] && z == x.(w := ServerActs(x.w, Some(m.(bytes := []))).value, fromServer := m.bytes)
    ensures var n := Some(m.(rest := m.rest + if ByClient(a) then x.fromServer else x.fromClient));
      Some(z.Whole()) == if ByClient(a) then ClientActs(x.Whole(), n) else ServerActs(x.Whole(), n)
  {
    assert x.w.c2s + [] == x.w.c2s && x.w.s2c + [] == x.w.s2c;
  }

  /** The actions of a run, without the pushes. */
  function ActionsOf(steps: seq<Step>): seq<Action> {
    if steps == [] then []
    else
      var s := steps[|steps| - 1];
      ActionsOf(steps[..|steps| - 1]) + (if s.Act? then [s.a] else [])
  }

  lemma {:induction false} PerformNext(y: Machine, w: World, actions: seq<Action>, a: Action)
    ensures PerformAll(y, w, actions + [a])
         == match PerformAll(y, w, actions) case None => None case Some(u) => Perform(y, u, a)
  {
    assert (actions + [a])[..|actions|] == actions;
  }

  /** Every run byte by byte is, seen as a whole, the run of its actions message by message. */
  lemma {:induction false} RunOfMessages(g: Config, x: Halfway, steps: seq<Step>, z: Halfway)
    requires TakeSteps(Programs(g), x, steps) == Some(z)
    ensures PerformAll(Programs(g), x.Whole(), ActionsOf(steps)) == Some(z.Whole())
    decreases |steps|
  {
    hide TakeStep, Perform, Programs;
    if steps != [] {
      var front, s := steps[..|steps| - 1], steps[|steps| - 1];
      var u := TakeSteps(Programs(g), x, front).value;
      RunOfMessages(g, x, front, u);
      Simulates(g, u, s, z);
      if s.Act? {
        PerformNext(Programs(g), x.Whole(), ActionsOf(front), s.a);
      } else {
        assert ActionsOf(front) + [] == ActionsOf(front);
      }
    }
  }

  // ----- the theorems, byte by byte -----

  /** Any interleaving of moves, pushes and later packets, from two fresh ends. */
  predicate Reaches(g: Config, steps: seq<Step>, x: Halfway) {
    TakeSteps(Programs(g), Halfway(Begin(Fresh(), Fresh()), [], []), steps) == Some(x)
  }

  lemma {:induction false} ReachesWhole(g: Config, steps: seq<Step>, x: Halfway)
    requires Reaches(g, steps, x)
    ensures FirstExchange.Reaches(g, ActionsOf(steps), x.Whole())
  {
    hide TakeSteps, PerformAll, ActionsOf;
    var start := Halfway(Begin(Fresh(), Fresh()), [], []);
    RunOfMessages(g, start, steps, x);
    assert start.Whole() == start.w;
  }

  /** However sends are cut into pieces, every packet is taken in the order and in the mode that it was sent in. */
  lemma {:induction false} ModesMatch(g: Config, v: Outcome, steps: seq<Step>, x: Halfway)
    requires Ready(g, v) && Reaches(g, steps, x)
    ensures x.w.gotV <= x.w.sentC && x.w.gotC <= x.w.sentV
  {
    hide Ready, Reaches;
    ReachesWhole(g, steps, x);
    FirstExchange.ModesMatch(g, v, ActionsOf(steps), x.Whole());
  }

  predicate CanStep(g: Config, x: Halfway, s: Step) {
    TakeStep(Programs(g), x, s).Some?
  }

  lemma {:induction false} WholeCanStep(g: Config, x: Halfway, a: Action)
    requires x.fromClient == [] && x.fromServer == [] && FirstExchange.CanGo(g, x.Whole(), a)
    ensures CanStep(g, x, Act(a))
  {
    hide MoveOf;
    assert x.Whole() == x.w;
  }

  lemma {:induction false} PushesGo(g: Config, x: Halfway)
    ensures x.fromClient != [] ==> CanStep(g, x, ClientPushes(|x.fromClient|))
    ensures x.fromServer != [] ==> CanStep(g, x, ServerPushes(|x.fromServer|))
  {
  }

  /**
   * No reachable state is stuck. A send in progress can go on; when none is, a program can move until both are done, and then
   * every packet in flight can be taken.
   */
  lemma {:induction false} AlwaysProgress(g: Config, v: Outcome, steps: seq<Step>, x: Halfway)
    requires Ready(g, v) && Reaches(g, steps, x)
    ensures x.fromClient != [] ==> CanStep(g, x, ClientPushes(|x.fromClient|))
    ensures x.fromServer != [] ==> CanStep(g, x, ServerPushes(|x.fromServer|))
    ensures x.fromClient == [] && x.fromServer == [] ==>
      && (x.w.c.pc < 8 || x.w.v.pc < 8 ==> CanStep(g, x, Act(ClientProgram)) || CanStep(g, x, Act(ServerProgram)))
      && (x.w.c.pc == 8 && x.w.v.pc == 8 && x.w.gotV != x.w.sentC ==> CanStep(g, x, Act(ServerTakes)))
      && (x.w.c.pc == 8 && x.w.v.pc == 8 && x.w.gotC != x.w.sentV ==> CanStep(g, x, Act(ClientTakes)))
  {
    hide Ready, Reaches, FirstExchange.CanGo, CanStep;
    PushesGo(g, x);
    if x.fromClient == [] && x.fromServer == [] {
      ReachesWhole(g, steps, x);
      FirstExchange.AlwaysProgress(g, v, ActionsOf(steps), x.Whole());
      forall a | FirstExchange.CanGo(g, x.Whole(), a)
        ensures CanStep(g, x, Act(a))
      {
        WholeCanStep(g, x, a);
      }
    }
  }

  /** Both sides agree at completion, and the directions fit when nothing is in flight, however the bytes were moved. */
  lemma {:induction false} SidesAgree(g: Config, v: Outcome, steps: seq<Step>, x: Halfway)
    requires Ready(g, v) && Reaches(g, steps, x) && x.w.c.pc == 8 && x.w.v.pc == 8
    ensures x.w.c.sessionId == x.w.v.sessionId == v.hash && x.w.c.secret == x.w.v.secret == v.secret
    ensures x.w.c.keys == x.w.v.keys == Some(v.keys)
    ensures x.w.gotV == x.w.sentC ==> x.w.c.out == x.w.v.inp
    ensures x.w.gotC == x.w.sentV ==> x.w.v.out == x.w.c.inp
  {
    hide Ready, Reaches;
    ReachesWhole(g, steps, x);
    FirstExchange.SidesAgree(g, v, ActionsOf(steps), x.Whole());
  }
}
