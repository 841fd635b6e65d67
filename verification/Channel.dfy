/** The peer sessions of one Android endpoint with one Wisp, over a relay that may drop, duplicate,
    reorder, reflect, alter or invent messages, handshakes included. The only thing it cannot do is
    make a ciphertext under a key of a session, or a handshake message, that an endpoint did not make.

    Android gives every handshake a fresh session id and master secret and makes one session object
    for it. The Wisp makes a new object for every copy of a handshake that arrives
    (client.py:395-415), so the objects of one handshake share their keys. */
module Channel {
  import opened Wrappers
  import opened PeerSessions

  /** The body of a `session_init`. */
  datatype Handshake = Handshake(sessionId: string, master: nat)

  /** A session object, with what it encrypted, what it accepted, and the frames it was given. */
  datatype Side = Side(session: Session, sent: seq<Body>, accepted: seq<Body>, arrived: seq<Envelope>)

  /** A session object of the Wisp and the handshake it was made from. */
  datatype WispSide = WispSide(init: nat, side: Side)

  datatype Origin = ByAndroid(index: nat) | ByWisp(index: nat)

  /** A frame that was encrypted: which object did it, and its number there. */
  datatype Sent = Sent(origin: Origin, number: nat, frame: Envelope)

  /** `android[i]` is Android's object for handshake `i`, in use once it is `ready`; `wisp` are all
      objects the Wisp ever made, `current` the one in `_peer_sessions`. */
  datatype State = State(androidId: string, wispId: string, inits: seq<Handshake>,
                         android: seq<Side>, ready: set<nat>,
                         wisp: seq<WispSide>, current: Option<nat>, wire: seq<Sent>)

  datatype Step =
    | AndroidInit(h: Handshake)
    | InitReachesWisp(i: nat)
    | AcceptReachesAndroid(i: nat)
    | AndroidSends(i: nat, body: Body)
    | WispSends(body: Body)
    | FrameReachesWisp(frame: Envelope)
    | ResetReachesWisp
    | FrameReachesAndroid(i: nat, frame: Envelope)

  // ---------------------------------------------------------------- one step

  function NewAndroidSide(s: State, h: Handshake, now: real): Side {
    Side(Opened(Kotlin, h.sessionId, s.androidId, s.wispId, h.master, now, true), [], [], [])
  }

  function NewWispSide(s: State, i: nat, now: real): WispSide
    requires i < |s.inits|
  {
    var h := s.inits[i];
    WispSide(i, Side(Opened(Python, h.sessionId, s.wispId, s.androidId, h.master, now, false), [], [], []))
  }

  predicate ValidSides(s: State) {
    && |s.android| == |s.inits|
    && (forall i :: 0 <= i < |s.android| ==> s.android[i].session.Valid())
    && (forall o :: 0 <= o < |s.wisp| ==> s.wisp[o].side.session.Valid())
    && (s.current.Some? ==> s.current.value < |s.wisp|)
  }

  predicate ValidOrigin(s: State, origin: Origin) {
    match origin
    case ByAndroid(i) => i < |s.android|
    case ByWisp(o) => o < |s.wisp|
  }

  function SideOf(s: State, origin: Origin): Side
    requires ValidOrigin(s, origin)
  {
    match origin
    case ByAndroid(i) => s.android[i]
    case ByWisp(o) => s.wisp[o].side
  }

  function SetSide(s: State, origin: Origin, side: Side): State
    requires ValidOrigin(s, origin)
  {
    match origin
    case ByAndroid(i) => s.(android := s.android[i := side])
    case ByWisp(o) => s.(wisp := s.wisp[o := s.wisp[o].(side := side)])
  }

  predicate OfSession(s: State, key: SessionKey) {
    exists i :: 0 <= i < |s.inits| && s.inits[i] == Handshake(key.sessionId, key.master)
  }

  predicate Encrypted(s: State, c: Ciphertext) {
    exists k :: 0 <= k < |s.wire| && s.wire[k].frame.ciphertext == c
  }

  /** The frames the relay can come up with. */
  predicate Derivable(s: State, frame: Envelope) {
    frame.ciphertext.Sealed? && OfSession(s, frame.ciphertext.key) ==> Encrypted(s, frame.ciphertext)
  }

  predicate Enabled(s: State, step: Step, now: real)
    requires ValidSides(s)
  {
    match step
    case AndroidInit(h) => h !in s.inits
    case InitReachesWisp(i) => i < |s.inits|
    case AcceptReachesAndroid(i) =>
      i < |s.android| && Live(s.android[i].session, now) && exists o :: 0 <= o < |s.wisp| && s.wisp[o].init == i
    case AndroidSends(i, _) => i < |s.android| && i in s.ready
    case WispSends(_) => s.current.Some?
    case FrameReachesWisp(frame) => Derivable(s, frame)
    case ResetReachesWisp => true
    case FrameReachesAndroid(i, frame) => i < |s.android| && i in s.ready && Derivable(s, frame)
  }

  /** `PeerSession.encrypt` on one object, when it does not raise. */
  function AfterSend(side: Side, body: Body): Side
    requires side.session.Valid()
  {
    var session := side.session;
    side.(session := session.(sendSequence := Advance(session.runtime, session.sendSequence)),
          sent := side.sent + [body])
  }

  /** `PeerSession.decrypt` on one object; a frame that is rejected leaves the counter alone. */
  function AfterReceive(side: Side, frame: Envelope, now: real): Side
    requires side.session.Valid()
  {
    var session, given := side.session, side.(arrived := side.arrived + [frame]);
    if Accepts(session, frame, now) then
      given.(session := session.(receiveSequence := Advance(session.runtime, session.receiveSequence)),
             accepted := side.accepted + [frame.ciphertext.body])
    else given
  }

  /** A send that raises changes nothing. */
  function SendFrom(s: State, origin: Origin, body: Body, now: real): State
    requires ValidOrigin(s, origin) && SideOf(s, origin).session.Valid()
  {
    var side := SideOf(s, origin);
    if CanSend(side.session, now) then
      SetSide(s, origin, AfterSend(side, body))
      .(wire := s.wire + [Sent(origin, |side.sent|, NextFrame(side.session, body))])
    else s
  }

  function ReceiveAt(s: State, origin: Origin, frame: Envelope, now: real): State
    requires ValidOrigin(s, origin) && SideOf(s, origin).session.Valid()
  {
    SetSide(s, origin, AfterReceive(SideOf(s, origin), frame, now))
  }

  /** The body the Wisp gets out of a frame, if any. */
  function Delivered(s: State, frame: Envelope, now: real): Option<Body>
    requires ValidSides(s)
  {
    if s.current.Some? && Accepts(s.wisp[s.current.value].side.session, frame, now) then Some(frame.ciphertext.body)
    else None
  }

  function Next(s: State, step: Step, now: real): State
    requires ValidSides(s) && Enabled(s, step, now)
  {
    match step
    case AndroidInit(h) => s.(inits := s.inits + [h], android := s.android + [NewAndroidSide(s, h, now)])
    case InitReachesWisp(i) => s.(wisp := s.wisp + [NewWispSide(s, i, now)], current := Some(|s.wisp|))
    case AcceptReachesAndroid(i) => s.(ready := s.ready + {i})
    case AndroidSends(i, body) => SendFrom(s, ByAndroid(i), body, now)
    case WispSends(body) => SendFrom(s, ByWisp(s.current.value), body, now)
    case FrameReachesWisp(frame) =>
      if s.current.None? then s
      else
        var t := ReceiveAt(s, ByWisp(s.current.value), frame, now);
        if Delivered(s, frame, now).Some? then t else t.(current := None)
    case ResetReachesWisp => s.(current := None)
    case FrameReachesAndroid(i, frame) => ReceiveAt(s, ByAndroid(i), frame, now)
  }

  /** What `_peer_sessions` holds for the Android endpoint. */
  function Slot(s: State): Option<Session>
    requires ValidSides(s)
  {
    if s.current.Some? then Some(s.wisp[s.current.value].side.session) else None
  }

  /** The steps change the slot, and deliver a body, as the runtime's methods do. */
  lemma SlotFollowsRuntime(s: State, step: Step, now: real)
    requires ValidSides(s) && Enabled(s, step, now)
    ensures match step
            case InitReachesWisp(i) =>
              Next(s, step, now).current.Some? && Next(s, step, now).wisp[|s.wisp|].side.session
              == Opened(Python, s.inits[i].sessionId, s.wispId, s.androidId, s.inits[i].master, now, false)
            case FrameReachesWisp(frame) =>
              && ValidSides(Next(s, step, now))
              && (Slot(Next(s, step, now)), Delivered(s, frame, now)) == SlotAfter(Slot(s), frame, now)
            case ResetReachesWisp => Next(s, step, now).current == None
            case _ => Next(s, step, now).current == s.current
  {
  }

  /** What a step does to the Wisp's objects: at most one is added, or one accepts the delivered body. */
  lemma WispChange(s: State, step: Step, now: real)
    requires ValidSides(s) && Enabled(s, step, now)
    ensures var t := Next(s, step, now);
            if step.InitReachesWisp? then
              |t.wisp| == |s.wisp| + 1 && t.wisp[..|s.wisp|] == s.wisp && t.wisp[|s.wisp|].side.accepted == []
            else if (step.WispSends? || step.FrameReachesWisp?) && s.current.Some? then
              var o := s.current.value;
              && |t.wisp| == |s.wisp| && t.wisp == s.wisp[o := t.wisp[o]]
              && t.wisp[o].side.accepted == s.wisp[o].side.accepted
                 + if step.FrameReachesWisp? && Delivered(s, step.frame, now).Some?
                   then [Delivered(s, step.frame, now).value] else []
            else t.wisp == s.wisp
  {
    hide Derivable, Nonce;
  }

  lemma NothingDelivered(s: State, frame: Envelope, now: real)
    requires ValidSides(s) && s.current.None?
    ensures Delivered(s, frame, now).None?
  {
  }

  lemma StepKeepsIds(s: State, step: Step, now: real)
    requires ValidSides(s) && Enabled(s, step, now)
    ensures Next(s, step, now).androidId == s.androidId && Next(s, step, now).wispId == s.wispId
  {
  }

  function Start(androidId: string, wispId: string): State {
    State(androidId, wispId, [], [], {}, [], None, [])
  }

  type Run = seq<(Step, real)>

  ghost predicate LeadsTo(s: State, run: Run, t: State)
    decreases |run|
  {
    if run == [] then t == s
    else
      var (step, now) := run[|run| - 1];
      exists prev: State ::
        LeadsTo(s, run[..|run| - 1], prev) && ValidSides(prev) && Enabled(prev, step, now) && t == Next(prev, step, now)
  }

  /** A state that some run between two endpoints leads to. */
  ghost predicate Reachable(run: Run, s: State) {
    LeadsTo(Start(s.androidId, s.wispId), run, s)
  }

  // ---------------------------------------------------------------- the invariant

  /** How a counter that has been advanced `count` times from 0 reads. */
  predicate Counted(runtime: Runtime, counter: int, count: nat) {
    counter == count || (runtime == Kotlin && count == TWO_63 && counter == -TWO_63)
  }

  function Limit(runtime: Runtime): nat {
    if runtime == Kotlin then TWO_63 else TWO_64
  }

  predicate Numbered(side: Side) {
    && side.session.Valid()
    && |side.sent| <= Limit(side.session.runtime) && |side.accepted| <= Limit(side.session.runtime)
    && Counted(side.session.runtime, side.session.sendSequence, |side.sent|)
    && Counted(side.session.runtime, side.session.receiveSequence, |side.accepted|)
  }

  /** The frame that carries message number `n` of a side. */
  function Message(side: Side, n: nat): Envelope
    requires n < |side.sent| <= Limit(side.session.runtime)
  {
    var s := side.session;
    Frame(s.sendKey, s.sessionId, s.localId, s.peerId, n, Nonce(s.runtime, n).value, side.sent[n])
  }

  /** A session object but for its counters and its age. */
  function Identity(session: Session): Session {
    session.(sendSequence := 0, receiveSequence := 0, createdAt := 0.0)
  }

  predicate AndroidShape(s: State, i: nat)
    requires i < |s.android|
  {
    && i < |s.inits| && Numbered(s.android[i])
    && Identity(s.android[i].session) == Identity(NewAndroidSide(s, s.inits[i], 0.0).session)
  }

  predicate WispShape(s: State, o: nat)
    requires o < |s.wisp|
  {
    && s.wisp[o].init < |s.inits| && Numbered(s.wisp[o].side)
    && Identity(s.wisp[o].side.session) == Identity(NewWispSide(s, s.wisp[o].init, 0.0).side.session)
  }

  predicate Shapes(s: State) {
    && |s.android| == |s.inits|
    && (forall i :: 0 <= i < |s.android| ==> AndroidShape(s, i))
    && (forall o :: 0 <= o < |s.wisp| ==> WispShape(s, o))
    && (forall i, j :: 0 <= i < j < |s.inits| ==> s.inits[i] != s.inits[j])
    && (s.current.Some? ==> s.current.value < |s.wisp|)
  }

  /** Wire entry `k` is the message of its origin that it says it is. */
  predicate Genuine(s: State, k: nat)
    requires k < |s.wire|
  {
    var e := s.wire[k];
    && ValidOrigin(s, e.origin)
    && e.number < |SideOf(s, e.origin).sent| <= Limit(SideOf(s, e.origin).session.runtime)
    && e.frame == Message(SideOf(s, e.origin), e.number)
  }

  predicate SameMessage(a: Sent, b: Sent) {
    a.origin == b.origin && a.number == b.number
  }

  predicate OnWire(s: State, origin: Origin, n: nat) {
    exists k :: 0 <= k < |s.wire| && s.wire[k].origin == origin && s.wire[k].number == n
  }

  predicate Complete(s: State, origin: Origin) {
    ValidOrigin(s, origin) ==> forall n :: 0 <= n < |SideOf(s, origin).sent| ==> OnWire(s, origin, n)
  }

  /** The wire holds every message of every object exactly once. */
  ghost predicate WireInv(s: State) {
    && (forall k :: 0 <= k < |s.wire| ==> Genuine(s, k))
    && (forall k, l :: 0 <= k < l < |s.wire| ==> !SameMessage(s.wire[k], s.wire[l]))
    && (forall origin :: Complete(s, origin))
  }

  /** Message `n` of `sender` has been given to `receiver`, in a frame of whatever shape. */
  predicate Arrived(receiver: Side, sender: Side, n: nat)
    requires n < |sender.sent| <= Limit(sender.session.runtime)
  {
    exists d :: 0 <= d < |receiver.arrived| && receiver.arrived[d].ciphertext == Message(sender, n).ciphertext
  }

  /** Body `n` that `receiver` accepted is message `n` of `sender`, which arrived. */
  predicate Faithful(receiver: Side, sender: Side, n: nat)
    requires n < |receiver.accepted|
  {
    && n < |sender.sent| <= Limit(sender.session.runtime)
    && receiver.accepted[n] == sender.sent[n] && Arrived(receiver, sender, n)
  }

  predicate WispFaithful(s: State, o: nat)
    requires o < |s.wisp|
  {
    && s.wisp[o].init < |s.android|
    && forall n :: 0 <= n < |s.wisp[o].side.accepted| ==> Faithful(s.wisp[o].side, s.android[s.wisp[o].init], n)
  }

  /** Body `n` that Android accepted comes from some object of the Wisp made from the same handshake. */
  predicate FromSomeObject(s: State, i: nat, n: nat)
    requires i < |s.android| && n < |s.android[i].accepted|
  {
    exists o :: 0 <= o < |s.wisp| && s.wisp[o].init == i && Faithful(s.android[i], s.wisp[o].side, n)
  }

  predicate AndroidFaithful(s: State, i: nat)
    requires i < |s.android|
  {
    forall n :: 0 <= n < |s.android[i].accepted| ==> FromSomeObject(s, i, n)
  }

  predicate AcceptedInv(s: State) {
    && (forall o :: 0 <= o < |s.wisp| ==> WispFaithful(s, o))
    && (forall i :: 0 <= i < |s.android| ==> AndroidFaithful(s, i))
  }

  ghost predicate Inv(s: State) {
    Shapes(s) && WireInv(s) && AcceptedInv(s)
  }

  // ---------------------------------------------------------------- how a state grows

  predicate GrownSide(a: Side, b: Side) {
    && a.sent <= b.sent && a.accepted <= b.accepted && a.arrived <= b.arrived
    && |b.sent| <= Limit(b.session.runtime)
    && Identity(a.session) == Identity(b.session)
  }

  /** Objects, handshakes and the wire only ever grow. */
  predicate Grown(s: State, t: State) {
    && s.inits <= t.inits && s.wire <= t.wire && s.androidId == t.androidId && s.wispId == t.wispId
    && |s.android| <= |t.android| && |s.wisp| <= |t.wisp|
    && (forall i :: 0 <= i < |s.android| ==> GrownSide(s.android[i], t.android[i]))
    && (forall o :: 0 <= o < |s.wisp| ==> t.wisp[o].init == s.wisp[o].init && GrownSide(s.wisp[o].side, t.wisp[o].side))
  }

  lemma MessageStays(a: Side, b: Side, n: nat)
    requires GrownSide(a, b) && n < |a.sent|
    ensures Message(b, n) == Message(a, n)
  {
  }

  lemma GenuineStays(s: State, t: State, k: nat)
    requires Grown(s, t) && k < |s.wire| && Genuine(s, k)
    ensures Genuine(t, k)
  {
    var e := s.wire[k];
    assert t.wire[k] == e;
    assert GrownSide(SideOf(s, e.origin), SideOf(t, e.origin));
    MessageStays(SideOf(s, e.origin), SideOf(t, e.origin), e.number);
  }

  lemma FaithfulStays(a: Side, b: Side, c: Side, d: Side, n: nat)
    requires GrownSide(a, b) && GrownSide(c, d) && n < |a.accepted| && Faithful(a, c, n)
    ensures Faithful(b, d, n)
  {
    MessageStays(c, d, n);
    var k :| 0 <= k < |a.arrived| && a.arrived[k].ciphertext == Message(c, n).ciphertext;
    assert b.arrived[k] == a.arrived[k];
  }

  lemma WispFaithfulStays(s: State, t: State, o: nat)
    requires Grown(s, t) && o < |s.wisp| && WispFaithful(s, o)
    requires |t.wisp[o].side.accepted| == |s.wisp[o].side.accepted|
    ensures WispFaithful(t, o)
  {
    var i := s.wisp[o].init;
    forall n | 0 <= n < |t.wisp[o].side.accepted| ensures Faithful(t.wisp[o].side, t.android[i], n) {
      FaithfulStays(s.wisp[o].side, t.wisp[o].side, s.android[i], t.android[i], n);
    }
  }

  lemma FromObjectStays(s: State, t: State, i: nat, n: nat)
    requires Grown(s, t) && i < |s.android| && n < |s.android[i].accepted| && FromSomeObject(s, i, n)
    ensures FromSomeObject(t, i, n)
  {
    var o :| 0 <= o < |s.wisp| && s.wisp[o].init == i && Faithful(s.android[i], s.wisp[o].side, n);
    FaithfulStays(s.android[i], t.android[i], s.wisp[o].side, t.wisp[o].side, n);
  }

  lemma AndroidFaithfulStays(s: State, t: State, i: nat)
    requires Grown(s, t) && i < |s.android| && AndroidFaithful(s, i)
    requires |t.android[i].accepted| == |s.android[i].accepted|
    ensures AndroidFaithful(t, i)
  {
    forall n | 0 <= n < |t.android[i].accepted| ensures FromSomeObject(t, i, n) {
      FromObjectStays(s, t, i, n);
    }
  }

  // ---------------------------------------------------------------- every step keeps the invariant

  lemma ShapesValid(s: State)
    requires Shapes(s)
    ensures ValidSides(s)
  {
    forall i | 0 <= i < |s.android| ensures s.android[i].session.Valid() { assert AndroidShape(s, i); }
    forall o | 0 <= o < |s.wisp| ensures s.wisp[o].side.session.Valid() { assert WispShape(s, o); }
  }

  /** The two sides of a session are told apart by the direction of their keys, and sessions by
      their handshakes. */
  lemma KeyTellsOrigin(s: State, origin: Origin, i: nat, direction: Direction)
    requires Shapes(s) && ValidOrigin(s, origin) && i < |s.inits|
    requires SideOf(s, origin).session.sendKey == SessionKey(s.inits[i].master, s.inits[i].sessionId, direction)
    ensures match direction
            case AndroidToWisp => origin == ByAndroid(i)
            case WispToAndroid => origin.ByWisp? && s.wisp[origin.index].init == i
  {
    match origin
    case ByAndroid(j) => assert AndroidShape(s, j);
    case ByWisp(o) => assert WispShape(s, o);
  }

  lemma SideNumbered(s: State, origin: Origin)
    requires Shapes(s) && ValidOrigin(s, origin)
    ensures Numbered(SideOf(s, origin))
  {
    match origin
    case ByAndroid(i) => assert AndroidShape(s, i);
    case ByWisp(o) => assert WispShape(s, o);
  }

  lemma SetSideKeepsShapes(s: State, origin: Origin, side: Side, wire: seq<Sent>)
    requires Shapes(s) && ValidOrigin(s, origin)
    requires Numbered(side) && GrownSide(SideOf(s, origin), side) && s.wire <= wire
    ensures var t := SetSide(s, origin, side).(wire := wire); Shapes(t) && Grown(s, t)
  {
    var t := SetSide(s, origin, side).(wire := wire);
    hide Numbered;
    forall i | 0 <= i < |t.android| ensures AndroidShape(t, i) && GrownSide(s.android[i], t.android[i]) {
      assert AndroidShape(s, i);
      GrowsIntoItself(s.android[i]);
    }
    forall o | 0 <= o < |t.wisp|
      ensures WispShape(t, o) && t.wisp[o].init == s.wisp[o].init && GrownSide(s.wisp[o].side, t.wisp[o].side)
    {
      assert WispShape(s, o);
      GrowsIntoItself(s.wisp[o].side);
    }
  }

  lemma GrowsIntoItself(side: Side)
    requires Numbered(side)
    ensures GrownSide(side, side)
  {
  }

  /** States that differ in what the relay may do next, but in no object. */
  lemma SameObjectsKeepShapes(s: State, t: State)
    requires Shapes(s) && t == s.(ready := t.ready, current := t.current)
    requires t.current.Some? ==> t.current.value < |t.wisp|
    ensures Shapes(t) && Grown(s, t)
  {
    forall i | 0 <= i < |s.android| ensures AndroidShape(t, i) && GrownSide(s.android[i], t.android[i]) {
      assert AndroidShape(s, i);
    }
    forall o | 0 <= o < |s.wisp| ensures WispShape(t, o) && GrownSide(s.wisp[o].side, t.wisp[o].side) {
      assert WispShape(s, o);
    }
  }

  lemma NewObjectKeepsShapes(s: State, step: Step, now: real)
    requires Shapes(s) && ValidSides(s) && Enabled(s, step, now) && (step.AndroidInit? || step.InitReachesWisp?)
    ensures Shapes(Next(s, step, now)) && Grown(s, Next(s, step, now))
  {
    var t := Next(s, step, now);
    forall i | 0 <= i < |t.android|
      ensures AndroidShape(t, i) && (i < |s.android| ==> GrownSide(s.android[i], t.android[i]))
    {
      assert i < |s.android| ==> AndroidShape(s, i);
    }
    forall o | 0 <= o < |t.wisp| ensures WispShape(t, o)
        && (o < |s.wisp| ==> GrownSide(s.wisp[o].side, t.wisp[o].side)) {
      assert o < |s.wisp| ==> WispShape(s, o);
    }
  }

  lemma SendKeepsShapes(s: State, origin: Origin, body: Body, now: real)
    requires Shapes(s) && ValidOrigin(s, origin) && SideOf(s, origin).session.Valid()
    ensures Shapes(SendFrom(s, origin, body, now)) && Grown(s, SendFrom(s, origin, body, now))
  {
    SideNumbered(s, origin);
    var side := SideOf(s, origin);
    if CanSend(side.session, now) {
      var t := SendFrom(s, origin, body, now);
      SetSideKeepsShapes(s, origin, AfterSend(side, body), t.wire);
    } else {
      SameObjectsKeepShapes(s, s);
    }
  }

  lemma ReceiveKeepsShapes(s: State, origin: Origin, frame: Envelope, now: real)
    requires Shapes(s) && ValidOrigin(s, origin) && SideOf(s, origin).session.Valid()
    ensures Shapes(ReceiveAt(s, origin, frame, now)) && Grown(s, ReceiveAt(s, origin, frame, now))
  {
    SideNumbered(s, origin);
    SetSideKeepsShapes(s, origin, AfterReceive(SideOf(s, origin), frame, now), s.wire);
  }

  lemma NextFrameIsMessage(side: Side, body: Body, now: real)
    requires Numbered(side) && CanSend(side.session, now)
    ensures Numbered(AfterSend(side, body))
        && NextFrame(side.session, body) == Message(AfterSend(side, body), |side.sent|)
  {
  }

  /** A step that encrypts nothing: the objects it adds have sent nothing. */
  predicate SendsNothing(s: State, t: State) {
    && t.wire == s.wire
    && (forall i :: 0 <= i < |t.android| ==> |t.android[i].sent| == if i < |s.android| then |s.android[i].sent| else 0)
    && (forall o :: 0 <= o < |t.wisp| ==> |t.wisp[o].side.sent| == if o < |s.wisp| then |s.wisp[o].side.sent| else 0)
  }

  lemma WireStays(s: State, t: State)
    requires WireInv(s) && Grown(s, t) && SendsNothing(s, t)
    ensures WireInv(t)
  {
    forall k | 0 <= k < |t.wire| ensures Genuine(t, k) { GenuineStays(s, t, k); }
    hide Grown, Genuine;
    forall origin ensures Complete(t, origin) {
      assert Complete(s, origin);
      if ValidOrigin(t, origin) {
        forall n | 0 <= n < |SideOf(t, origin).sent| ensures OnWire(t, origin, n) {
          assert OnWire(s, origin, n);
        }
      }
    }
  }

  lemma SendKeepsWire(s: State, origin: Origin, body: Body, now: real)
    requires Shapes(s) && WireInv(s) && ValidOrigin(s, origin) && SideOf(s, origin).session.Valid()
    ensures WireInv(SendFrom(s, origin, body, now))
  {
    var side, t := SideOf(s, origin), SendFrom(s, origin, body, now);
    if CanSend(side.session, now) {
      SideNumbered(s, origin);
      SendKeepsShapes(s, origin, body, now);
      NextFrameIsMessage(side, body, now);
      forall k | 0 <= k < |t.wire| ensures Genuine(t, k) {
        if k < |s.wire| { GenuineStays(s, t, k); }
      }
      forall k | 0 <= k < |s.wire| ensures !SameMessage(s.wire[k], t.wire[|s.wire|]) { assert Genuine(s, k); }
      forall o ensures Complete(t, o) { SendKeepsComplete(s, origin, body, now, o); }
    }
  }

  lemma SendKeepsComplete(s: State, origin: Origin, body: Body, now: real, o: Origin)
    requires WireInv(s) && ValidOrigin(s, origin) && SideOf(s, origin).session.Valid()
        && CanSend(SideOf(s, origin).session, now)
    ensures Complete(SendFrom(s, origin, body, now), o)
  {
    var t, m := SendFrom(s, origin, body, now), |s.wire|;
    assert Complete(s, o);
    if ValidOrigin(t, o) {
      forall n | 0 <= n < |SideOf(t, o).sent| ensures OnWire(t, o, n) {
        if o == origin && n == |SideOf(s, o).sent| {
          assert t.wire[m].origin == o && t.wire[m].number == n;
        } else {
          assert OnWire(s, o, n);
          var k :| 0 <= k < |s.wire| && s.wire[k].origin == o && s.wire[k].number == n;
          assert t.wire[k] == s.wire[k];
        }
      }
    }
  }

  /** A step in which nobody accepts anything: the objects it adds have accepted nothing. */
  predicate AcceptsNothing(s: State, t: State) {
    && (forall i :: 0 <= i < |t.android| ==>
        |t.android[i].accepted| == if i < |s.android| then |s.android[i].accepted| else 0)
    && (forall o :: 0 <= o < |t.wisp| ==>
        |t.wisp[o].side.accepted| == if o < |s.wisp| then |s.wisp[o].side.accepted| else 0)
  }

  lemma AcceptedStays(s: State, t: State)
    requires Shapes(t) && AcceptedInv(s) && Grown(s, t) && AcceptsNothing(s, t)
    ensures AcceptedInv(t)
  {
    forall o | 0 <= o < |t.wisp| ensures WispFaithful(t, o) {
      if o < |s.wisp| { WispFaithfulStays(s, t, o); } else { assert WispShape(t, o); }
    }
    forall i | 0 <= i < |t.android| ensures AndroidFaithful(t, i) {
      if i < |s.android| { AndroidFaithfulStays(s, t, i); }
    }
  }

  /** What is accepted was encrypted under the receiver's key, by the other side of its session, as
      the message whose number comes next. */
  lemma AcceptedIsNext(s: State, origin: Origin, frame: Envelope, now: real) returns (sender: Origin)
    requires Shapes(s) && WireInv(s) && ValidOrigin(s, origin) && SideOf(s, origin).session.Valid()
    requires Accepts(SideOf(s, origin).session, frame, now) && Derivable(s, frame)
    ensures ValidOrigin(s, sender)
    ensures match origin
            case ByWisp(o) => sender == ByAndroid(s.wisp[o].init)
            case ByAndroid(i) => sender.ByWisp? && s.wisp[sender.index].init == i
    ensures var n, from := |SideOf(s, origin).accepted|, SideOf(s, sender);
            && n < |from.sent| <= Limit(from.session.runtime)
            && frame.ciphertext == Message(from, n).ciphertext
  {
    var side, i := SideOf(s, origin), HandshakeOf(s, origin);
    SideNumbered(s, origin);
    ReceiveKey(s, origin);
    assert OfSession(s, frame.ciphertext.key);
    var k :| 0 <= k < |s.wire| && s.wire[k].frame.ciphertext == frame.ciphertext;
    assert Genuine(s, k);
    sender := s.wire[k].origin;
    assert s.wire[k].number == side.session.receiveSequence == |side.accepted|;
    KeyTellsOrigin(s, sender, i, if origin.ByWisp? then AndroidToWisp else WispToAndroid);
  }

  function HandshakeOf(s: State, origin: Origin): nat
    requires ValidOrigin(s, origin)
  {
    if origin.ByWisp? then s.wisp[origin.index].init else origin.index
  }

  lemma ReceiveKey(s: State, origin: Origin)
    requires Shapes(s) && ValidOrigin(s, origin)
    ensures var i := HandshakeOf(s, origin);
            && i < |s.inits|
            && SideOf(s, origin).session.receiveKey
               == SessionKey(s.inits[i].master, s.inits[i].sessionId, if origin.ByWisp? then AndroidToWisp
                   else WispToAndroid)
  {
    match origin
    case ByAndroid(i) => assert AndroidShape(s, i);
    case ByWisp(o) => assert WispShape(s, o);
  }

  lemma ReceivedIsFaithful(receiver: Side, sender: Side, frame: Envelope, now: real)
    requires receiver.session.Valid() && Accepts(receiver.session, frame, now)
    requires |receiver.accepted| < |sender.sent| <= Limit(sender.session.runtime)
    requires frame.ciphertext == Message(sender, |receiver.accepted|).ciphertext
    ensures Faithful(AfterReceive(receiver, frame, now), sender, |receiver.accepted|)
  {
    assert AfterReceive(receiver, frame, now).arrived[|receiver.arrived|] == frame;
  }

  lemma ReceiveKeepsAccepted(s: State, origin: Origin, frame: Envelope, now: real)
    requires Shapes(s) && WireInv(s) && AcceptedInv(s) && ValidOrigin(s, origin) && SideOf(s, origin).session.Valid()
    requires Derivable(s, frame)
    ensures AcceptedInv(ReceiveAt(s, origin, frame, now))
  {
    var t := ReceiveAt(s, origin, frame, now);
    ReceiveKeepsShapes(s, origin, frame, now);
    if Accepts(SideOf(s, origin).session, frame, now) {
      var sender := AcceptedIsNext(s, origin, frame, now);
      ReceivedIsFaithful(SideOf(s, origin), SideOf(s, sender), frame, now);
      assert SideOf(t, sender) == SideOf(s, sender);
      assert Faithful(SideOf(t, origin), SideOf(t, sender), |SideOf(s, origin).accepted|);
      hide Accepts, Faithful, Derivable;
      AcceptedAtOne(s, t, origin, sender);
    } else {
      AcceptedStays(s, t);
    }
  }

  /** One object accepts one more body, faithfully. */
  lemma AcceptedAtOne(s: State, t: State, origin: Origin, sender: Origin)
    requires Shapes(s) && AcceptedInv(s) && Grown(s, t) && ValidOrigin(s, origin) && ValidOrigin(s, sender)
    requires t == SetSide(s, origin, SideOf(t, origin))
        && |SideOf(t, origin).accepted| == |SideOf(s, origin).accepted| + 1
    requires Faithful(SideOf(t, origin), SideOf(t, sender), |SideOf(s, origin).accepted|)
    requires match origin
             case ByWisp(o) => sender == ByAndroid(s.wisp[o].init)
             case ByAndroid(i) => sender.ByWisp? && s.wisp[sender.index].init == i
    ensures AcceptedInv(t)
  {
    hide Faithful, Shapes;
    forall o | 0 <= o < |t.wisp| ensures WispFaithful(t, o) {
      if origin == ByWisp(o) {
        forall n | 0 <= n < |t.wisp[o].side.accepted|
          ensures Faithful(t.wisp[o].side, t.android[t.wisp[o].init], n)
        {
          if n < |s.wisp[o].side.accepted| {
            assert WispFaithful(s, o);
            FaithfulStays(s.wisp[o].side, t.wisp[o].side, s.android[s.wisp[o].init], t.android[t.wisp[o].init], n);
          }
        }
      } else {
        WispFaithfulStays(s, t, o);
      }
    }
    forall i | 0 <= i < |t.android| ensures AndroidFaithful(t, i) {
      if origin == ByAndroid(i) {
        forall n | 0 <= n < |t.android[i].accepted| ensures FromSomeObject(t, i, n) {
          if n < |s.android[i].accepted| {
            assert AndroidFaithful(s, i);
            FromObjectStays(s, t, i, n);
          } else {
            assert t.wisp[sender.index].init == i && Faithful(t.android[i], t.wisp[sender.index].side, n);
          }
        }
      } else {
        AndroidFaithfulStays(s, t, i);
      }
    }
  }

  lemma SendKeepsInv(s: State, origin: Origin, body: Body, now: real)
    requires Inv(s) && ValidOrigin(s, origin) && SideOf(s, origin).session.Valid()
    ensures Inv(SendFrom(s, origin, body, now))
  {
    SendKeepsShapes(s, origin, body, now);
    SendKeepsWire(s, origin, body, now);
    assert AcceptsNothing(s, SendFrom(s, origin, body, now));
    hide Shapes, WireInv, AcceptedInv, Grown, AcceptsNothing, SendFrom;
    AcceptedStays(s, SendFrom(s, origin, body, now));
  }

  lemma ReceiveKeepsInv(s: State, origin: Origin, frame: Envelope, now: real)
    requires Inv(s) && ValidOrigin(s, origin) && SideOf(s, origin).session.Valid() && Derivable(s, frame)
    ensures Inv(ReceiveAt(s, origin, frame, now))
  {
    ReceiveKeepsShapes(s, origin, frame, now);
    ReceiveKeepsAccepted(s, origin, frame, now);
    assert SendsNothing(s, ReceiveAt(s, origin, frame, now));
    hide Shapes, WireInv, AcceptedInv, Grown, SendsNothing, ReceiveAt;
    WireStays(s, ReceiveAt(s, origin, frame, now));
  }

  lemma SameObjectsKeepInv(s: State, t: State)
    requires Inv(s) && t == s.(ready := t.ready, current := t.current)
    requires t.current.Some? ==> t.current.value < |t.wisp|
    ensures Inv(t)
  {
    SameObjectsKeepShapes(s, t);
    assert SendsNothing(s, t) && AcceptsNothing(s, t);
    hide Shapes, WireInv, AcceptedInv, Grown, SendsNothing, AcceptsNothing;
    WireStays(s, t);
    AcceptedStays(s, t);
  }

  lemma NewObjectKeepsInv(s: State, step: Step, now: real)
    requires Inv(s) && ValidSides(s) && Enabled(s, step, now) && (step.AndroidInit? || step.InitReachesWisp?)
    ensures Inv(Next(s, step, now))
  {
    var t := Next(s, step, now);
    NewObjectKeepsShapes(s, step, now);
    assert SendsNothing(s, t) && AcceptsNothing(s, t);
    hide Shapes, WireInv, AcceptedInv, Grown, SendsNothing, AcceptsNothing, Next;
    WireStays(s, t);
    AcceptedStays(s, t);
  }

  lemma StepKeepsInv(s: State, step: Step, now: real)
    requires Inv(s) && ValidSides(s) && Enabled(s, step, now)
    ensures Inv(Next(s, step, now))
  {
    hide Inv, Derivable;
    match step
    case AndroidSends(i, body) => SendKeepsInv(s, ByAndroid(i), body, now);
    case WispSends(body) => SendKeepsInv(s, ByWisp(s.current.value), body, now);
    case FrameReachesAndroid(i, frame) => ReceiveKeepsInv(s, ByAndroid(i), frame, now);
    case FrameReachesWisp(frame) =>
      if s.current.Some? {
        ReceiveKeepsInv(s, ByWisp(s.current.value), frame, now);
        SameObjectsKeepInv(ReceiveAt(s, ByWisp(s.current.value), frame, now), Next(s, step, now));
      }
    case AndroidInit(_) => NewObjectKeepsInv(s, step, now);
    case InitReachesWisp(_) => NewObjectKeepsInv(s, step, now);
    case AcceptReachesAndroid(_) => SameObjectsKeepInv(s, Next(s, step, now));
    case ResetReachesWisp => SameObjectsKeepInv(s, Next(s, step, now));
  }

  lemma {:induction false} ReachableInv(s: State, run: Run, t: State)
    requires Inv(s) && LeadsTo(s, run, t)
    ensures Inv(t) && ValidSides(t)
    decreases |run|
  {
    if run == [] {
      ShapesValid(s);
    } else {
      var n := |run| - 1;
      var (step, now) := run[n];
      var prev: State :| LeadsTo(s, run[..n], prev) && ValidSides(prev) && Enabled(prev, step, now)
          && t == Next(prev, step, now);
      ReachableInv(s, run[..n], prev);
      StepKeepsInv(prev, step, now);
      ShapesValid(t);
    }
  }

  lemma ReachableKeepsInv(run: Run, s: State)
    requires Reachable(run, s)
    ensures Inv(s) && ValidSides(s)
  {
    ReachableInv(Start(s.androidId, s.wispId), run, s);
  }

  lemma InvValid(s: State)
    requires Inv(s)
    ensures ValidSides(s)
  {
    ShapesValid(s);
  }

  // ---------------------------------------------------------------- what is accepted

  lemma InvPrefix(s: State, o: nat)
    requires Inv(s) && o < |s.wisp|
    ensures s.wisp[o].init < |s.android| && s.wisp[o].side.accepted <= s.android[s.wisp[o].init].sent
  {
    assert WispFaithful(s, o);
    var receiver, sender := s.wisp[o].side, s.android[s.wisp[o].init];
    if receiver.accepted != [] {
      assert Faithful(receiver, sender, |receiver.accepted| - 1);
    }
    forall n | 0 <= n < |receiver.accepted| ensures receiver.accepted[n] == sender.sent[n] {
      assert Faithful(receiver, sender, n);
    }
  }

  /** Channel safety: every object of the Wisp has accepted a prefix of what Android encrypted in the
      session it was made for, however often that session's handshake was delivered. */
  lemma AcceptedIsPrefix(run: Run, s: State, o: nat)
    requires Reachable(run, s) && o < |s.wisp|
    ensures s.wisp[o].init < |s.android| && s.wisp[o].side.accepted <= s.android[s.wisp[o].init].sent
  {
    ReachableKeepsInv(run, s);
    InvPrefix(s, o);
  }

  /** Body `n` that Android accepted in a session is message `n` of an object made for that session. */
  lemma RepliesAreGenuine(run: Run, s: State, i: nat, n: nat)
    requires Reachable(run, s) && i < |s.android| && n < |s.android[i].accepted|
    ensures FromSomeObject(s, i, n)
  {
    ReachableKeepsInv(run, s);
    assert AndroidFaithful(s, i);
  }

  predicate OnlyObject(s: State, i: nat, o: nat) {
    && o < |s.wisp| && s.wisp[o].init == i
    && forall p :: 0 <= p < |s.wisp| && s.wisp[p].init == i ==> p == o
  }

  /** In a session whose handshake was delivered once, Android accepts a prefix of what the Wisp sent. */
  lemma RepliesArePrefix(run: Run, s: State, i: nat, o: nat)
    requires Reachable(run, s) && i < |s.android| && OnlyObject(s, i, o)
    ensures s.android[i].accepted <= s.wisp[o].side.sent
  {
    var receiver, sender := s.android[i], s.wisp[o].side;
    forall n | 0 <= n < |receiver.accepted| ensures Faithful(receiver, sender, n) {
      RepliesAreGenuine(run, s, i, n);
      var p :| 0 <= p < |s.wisp| && s.wisp[p].init == i && Faithful(receiver, s.wisp[p].side, n);
      assert p == o;
    }
    if receiver.accepted != [] {
      assert Faithful(receiver, sender, |receiver.accepted| - 1);
    }
    forall n | 0 <= n < |receiver.accepted| ensures receiver.accepted[n] == sender.sent[n] {
      assert Faithful(receiver, sender, n);
    }
  }

  /** Message `n` of `sender` went through to `receiver`. */
  predicate GotThrough(receiver: Side, sender: Side, n: nat) {
    n < |sender.sent| <= Limit(sender.session.runtime) && Arrived(receiver, sender, n)
  }

  /** A lost frame stops acceptance for good: an object of the Wisp that has accepted more than `n`
      bodies was given message `n` of its session. */
  lemma LostFrameStopsAcceptance(run: Run, s: State, o: nat, n: nat)
    requires Reachable(run, s) && o < |s.wisp|
    ensures s.wisp[o].init < |s.android|
    ensures !GotThrough(s.wisp[o].side, s.android[s.wisp[o].init], n) ==> |s.wisp[o].side.accepted| <= n
  {
    ReachableKeepsInv(run, s);
    assert WispFaithful(s, o);
    if n < |s.wisp[o].side.accepted| {
      assert Faithful(s.wisp[o].side, s.android[s.wisp[o].init], n);
    }
  }

  /** And while message `n` of no object made for a session has got through, Android accepts no more
      than `n` bodies in it. */
  lemma LostReplyStopsAcceptance(run: Run, s: State, i: nat, n: nat)
    requires Reachable(run, s) && i < |s.android|
    requires forall o :: 0 <= o < |s.wisp| && s.wisp[o].init == i ==> !GotThrough(s.android[i], s.wisp[o].side, n)
    ensures |s.android[i].accepted| <= n
  {
    ReachableKeepsInv(run, s);
    if n < |s.android[i].accepted| {
      RepliesAreGenuine(run, s, i, n);
    }
  }

  lemma InvAccepts(s: State, i: nat, o: nat, n: nat, now: real)
    requires Inv(s) && ValidSides(s) && i < |s.android| && o < |s.wisp| && s.wisp[o].init == i
    ensures n < |s.android[i].sent| <= Limit(s.android[i].session.runtime) ==>
              (Accepts(s.wisp[o].side.session, Message(s.android[i], n), now)
               <==> Live(s.wisp[o].side.session, now) && n == |s.wisp[o].side.accepted|)
    ensures n < |s.wisp[o].side.sent| <= Limit(s.wisp[o].side.session.runtime) ==>
              (Accepts(s.android[i].session, Message(s.wisp[o].side, n), now)
               <==> Live(s.android[i].session, now) && n == |s.android[i].accepted| && n < TWO_63)
  {
    assert AndroidShape(s, i) && WispShape(s, o);
    if n < TWO_63 {
      EncodersAgree(n);
    }
  }

  /** An undisturbed frame is accepted by an object of its session exactly while that object is live
      and expects its number; a Kotlin receiver cannot read numbers from 2^63 on. The two runtimes'
      nonce encoders meet here. */
  lemma MessageIsAccepted(run: Run, s: State, i: nat, o: nat, n: nat, now: real)
    requires Reachable(run, s) && i < |s.android| && o < |s.wisp| && s.wisp[o].init == i
    ensures ValidSides(s)
    ensures n < |s.android[i].sent| <= Limit(s.android[i].session.runtime) ==>
              (Accepts(s.wisp[o].side.session, Message(s.android[i], n), now)
               <==> Live(s.wisp[o].side.session, now) && n == |s.wisp[o].side.accepted|)
    ensures n < |s.wisp[o].side.sent| <= Limit(s.wisp[o].side.session.runtime) ==>
              (Accepts(s.android[i].session, Message(s.wisp[o].side, n), now)
               <==> Live(s.android[i].session, now) && n == |s.android[i].accepted| && n < TWO_63)
  {
    ReachableKeepsInv(run, s);
    hide Inv, Accepts;
    InvAccepts(s, i, o, n, now);
  }

  lemma MessageIsDerivable(s: State, origin: Origin, n: nat)
    requires Inv(s) && ValidOrigin(s, origin) && n < |SideOf(s, origin).sent|
    ensures |SideOf(s, origin).sent| <= Limit(SideOf(s, origin).session.runtime)
    ensures Derivable(s, Message(SideOf(s, origin), n))
  {
    SideNumbered(s, origin);
    assert Complete(s, origin) && OnWire(s, origin, n);
    var k :| 0 <= k < |s.wire| && s.wire[k].origin == origin && s.wire[k].number == n;
    assert Genuine(s, k);
    assert Encrypted(s, s.wire[k].frame.ciphertext);
  }

  /** What happens when message `n` of Android's session arrives at the Wisp's current object: it is
      accepted, and its body comes out, exactly if the object is younger than 1800 s and expects that
      number; otherwise nothing comes out and the Wisp forgets the session. */
  lemma ArrivalAtWisp(run: Run, s: State, i: nat, o: nat, n: nat, now: real)
    requires Reachable(run, s) && i < |s.android| && o < |s.wisp| && s.wisp[o].init == i && s.current == Some(o)
    requires n < |s.android[i].sent| <= Limit(s.android[i].session.runtime)
    ensures ValidSides(s) && Enabled(s, FrameReachesWisp(Message(s.android[i], n)), now)
    ensures var t := Next(s, FrameReachesWisp(Message(s.android[i], n)), now);
            var young := now < s.wisp[o].side.session.createdAt + 1800.0;
            if young && n == |s.wisp[o].side.accepted| then
              && t.wisp[o].side.accepted == s.wisp[o].side.accepted + [s.android[i].sent[n]]
              && t.current == Some(o)
              && Delivered(s, Message(s.android[i], n), now) == Some(s.android[i].sent[n])
            else
              && t.wisp[o].side.accepted == s.wisp[o].side.accepted && t.current == None
              && Delivered(s, Message(s.android[i], n), now) == None
  {
    ReachableKeepsInv(run, s);
    assert WispShape(s, o);
    MessageIsDerivable(s, ByAndroid(i), n);
    InvAccepts(s, i, o, n, now);
    hide Inv, Accepts, Derivable, ValidSides;
  }

  /** And when message `n` of an object of the Wisp arrives at Android's object of that session. */
  lemma ArrivalAtAndroid(run: Run, s: State, i: nat, o: nat, n: nat, now: real)
    requires Reachable(run, s) && i < |s.android| && i in s.ready && o < |s.wisp| && s.wisp[o].init == i
    requires n < |s.wisp[o].side.sent| <= Limit(s.wisp[o].side.session.runtime)
    ensures ValidSides(s) && Enabled(s, FrameReachesAndroid(i, Message(s.wisp[o].side, n)), now)
    ensures var t := Next(s, FrameReachesAndroid(i, Message(s.wisp[o].side, n)), now);
            var young := now < s.android[i].session.createdAt + 1800000.0;
            t.android[i].accepted
            == s.android[i].accepted
               + if young && n == |s.android[i].accepted| && n < 0x8000_0000_0000_0000 then [s.wisp[o].side.sent[n]]
                 else []
  {
    ReachableKeepsInv(run, s);
    assert AndroidShape(s, i);
    MessageIsDerivable(s, ByWisp(o), n);
    InvAccepts(s, i, o, n, now);
    hide Inv, Accepts, Derivable, ValidSides;
  }

  /** What a send does: while the object is young and has numbers left, the body becomes its next message,
      and that message is on the wire; otherwise nothing happens. */
  lemma SendGoesOut(run: Run, s: State, origin: Origin, body: Body, now: real)
    requires Reachable(run, s) && ValidOrigin(s, origin)
    requires match origin case ByAndroid(i) => i in s.ready case ByWisp(o) => s.current == Some(o)
    ensures ValidSides(s)
    ensures var step := match origin case ByAndroid(i) => AndroidSends(i, body) case ByWisp(_) => WispSends(body);
            && Enabled(s, step, now)
            && var t, side := Next(s, step, now), SideOf(s, origin);
               && ValidOrigin(t, origin)
               && var lifetime := if origin.ByAndroid? then 1800000.0 else 1800.0;
                  var numbers := if origin.ByAndroid? then 0x8000_0000_0000_0000 else 0x1_0000_0000_0000_0000;
                  if now < side.session.createdAt + lifetime && |side.sent| < numbers then
                    && SideOf(t, origin).sent == side.sent + [body]
                    && t.wire == s.wire + [Sent(origin, |side.sent|, NextFrame(side.session, body))]
                  else t == s
  {
    ReachableKeepsInv(run, s);
    SideNumbered(s, origin);
    match origin
    case ByAndroid(i) => assert AndroidShape(s, i);
    case ByWisp(o) => assert WispShape(s, o);
  }

  // ---------------------------------------------------------------- nonces

  predicate SameNonce(a: Sent, b: Sent) {
    && a.frame.ciphertext.Sealed? && b.frame.ciphertext.Sealed?
    && a.frame.ciphertext.key == b.frame.ciphertext.key && a.frame.ciphertext.nonce == b.frame.ciphertext.nonce
  }

  ghost predicate NonceRepeats(s: State) {
    exists k, l :: 0 <= k < l < |s.wire| && SameNonce(s.wire[k], s.wire[l])
  }

  predicate BothEncrypted(s: State, p: nat, q: nat)
    requires p < q < |s.wisp|
  {
    s.wisp[p].init == s.wisp[q].init && s.wisp[p].side.sent != [] && s.wisp[q].side.sent != []
  }

  lemma SendKey(s: State, origin: Origin)
    requires Shapes(s) && ValidOrigin(s, origin)
    ensures var i := HandshakeOf(s, origin);
            && i < |s.inits|
            && SideOf(s, origin).session.sendKey
               == SessionKey(s.inits[i].master, s.inits[i].sessionId, if origin.ByWisp? then WispToAndroid
                   else AndroidToWisp)
            && SideOf(s, origin).session.runtime == if origin.ByWisp? then Python else Kotlin
  {
    match origin
    case ByAndroid(i) => assert AndroidShape(s, i);
    case ByWisp(o) => assert WispShape(s, o);
  }

  lemma SameNonceMeansTwoObjects(s: State, k: nat, l: nat) returns (p: nat, q: nat)
    requires Inv(s) && k < l < |s.wire| && SameNonce(s.wire[k], s.wire[l])
    ensures p < q < |s.wisp| && BothEncrypted(s, p, q)
  {
    var a, b := s.wire[k], s.wire[l];
    assert Genuine(s, k) && Genuine(s, l) && !SameMessage(a, b);
    SendKey(s, a.origin);
    SendKey(s, b.origin);
    KeyTellsOrigin(s, b.origin, HandshakeOf(s, a.origin), if a.origin.ByWisp? then WispToAndroid else AndroidToWisp);
    NonceInjective(SideOf(s, a.origin).session.runtime, a.number, SideOf(s, b.origin).session.runtime, b.number);
    p := if a.origin.index < b.origin.index then a.origin.index else b.origin.index;
    q := if a.origin.index < b.origin.index then b.origin.index else a.origin.index;
  }

  lemma TwoObjectsMeanSameNonce(s: State, p: nat, q: nat)
    requires Inv(s) && p < q < |s.wisp| && BothEncrypted(s, p, q)
    ensures NonceRepeats(s)
  {
    assert Complete(s, ByWisp(p)) && Complete(s, ByWisp(q));
    assert OnWire(s, ByWisp(p), 0) && OnWire(s, ByWisp(q), 0);
    var k :| 0 <= k < |s.wire| && s.wire[k].origin == ByWisp(p) && s.wire[k].number == 0;
    var l :| 0 <= l < |s.wire| && s.wire[l].origin == ByWisp(q) && s.wire[l].number == 0;
    assert Genuine(s, k) && Genuine(s, l);
    SendKey(s, ByWisp(p));
    SendKey(s, ByWisp(q));
    assert SameNonce(s.wire[k], s.wire[l]) && SameNonce(s.wire[l], s.wire[k]) && k != l;
  }

  /** A pair of directional key and nonce is used twice exactly when two objects that the Wisp made
      from one handshake have both encrypted something. */
  lemma NoncesRepeatExactlyWhen(run: Run, s: State)
    requires Reachable(run, s)
    ensures NonceRepeats(s) <==> exists p, q :: 0 <= p < q < |s.wisp| && BothEncrypted(s, p, q)
  {
    ReachableKeepsInv(run, s);
    if k, l :| 0 <= k < l < |s.wire| && SameNonce(s.wire[k], s.wire[l]) {
      var p, q := SameNonceMeansTwoObjects(s, k, l);
    }
    if p, q :| 0 <= p < q < |s.wisp| && BothEncrypted(s, p, q) {
      TwoObjectsMeanSameNonce(s, p, q);
    }
  }

  /** How often a handshake has been delivered. */
  function Deliveries(objects: seq<WispSide>, i: nat): nat {
    if objects == [] then 0
    else Deliveries(objects[..|objects| - 1], i) + if objects[|objects| - 1].init == i then 1 else 0
  }

  lemma {:induction false} TwoObjectsTwoDeliveries(objects: seq<WispSide>, p: nat, q: nat)
    requires p < q < |objects| && objects[p].init == objects[q].init
    ensures Deliveries(objects, objects[p].init) >= 2
    decreases |objects|
  {
    var n := |objects| - 1;
    if q < n {
      TwoObjectsTwoDeliveries(objects[..n], p, q);
    } else {
      OneObjectOneDelivery(objects[..n], p);
    }
  }

  lemma {:induction false} OneObjectOneDelivery(objects: seq<WispSide>, p: nat)
    requires p < |objects|
    ensures Deliveries(objects, objects[p].init) >= 1
    decreases |objects|
  {
    if p < |objects| - 1 {
      OneObjectOneDelivery(objects[..|objects| - 1], p);
    }
  }

  /** So no nonce is ever used twice if no handshake is delivered twice. */
  lemma NoncesNeverRepeat(run: Run, s: State)
    requires Reachable(run, s) && forall i :: 0 <= i < |s.inits| ==> Deliveries(s.wisp, i) <= 1
    ensures !NonceRepeats(s)
  {
    ReachableKeepsInv(run, s);
    NoncesRepeatExactlyWhen(run, s);
    if p, q :| 0 <= p < q < |s.wisp| && BothEncrypted(s, p, q) {
      assert WispShape(s, p);
      TwoObjectsTwoDeliveries(s.wisp, p, q);
    }
  }

  lemma OneMoreStep(s: State, run: Run, t: State, step: Step, now: real) returns (longer: Run)
    requires LeadsTo(s, run, t) && ValidSides(t) && Enabled(t, step, now)
    ensures LeadsTo(s, longer, Next(t, step, now)) && longer == run + [(step, now)]
  {
    longer := run + [(step, now)];
    assert longer[..|longer| - 1] == run;
  }

  lemma FreshObjectCanSend(session: Session, now: real)
    requires session.runtime == Python && session.sendSequence == 0 && Live(session, now)
    ensures session.Valid() && CanSend(session, now)
  {
  }

  lemma FreshAndroidCanSend(session: Session, now: real)
    requires session.runtime == Kotlin && session.sendSequence == 0 && Live(session, now) && session.Valid()
    ensures CanSend(session, now)
  {
  }

  /** A handshake is delivered and the new object answers. */
  lemma DeliverAndAnswer(s0: State, run: Run, s: State, body: Body, now: real) returns (longer: Run, t: State)
    requires LeadsTo(s0, run, s) && ValidSides(s) && |s.inits| == 1
    ensures LeadsTo(s0, longer, t) && ValidSides(t)
    ensures t.inits == s.inits && t.androidId == s.androidId && t.wispId == s.wispId
    ensures |t.wisp| == |s.wisp| + 1 && t.wisp[..|s.wisp|] == s.wisp
    ensures t.wisp[|s.wisp|].init == 0 && t.wisp[|s.wisp|].side.sent == [body]
    ensures |t.wire| == |s.wire| + 1 && t.wire[..|s.wire|] == s.wire
    ensures t.wire[|s.wire|].frame.ciphertext.Sealed? && t.wire[|s.wire|].frame.ciphertext.body == body
  {
    hide Nonce, Derivable, LeadsTo;
    longer := OneMoreStep(s0, run, s, InitReachesWisp(0), now);
    var u := Next(s, InitReachesWisp(0), now);
    FreshObjectCanSend(u.wisp[|s.wisp|].side.session, now);
    longer := OneMoreStep(s0, longer, u, WispSends(body), now);
    t := Next(u, WispSends(body), now);
  }

  lemma FirstHandshake(androidId: string, wispId: string, h: Handshake) returns (run: Run, s: State)
    ensures LeadsTo(Start(androidId, wispId), run, s) && ValidSides(s)
    ensures s.inits == [h] && s.wisp == [] && s.wire == [] && s.androidId == androidId && s.wispId == wispId
  {
    var s0 := Start(androidId, wispId);
    assert LeadsTo(s0, [], s0);
    hide LeadsTo;
    run := OneMoreStep(s0, [], s0, AndroidInit(h), 0.0);
    s := Next(s0, AndroidInit(h), 0.0);
  }

  /** A run in which it happens: a handshake delivered twice, and two replies with different bodies. */
  lemma NonceReuse(androidId: string, wispId: string, h: Handshake, a: Body, b: Body) returns (run: Run, s: State)
    requires a != b
    ensures Reachable(run, s) && NonceRepeats(s)
    ensures |s.wire| == 2 && s.wire[0].frame.ciphertext.Sealed? && s.wire[1].frame.ciphertext.Sealed?
    ensures s.wire[0].frame.ciphertext.body == a && s.wire[1].frame.ciphertext.body == b
  {
    hide NonceRepeats, LeadsTo, Inv, ValidSides;
    var s1, s2;
    run, s1 := FirstHandshake(androidId, wispId, h);
    run, s2 := DeliverAndAnswer(Start(androidId, wispId), run, s1, a, 0.0);
    run, s := DeliverAndAnswer(Start(androidId, wispId), run, s2, b, 1.0);
    ReachableKeepsInv(run, s);
    assert s.wire[0] == s.wire[..1][0] && s.wisp[0] == s.wisp[..1][0];
    TwoObjectsMeanSameNonce(s, 0, 1);
  }
}
