/** Android's mutations, the peer sessions they travel in and the operation ledger that they reach, as
    one machine. Android encrypts nothing with an operation id but the bodies of that operation's
    `recoverMutationOnce`; the Wisp dispatches nothing for this endpoint but bodies that one of its
    session objects accepted. */
module EndToEnd {
  import opened Wrappers
  import opened PeerSessions
  import opened MutationRecovery
  import Channel
  import Quota = ReceiverQuota
  import Ledger = OperationLedger

  /** A mutation, and how many of its bodies have been encrypted. */
  datatype Progress = Progress(mutation: Mutation, done: nat)

  /** `inbox` is the body that was accepted and is not acted on yet: the event loop reads the next frame
      only when its dispatch is over. `history` are the ledger's steps, `clock` is the Wisp's clock. */
  datatype State = State(net: Channel.State, ledger: Ledger.State, history: Ledger.Run,
                         mutations: map<string, Progress>, inbox: Option<Body>, clock: real)

  datatype Step =
    | Network(step: Channel.Step)
    | BeginMutation(m: Mutation)
    | SendNext(operationId: string, i: nat)
    | Dispatch(known: bool, request: Quota.FileRequest)
    | Work(work: Ledger.Step)

  // ---------------------------------------------------------------- one step

  function KeyOf(s: State, operationId: string): Quota.Key {
    Quota.Key(s.net.androidId, operationId)
  }

  predicate OnWisp(step: Channel.Step) {
    step.InitReachesWisp? || step.WispSends? || step.FrameReachesWisp?
  }

  /** What the event loop of the Wisp does itself, and so not during a dispatch. */
  predicate OnEventLoop(step: Channel.Step) {
    step.InitReachesWisp? || step.FrameReachesWisp? || step.ResetReachesWisp?
  }

  predicate Listening(s: State) {
    s.inbox.None? && s.ledger.loop.Idle?
  }

  predicate IsDispatch(step: Ledger.Step) {
    step.FileBegin? || step.ActionBegin? || step.OtherRequest?
  }

  /** The ledger step that a body calls for; `known` says whether its Wisp is registered. */
  function StepFor(s: State, body: Body, known: bool, request: Quota.FileRequest): Ledger.Step {
    match body
    case FileBegin(wispId, id) =>
      if known then Ledger.FileBegin(KeyOf(s, id), wispId, request) else Ledger.OtherRequest
    case UserAction(wispId, id) =>
      if known && 0 < |id| <= Ledger.MAX_OPERATION_ID_LENGTH then Ledger.ActionBegin(KeyOf(s, id), wispId)
      else Ledger.OtherRequest
    case _ => Ledger.OtherRequest
  }

  ghost predicate Enabled(s: State, step: Step, at: real)
    requires Channel.ValidSides(s.net)
  {
    match step
    case Network(n) =>
      && Channel.Enabled(s.net, n, at)
      && (n.AndroidSends? ==> n.body.Other?)
      && (OnEventLoop(n) ==> Listening(s))
      && (OnWisp(n) ==> s.clock <= at)
    case BeginMutation(m) => m.operationId !in s.mutations
    case SendNext(id, i) =>
      && id in s.mutations && s.mutations[id].done < |MutationSends(s.mutations[id].mutation)|
      && i < |s.net.android| && i in s.net.ready && CanSend(s.net.android[i].session, at)
    case Dispatch(known, request) => s.inbox.Some? && s.clock <= at && s.ledger.loop.Ready?
    case Work(w) =>
      && Ledger.Enabled(s.ledger, w) && s.clock <= at
      && (IsDispatch(w) ==> s.inbox.None?)
      && (w.FileBegin? || w.ActionBegin? ==> w.key.sender != s.net.androidId)
  }

  ghost function TakeLedgerStep(s: State, step: Ledger.Step, at: real): State
    requires Ledger.Enabled(s.ledger, step)
  {
    s.(ledger := Ledger.Next(s.ledger, step, at), history := s.history + [(step, at)], clock := at)
  }

  ghost function Next(s: State, step: Step, at: real): State
    requires Channel.ValidSides(s.net) && Enabled(s, step, at)
  {
    match step
    case Network(n) =>
      var t := s.(net := Channel.Next(s.net, n, at), clock := if OnWisp(n) then at else s.clock);
      if n.FrameReachesWisp? then t.(inbox := Channel.Delivered(s.net, n.frame, at)) else t
    case BeginMutation(m) => s.(mutations := s.mutations[m.operationId := Progress(m, 0)])
    case SendNext(id, i) =>
      var p := s.mutations[id];
      s.(net := Channel.Next(s.net, Channel.AndroidSends(i, MutationSends(p.mutation)[p.done]), at),
         mutations := s.mutations[id := p.(done := p.done + 1)])
    case Dispatch(known, request) => TakeLedgerStep(s, StepFor(s, s.inbox.value, known, request), at).(inbox := None)
    case Work(w) => TakeLedgerStep(s, w, at)
  }

  function Start(androidId: string, wispId: string): State {
    State(Channel.Start(androidId, wispId), Ledger.Init, [], map[], None, 0.0)
  }

  type Run = seq<(Step, real)>

  ghost predicate LeadsTo(s: State, run: Run, t: State)
    decreases |run|
  {
    if run == [] then t == s
    else
      var (step, at) := run[|run| - 1];
      exists prev: State ::
        LeadsTo(s, run[..|run| - 1], prev) && Channel.ValidSides(prev.net) && Enabled(prev, step, at)
            && t == Next(prev, step, at)
  }

  ghost predicate Reachable(run: Run, s: State) {
    LeadsTo(Start(s.net.androidId, s.net.wispId), run, s)
  }

  // ---------------------------------------------------------------- counting starts

  /** The starts of an operation that Android encrypted in all its sessions. */
  function StartsEncrypted(sides: seq<Channel.Side>, operationId: string): nat {
    if sides == [] then 0
    else StartsEncrypted(sides[..|sides| - 1], operationId) + StartBodies(sides[|sides| - 1].sent, operationId)
  }

  /** The starts of an operation that all objects of the Wisp accepted. */
  function StartsAccepted(objects: seq<Channel.WispSide>, operationId: string): nat {
    if objects == [] then 0
    else
      StartsAccepted(objects[..|objects| - 1], operationId)
      + StartBodies(objects[|objects| - 1].side.accepted, operationId)
  }

  lemma {:induction false} EncryptedUpdate(sides: seq<Channel.Side>, i: nat, side: Channel.Side, operationId: string)
    requires i < |sides|
    ensures StartsEncrypted(sides[i := side], operationId) + StartBodies(sides[i].sent, operationId)
            == StartsEncrypted(sides, operationId) + StartBodies(side.sent, operationId)
    decreases |sides|
  {
    var n := |sides| - 1;
    if i < n {
      assert sides[i := side][..n] == sides[..n][i := side];
      EncryptedUpdate(sides[..n], i, side, operationId);
    } else {
      assert sides[i := side][..n] == sides[..n];
    }
  }

  lemma {:induction false} AcceptedUpdate(objects: seq<Channel.WispSide>, o: nat, peer: Channel.WispSide,
      operationId: string)
    requires o < |objects|
    ensures StartsAccepted(objects[o := peer], operationId) + StartBodies(objects[o].side.accepted, operationId)
            == StartsAccepted(objects, operationId) + StartBodies(peer.side.accepted, operationId)
    decreases |objects|
  {
    var n := |objects| - 1;
    if o < n {
      assert objects[o := peer][..n] == objects[..n][o := peer];
      AcceptedUpdate(objects[..n], o, peer, operationId);
    } else {
      assert objects[o := peer][..n] == objects[..n];
    }
  }

  function One(body: Body, operationId: string): nat {
    if Starts(body, operationId) then 1 else 0
  }

  lemma OneMoreBody(bodies: seq<Body>, body: Body, operationId: string)
    ensures StartBodies(bodies + [body], operationId) == StartBodies(bodies, operationId) + One(body, operationId)
  {
    assert (bodies + [body])[..|bodies|] == bodies;
  }

  /** A network step encrypts a start only where Android sends one. */
  lemma EncryptedDelta(s: Channel.State, step: Channel.Step, at: real, operationId: string)
    requires Channel.ValidSides(s) && Channel.Enabled(s, step, at)
    ensures StartsEncrypted(Channel.Next(s, step, at).android, operationId)
            <= StartsEncrypted(s.android, operationId)
               + if step.AndroidSends? then One(step.body, operationId) else 0
  {
    var t := Channel.Next(s, step, at);
    hide Channel.Derivable, Channel.Encrypted;
    match step
    case AndroidInit(h) => assert t.android[..|s.android|] == s.android && StartBodies([], operationId) == 0;
    case AndroidSends(i, body) =>
      OneMoreBody(s.android[i].sent, body, operationId);
      EncryptedUpdate(s.android, i, t.android[i], operationId);
    case FrameReachesAndroid(i, _) => EncryptedUpdate(s.android, i, t.android[i], operationId);
    case _ =>
  }

  /** The Wisp accepts a start only where a body comes out of a frame. */
  lemma AcceptedDelta(s: Channel.State, step: Channel.Step, at: real, operationId: string)
    requires Channel.ValidSides(s) && Channel.Enabled(s, step, at)
    ensures StartsAccepted(Channel.Next(s, step, at).wisp, operationId)
            == StartsAccepted(s.wisp, operationId)
               + if step.FrameReachesWisp? && Channel.Delivered(s, step.frame, at).Some?
                 then One(Channel.Delivered(s, step.frame, at).value, operationId) else 0
  {
    var t := Channel.Next(s, step, at);
    Channel.WispChange(s, step, at);
    assert s.current.Some? ==> s.current.value < |s.wisp|;
    hide Channel.Next, Channel.Enabled, Channel.Delivered, Channel.ValidSides;
    if step.InitReachesWisp? {
      assert StartBodies([], operationId) == 0;
    } else if (step.WispSends? || step.FrameReachesWisp?) && s.current.Some? {
      var o := s.current.value;
      if step.FrameReachesWisp? && Channel.Delivered(s, step.frame, at).Some? {
        OneMoreBody(s.wisp[o].side.accepted, Channel.Delivered(s, step.frame, at).value, operationId);
      }
      AcceptedUpdate(s.wisp, o, t.wisp[o], operationId);
    } else if step.FrameReachesWisp? {
      Channel.NothingDelivered(s, step.frame, at);
    }
  }

  // ---------------------------------------------------------------- the invariant

  /** How many starts of an operation its mutation has encrypted so far. */
  function StartsDue(s: State, operationId: string): nat {
    if operationId in s.mutations then
      var p := s.mutations[operationId];
      if p.done <= |MutationSends(p.mutation)| then StartBodies(MutationSends(p.mutation)[..p.done], operationId) else 0
    else 0
  }

  function Waiting(s: State, operationId: string): nat {
    if s.inbox.Some? then One(s.inbox.value, operationId) else 0
  }

  ghost predicate MutationsInv(s: State) {
    forall id :: id in s.mutations ==>
      s.mutations[id].mutation.operationId == id && s.mutations[id].done <= |MutationSends(s.mutations[id].mutation)|
  }

  /** Joint one: what Android encrypted with an operation id, its mutation asked for. */
  ghost predicate EncryptedInv(s: State) {
    forall id: string {:trigger StartsDue(s, id)} :: StartsEncrypted(s.net.android, id) <= StartsDue(s, id)
  }

  /** Joint two: what was dispatched for an operation, or waits to be, was accepted. */
  ghost predicate DispatchedInv(s: State) {
    forall id: string {:trigger Waiting(s, id)} ::
      Dispatched(s.history, KeyOf(s, id)) + Waiting(s, id) <= StartsAccepted(s.net.wisp, id)
  }

  ghost predicate LedgerInv(s: State) {
    Ledger.Reaches(s.history, s.ledger) && s.ledger.now <= s.clock
  }

  ghost predicate Inv(s: State) {
    && Channel.Inv(s.net) && Channel.ValidSides(s.net)
    && LedgerInv(s) && MutationsInv(s) && EncryptedInv(s) && DispatchedInv(s)
  }

  lemma SendsAreItsOwn(m: Mutation, n: nat, operationId: string)
    requires n < |MutationSends(m)| && operationId != m.operationId
    ensures One(MutationSends(m)[n], operationId) == 0
  {
  }

  lemma OneMoreSend(m: Mutation, n: nat)
    requires n < |MutationSends(m)|
    ensures StartBodies(MutationSends(m)[..n + 1], m.operationId)
            == StartBodies(MutationSends(m)[..n], m.operationId) + One(MutationSends(m)[n], m.operationId)
  {
    assert MutationSends(m)[..n + 1] == MutationSends(m)[..n] + [MutationSends(m)[n]];
    OneMoreBody(MutationSends(m)[..n], MutationSends(m)[n], m.operationId);
  }

  lemma StepKeepsMutations(s: State, step: Step, at: real)
    requires Channel.ValidSides(s.net) && Enabled(s, step, at) && MutationsInv(s)
    ensures MutationsInv(Next(s, step, at))
  {
    hide Channel.Next, Channel.Enabled, Ledger.Enabled, Ledger.Next, MutationSends;
  }

  lemma StepKeepsEncryptedOf(s: State, step: Step, at: real, id: string)
    requires Channel.ValidSides(s.net) && Enabled(s, step, at) && MutationsInv(s)
    requires StartsEncrypted(s.net.android, id) <= StartsDue(s, id)
    ensures StartsEncrypted(Next(s, step, at).net.android, id) <= StartsDue(Next(s, step, at), id)
  {
    hide Channel.Next, Ledger.Enabled, Ledger.Next, MutationSends, Channel.ValidSides, StartsEncrypted;
    match step
    case Network(n) => EncryptedDelta(s.net, n, at, id);
    case SendNext(sender, i) =>
      var p := s.mutations[sender];
      EncryptedDelta(s.net, Channel.AndroidSends(i, MutationSends(p.mutation)[p.done]), at, id);
      if id == sender {
        OneMoreSend(p.mutation, p.done);
      } else {
        SendsAreItsOwn(p.mutation, p.done, id);
      }
    case _ =>
  }

  lemma StepKeepsEncrypted(s: State, step: Step, at: real)
    requires Channel.ValidSides(s.net) && Enabled(s, step, at) && MutationsInv(s) && EncryptedInv(s)
    ensures EncryptedInv(Next(s, step, at))
  {
    hide Next, Enabled, StartsEncrypted, StartsDue, MutationsInv;
    var t := Next(s, step, at);
    forall id: string {:trigger StartsDue(t, id)} ensures StartsEncrypted(t.net.android, id) <= StartsDue(t, id) {
      assert StartsEncrypted(s.net.android, id) <= StartsDue(s, id);
      StepKeepsEncryptedOf(s, step, at, id);
    }
  }

  lemma OneMoreDispatch(history: Ledger.Run, step: Ledger.Step, at: real, key: Quota.Key)
    ensures Dispatched(history + [(step, at)], key) == Dispatched(history, key) + if Dispatches(step, key) then 1 else 0
  {
    assert (history + [(step, at)])[..|history|] == history;
  }

  /** What is dispatched for this endpoint is what was waiting. */
  lemma DispatchWasWaiting(s: State, body: Body, known: bool, request: Quota.FileRequest, id: string)
    ensures Dispatches(StepFor(s, body, known, request), KeyOf(s, id)) ==> One(body, id) == 1
  {
  }

  /** A network step and the starts that it makes the Wisp accept. */
  lemma NetworkKeepsDispatchedOf(s: State, n: Channel.Step, at: real, id: string)
    requires Channel.ValidSides(s.net) && Enabled(s, Network(n), at)
    ensures Waiting(Next(s, Network(n), at), id) + StartsAccepted(s.net.wisp, id)
            <= Waiting(s, id) + StartsAccepted(Next(s, Network(n), at).net.wisp, id)
  {
    hide Channel.Next, Channel.Enabled, Channel.ValidSides, StartsAccepted, One, Channel.Delivered;
    AcceptedDelta(s.net, n, at, id);
  }

  lemma StepKeepsDispatchedOf(s: State, step: Step, at: real, id: string)
    requires Channel.ValidSides(s.net) && Enabled(s, step, at)
    requires Dispatched(s.history, KeyOf(s, id)) + Waiting(s, id) <= StartsAccepted(s.net.wisp, id)
    ensures var t := Next(s, step, at);
            Dispatched(t.history, KeyOf(t, id)) + Waiting(t, id) <= StartsAccepted(t.net.wisp, id)
  {
    NetworkKeepsIds(s, step, at);
    hide Channel.Next, Ledger.Enabled, Ledger.Next, MutationSends, Channel.Enabled, Channel.ValidSides, StartsAccepted;
    hide StepFor, Dispatched, Channel.Delivered, Starts;
    match step
    case Network(n) => NetworkKeepsDispatchedOf(s, n, at, id);
    case SendNext(sender, i) =>
      AcceptedDelta(s.net, Channel.AndroidSends(i,
          MutationSends(s.mutations[sender].mutation)[s.mutations[sender].done]), at, id);
    case Dispatch(known, request) =>
      DispatchWasWaiting(s, s.inbox.value, known, request, id);
      OneMoreDispatch(s.history, StepFor(s, s.inbox.value, known, request), at, KeyOf(s, id));
    case Work(w) => OneMoreDispatch(s.history, w, at, KeyOf(s, id));
    case BeginMutation(_) =>
  }

  lemma StepKeepsDispatched(s: State, step: Step, at: real)
    requires Channel.ValidSides(s.net) && Enabled(s, step, at) && DispatchedInv(s)
    ensures DispatchedInv(Next(s, step, at))
  {
    hide Next, Enabled, StartsAccepted, Waiting, Dispatched;
    var t := Next(s, step, at);
    forall id: string {:trigger Waiting(t, id)}
      ensures Dispatched(t.history, KeyOf(t, id)) + Waiting(t, id) <= StartsAccepted(t.net.wisp, id)
    {
      assert Dispatched(s.history, KeyOf(s, id)) + Waiting(s, id) <= StartsAccepted(s.net.wisp, id);
      StepKeepsDispatchedOf(s, step, at, id);
    }
  }

  lemma NetworkKeepsIds(s: State, step: Step, at: real)
    requires Channel.ValidSides(s.net) && Enabled(s, step, at)
    ensures Next(s, step, at).net.androidId == s.net.androidId && Next(s, step, at).net.wispId == s.net.wispId
  {
    hide Ledger.Enabled, Ledger.Next, MutationSends, Channel.Next, Channel.Enabled, Channel.ValidSides;
    match step
    case Network(n) => Channel.StepKeepsIds(s.net, n, at);
    case SendNext(id, i) =>
      var n := Channel.AndroidSends(i, MutationSends(s.mutations[id].mutation)[s.mutations[id].done]);
      Channel.StepKeepsIds(s.net, n, at);
    case _ =>
  }

  lemma LedgerGoesOn(s: State, step: Ledger.Step, at: real)
    requires LedgerInv(s) && Ledger.Enabled(s.ledger, step) && s.clock <= at
    ensures LedgerInv(TakeLedgerStep(s, step, at))
  {
    hide Ledger.Enabled, Ledger.Reaches;
    var longer := Ledger.OneMoreStep(s.history, s.ledger, step, at);
    assert TakeLedgerStep(s, step, at).ledger.now == at;
  }

  lemma StepKeepsLedger(s: State, step: Step, at: real)
    requires Channel.ValidSides(s.net) && Enabled(s, step, at) && LedgerInv(s)
    ensures LedgerInv(Next(s, step, at))
  {
    hide Channel.Next, Channel.Enabled, Ledger.Next, MutationSends, Ledger.Reaches;
    match step
    case Dispatch(known, request) => LedgerGoesOn(s, StepFor(s, s.inbox.value, known, request), at);
    case Work(w) => LedgerGoesOn(s, w, at);
    case _ =>
  }

  lemma StepKeepsNet(s: State, step: Step, at: real)
    requires Channel.ValidSides(s.net) && Enabled(s, step, at) && Channel.Inv(s.net)
    ensures Channel.Inv(Next(s, step, at).net) && Channel.ValidSides(Next(s, step, at).net)
  {
    hide Channel.Next, Channel.Inv, Ledger.Enabled, Ledger.Next, MutationSends, Channel.ValidSides;
    match step
    case Network(n) =>
      Channel.StepKeepsInv(s.net, n, at);
      Channel.InvValid(Channel.Next(s.net, n, at));
    case SendNext(id, i) =>
      var n := Channel.AndroidSends(i, MutationSends(s.mutations[id].mutation)[s.mutations[id].done]);
      Channel.StepKeepsInv(s.net, n, at);
      Channel.InvValid(Channel.Next(s.net, n, at));
    case _ =>
  }

  lemma StepKeepsInv(s: State, step: Step, at: real)
    requires Inv(s) && Enabled(s, step, at)
    ensures Inv(Next(s, step, at))
  {
    StepKeepsNet(s, step, at);
    StepKeepsLedger(s, step, at);
    StepKeepsMutations(s, step, at);
    StepKeepsEncrypted(s, step, at);
    StepKeepsDispatched(s, step, at);
    hide Next, Enabled, LedgerInv, MutationsInv, EncryptedInv, DispatchedInv, Channel.Inv, Channel.ValidSides;
  }

  lemma StartInv(androidId: string, wispId: string)
    ensures Inv(Start(androidId, wispId))
  {
    assert Ledger.Reaches([], Ledger.Init);
  }

  lemma {:induction false} RunKeepsInv(s: State, run: Run, t: State)
    requires Inv(s) && LeadsTo(s, run, t)
    ensures Inv(t)
    decreases |run|
  {
    hide Inv;
    if run != [] {
      var n := |run| - 1;
      var (step, at) := run[n];
      var prev: State :|
        LeadsTo(s, run[..n], prev) && Channel.ValidSides(prev.net) && Enabled(prev, step, at)
            && t == Next(prev, step, at);
      RunKeepsInv(s, run[..n], prev);
      StepKeepsInv(prev, step, at);
    }
  }

  lemma ReachableInv(run: Run, s: State)
    requires Reachable(run, s)
    ensures Inv(s)
  {
    StartInv(s.net.androidId, s.net.wispId);
    RunKeepsInv(Start(s.net.androidId, s.net.wispId), run, s);
  }

  // ---------------------------------------------------------------- starts and deliveries

  /** The starts accepted by the objects that were made from handshake `i`. */
  function AcceptedInSession(objects: seq<Channel.WispSide>, i: nat, operationId: string): nat {
    if objects == [] then 0
    else
      var last := objects[|objects| - 1];
      AcceptedInSession(objects[..|objects| - 1], i, operationId)
      + if last.init == i then StartBodies(last.side.accepted, operationId) else 0
  }

  /** Every object accepts a prefix of what Android sent in its session. */
  predicate Prefixes(objects: seq<Channel.WispSide>, sides: seq<Channel.Side>) {
    forall o :: 0 <= o < |objects| ==>
      objects[o].init < |sides| && objects[o].side.accepted <= sides[objects[o].init].sent
  }

  lemma {:induction false} SessionBound(objects: seq<Channel.WispSide>, sides: seq<Channel.Side>, i: nat,
      operationId: string)
    requires Prefixes(objects, sides) && i < |sides|
    ensures AcceptedInSession(objects, i, operationId)
            <= Channel.Deliveries(objects, i) * StartBodies(sides[i].sent, operationId)
    decreases |objects|
  {
    if objects != [] {
      var n := |objects| - 1;
      var x, d := StartBodies(sides[i].sent, operationId), Channel.Deliveries(objects[..n], i);
      SessionBound(objects[..n], sides, i, operationId);
      if objects[n].init == i {
        StartBodiesMonotone(objects[n].side.accepted, sides[i].sent, operationId);
        assert (d + 1) * x == d * x + x;
      }
    }
  }

  /** A start that was encrypted at most once is accepted at most as often as the handshake of its
      session was delivered. */
  lemma {:induction false} AllInOneSession(objects: seq<Channel.WispSide>, sides: seq<Channel.Side>, i: nat,
      operationId: string)
    requires Prefixes(objects, sides)
    requires forall j :: 0 <= j < |sides| ==> StartBodies(sides[j].sent, operationId) <= if j == i then 1 else 0
    ensures StartsAccepted(objects, operationId) <= Channel.Deliveries(objects, i)
    decreases |objects|
  {
    if objects != [] {
      var n := |objects| - 1;
      AllInOneSession(objects[..n], sides, i, operationId);
      var last := objects[n];
      StartBodiesMonotone(last.side.accepted, sides[last.init].sent, operationId);
      assert StartBodies(sides[last.init].sent, operationId) <= if last.init == i then 1 else 0;
    }
  }

  lemma {:induction false} OneSession(sides: seq<Channel.Side>, operationId: string) returns (i: nat)
    requires StartsEncrypted(sides, operationId) <= 1
    ensures forall j :: 0 <= j < |sides| ==> StartBodies(sides[j].sent, operationId) <= if j == i then 1 else 0
    ensures StartsEncrypted(sides, operationId) == 0 ==>
              forall j :: 0 <= j < |sides| ==> StartBodies(sides[j].sent, operationId) == 0
    decreases |sides|
  {
    i := 0;
    if sides != [] {
      var n := |sides| - 1;
      i := OneSession(sides[..n], operationId);
      if StartBodies(sides[n].sent, operationId) == 1 {
        i := n;
      }
      assert forall j :: 0 <= j < n ==> sides[..n][j] == sides[j];
    }
  }

  // ---------------------------------------------------------------- main results

  lemma ReachablePrefixes(run: Run, s: State)
    requires Reachable(run, s)
    ensures Prefixes(s.net.wisp, s.net.android)
  {
    ReachableInv(run, s);
    forall o | 0 <= o < |s.net.wisp|
      ensures s.net.wisp[o].init < |s.net.android|
          && s.net.wisp[o].side.accepted <= s.net.android[s.net.wisp[o].init].sent
    {
      Channel.InvPrefix(s.net, o);
    }
  }

  /** Android encrypts at most one start of an operation, in all its sessions together. */
  lemma EncryptedAtMostOnce(run: Run, s: State, operationId: string)
    requires Reachable(run, s)
    ensures StartsEncrypted(s.net.android, operationId) <= 1
    ensures operationId !in s.mutations ==> StartsEncrypted(s.net.android, operationId) == 0
  {
    ReachableInv(run, s);
    assert StartsEncrypted(s.net.android, operationId) <= StartsDue(s, operationId);
    if operationId in s.mutations {
      var p := s.mutations[operationId];
      AtMostOneStart(p.mutation);
      StartBodiesMonotone(MutationSends(p.mutation)[..p.done], MutationSends(p.mutation), operationId);
    }
  }

  /** In each session, the starts that the Wisp accepts are at most those that Android encrypted, once
      for every delivery of the session's handshake. */
  lemma AcceptedPerDelivery(run: Run, s: State, i: nat, operationId: string)
    requires Reachable(run, s) && i < |s.net.android|
    ensures AcceptedInSession(s.net.wisp, i, operationId)
            <= Channel.Deliveries(s.net.wisp, i) * StartBodies(s.net.android[i].sent, operationId)
  {
    ReachablePrefixes(run, s);
    SessionBound(s.net.wisp, s.net.android, i, operationId);
  }

  /** The callback of an operation runs at most as often as some one handshake was delivered. */
  lemma RunsAtMostOncePerDelivery(run: Run, s: State, operationId: string, d: nat)
    requires Reachable(run, s) && forall i :: 0 <= i < |s.net.android| ==> Channel.Deliveries(s.net.wisp, i) <= d
    ensures CallbackStarts(s.ledger.log, KeyOf(s, operationId)) <= d
  {
    ReachableInv(run, s);
    ReachablePrefixes(run, s);
    EncryptedAtMostOnce(run, s, operationId);
    var i := OneSession(s.net.android, operationId);
    AllInOneSession(s.net.wisp, s.net.android, i, operationId);
    StartsNeedDispatches(s.history, s.ledger, KeyOf(s, operationId));
    assert Dispatched(s.history, KeyOf(s, operationId)) + Waiting(s, operationId)
           <= StartsAccepted(s.net.wisp, operationId);
    if i >= |s.net.android| {
      NoSuchSession(s.net.wisp, s.net.android, i);
    }
  }

  lemma {:induction false} NoSuchSession(objects: seq<Channel.WispSide>, sides: seq<Channel.Side>, i: nat)
    requires Prefixes(objects, sides) && i >= |sides|
    ensures Channel.Deliveries(objects, i) == 0
    decreases |objects|
  {
    if objects != [] {
      NoSuchSession(objects[..|objects| - 1], sides, i);
    }
  }

  /** At most once: as long as no handshake is delivered twice, the callback of an operation runs at
      most once, whatever frames are lost, repeated or reordered in any session, whenever Android
      starts new sessions, and however its attempts end. */
  lemma MutationRunsAtMostOnce(run: Run, s: State, operationId: string)
    requires Reachable(run, s) && forall i :: 0 <= i < |s.net.android| ==> Channel.Deliveries(s.net.wisp, i) <= 1
    ensures CallbackStarts(s.ledger.log, KeyOf(s, operationId)) <= 1
  {
    RunsAtMostOncePerDelivery(run, s, operationId, 1);
  }

  /** And however often handshakes are delivered, two runs of the callback in one lane are more than
      the retention apart, unless a plain result with assets came in between. */
  lemma RunsAreSpaced(run: Run, s: State, i: nat, j: nat)
    requires Reachable(run, s) && i < j < |s.ledger.log| && s.ledger.log[i].Start? && s.ledger.log[j].Start?
    requires s.ledger.log[i].key == s.ledger.log[j].key && s.ledger.log[i].lane == s.ledger.log[j].lane
    requires s.ledger.log[i].lane == Ledger.PlainLane ==>
               forall m :: i < m < j ==> s.ledger.log[m] != Ledger.AssetReturn(s.ledger.log[i].key)
    ensures s.ledger.log[j].at > s.ledger.log[i].at + Ledger.COMPLETED_OPERATION_TTL_SECONDS
  {
    ReachableInv(run, s);
    if s.ledger.log[i].lane == Ledger.FileLane {
      Ledger.FileLaneAtMostOnce(s.history, s.ledger, i, j);
    } else {
      Ledger.PlainLaneAtMostOnce(s.history, s.ledger, i, j);
    }
  }

  lemma ActionActs(l: Ledger.State, key: Quota.Key, wispId: string, at: real)
    requires Ledger.Enabled(l, Ledger.ActionBegin(key, wispId)) && key !in l.active
    ensures Ledger.Next(l, Ledger.ActionBegin(key, wispId), at).log
            == l.log + if key !in l.completed then [Ledger.Start(key, Ledger.PlainLane, at)] else []
  {
  }

  lemma UploadActs(l: Ledger.State, key: Quota.Key, wispId: string, request: Quota.FileRequest, at: real)
    requires Ledger.Enabled(l, Ledger.FileBegin(key, wispId, request))
    ensures Ledger.Next(l, Ledger.FileBegin(key, wispId, request), at).log
            == l.log + if key !in l.completed && key !in l.transfers && Quota.Admissible(l.transfers, key, request)
                       then [Ledger.Accept(key, at)] else []
  {
    hide Quota.Admissible, Quota.AcceptedAll;
  }

  lemma OthersActNot(l: Ledger.State, at: real)
    requires Ledger.Enabled(l, Ledger.OtherRequest)
    ensures Ledger.Next(l, Ledger.OtherRequest, at) == l.(loop := Ledger.Idle, now := at)
  {
  }

  /** A dispatched body is acted on: a start runs its callback, or its upload is accepted, exactly if its
      id is proper and nothing is known of it (and the upload is admissible); nothing else is logged. */
  lemma DispatchActs(run: Run, s: State, request: Quota.FileRequest, at: real)
    requires Reachable(run, s) && Channel.ValidSides(s.net) && Enabled(s, Dispatch(true, request), at)
    ensures var t := Next(s, Dispatch(true, request), at);
            && t.inbox.None? && t.net == s.net
            && match s.inbox.value
               case UserAction(wispId, id) =>
                 var key := Quota.Key(s.net.androidId, id);
                 t.ledger.log == s.ledger.log
                                 + if 0 < |id| <= 128 && key !in s.ledger.completed
                                   then [Ledger.Start(key, Ledger.PlainLane, at)] else []
               case FileBegin(wispId, id) =>
                 var key := Quota.Key(s.net.androidId, id);
                 t.ledger.log == s.ledger.log
                                 + if key !in s.ledger.completed && key !in s.ledger.transfers
                                      && Quota.Admissible(s.ledger.transfers, key, request)
                                   then [Ledger.Accept(key, at)] else []
               case _ => t.ledger == s.ledger.(loop := Ledger.Idle, now := at)
  {
    ReachableInv(run, s);
    match s.inbox.value
    case UserAction(wispId, id) =>
      var key := KeyOf(s, id);
      Ledger.OneCallbackAtATime(s.history, s.ledger, key);
      hide Reachable, Inv, Channel.ValidSides, Ledger.Reaches, Ledger.Next;
      if 0 < |id| <= 128 {
        ActionActs(s.ledger, key, wispId, at);
      } else {
        OthersActNot(s.ledger, at);
      }
    case FileBegin(wispId, id) =>
      hide Reachable, Inv, Channel.ValidSides, Ledger.Reaches, Ledger.Next, Quota.Admissible;
      UploadActs(s.ledger, KeyOf(s, id), wispId, request, at);
    case _ =>
      hide Reachable, Inv, Channel.ValidSides, Ledger.Reaches, Ledger.Next;
      OthersActNot(s.ledger, at);
  }

  // ---------------------------------------------------------------- runs with many callbacks

  lemma OneMoreStep(run: Run, s: State, step: Step, at: real) returns (longer: Run)
    requires Reachable(run, s) && Channel.ValidSides(s.net) && Enabled(s, step, at)
    ensures Reachable(longer, Next(s, step, at)) && longer == run + [(step, at)]
  {
    longer := run + [(step, at)];
    assert longer[..|longer| - 1] == run;
    NetworkKeepsIds(s, step, at);
  }

  /** The current object of the Wisp was made from handshake 0 at `at` and has accepted nothing. */
  predicate FreshObject(net: Channel.State, at: real) {
    && net.current.Some? && net.current.value < |net.wisp|
    && var newest := net.wisp[net.current.value];
       newest.init == 0 && newest.side.accepted == [] && Live(newest.side.session, at)
  }

  /** The start of a plain action is message 0 of the only session. */
  predicate StartOnWire(net: Channel.State, m: Mutation) {
    && m.PlainMutation? && |net.wire| == 1 && |net.android| == 1
    && net.wire[0].origin == Channel.ByAndroid(0) && net.wire[0].number == 0
    && net.android[0].sent == [UserAction(m.wispId, m.operationId)]
  }

  lemma DeliverHandshake(run: Run, s: State, at: real, later: real) returns (longer: Run, t: State)
    requires Reachable(run, s) && Channel.ValidSides(s.net) && |s.net.inits| == 1 && Listening(s)
        && s.clock <= at <= later < at + 1800.0
    ensures Reachable(longer, t) && Channel.ValidSides(t.net)
    ensures FreshObject(t.net, later)
    ensures t == s.(net := t.net, clock := at)
    ensures t.net == s.net.(wisp := t.net.wisp, current := t.net.current)
    ensures Channel.Deliveries(t.net.wisp, 0) == Channel.Deliveries(s.net.wisp, 0) + 1
  {
    hide Reachable, Ledger.Enabled, Ledger.Next;
    var step := Network(Channel.InitReachesWisp(0));
    longer := OneMoreStep(run, s, step, at);
    t := Next(s, step, at);
    assert t.net.wisp[..|s.net.wisp|] == s.net.wisp;
  }

  /** A fresh object accepts the start. */
  lemma StartIsAccepted(net: Channel.State, m: Mutation, at: real)
    requires Channel.Inv(net) && Channel.ValidSides(net) && FreshObject(net, at) && StartOnWire(net, m)
    ensures Channel.Derivable(net, net.wire[0].frame)
    ensures Channel.Delivered(net, net.wire[0].frame, at) == Some(UserAction(m.wispId, m.operationId))
  {
    var frame := net.wire[0].frame;
    assert Channel.Genuine(net, 0);
    assert Channel.Encrypted(net, frame.ciphertext);
    hide Channel.OfSession, Accepts;
    Channel.InvAccepts(net, 0, net.current.value, 0, at);
  }

  lemma {:induction false} DeliveriesUpdate(objects: seq<Channel.WispSide>, o: nat, peer: Channel.WispSide, i: nat)
    requires o < |objects| && peer.init == objects[o].init
    ensures Channel.Deliveries(objects[o := peer], i) == Channel.Deliveries(objects, i)
    decreases |objects|
  {
    var n := |objects| - 1;
    if o < n {
      assert objects[o := peer][..n] == objects[..n][o := peer];
      DeliveriesUpdate(objects[..n], o, peer, i);
    } else {
      assert objects[o := peer][..n] == objects[..n];
    }
  }

  lemma AcceptStart(net: Channel.State, m: Mutation, at: real) returns (next: Channel.State)
    requires Channel.Inv(net) && Channel.ValidSides(net) && FreshObject(net, at) && StartOnWire(net, m)
    ensures Channel.Enabled(net, Channel.FrameReachesWisp(net.wire[0].frame), at)
    ensures next == Channel.Next(net, Channel.FrameReachesWisp(net.wire[0].frame), at)
    ensures Channel.ValidSides(next) && next == net.(wisp := next.wisp, current := next.current)
    ensures Channel.Deliveries(next.wisp, 0) == Channel.Deliveries(net.wisp, 0)
    ensures Channel.Delivered(net, net.wire[0].frame, at) == Some(UserAction(m.wispId, m.operationId))
  {
    StartIsAccepted(net, m, at);
    Channel.StepKeepsInv(net, Channel.FrameReachesWisp(net.wire[0].frame), at);
    next := Channel.Next(net, Channel.FrameReachesWisp(net.wire[0].frame), at);
    Channel.InvValid(next);
    DeliveriesUpdate(net.wisp, net.current.value, next.wisp[net.current.value], 0);
    hide Channel.Inv, Channel.ValidSides, Channel.Delivered, Channel.Derivable, Accepts;
  }

  /** The dispatch of an accepted body comes as far as the body: nothing is old enough to wait for. */
  lemma DispatchStarts(run: Run, s: State, at: real) returns (longer: Run, t: State)
    requires Reachable(run, s) && Channel.ValidSides(s.net) && s.clock <= at
    requires s.ledger.loop.Idle? && s.ledger.transfers == map[]
    ensures Reachable(longer, t)
    ensures t == s.(ledger := t.ledger, history := t.history, clock := at)
    ensures t.ledger == s.ledger.(completed := Ledger.FreshRecords(s.ledger.completed, at), loop := Ledger.Ready(at),
                                  now := at)
  {
    var l1, l2, l3 := Ledger.ExpirySteps(s.ledger, at);
    hide Reachable, Channel.ValidSides, Ledger.Next, Ledger.Enabled, Ledger.FreshRecords;
    longer := OneMoreStep(run, s, Work(Ledger.MarkExpired), at);
    var s1 := Next(s, Work(Ledger.MarkExpired), at);
    longer := OneMoreStep(longer, s1, Work(Ledger.Sweep), at);
    var s2 := Next(s1, Work(Ledger.Sweep), at);
    longer := OneMoreStep(longer, s2, Work(Ledger.ExpireCompleted), at);
    t := Next(s2, Work(Ledger.ExpireCompleted), at);
  }

  /** The ledger between dispatches, with no upload, and no record of `key` that outlives `at`. */
  predicate Forgotten(s: Ledger.State, key: Quota.Key, at: real) {
    && s.loop.Idle? && s.transfers == map[] && s.active == {}
    && (key in s.completed ==> s.completed[key].at < at - Ledger.COMPLETED_OPERATION_TTL_SECONDS)
  }

  function RunsAt(s: Ledger.State, key: Quota.Key, at: real): Ledger.State {
    s.(completed := Ledger.FreshRecords(s.completed, at), active := {key}, loop := Ledger.Calling(key), now := at,
       log := s.log + [Ledger.Start(key, Ledger.PlainLane, at)])
  }

  lemma ActionStarts(s: Ledger.State, key: Quota.Key, wispId: string, at: real)
    requires Forgotten(s, key, at) && 0 < |key.operationId| <= Ledger.MAX_OPERATION_ID_LENGTH
    ensures var l := s.(completed := Ledger.FreshRecords(s.completed, at), loop := Ledger.Ready(at), now := at);
            && Ledger.Enabled(l, Ledger.ActionBegin(key, wispId))
            && Ledger.Next(l, Ledger.ActionBegin(key, wispId), at) == RunsAt(s, key, at)
  {
  }

  lemma DispatchAction(run: Run, s: State, wispId: string, id: string, at: real) returns (longer: Run, t: State)
    requires Reachable(run, s) && Channel.ValidSides(s.net) && s.clock <= at && Forgotten(s.ledger, KeyOf(s, id), at)
    requires s.inbox == Some(UserAction(wispId, id)) && 0 < |id| <= Ledger.MAX_OPERATION_ID_LENGTH
    ensures Reachable(longer, t)
    ensures t == s.(ledger := RunsAt(s.ledger, KeyOf(s, id), at), history := t.history, inbox := None, clock := at)
  {
    ActionStarts(s.ledger, KeyOf(s, id), wispId, at);
    hide Reachable, Channel.ValidSides, Ledger.Next, Ledger.Enabled, Ledger.FreshRecords, RunsAt;
    var s1;
    longer, s1 := DispatchStarts(run, s, at);
    var dispatch := Dispatch(true, Quota.FileRequest(None, []));
    longer := OneMoreStep(longer, s1, dispatch, at);
    t := Next(s1, dispatch, at);
  }

  /** The start reaches a fresh object and is dispatched: the callback runs. */
  lemma DeliverStart(run: Run, s: State, m: Mutation, at: real) returns (longer: Run, t: State)
    requires Reachable(run, s) && Channel.ValidSides(s.net) && FreshObject(s.net, at) && StartOnWire(s.net, m)
    requires s.inbox.None? && s.clock <= at && Forgotten(s.ledger, KeyOf(s, m.operationId), at)
    requires 0 < |m.operationId| <= Ledger.MAX_OPERATION_ID_LENGTH
    ensures Reachable(longer, t) && Channel.ValidSides(t.net)
    ensures t.net == s.net.(wisp := t.net.wisp, current := t.net.current)
    ensures t == s.(net := t.net, ledger := RunsAt(s.ledger, KeyOf(s, m.operationId), at), history := t.history,
                    clock := at)
    ensures Channel.Deliveries(t.net.wisp, 0) == Channel.Deliveries(s.net.wisp, 0)
  {
    ReachableInv(run, s);
    var next := AcceptStart(s.net, m, at);
    assert s.net.wire != [];
    hide Reachable, Inv, Channel.Inv, Channel.Next, Channel.Enabled, Channel.ValidSides, Channel.Delivered;
    hide Ledger.Enabled, Ledger.Next, FreshObject, MutationSends, StartOnWire, RunsAt;
    var arrive := Network(Channel.FrameReachesWisp(s.net.wire[0].frame));
    longer := OneMoreStep(run, s, arrive, at);
    longer, t := DispatchAction(longer, Next(s, arrive, at), m.wispId, m.operationId, at);
  }

  lemma FirstSide(androidId: string, wispId: string, h: Channel.Handshake) returns (t: Channel.State)
    ensures var net := Channel.Start(androidId, wispId);
            && Channel.ValidSides(net) && Channel.Enabled(net, Channel.AndroidInit(h), 0.0)
            && t == Channel.Next(net, Channel.AndroidInit(h), 0.0)
            && t == net.(inits := [h], android := [Channel.NewAndroidSide(net, h, 0.0)])
    ensures Channel.ValidSides(t)
  {
    t := Channel.Next(Channel.Start(androidId, wispId), Channel.AndroidInit(h), 0.0);
  }

  lemma HandshakeMade(androidId: string, wispId: string, h: Channel.Handshake) returns (run: Run, s: State)
    ensures Reachable(run, s) && Channel.ValidSides(s.net)
    ensures s.net.androidId == androidId && s.net.inits == [h] && s.net.wire == [] && s.net.ready == {}
    ensures s.net.android == [Channel.NewAndroidSide(s.net, h, 0.0)] && s.net.wisp == []
    ensures s == Start(androidId, wispId).(net := s.net)
  {
    var s0 := Start(androidId, wispId);
    var net := FirstSide(androidId, wispId, h);
    assert Reachable([], s0);
    hide Reachable, Ledger.Enabled, Ledger.Next, Channel.Next, Channel.Enabled, Channel.ValidSides;
    run := OneMoreStep([], s0, Network(Channel.AndroidInit(h)), 0.0);
    s := Next(s0, Network(Channel.AndroidInit(h)), 0.0);
  }

  /** Android and the Wisp have made one session. */
  lemma SessionMade(androidId: string, wispId: string, h: Channel.Handshake) returns (run: Run, s: State)
    ensures Reachable(run, s) && Channel.ValidSides(s.net)
    ensures s.net.androidId == androidId && |s.net.inits| == 1 && FreshObject(s.net, 0.0)
    ensures s.net.wire == [] && s.net.ready == {0} && |s.net.android| == 1 && Channel.Deliveries(s.net.wisp, 0) == 1
    ensures s.net.android[0] == Channel.NewAndroidSide(s.net, h, 0.0)
    ensures s == Start(androidId, wispId).(net := s.net)
  {
    var s1, s2;
    run, s1 := HandshakeMade(androidId, wispId, h);
    hide Reachable, Ledger.Enabled, Ledger.Next;
    run, s2 := DeliverHandshake(run, s1, 0.0, 0.0);
    run := OneMoreStep(run, s2, Network(Channel.AcceptReachesAndroid(0)), 0.0);
    s := Next(s2, Network(Channel.AcceptReachesAndroid(0)), 0.0);
  }

  /** What the first message of a session does to the network. */
  lemma FirstMessage(net: Channel.State, h: Channel.Handshake, body: Body)
    requires Channel.ValidSides(net) && net.wire == [] && net.ready == {0} && |net.android| == 1
    requires net.android[0] == Channel.NewAndroidSide(net, h, 0.0)
    ensures Channel.Enabled(net, Channel.AndroidSends(0, body), 0.0) && CanSend(net.android[0].session, 0.0)
    ensures var t := Channel.Next(net, Channel.AndroidSends(0, body), 0.0);
            && t == net.(android := t.android, wire := t.wire)
            && |t.android| == 1 && t.android[0].sent == [body]
            && |t.wire| == 1 && t.wire[0].origin == Channel.ByAndroid(0) && t.wire[0].number == 0
  {
    hide Nonce;
    Channel.FreshAndroidCanSend(net.android[0].session, 0.0);
  }

  /** Android makes a session, and a mutation encrypts its start in it. */
  lemma MutationSent(androidId: string, wispId: string, h: Channel.Handshake, m: Mutation) returns (run: Run, s: State)
    requires m.PlainMutation? && m.first == NoResponse
    ensures Reachable(run, s) && Channel.ValidSides(s.net)
    ensures s.net.androidId == androidId && |s.net.inits| == 1 && StartOnWire(s.net, m) && FreshObject(s.net, 0.0)
    ensures s.inbox.None? && s.clock == 0.0 && s.ledger == Ledger.Init && s.mutations.Keys == {m.operationId}
    ensures Channel.Deliveries(s.net.wisp, 0) == 1
  {
    var s3;
    run, s3 := SessionMade(androidId, wispId, h);
    var body := MutationSends(m)[0];
    assert body == UserAction(m.wispId, m.operationId);
    hide Reachable, Ledger.Enabled, Ledger.Next, MutationSends;
    run := OneMoreStep(run, s3, BeginMutation(m), 0.0);
    var s4 := Next(s3, BeginMutation(m), 0.0);
    FirstMessage(s4.net, h, body);
    run := OneMoreStep(run, s4, SendNext(m.operationId, 0), 0.0);
    s := Next(s4, SendNext(m.operationId, 0), 0.0);
    ReachableInv(run, s);
    hide Channel.Next, Channel.Enabled, CanSend;
  }

  /** The handshake of the only session was delivered once more than the callback ran, and a delivery of
      the start would run it again. */
  predicate NextRound(s: State, m: Mutation, rounds: nat) {
    var key := KeyOf(s, m.operationId);
    && Channel.ValidSides(s.net) && |s.net.inits| == 1 && StartOnWire(s.net, m) && FreshObject(s.net, s.clock)
    && s.inbox.None? && s.mutations.Keys == {m.operationId} && Forgotten(s.ledger, key, s.clock)
    && CallbackStarts(s.ledger.log, key) == rounds && Channel.Deliveries(s.net.wisp, 0) == rounds + 1
  }

  lemma ActionReturns(s: Ledger.State, key: Quota.Key, wispId: string, at: real) returns (t: Ledger.State)
    requires s.loop == Ledger.Calling(key) && s.active == {key} && s.transfers == map[] && key.operationId != ""
    ensures Ledger.Enabled(s, Ledger.ActionReturned(key, wispId, Some("")))
    ensures t == Ledger.Next(s, Ledger.ActionReturned(key, wispId, Some("")), at)
    ensures Forgotten(t, key, at + 1000.0) && t.log == s.log
  {
    t := Ledger.Next(s, Ledger.ActionReturned(key, wispId, Some("")), at);
  }

  lemma OneMoreRun(s: Ledger.State, key: Quota.Key, at: real)
    ensures CallbackStarts(RunsAt(s, key, at).log, key) == CallbackStarts(s.log, key) + 1
  {
    assert RunsAt(s, key, at).log[..|s.log|] == s.log;
  }

  /** One round: the start is delivered, the callback returns, and 1000 s later the handshake is
      delivered again. */
  lemma Round(run: Run, s: State, m: Mutation, rounds: nat) returns (longer: Run, t: State)
    requires Reachable(run, s) && NextRound(s, m, rounds) && 0 < |m.operationId| <= Ledger.MAX_OPERATION_ID_LENGTH
    ensures Reachable(longer, t) && NextRound(t, m, rounds + 1)
    ensures t.net.androidId == s.net.androidId && t.net.wispId == s.net.wispId
  {
    var key, at := KeyOf(s, m.operationId), s.clock;
    OneMoreRun(s.ledger, key, at);
    var s1;
    longer, s1 := DeliverStart(run, s, m, at);
    var l2 := ActionReturns(s1.ledger, key, m.wispId, at);
    hide Reachable, Channel.ValidSides, FreshObject, Ledger.Next, Ledger.Enabled, CallbackStarts;
    var returned := Work(Ledger.ActionReturned(key, m.wispId, Some("")));
    longer := OneMoreStep(longer, s1, returned, at);
    var s2 := Next(s1, returned, at);
    longer, t := DeliverHandshake(longer, s2, at + 1000.0, at + 1000.0);
    SameStart(s.net, t.net, m);
  }

  lemma {:induction false} Rounds(androidId: string, wispId: string, h: Channel.Handshake, m: Mutation, rounds: nat)
    returns (run: Run, s: State)
    requires m.PlainMutation? && m.first == NoResponse && 0 < |m.operationId| <= Ledger.MAX_OPERATION_ID_LENGTH
    ensures Reachable(run, s) && NextRound(s, m, rounds)
  {
    if rounds == 0 {
      run, s := MutationSent(androidId, wispId, h, m);
    } else {
      hide Reachable, NextRound;
      run, s := Rounds(androidId, wispId, h, m, rounds - 1);
      run, s := Round(run, s, m, rounds - 1);
    }
  }

  /** The bound is reached for every number of deliveries: the Wisp's record of an operation lasts 900 s,
      a handshake for ever, and when both the handshake and the start are delivered d times, long enough
      apart, one mutation runs its callback d times. */
  lemma EveryDeliveryRuns(androidId: string, wispId: string, h: Channel.Handshake, m: Mutation, d: nat)
    returns (run: Run, s: State)
    requires m.PlainMutation? && m.first == NoResponse && 0 < |m.operationId| <= Ledger.MAX_OPERATION_ID_LENGTH
    requires d > 0
    ensures Reachable(run, s) && s.mutations.Keys == {m.operationId} && |s.net.android| == 1
    ensures StartsEncrypted(s.net.android, m.operationId) == 1
    ensures Channel.Deliveries(s.net.wisp, 0) == d
    ensures CallbackStarts(s.ledger.log, KeyOf(s, m.operationId)) == d
  {
    var last;
    run, last := Rounds(androidId, wispId, h, m, d - 1);
    OneMoreRun(last.ledger, KeyOf(last, m.operationId), last.clock);
    run, s := DeliverStart(run, last, m, last.clock);
    hide Reachable, Channel.ValidSides, FreshObject, CallbackStarts;
    SameStart(last.net, s.net, m);
  }

  /** In particular a handshake that is delivered twice can run a callback twice. */
  lemma SecondCallback(androidId: string, wispId: string, h: Channel.Handshake, m: Mutation)
    returns (run: Run, s: State)
    requires m.PlainMutation? && m.first == NoResponse && 0 < |m.operationId| <= Ledger.MAX_OPERATION_ID_LENGTH
    ensures Reachable(run, s) && s.mutations.Keys == {m.operationId}
    ensures StartsEncrypted(s.net.android, m.operationId) == 1
    ensures CallbackStarts(s.ledger.log, KeyOf(s, m.operationId)) == 2
  {
    hide Reachable;
    run, s := EveryDeliveryRuns(androidId, wispId, h, m, 2);
  }

  lemma SameStart(a: Channel.State, b: Channel.State, m: Mutation)
    requires StartOnWire(a, m) && b == a.(wisp := b.wisp, current := b.current)
    ensures StartOnWire(b, m) && StartsEncrypted(b.android, m.operationId) == 1
  {
    var sent := b.android[0].sent;
    assert sent[..0] == [] && StartBodies(sent, m.operationId) == 1;
    assert b.android[..0] == [];
  }
}
