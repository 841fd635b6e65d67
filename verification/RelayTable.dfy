/** The session table of the relay (service.py): connections of the same endpoint replace one another,
    handlers end at any time, and a frame is looked up, acknowledged and written in separate stretches
    of code. A step below is one such stretch, from one await to the next. */
module RelayTable {
  import opened Wrappers

  type Time = real

  const HEARTBEAT_TIMEOUT_SECONDS: Time := 75.0
  const MAX_CIPHERTEXT: nat := 1024 * 1024

  /** A parsed JSON value as far as the relay looks at it. */
  datatype Json =
    | Text(text: string)
    | Number(number: int)
    | Fraction(value: real)
    | Bool(truth: bool)
    | Other(repr: string)

  type Envelope = map<string, Json>

  // ---------------------------------------------------------------- what may be forwarded

  function Get(e: Envelope, field: string): Json {
    if field in e then e[field] else Other("null")
  }

  /** Python's `== 1`, which `True` and `1.0` satisfy as well. */
  predicate EqualsOne(j: Json) {
    j == Number(1) || j == Bool(true) || j == Fraction(1.0)
  }

  predicate TextOfLength(j: Json, least: nat, most: nat) {
    j.Text? && least <= |j.text| <= most
  }

  const SESSION_FIELDS: set<string> :=
      {"version", "type", "session_id", "sender", "recipient", "sequence", "ciphertext"}
  const RESET_FIELDS: set<string> := {"type", "sender", "recipient", "reason"}
  const ENVELOPE_FIELDS: set<string> :=
    {"version", "type", "sender", "recipient", "message_id", "algorithm", "encrypted_key", "nonce", "ciphertext",
        "signature"}

  predicate SessionShape(e: Envelope) {
    && e.Keys == SESSION_FIELDS
    && EqualsOne(e["version"])
    && e["session_id"].Text? && e["session_id"].text != ""
    && e["sequence"].Number? && 0 <= e["sequence"].number < 0x1_0000_0000_0000_0000
    && TextOfLength(e["ciphertext"], 1, MAX_CIPHERTEXT)
  }

  predicate ResetShape(e: Envelope) {
    e.Keys == RESET_FIELDS && TextOfLength(e["reason"], 1, 128)
  }

  predicate EnvelopeShape(e: Envelope) {
    ENVELOPE_FIELDS <= e.Keys <= ENVELOPE_FIELDS + {"sender_public_key"}
  }

  /** The checks of `forward`: the shape of the message, and that it names its connection's endpoint. */
  predicate Forwardable(e: Envelope, sender: string) {
    && Get(e, "sender") == Text(sender)
    && Get(e, "recipient").Text? && Get(e, "recipient").text != ""
    && (if Get(e, "type") == Text("session_envelope") then SessionShape(e)
        else if Get(e, "type") == Text("session_reset") then ResetShape(e)
        else Get(e, "type") == Text("envelope") && EnvelopeShape(e))
  }

  function RecipientOf(e: Envelope): string {
    var r := Get(e, "recipient");
    if r.Text? then r.text else ""
  }

  // ---------------------------------------------------------------- the state

  /** What the history remembers. `source` is the sender's table entry at the moment of reading, `dest`
      that of the recipient, if the frame may be forwarded. */
  datatype Event =
    | Read(conn: nat, frame: Envelope, source: Option<nat>, dest: Option<nat>)
    | Accepted(to: nat, frame: Envelope)
    | Wrote(to: nat, frame: Envelope, from: nat, read: nat)

  /** Where the handler of a connection is: at its readline, or inside `forward` after the acceptance
      or after the frame has been written. */
  datatype Task = Reading | Forwarding(frame: Envelope, dest: nat, read: nat) | Draining(recipient: string, dest: nat)

  /** `auth` gives the endpoint each connection was authenticated as; `done` are the connections whose
      handler has run its cleanup. */
  datatype State = State(sessions: map<string, nat>, liveness: map<string, Time>,
                         auth: map<nat, string>, done: set<nat>, tasks: map<nat, Task>, log: seq<Event>)

  const Init := State(map[], map[], map[], {}, map[], [])

  datatype Step =
    | Connect(conn: nat, client: string)
    | ReadOther(conn: nat)
    | ReadFrame(conn: nat, frame: Envelope)
    | WriteFrame(conn: nat)
    | Drained(conn: nat)
    | DrainFailed(conn: nat, dest: nat)
    | Cleanup(conn: nat)
    | Revoke(client: string)

  predicate Alive(s: State, conn: nat) {
    conn in s.auth && conn in s.tasks && conn !in s.done
  }

  predicate Enabled(s: State, step: Step) {
    match step
    case Connect(conn, _) => conn !in s.auth
    case ReadOther(conn) => Alive(s, conn) && s.tasks[conn] == Reading
    case ReadFrame(conn, _) => Alive(s, conn) && s.tasks[conn] == Reading
    case WriteFrame(conn) => Alive(s, conn) && s.tasks[conn].Forwarding?
    case Drained(conn) => Alive(s, conn) && s.tasks[conn].Draining?
    case DrainFailed(conn, dest) => Alive(s, conn) && s.tasks[conn].Draining? && s.tasks[conn].dest == dest
    case Cleanup(conn) => Alive(s, conn)
    case Revoke(_) => true
  }

  function Lookup(sessions: map<string, nat>, client: string): Option<nat> {
    if client in sessions then Some(sessions[client]) else None
  }

  /** Both tables forget `client`, but only if `conn` is its entry. */
  function Evict(s: State, client: string, conn: nat): State {
    if Lookup(s.sessions, client) == Some(conn) then
      s.(sessions := s.sessions - {client}, liveness := s.liveness - {client})
    else s
  }

  /** `forward` up to its first await, on a line that was just read. */
  function Forward(s: State, conn: nat, frame: Envelope): State
    requires Alive(s, conn)
  {
    var source := Lookup(s.sessions, s.auth[conn]);
    var dest := if Forwardable(frame, s.auth[conn]) then Lookup(s.sessions, RecipientOf(frame)) else None;
    var t := s.(log := s.log + [Read(conn, frame, source, dest)]);
    if dest.None? then t
    else if source.Some? then
      t.(log := t.log + [Accepted(source.value, frame)],
         tasks := s.tasks[conn := Forwarding(frame, dest.value, |s.log|)])
    else
      t.(log := t.log + [Wrote(dest.value, frame, conn, |s.log|)],
         tasks := s.tasks[conn := Draining(RecipientOf(frame), dest.value)])
  }

  function Next(s: State, step: Step, at: Time): State
    requires Enabled(s, step)
  {
    match step
    case Connect(conn, client) =>
      s.(sessions := s.sessions[client := conn], liveness := s.liveness[client := at],
         auth := s.auth[conn := client], tasks := s.tasks[conn := Reading])
    case ReadOther(conn) => s.(liveness := s.liveness[s.auth[conn] := at])
    case ReadFrame(conn, frame) => Forward(s.(liveness := s.liveness[s.auth[conn] := at]), conn, frame)
    case WriteFrame(conn) =>
      var Forwarding(frame, dest, read) := s.tasks[conn];
      s.(log := s.log + [Wrote(dest, frame, conn, read)],
         tasks := s.tasks[conn := Draining(RecipientOf(frame), dest)])
    case Drained(conn) => s.(tasks := s.tasks[conn := Reading])
    case DrainFailed(conn, dest) => Evict(s, s.tasks[conn].recipient, dest).(tasks := s.tasks[conn := Reading])
    case Cleanup(conn) => Evict(s, s.auth[conn], conn).(done := s.done + {conn}, tasks := s.tasks - {conn})
    case Revoke(client) => s.(sessions := s.sessions - {client})
  }

  type Run = seq<(Step, Time)>

  ghost predicate LeadsTo(s: State, run: Run, t: State)
    decreases |run|
  {
    if run == [] then t == s
    else
      var (step, at) := run[|run| - 1];
      exists prev: State :: LeadsTo(s, run[..|run| - 1], prev) && Enabled(prev, step) && t == Next(prev, step, at)
  }

  ghost predicate Reaches(run: Run, s: State) {
    LeadsTo(Init, run, s)
  }

  // ---------------------------------------------------------------- the tables

  /** Every entry is a connection that was authenticated as its endpoint and has not cleaned up. */
  predicate EntryInv(s: State, client: string)
    requires client in s.sessions
  {
    var conn := s.sessions[client];
    conn in s.auth && s.auth[conn] == client && conn !in s.done
  }

  predicate TableInv(s: State) {
    && (forall c :: c in s.sessions ==> EntryInv(s, c))
    && s.sessions.Keys <= s.liveness.Keys
    && s.done <= s.auth.Keys && s.tasks.Keys <= s.auth.Keys
    && (forall c :: c in s.tasks ==> c !in s.done)
  }

  lemma StepKeepsTables(s: State, step: Step, at: Time)
    requires TableInv(s) && Enabled(s, step)
    ensures TableInv(Next(s, step, at))
  {
  }

  lemma {:induction false} TablesHold(run: Run, s: State)
    requires Reaches(run, s)
    ensures TableInv(s)
    decreases |run|
  {
    if run == [] {
    } else {
      var n := |run| - 1;
      var (step, at) := run[n];
      var prev: State :| LeadsTo(Init, run[..n], prev) && Enabled(prev, step) && s == Next(prev, step, at);
      TablesHold(run[..n], prev);
      StepKeepsTables(prev, step, at);
    }
  }

  /** The relay table: the writer a frame for `client` goes to belongs to a connection of that endpoint
      whose handler has not ended, and every live endpoint is in the liveness table. */
  lemma ReconnectSafety(run: Run, s: State, client: string)
    requires Reaches(run, s) && client in s.sessions
    ensures var conn := s.sessions[client]; conn in s.auth && s.auth[conn] == client && conn !in s.done
    ensures client in s.liveness
  {
    TablesHold(run, s);
    assert EntryInv(s, client);
  }

  /** The steps that take away the entry of `client`: a newer connection of the same endpoint, the end
      of this very connection, a failed write to it, and revocation. */
  predicate Ends(s: State, step: Step, client: string)
    requires client in s.sessions && Enabled(s, step)
  {
    var conn := s.sessions[client];
    match step
    case Connect(_, c) => c == client
    case Cleanup(c) => c == conn
    case DrainFailed(c, dest) => dest == conn && s.tasks[c].recipient == client
    case Revoke(c) => c == client
    case _ => false
  }

  lemma StepKeepsEntry(s: State, step: Step, at: Time, client: string)
    requires TableInv(s) && Enabled(s, step) && client in s.sessions
    ensures Lookup(Next(s, step, at).sessions, client) == Some(s.sessions[client]) <==> !Ends(s, step, client)
  {
    assert EntryInv(s, client);
    hide TableInv;
  }

  /** No other step does: neither the cleanup of an older connection nor a write to it that fails. */
  lemma OnlyOwnersEvict(run: Run, s: State, step: Step, at: Time, client: string)
    requires Reaches(run, s) && Enabled(s, step) && client in s.sessions
    ensures Lookup(Next(s, step, at).sessions, client) == Some(s.sessions[client]) <==> !Ends(s, step, client)
  {
    TablesHold(run, s);
    StepKeepsEntry(s, step, at, client);
  }

  /** A run without a newer connection, revocation, or failure of connection `conn` itself. */
  predicate Undisturbed(run: Run, client: string, conn: nat) {
    forall i :: 0 <= i < |run| ==> LeavesAlone(run[i].0, client, conn)
  }

  predicate LeavesAlone(step: Step, client: string, conn: nat) {
    match step
    case Connect(_, c) => c != client
    case Cleanup(c) => c != conn
    case DrainFailed(_, dest) => dest != conn
    case Revoke(c) => c != client
    case _ => true
  }

  lemma {:induction false} EntryStays(s: State, client: string, conn: nat, run: Run, t: State)
    requires TableInv(s) && Lookup(s.sessions, client) == Some(conn)
    requires LeadsTo(s, run, t) && Undisturbed(run, client, conn)
    ensures TableInv(t) && Lookup(t.sessions, client) == Some(conn)
    decreases |run|
  {
    if run == [] {
    } else {
      var n := |run| - 1;
      var (step, at) := run[n];
      var prev: State :| LeadsTo(s, run[..n], prev) && Enabled(prev, step) && t == Next(prev, step, at);
      assert run[n].0 == step;
      EntryStays(s, client, conn, run[..n], prev);
      StepKeepsTables(prev, step, at);
      StepKeepsEntry(prev, step, at, client);
      assert LeavesAlone(step, client, conn);
      hide TableInv, Next;
    }
  }

  /** A connection takes the entry of its endpoint, and keeps it through whatever becomes of older ones. */
  lemma NewestConnectionStays(before: Run, s: State, client: string, conn: nat, at: Time, run: Run, t: State)
    requires Reaches(before, s) && Enabled(s, Connect(conn, client))
    requires LeadsTo(Next(s, Connect(conn, client), at), run, t) && Undisturbed(run, client, conn)
    ensures client in t.sessions && t.sessions[client] == conn
  {
    TablesHold(before, s);
    StepKeepsTables(s, Connect(conn, client), at);
    EntryStays(Next(s, Connect(conn, client), at), client, conn, run, t);
  }

  /** The two tables need not have the same keys: revocation forgets the session alone, and a line from
      a connection without an entry revives the liveness alone. Nothing else separates them. */
  lemma KeysDrift(s: State, step: Step, at: Time)
    requires Enabled(s, step) && s.sessions.Keys == s.liveness.Keys
    ensures Next(s, step, at).sessions.Keys == Next(s, step, at).liveness.Keys
            <==> match step
                 case Revoke(client) => client !in s.sessions
                 case ReadOther(conn) => s.auth[conn] in s.sessions
                 case ReadFrame(conn, _) => s.auth[conn] in s.sessions
                 case _ => true
  {
    var t := Next(s, step, at);
    match step
    case Revoke(client) => assert client in s.sessions ==> client in t.liveness && client !in t.sessions;
    case ReadOther(conn) => assert s.auth[conn] in t.liveness;
    case ReadFrame(conn, _) => assert s.auth[conn] in t.liveness;
    case _ =>
  }

  // ---------------------------------------------------------------- what is forwarded

  /** Log entry `i` is the reading of `frame` on `conn`, a frame its endpoint may send to the endpoint
      of connection `dest`; and it was acknowledged before entry `j`, if its sender had a table entry. */
  predicate Origin(s: State, i: nat, conn: nat, frame: Envelope, dest: nat, j: nat) {
    && i < j <= |s.log| && s.log[i].Read? && s.log[i].conn == conn && s.log[i].frame == frame
    && s.log[i].dest == Some(dest) && conn in s.auth && dest in s.auth
    && Forwardable(frame, s.auth[conn]) && RecipientOf(frame) == s.auth[dest]
    && (s.log[i].source.Some? ==>
          var to := s.log[i].source.value;
          && to in s.auth && s.auth[to] == s.auth[conn]
          && i + 1 < j && s.log[i + 1] == Accepted(to, frame))
  }

  predicate WriteInv(s: State, j: nat)
    requires j < |s.log|
  {
    s.log[j].Wrote? ==> Origin(s, s.log[j].read, s.log[j].from, s.log[j].frame, s.log[j].to, j)
  }

  /** Two writes of frames from one connection are in the order in which the frames were read. */
  predicate Ordered(e: Event, f: Event) {
    e.Wrote? && f.Wrote? && e.from == f.from ==> e.read < f.read
  }

  /** A frame that is being forwarded was read after every frame of its connection that was written. */
  predicate TaskInv(s: State, conn: nat)
    requires conn in s.tasks
  {
    var task := s.tasks[conn];
    task.Forwarding? ==>
      && Origin(s, task.read, conn, task.frame, task.dest, |s.log|)
      && forall j :: 0 <= j < |s.log| && s.log[j].Wrote? && s.log[j].from == conn ==> s.log[j].read < task.read
  }

  predicate LogInv(s: State) {
    && (forall j :: 0 <= j < |s.log| ==> WriteInv(s, j))
    && (forall i, j :: 0 <= i < j < |s.log| ==> Ordered(s.log[i], s.log[j]))
    && (forall c :: c in s.tasks ==> TaskInv(s, c))
  }

  /** What a step does to the connections and the log. */
  predicate Grows(s: State, t: State) {
    && (forall c :: c in s.auth ==> c in t.auth && t.auth[c] == s.auth[c])
    && |s.log| <= |t.log| && t.log[..|s.log|] == s.log
  }

  lemma StepGrows(s: State, step: Step, at: Time)
    requires Enabled(s, step)
    ensures Grows(s, Next(s, step, at))
  {
  }

  lemma OriginStays(s: State, t: State, i: nat, conn: nat, frame: Envelope, dest: nat, j: nat)
    requires Grows(s, t) && Origin(s, i, conn, frame, dest, j)
    ensures Origin(t, i, conn, frame, dest, j)
  {
    assert t.log[i] == t.log[..|s.log|][i];
    if i + 1 < |s.log| {
      assert t.log[i + 1] == t.log[..|s.log|][i + 1];
    }
  }

  /** The shape of every step that is part of `forward`: it adds entries for `conn` and moves its task. */
  lemma ExtendLog(s: State, t: State, conn: nat)
    requires LogInv(s) && Grows(s, t)
    requires forall c :: c in t.tasks && c != conn ==> c in s.tasks && t.tasks[c] == s.tasks[c]
    requires forall j :: |s.log| <= j < |t.log| ==> WriteInv(t, j) && (t.log[j].Wrote? ==> t.log[j].from == conn)
    requires forall i, j :: 0 <= i < j < |t.log| && |s.log| <= j ==> Ordered(t.log[i], t.log[j])
    requires conn in t.tasks ==> TaskInv(t, conn)
    ensures LogInv(t)
  {
    forall j | 0 <= j < |s.log| ensures t.log[j] == s.log[j] && WriteInv(t, j) {
      assert t.log[j] == t.log[..|s.log|][j] && WriteInv(s, j);
      if s.log[j].Wrote? {
        OriginStays(s, t, s.log[j].read, s.log[j].from, s.log[j].frame, s.log[j].to, j);
      }
    }
    forall i, j | 0 <= i < j < |t.log| ensures Ordered(t.log[i], t.log[j]) {
      assert j < |s.log| ==> Ordered(s.log[i], s.log[j]);
    }
    forall c | c in t.tasks ensures TaskInv(t, c) {
      if c != conn {
        TaskStays(s, t, c);
      }
    }
  }

  lemma TaskStays(s: State, t: State, c: nat)
    requires Grows(s, t) && c in s.tasks && TaskInv(s, c) && c in t.tasks && t.tasks[c] == s.tasks[c]
    requires forall j :: 0 <= j < |s.log| ==> t.log[j] == s.log[j]
    requires forall j :: |s.log| <= j < |t.log| && t.log[j].Wrote? ==> t.log[j].from != c
    ensures TaskInv(t, c)
  {
    var task := s.tasks[c];
    if task.Forwarding? {
      OriginStays(s, t, task.read, c, task.frame, task.dest, |s.log|);
    }
  }

  lemma EarlierReads(s: State, j: nat)
    requires LogInv(s) && j < |s.log| && s.log[j].Wrote?
    ensures s.log[j].read < j
  {
    assert WriteInv(s, j);
  }

  /** What a forwarded frame adds to the log comes after everything that was written before. */
  lemma ForwardShape(s: State, conn: nat, frame: Envelope)
    requires LogInv(s) && Alive(s, conn)
    ensures var t := Forward(s, conn, frame);
            && Grows(s, t)
            && (forall j :: |s.log| <= j < |t.log| ==> t.log[j].Wrote? ==> t.log[j].from == conn)
            && (forall i, j :: 0 <= i < j < |t.log| && |s.log| <= j ==> Ordered(t.log[i], t.log[j]))
  {
    var t, n := Forward(s, conn, frame), |s.log|;
    forall j | 0 <= j < n && t.log[j].Wrote? ensures t.log[j].read < n {
      assert t.log[j] == s.log[j];
      EarlierReads(s, j);
    }
    hide Forwardable, RecipientOf, LogInv;
  }

  /** And it has its origin in the line that was just read. */
  lemma ForwardOrigin(s: State, conn: nat, frame: Envelope)
    requires TableInv(s) && LogInv(s) && Alive(s, conn) && s.tasks[conn] == Reading
    ensures var t := Forward(s, conn, frame);
            && (forall j :: |s.log| <= j < |t.log| ==> WriteInv(t, j))
            && TaskInv(t, conn)
  {
    hide Forwardable, RecipientOf;
    var t, n := Forward(s, conn, frame), |s.log|;
    var source := Lookup(s.sessions, s.auth[conn]);
    var dest := if Forwardable(frame, s.auth[conn]) then Lookup(s.sessions, RecipientOf(frame)) else None;
    if source.Some? { assert EntryInv(s, s.auth[conn]); }
    if dest.Some? { assert EntryInv(s, RecipientOf(frame)); }
    assert t.log[n] == Read(conn, frame, source, dest);
    forall j | 0 <= j < n && t.log[j].Wrote? ensures t.log[j].read < n {
      assert t.log[j] == s.log[j];
      EarlierReads(s, j);
    }
  }

  /** Reading a line: the frame is looked up, and acknowledged or written at once. */
  lemma ForwardKeepsLog(s: State, conn: nat, frame: Envelope)
    requires TableInv(s) && LogInv(s) && Alive(s, conn) && s.tasks[conn] == Reading
    ensures LogInv(Forward(s, conn, frame))
  {
    ForwardShape(s, conn, frame);
    ForwardOrigin(s, conn, frame);
    hide TableInv, LogInv, WriteInv, TaskInv, Ordered, Grows;
    ExtendLog(s, Forward(s, conn, frame), conn);
  }

  lemma WriteKeepsLog(s: State, conn: nat, at: Time)
    requires LogInv(s) && Enabled(s, WriteFrame(conn))
    ensures LogInv(Next(s, WriteFrame(conn), at))
  {
    hide Forwardable, RecipientOf;
    var t, n := Next(s, WriteFrame(conn), at), |s.log|;
    assert Grows(s, t) && TaskInv(s, conn);
    var Forwarding(frame, dest, read) := s.tasks[conn];
    assert t.log[n] == Wrote(dest, frame, conn, read);
    OriginStays(s, t, read, conn, frame, dest, n);
    forall j | 0 <= j < n ensures t.log[j] == s.log[j] {
      assert t.log[j] == t.log[..n][j];
    }
    ExtendLog(s, t, conn);
  }

  lemma StepKeepsLog(s: State, step: Step, at: Time)
    requires TableInv(s) && LogInv(s) && Enabled(s, step)
    ensures LogInv(Next(s, step, at))
  {
    StepGrows(s, step, at);
    hide Forwardable, RecipientOf;
    match step
    case ReadFrame(conn, frame) =>
      var u := s.(liveness := s.liveness[s.auth[conn] := at]);
      ExtendLog(s, u, conn);
      ForwardKeepsLog(u, conn, frame);
    case WriteFrame(conn) => WriteKeepsLog(s, conn, at);
    case Connect(conn, _) => ExtendLog(s, Next(s, step, at), conn);
    case Drained(conn) => ExtendLog(s, Next(s, step, at), conn);
    case DrainFailed(conn, _) => ExtendLog(s, Next(s, step, at), conn);
    case ReadOther(conn) => ExtendLog(s, Next(s, step, at), conn);
    case Cleanup(conn) => ExtendLog(s, Next(s, step, at), conn);
    case Revoke(_) => ExtendLog(s, Next(s, step, at), 0);
  }

  lemma {:induction false} LogHolds(run: Run, s: State)
    requires Reaches(run, s)
    ensures LogInv(s)
    decreases |run|
  {
    if run == [] {
    } else {
      var n := |run| - 1;
      var (step, at) := run[n];
      var prev: State :| LeadsTo(Init, run[..n], prev) && Enabled(prev, step) && s == Next(prev, step, at);
      LogHolds(run[..n], prev);
      TablesHold(run[..n], prev);
      StepKeepsLog(prev, step, at);
    }
  }

  /** Every frame that was written was read unchanged, on a connection of the endpoint it names as its
      sender, goes to a connection of the endpoint it names as its recipient, and came after its
      acceptance if its sender had a table entry. */
  lemma ForwardingIsFaithful(run: Run, s: State, j: nat)
    requires Reaches(run, s) && j < |s.log| && s.log[j].Wrote?
    ensures var Wrote(to, frame, from, i) := s.log[j];
            && i < j && s.log[i].Read? && s.log[i].conn == from && s.log[i].frame == frame
            && from in s.auth && to in s.auth
            && Get(frame, "sender") == Text(s.auth[from]) && Get(frame, "recipient") == Text(s.auth[to])
            && (s.log[i].source.Some? ==>
                  && i + 1 < j && s.log[i + 1] == Accepted(s.log[i].source.value, frame)
                  && s.log[i].source.value in s.auth && s.auth[s.log[i].source.value] == s.auth[from])
  {
    LogHolds(run, s);
    assert WriteInv(s, j);
  }

  /** Frames of one connection are written in the order in which they were read, and none twice. */
  lemma ForwardingKeepsOrder(run: Run, s: State, i: nat, j: nat)
    requires Reaches(run, s) && i < j < |s.log| && s.log[i].Wrote? && s.log[j].Wrote? && s.log[i].from == s.log[j].from
    ensures s.log[i].read < s.log[j].read
  {
    LogHolds(run, s);
    assert Ordered(s.log[i], s.log[j]);
  }

  // ---------------------------------------------------------------- nothing is lost

  /** The frame that a runtime makes of an encrypted message. */
  function SessionFrame(sender: string, recipient: string, sessionId: string, sequence: int, ciphertext: string)
    : Envelope {
    map["version" := Number(1), "type" := Text("session_envelope"), "session_id" := Text(sessionId),
        "sender" := Text(sender), "recipient" := Text(recipient), "sequence" := Number(sequence),
        "ciphertext" := Text(ciphertext)]
  }

  /** It may be forwarded within exactly these limits, only from its sender's connection, and with no
      other member. */
  lemma SessionFrameForwards(sender: string, recipient: string, sessionId: string, sequence: int, ciphertext: string,
      other: string, field: string, value: Json)
    ensures var e := SessionFrame(sender, recipient, sessionId, sequence, ciphertext);
            && (Forwardable(e, sender) <==>
                  (recipient != "" && sessionId != "" && 0 <= sequence < 18446744073709551616
                   && 1 <= |ciphertext| <= 1048576))
            && (other != sender ==> !Forwardable(e, other))
            && (field !in e ==> !Forwardable(e[field := value], sender))
  {
    var e := SessionFrame(sender, recipient, sessionId, sequence, ciphertext);
    assert e.Keys == SESSION_FIELDS;
    if field !in e {
      assert field in e[field := value].Keys && field !in SESSION_FIELDS && field != "type";
    }
  }

  /** A session reset may be forwarded exactly with a reason of 1 to 128 characters. */
  lemma ResetForwards(sender: string, recipient: string, reason: string, other: string)
    ensures var e := map["type" := Text("session_reset"), "sender" := Text(sender), "recipient" := Text(recipient),
                         "reason" := Text(reason)];
            && (Forwardable(e, sender) <==> (recipient != "" && 1 <= |reason| <= 128))
            && (other != sender ==> !Forwardable(e, other))
  {
    var e := map["type" := Text("session_reset"), "sender" := Text(sender), "recipient" := Text(recipient),
                 "reason" := Text(reason)];
    assert e.Keys == RESET_FIELDS;
  }

  /** A handshake envelope may be forwarded exactly if it has all of its ten members and no other but the
      sender's public key. */
  lemma HandshakeForwards(e: Envelope, sender: string)
    requires Get(e, "type") == Text("envelope")
    ensures Forwardable(e, sender)
            <==> && Get(e, "sender") == Text(sender) && Get(e, "recipient").Text? && Get(e, "recipient").text != ""
                 && "version" in e && "type" in e && "sender" in e && "recipient" in e && "message_id" in e
                 && "algorithm" in e && "encrypted_key" in e && "nonce" in e && "ciphertext" in e && "signature" in e
                 && e.Keys <= {"version", "type", "sender", "recipient", "message_id", "algorithm", "encrypted_key",
                               "nonce", "ciphertext", "signature", "sender_public_key"}
  {
  }

  predicate HasWrite(s: State, i: nat)
    requires i < |s.log| && s.log[i].Read? && s.log[i].dest.Some?
  {
    exists j :: 0 <= j < |s.log| && s.log[j] == Wrote(s.log[i].dest.value, s.log[i].frame, s.log[i].conn, i)
  }

  /** Nothing has been read on this connection since entry `i`. */
  predicate LastRead(s: State, i: nat)
    requires i < |s.log| && s.log[i].Read?
  {
    forall k :: i < k < |s.log| && s.log[k].Read? ==> s.log[k].conn != s.log[i].conn
  }

  /** Its handler is about to write the frame of entry `i`. */
  predicate InHand(s: State, i: nat)
    requires i < |s.log| && s.log[i].Read? && s.log[i].dest.Some?
  {
    var conn := s.log[i].conn;
    conn in s.tasks && s.tasks[conn] == Forwarding(s.log[i].frame, s.log[i].dest.value, i)
  }

  /** A frame that has a destination is written, or about to be written, or its handler has ended. */
  predicate Served(s: State, i: nat)
    requires i < |s.log|
  {
    s.log[i].Read? && s.log[i].dest.Some? ==>
      HasWrite(s, i) || (LastRead(s, i) && (s.log[i].conn in s.done || InHand(s, i)))
  }

  predicate AllServed(s: State) {
    forall i :: 0 <= i < |s.log| ==> Served(s, i)
  }

  lemma WriteStays(s: State, t: State, i: nat)
    requires Grows(s, t) && i < |s.log| && s.log[i].Read? && s.log[i].dest.Some? && HasWrite(s, i)
    ensures t.log[i] == s.log[i] && HasWrite(t, i)
  {
    var j :| 0 <= j < |s.log| && s.log[j] == Wrote(s.log[i].dest.value, s.log[i].frame, s.log[i].conn, i);
    assert t.log[..|s.log|][j] == t.log[j] && t.log[..|s.log|][i] == t.log[i];
  }

  /** An entry stays served as long as nothing is read on its connection and its task does not change. */
  lemma UntouchedStaysServed(s: State, t: State, i: nat)
    requires Grows(s, t) && i < |s.log| && Served(s, i) && s.log[i].Read?
    requires forall k :: |s.log| <= k < |t.log| && t.log[k].Read? ==> t.log[k].conn != s.log[i].conn
    requires s.log[i].conn in s.done ==> s.log[i].conn in t.done
    requires s.log[i].conn in s.tasks && s.tasks[s.log[i].conn].Forwarding? ==>
               || s.log[i].conn in t.done
               || (s.log[i].conn in t.tasks && t.tasks[s.log[i].conn] == s.tasks[s.log[i].conn])
    ensures Served(t, i)
  {
    assert t.log[..|s.log|][i] == t.log[i];
    if s.log[i].dest.Some? {
      if HasWrite(s, i) {
        WriteStays(s, t, i);
      } else {
        forall k | i < k < |t.log| && t.log[k].Read? ensures t.log[k].conn != t.log[i].conn {
          if k < |s.log| {
            assert t.log[..|s.log|][k] == t.log[k];
          }
        }
      }
    }
  }

  /** A handler that reads, or has finished a write, had nothing else in hand. */
  lemma IdleWasServed(s: State, t: State, i: nat)
    requires TableInv(s) && Grows(s, t) && i < |s.log| && Served(s, i) && s.log[i].Read?
    requires Alive(s, s.log[i].conn) && !s.tasks[s.log[i].conn].Forwarding?
    ensures Served(t, i)
  {
    assert t.log[..|s.log|][i] == t.log[i];
    if s.log[i].dest.Some? {
      WriteStays(s, t, i);
    }
  }

  lemma ReadKeepsServed(s: State, conn: nat, frame: Envelope, at: Time)
    requires TableInv(s) && AllServed(s) && Enabled(s, ReadFrame(conn, frame))
    ensures AllServed(Next(s, ReadFrame(conn, frame), at))
  {
    hide Forwardable, RecipientOf;
    var t, n := Next(s, ReadFrame(conn, frame), at), |s.log|;
    StepGrows(s, ReadFrame(conn, frame), at);
    forall i | 0 <= i < |t.log| ensures Served(t, i) {
      if i < n {
        assert t.log[..n][i] == t.log[i];
        assert Served(s, i);
        if s.log[i].Read? && s.log[i].conn == conn {
          IdleWasServed(s, t, i);
        } else if s.log[i].Read? {
          UntouchedStaysServed(s, t, i);
        }
      } else if i == n && t.log[n].dest.Some? && t.log[n].source.None? {
        assert t.log[n + 1] == Wrote(t.log[n].dest.value, frame, conn, n);
      }
    }
  }

  lemma WriteKeepsServed(s: State, conn: nat, at: Time)
    requires TableInv(s) && AllServed(s) && Enabled(s, WriteFrame(conn))
    ensures AllServed(Next(s, WriteFrame(conn), at))
  {
    var t, n := Next(s, WriteFrame(conn), at), |s.log|;
    StepGrows(s, WriteFrame(conn), at);
    forall i | 0 <= i < |t.log| ensures Served(t, i) {
      if i < n {
        assert t.log[..n][i] == t.log[i];
        assert Served(s, i);
        if s.log[i].Read? && s.log[i].conn == conn && s.log[i].dest.Some? {
          if HasWrite(s, i) {
            WriteStays(s, t, i);
          } else {
            assert t.log[n] == Wrote(s.log[i].dest.value, s.log[i].frame, conn, i);
          }
        } else if s.log[i].Read? && s.log[i].conn != conn {
          UntouchedStaysServed(s, t, i);
        }
      }
    }
  }

  lemma OtherKeepsServed(s: State, step: Step, at: Time)
    requires TableInv(s) && AllServed(s) && Enabled(s, step) && !step.ReadFrame? && !step.WriteFrame?
    ensures AllServed(Next(s, step, at))
  {
    var t := Next(s, step, at);
    StepGrows(s, step, at);
    assert t.log == s.log;
    forall i | 0 <= i < |t.log| ensures Served(t, i) {
      assert Served(s, i);
      if s.log[i].Read? {
        if (step.Drained? || step.DrainFailed?) && step.conn == s.log[i].conn {
          IdleWasServed(s, t, i);
        } else if step.Connect? && step.conn == s.log[i].conn {
          assert Served(t, i);
        } else {
          UntouchedStaysServed(s, t, i);
        }
      }
    }
  }

  ghost predicate Inv(s: State) {
    TableInv(s) && LogInv(s) && AllServed(s)
  }

  lemma StepKeepsInv(s: State, step: Step, at: Time)
    requires Inv(s) && Enabled(s, step)
    ensures Inv(Next(s, step, at)) && Grows(s, Next(s, step, at))
  {
    StepKeepsTables(s, step, at);
    StepKeepsLog(s, step, at);
    StepGrows(s, step, at);
    hide Next, TableInv, LogInv, AllServed;
    if step.ReadFrame? {
      ReadKeepsServed(s, step.conn, step.frame, at);
    } else if step.WriteFrame? {
      WriteKeepsServed(s, step.conn, at);
    } else {
      OtherKeepsServed(s, step, at);
    }
  }

  lemma GrowsTransitive(s: State, t: State, u: State)
    requires Grows(s, t) && Grows(t, u)
    ensures Grows(s, u)
  {
    assert u.log[..|s.log|] == u.log[..|t.log|][..|s.log|];
  }

  lemma {:induction false} RunKeepsInv(s: State, run: Run, t: State)
    requires Inv(s) && LeadsTo(s, run, t)
    ensures Inv(t) && Grows(s, t)
    decreases |run|
  {
    if run == [] {
      assert s.log[..|s.log|] == s.log;
    } else {
      var n := |run| - 1;
      var (step, at) := run[n];
      var prev: State :| LeadsTo(s, run[..n], prev) && Enabled(prev, step) && t == Next(prev, step, at);
      hide Inv, Next, Enabled, LeadsTo, Grows;
      RunKeepsInv(s, run[..n], prev);
      StepKeepsInv(prev, step, at);
      GrowsTransitive(s, prev, t);
    }
  }

  lemma ReachableInv(run: Run, s: State)
    requires Reaches(run, s)
    ensures Inv(s)
  {
    RunKeepsInv(Init, run, s);
  }

  /** The handler of a connection is done with log entry `i`. */
  predicate MovedOn(s: State, conn: nat, i: nat) {
    || (conn in s.tasks && !s.tasks[conn].Forwarding?)
    || exists k :: i < k < |s.log| && s.log[k].Read? && s.log[k].conn == conn
  }

  lemma WritesAreOrdered(s: State, j: nat, k: nat)
    requires LogInv(s) && j < k < |s.log| && s.log[j].Wrote? && s.log[k].Wrote? && s.log[j].from == s.log[k].from
    ensures s.log[j].read < s.log[k].read
  {
    assert Ordered(s.log[j], s.log[k]);
  }

  lemma WrittenOnce(s: State, j: nat, k: nat)
    requires LogInv(s) && j < |s.log| && k < |s.log| && s.log[j].Wrote? && s.log[k].Wrote?
    requires s.log[j].from == s.log[k].from && s.log[j].read == s.log[k].read
    ensures j == k
  {
    hide LogInv;
    if j < k {
      WritesAreOrdered(s, j, k);
    } else if k < j {
      WritesAreOrdered(s, k, j);
    }
  }

  lemma ReadIsLogged(s: State, conn: nat, frame: Envelope, at: Time, recipient: string)
    requires Enabled(s, ReadFrame(conn, frame)) && Forwardable(frame, s.auth[conn])
    requires Get(frame, "recipient") == Text(recipient) && recipient in s.sessions
    ensures var u, i := Next(s, ReadFrame(conn, frame), at), |s.log|;
            && |u.log| == i + 2
            && u.log[i] == Read(conn, frame, Lookup(s.sessions, s.auth[conn]), Some(s.sessions[recipient]))
            && (s.auth[conn] in s.sessions ==> u.log[i + 1] == Accepted(s.sessions[s.auth[conn]], frame))
  {
    hide Forwardable;
  }

  /** A frame that may be forwarded and whose recipient is connected is acknowledged at once to the
      sender's connection, and by the time its own connection has moved on it has been written exactly
      once, unchanged, to the connection that the recipient had when it was read. */
  lemma FrameIsDelivered(before: Run, s: State, conn: nat, frame: Envelope, at: Time, recipient: string,
      rest: Run, t: State) returns (j: nat)
    requires Reaches(before, s) && Enabled(s, ReadFrame(conn, frame)) && Forwardable(frame, s.auth[conn])
    requires Get(frame, "recipient") == Text(recipient) && recipient in s.sessions
    requires LeadsTo(Next(s, ReadFrame(conn, frame), at), rest, t) && MovedOn(t, conn, |s.log|)
    ensures s.auth[conn] in s.sessions ==>
              |t.log| > |s.log| + 1 && t.log[|s.log| + 1] == Accepted(s.sessions[s.auth[conn]], frame)
    ensures j < |t.log| && t.log[j] == Wrote(s.sessions[recipient], frame, conn, |s.log|)
    ensures forall k :: 0 <= k < |t.log| && t.log[k].Wrote? && t.log[k].from == conn && t.log[k].read == |s.log| ==>
              k == j
  {
    var u, i := Next(s, ReadFrame(conn, frame), at), |s.log|;
    ReadIsLogged(s, conn, frame, at, recipient);
    ReachableInv(before, s);
    StepKeepsInv(s, ReadFrame(conn, frame), at);
    hide Forwardable, Next, LeadsTo, LogInv, Ordered, WriteInv, TaskInv, TableInv, Reaches;
    RunKeepsInv(u, rest, t);
    assert t.log[i] == t.log[..|u.log|][i] == u.log[i] && t.log[i + 1] == t.log[..|u.log|][i + 1] == u.log[i + 1];
    assert Served(t, i);
    j :| 0 <= j < |t.log| && t.log[j] == Wrote(t.log[i].dest.value, t.log[i].frame, t.log[i].conn, i);
    forall k | 0 <= k < |t.log| && t.log[k].Wrote? && t.log[k].from == conn && t.log[k].read == i ensures k == j {
      WrittenOnce(t, j, k);
    }
  }

  /** A frame that may not be forwarded, or whose recipient is not connected, is neither acknowledged
      nor ever written. */
  lemma NothingElseIsWritten(before: Run, s: State, conn: nat, frame: Envelope, at: Time, rest: Run, t: State)
    requires Reaches(before, s) && Enabled(s, ReadFrame(conn, frame))
    requires Forwardable(frame, s.auth[conn]) ==> RecipientOf(frame) !in s.sessions
    requires LeadsTo(Next(s, ReadFrame(conn, frame), at), rest, t)
    ensures |Next(s, ReadFrame(conn, frame), at).log| == |s.log| + 1
    ensures forall k :: 0 <= k < |t.log| && t.log[k].Wrote? ==> t.log[k].read != |s.log|
  {
    var u, i := Next(s, ReadFrame(conn, frame), at), |s.log|;
    ReachableInv(before, s);
    StepKeepsInv(s, ReadFrame(conn, frame), at);
    RunKeepsInv(u, rest, t);
    assert u.log[i].dest.None? && t.log[i] == t.log[..|u.log|][i];
    forall k | 0 <= k < |t.log| && t.log[k].Wrote? ensures t.log[k].read != i {
      assert WriteInv(t, k);
    }
  }

  /** A whole forward, undisturbed: the line is read, acknowledged, written and drained, after which the
      connection reads again and the tables are as they were. */
  lemma ForwardCompletes(s: State, conn: nat, frame: Envelope, recipient: string, at: Time)
    requires Enabled(s, ReadFrame(conn, frame)) && Forwardable(frame, s.auth[conn]) && s.auth[conn] in s.sessions
    requires Get(frame, "recipient") == Text(recipient) && recipient in s.sessions
    ensures var t := Next(s, ReadFrame(conn, frame), at);
            && Enabled(t, WriteFrame(conn)) && Enabled(Next(t, WriteFrame(conn), at), Drained(conn))
            && var u := Next(Next(t, WriteFrame(conn), at), Drained(conn), at);
               && u.tasks == s.tasks[conn := Reading] && u.sessions == s.sessions && u.auth == s.auth
               && u.done == s.done && u.liveness == s.liveness[s.auth[conn] := at]
               && u.log == s.log + [Read(conn, frame, Some(s.sessions[s.auth[conn]]), Some(s.sessions[recipient])),
                                    Accepted(s.sessions[s.auth[conn]], frame),
                                    Wrote(s.sessions[recipient], frame, conn, |s.log|)]
  {
    hide Forwardable;
  }

  /** The same when the write fails: the recipient is evicted, and the connection reads again all the same. */
  lemma FailedForwardEvicts(s: State, conn: nat, frame: Envelope, recipient: string, at: Time)
    requires Enabled(s, ReadFrame(conn, frame)) && Forwardable(frame, s.auth[conn]) && s.auth[conn] in s.sessions
    requires Get(frame, "recipient") == Text(recipient) && recipient in s.sessions
    ensures var dest := s.sessions[recipient];
            var t := Next(s, ReadFrame(conn, frame), at);
            && Enabled(t, WriteFrame(conn)) && Enabled(Next(t, WriteFrame(conn), at), DrainFailed(conn, dest))
            && var u := Next(Next(t, WriteFrame(conn), at), DrainFailed(conn, dest), at);
               && u.tasks == s.tasks[conn := Reading] && u.auth == s.auth && u.done == s.done
               && u.sessions == s.sessions - {recipient}
               && u.liveness == s.liveness[s.auth[conn] := at] - {recipient}
  {
    hide Forwardable;
  }

  // ---------------------------------------------------------------- the relay's own tables

  /** What the relay writes to a connection in `forward`. */
  datatype Line = Frame(frame: Envelope) | Acceptance(frame: Envelope) | InvalidEnvelope | RecipientOffline

  /** `written` is what the relay has handed to the writers, and to which. */
  class RelayRuntime {
    var sessions: map<string, nat>
    var liveness: map<string, Time>
    var written: seq<(nat, Line)>
    ghost var auth: map<nat, string>
    ghost var done: set<nat>
    ghost var tasks: map<nat, Task>
    ghost var log: seq<Event>

    ghost function View(): State
      reads this
    {
      State(sessions, liveness, auth, done, tasks, log)
    }

    constructor ()
      ensures View() == Init
    {
      sessions, liveness, auth, done, tasks, log := map[], map[], map[], {}, map[], [];
      written := [];
    }

    /** `_relay_online`. */
    predicate RelayOnline(client: string, now: Time): (online: bool)
      reads this
      ensures online <==> client in liveness && now <= liveness[client] + 75.0
    {
      client in liveness && now - liveness[client] <= HEARTBEAT_TIMEOUT_SECONDS
    }

    /** `handle_relay` once the endpoint is authenticated. */
    method Register(conn: nat, client: string, at: Time)
      requires Enabled(View(), Connect(conn, client))
      modifies this
      ensures View() == Next(old(View()), Connect(conn, client), at)
      ensures sessions == old(sessions)[client := conn] && liveness == old(liveness)[client := at]
      ensures RelayOnline(client, at)
    {
      sessions := sessions[client := conn];
      liveness := liveness[client := at];
      auth, tasks := auth[conn := client], tasks[conn := Reading];
    }

    /** The rows of both tables go, but only if `conn` holds the session. */
    method EvictIfCurrent(client: string, conn: nat)
      modifies this`sessions, this`liveness
      ensures View() == Evict(old(View()), client, conn)
    {
      if client in sessions && sessions[client] == conn {
        sessions := sessions - {client};
        liveness := liveness - {client};
      }
    }

    /** A line that is not for another endpoint: a ping, a pong or a message that is refused. */
    method ReadControlLine(conn: nat, client: string, at: Time)
      requires Enabled(View(), ReadOther(conn)) && auth[conn] == client
      modifies this
      ensures View() == Next(old(View()), ReadOther(conn), at)
      ensures liveness == old(liveness)[client := at] && sessions == old(sessions)
    {
      liveness := liveness[client := at];
    }

    /** A line that `forward` gets, up to its first await: what is answered to the sender's connection
        if it has an entry, and the connection the frame goes to, if any. Without an entry of the sender
        the frame itself is written at once. */
    method ReadForward(conn: nat, client: string, frame: Envelope, at: Time)
      returns (source: Option<nat>, dest: Option<nat>)
      requires Enabled(View(), ReadFrame(conn, frame)) && auth[conn] == client
      modifies this
      ensures View() == Next(old(View()), ReadFrame(conn, frame), at)
      ensures liveness == old(liveness)[client := at] && sessions == old(sessions)
      ensures source == Lookup(sessions, client)
      ensures dest == if Forwardable(frame, client) then Lookup(sessions, RecipientOf(frame)) else None
      ensures written == old(written)
                         + if source.Some? then
                             [(source.value, if !Forwardable(frame, client) then InvalidEnvelope
                                             else if dest.None? then RecipientOffline else Acceptance(frame))]
                           else if dest.Some? then [(dest.value, Frame(frame))] else []
    {
      liveness := liveness[client := at];
      ghost var read := |log|;
      source, dest := Lookup(sessions, client), None;
      if !Forwardable(frame, client) {
        log := log + [Read(conn, frame, source, None)];
        if source.Some? { written := written + [(source.value, InvalidEnvelope)]; }
        return;
      }
      dest := Lookup(sessions, RecipientOf(frame));
      log := log + [Read(conn, frame, source, dest)];
      if dest.None? {
        if source.Some? { written := written + [(source.value, RecipientOffline)]; }
        return;
      }
      if source.Some? {
        written := written + [(source.value, Acceptance(frame))];
        log, tasks := log + [Accepted(source.value, frame)], tasks[conn := Forwarding(frame, dest.value, read)];
      } else {
        written := written + [(dest.value, Frame(frame))];
        log, tasks := log + [Wrote(dest.value, frame, conn, read)],
            tasks[conn := Draining(RecipientOf(frame), dest.value)];
      }
    }

    /** `forward` after the acceptance was sent: the frame is written to the destination it was looked
        up for, whoever has its entry by now. */
    method WriteForward(conn: nat, frame: Envelope, dest: nat, at: Time)
      requires Enabled(View(), WriteFrame(conn)) && tasks[conn].frame == frame && tasks[conn].dest == dest
      modifies this
      ensures View() == Next(old(View()), WriteFrame(conn), at)
      ensures written == old(written) + [(dest, Frame(frame))] && sessions == old(sessions)
    {
      written := written + [(dest, Frame(frame))];
      log, tasks := log + [Wrote(dest, frame, conn, tasks[conn].read)],
          tasks[conn := Draining(RecipientOf(frame), dest)];
    }

    /** `forward` when the connection it wrote to turns out to be gone. */
    method DestinationLost(conn: nat, recipient: string, dest: nat, at: Time)
      requires Enabled(View(), DrainFailed(conn, dest)) && tasks[conn].recipient == recipient
      modifies this
      ensures View() == Next(old(View()), DrainFailed(conn, dest), at)
      ensures sessions == if Lookup(old(sessions), recipient) == Some(dest) then old(sessions) - {recipient}
                          else old(sessions)
    {
      EvictIfCurrent(recipient, dest);
      tasks := tasks[conn := Reading];
    }

    /** The `finally` block of `handle_relay`. */
    method Disconnect(conn: nat, client: string, at: Time)
      requires Enabled(View(), Cleanup(conn)) && auth[conn] == client
      modifies this
      ensures View() == Next(old(View()), Cleanup(conn), at)
      ensures sessions == if Lookup(old(sessions), client) == Some(conn) then old(sessions) - {client}
                          else old(sessions)
    {
      EvictIfCurrent(client, conn);
      done, tasks := done + {conn}, tasks - {conn};
    }

    /** What `management_request` does to this table when it rejects or revokes an endpoint. */
    method RevokeSession(client: string, at: Time)
      modifies this
      ensures View() == Next(old(View()), Revoke(client), at)
    {
      sessions := sessions - {client};
    }
  }
}
