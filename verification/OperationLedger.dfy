/** The operation ledger of the Python runtime (client.py): when a mutating Wisp callback may run.

    Coroutines interleave only where the source awaits, so every step below is one stretch of code
    between two awaits, or part of one. The event loop awaits each dispatch before it reads the next
    frame (client.py:323-345), so at most one dispatch is under way: it marks the expired transfers,
    waits for their workers, sweeps them, drops the expired records, and only then acts on its body.
    It may suspend once more, while the answer to an upload is sent or while a plain callback runs.
    `loop` says where it stands. The workers that receive uploads run concurrently with it. */
module OperationLedger {
  import opened Wrappers
  import opened ReceiverQuota

  type Time = real

  const FILE_TRANSFER_TIMEOUT_SECONDS: Time := 600.0
  const COMPLETED_OPERATION_TTL_SECONDS: Time := 900.0
  const MAX_OPERATION_ID_LENGTH: nat := 128

  datatype OperationStatus = Indeterminate | InProgress | Completed | Expired | Invalid

  /** The session bodies the ledger sends. */
  datatype Body =
    | Response(wispId: string, payload: string)
    | TransferReady(wispId: string, transferId: string)
    | TransferError(wispId: string, transferId: string, error: string)
    | Operation(wispId: string, status: OperationStatus, operationId: string)

  datatype Retained = Retained(at: Time, body: Body)

  datatype Lane = FileLane | PlainLane

  /** What the history remembers: accepted uploads, callback starts, and results that could not be
      retained because they carry assets. */
  datatype Event =
    | Accept(key: Key, at: Time)
    | Start(key: Key, lane: Lane, at: Time)
    | AssetReturn(key: Key)

  /** Where the dispatch of a body stands: none under way, waiting for the workers of `expired`
      transfers, done with those, done with expiry at `expiredAt`, sending the answer to an accepted
      upload, or awaiting the callback of a plain action. */
  datatype Loop =
    | Idle
    | Sweeping(expired: set<Key>)
    | Swept
    | Ready(expiredAt: Time)
    | Accepting(key: Key)
    | Calling(key: Key)

  datatype State = State(transfers: Table, completed: map<Key, Retained>, active: set<Key>,
                         loop: Loop, now: Time, log: seq<Event>)

  const Init := State(map[], map[], {}, Idle, 0.0, [])

  /** `OtherRequest` is a dispatch that changes no table: a resume, a state request, a body for an
      unknown Wisp or one with an invalid operation id. `AnswerFailed`: an accepted upload gets no
      worker, because its answer could not be sent. */

  datatype Step =
    | MarkExpired
    | Sweep
    | ExpireCompleted
    | OtherRequest
    | FileBegin(key: Key, wispId: string, request: FileRequest)
    | AnswerFailed
    | SpawnWorker(key: Key)
    | StartFileCallback(key: Key)
    | WorkerFailed(key: Key, error: string)
    | WorkerReturned(key: Key, payload: Option<string>)
    | WorkerExit(key: Key)
    | WorkerNeverRan(key: Key)
    | ActionBegin(key: Key, wispId: string)
    | ActionRaised(key: Key, wispId: string)
    | ActionReturned(key: Key, wispId: string, payload: Option<string>)

  // ---------------------------------------------------------------- one step

  predicate Live(task: Task) {
    task == Receiving || task == Running || task == Closing
  }

  /** `_remember_completed_operation`. */
  function Remember(completed: map<Key, Retained>, key: Key, at: Time, body: Body): map<Key, Retained> {
    if key.operationId != "" then completed[key := Retained(at, body)] else completed
  }

  function ExpiredTransfers(transfers: Table, at: Time): set<Key> {
    set k | k in transfers && transfers[k].createdAt < at - FILE_TRANSFER_TIMEOUT_SECONDS
  }

  function FreshRecords(completed: map<Key, Retained>, at: Time): map<Key, Retained> {
    map k | k in completed && completed[k].at >= at - COMPLETED_OPERATION_TTL_SECONDS :: completed[k]
  }

  /** The retained body of a result: None is a result with assets, which is not retained. */
  function RetainedOr(wispId: string, payload: Option<string>, operationId: string): Body {
    if payload.Some? then Response(wispId, payload.value) else Operation(wispId, Indeterminate, operationId)
  }

  ghost predicate Enabled(s: State, step: Step) {
    match step
    case MarkExpired => s.loop.Idle?
    case Sweep => s.loop.Sweeping? && forall k :: k in s.loop.expired && k in s.transfers ==>
        !Live(s.transfers[k].task)
    case ExpireCompleted => s.loop.Swept?
    case OtherRequest => s.loop.Ready?
    case FileBegin(key, _, _) => s.loop.Ready?
    case AnswerFailed => s.loop.Accepting?
    case SpawnWorker(key) => s.loop == Accepting(key) && key in s.transfers && s.transfers[key].task == NoTask
    case StartFileCallback(key) => key in s.transfers && s.transfers[key].task == Receiving
        && !s.transfers[key].cancelled
    case WorkerFailed(key, _) => key in s.transfers
        && (s.transfers[key].task == Receiving || s.transfers[key].task == Running)
    case WorkerReturned(key, _) => key in s.transfers && s.transfers[key].task == Running
    case WorkerExit(key) =>
      key in s.transfers && (s.transfers[key].task == Closing
          || (s.transfers[key].cancelled && Live(s.transfers[key].task)))
    case WorkerNeverRan(key) => key in s.transfers && s.transfers[key].task == Receiving && s.transfers[key].cancelled
    case ActionBegin(key, _) => s.loop.Ready? && 0 < |key.operationId| <= MAX_OPERATION_ID_LENGTH
    case ActionRaised(key, _) => s.loop == Calling(key)
    case ActionReturned(key, _, _) => s.loop == Calling(key)
  }

  function MarkedTransfers(transfers: Table, expired: set<Key>): Table {
    map k | k in transfers ::
      if k in expired && Live(transfers[k].task) then transfers[k].(cancelled := true) else transfers[k]
  }

  function MarkedRecords(transfers: Table, completed: map<Key, Retained>, expired: set<Key>, at: Time)
    : map<Key, Retained>
    requires expired <= transfers.Keys
  {
    completed + map k | k in expired && k.operationId != "" ::
        Retained(at, Operation(transfers[k].wispId, Indeterminate, k.operationId))
  }

  ghost function Begin(s: State, key: Key, wispId: string, request: FileRequest, at: Time): State {
    if key in s.completed || key in s.transfers || !Admissible(s.transfers, key, request) then s.(loop := Idle)
    else s.(transfers := s.transfers[key := Transfer(wispId, AcceptedAll(request.files), at, NoTask, false)],
            loop := Accepting(key), log := s.log + [Accept(key, at)])
  }

  ghost function Apply(s: State, step: Step, at: Time): State
    requires Enabled(s, step)
  {
    match step
    case MarkExpired =>
      var expired := ExpiredTransfers(s.transfers, at);
      s.(transfers := MarkedTransfers(s.transfers, expired),
         completed := MarkedRecords(s.transfers, s.completed, expired, at),
         loop := Sweeping(expired))
    case Sweep => s.(transfers := s.transfers - s.loop.expired, loop := Swept)
    case ExpireCompleted => s.(completed := FreshRecords(s.completed, at), loop := Ready(at))
    case OtherRequest => s.(loop := Idle)
    case FileBegin(key, wispId, request) => Begin(s, key, wispId, request, at)
    case AnswerFailed => s.(loop := Idle)
    case SpawnWorker(key) =>
      s.(transfers := s.transfers[key := s.transfers[key].(task := Receiving)], loop := Idle)
    case StartFileCallback(key) =>
      s.(transfers := s.transfers[key := s.transfers[key].(task := Running)],
         log := s.log + [Start(key, FileLane, at)])
    case WorkerFailed(key, error) =>
      s.(transfers := s.transfers[key := s.transfers[key].(task := Closing)],
         completed := Remember(s.completed, key, at, TransferError(s.transfers[key].wispId, key.operationId, error)))
    case WorkerReturned(key, payload) =>
      s.(transfers := s.transfers[key := s.transfers[key].(task := Closing)],
         completed := Remember(s.completed, key, at, RetainedOr(s.transfers[key].wispId, payload, key.operationId)))
    case WorkerExit(key) => s.(transfers := s.transfers - {key})
    case WorkerNeverRan(key) => s.(transfers := s.transfers[key := s.transfers[key].(task := Dead)])
    case ActionBegin(key, _) =>
      if key in s.completed || key in s.active then s.(loop := Idle)
      else s.(active := s.active + {key}, loop := Calling(key), log := s.log + [Start(key, PlainLane, at)])
    case ActionRaised(key, wispId) =>
      s.(active := s.active - {key}, loop := Idle,
         completed := Remember(s.completed, key, at, Operation(wispId, Indeterminate, key.operationId)))
    case ActionReturned(key, wispId, payload) =>
      if payload.Some? then
        s.(active := s.active - {key}, loop := Idle,
           completed := Remember(s.completed, key, at, Response(wispId, payload.value)))
      else
        s.(active := s.active - {key}, loop := Idle, log := s.log + [AssetReturn(key)])
  }

  ghost function Next(s: State, step: Step, at: Time): State
    requires Enabled(s, step)
  {
    Apply(s, step, at).(now := at)
  }

  // ---------------------------------------------------------------- runs

  /** A run: the steps taken, with the monotone clock reading at which each is taken. */
  type Run = seq<(Step, Time)>

  /** How a run goes on from `s` to `t`. */
  ghost predicate LeadsTo(s: State, run: Run, t: State)
    decreases |run|
  {
    if run == [] then t == s
    else
      var (step, at) := run[|run| - 1];
      exists prev: State :: LeadsTo(s, run[..|run| - 1], prev) && Enabled(prev, step) && prev.now <= at
          && t == Next(prev, step, at)
  }

  ghost predicate Reaches(run: Run, s: State) {
    LeadsTo(Init, run, s)
  }

  // ---------------------------------------------------------------- the invariant

  /** While this holds, a repeated request for `key` made now is answered without a callback. */
  predicate Recorded(s: State, key: Key, since: Time) {
    || (key in s.completed && s.completed[key].at >= since)
    || since + COMPLETED_OPERATION_TTL_SECONDS < s.now
  }

  predicate InFlight(s: State, key: Key) {
    key in s.transfers && s.transfers[key].task == Running && !s.transfers[key].cancelled
  }

  predicate NotStarted(task: Task) {
    task == NoTask || task == Receiving || task == Dead
  }

  /** Every start is still in flight, or its outcome is recorded, or its retention has run out. */
  ghost predicate StartCovered(s: State, i: nat)
    requires i < |s.log| && s.log[i].Start?
  {
    var Start(key, lane, since) := s.log[i];
    && since <= s.now
    && (lane == FileLane ==>
      || InFlight(s, key)
      || Recorded(s, key, since))
    && (lane == PlainLane ==>
      || key in s.active
      || Recorded(s, key, since)
      || exists m :: i < m < |s.log| && s.log[m] == AssetReturn(key))
  }

  /** A transfer whose callback has not started was accepted after all earlier starts of its key
      had outlived their retention. */
  ghost predicate AcceptedLate(s: State, i: nat)
    requires i < |s.log| && s.log[i].Start?
  {
    var Start(key, lane, since) := s.log[i];
    lane == FileLane && key in s.transfers && NotStarted(s.transfers[key].task)
    ==> since + COMPLETED_OPERATION_TTL_SECONDS < s.transfers[key].createdAt
  }

  ghost predicate Spaced(log: seq<Event>, i: nat, j: nat)
    requires i < j < |log|
  {
    log[i].Start? && log[j].Start? && log[i].key == log[j].key && log[i].lane == log[j].lane
    && log[j].at <= log[i].at + COMPLETED_OPERATION_TTL_SECONDS
    ==> log[i].lane == PlainLane && exists m :: i < m < j && log[m] == AssetReturn(log[i].key)
  }

  /** Clock readings and ids: nothing is dated in the future, and every id is non-empty. */
  predicate Clocked(s: State) {
    && (forall k :: k in s.transfers ==> s.transfers[k].createdAt <= s.now && k.operationId != "")
    && (forall k :: k in s.completed ==> s.completed[k].at <= s.now)
    && (forall k :: k in s.active ==> k.operationId != "")
  }

  ghost predicate Covered(s: State) {
    forall i :: 0 <= i < |s.log| && s.log[i].Start? ==> StartCovered(s, i) && AcceptedLate(s, i)
  }

  ghost predicate AllSpaced(log: seq<Event>) {
    forall i, j :: 0 <= i < j < |log| ==> Spaced(log, i, j)
  }

  /** The active operation is the one whose callback the dispatch awaits; an upload that is being
      answered has no worker yet; a dispatch acts on no record that was too old at its expiry. */
  predicate Dispatching(s: State) {
    && s.active == (if s.loop.Calling? then {s.loop.key} else {})
    && (s.loop.Accepting? ==> s.loop.key in s.transfers && s.transfers[s.loop.key].task == NoTask)
    && (s.loop.Ready? ==>
          && s.loop.expiredAt <= s.now
          && forall k :: k in s.completed ==> s.completed[k].at >= s.loop.expiredAt - COMPLETED_OPERATION_TTL_SECONDS)
  }

  ghost predicate Inv(s: State) {
    Clocked(s) && WithinQuota(s.transfers) && Dispatching(s) && Covered(s) && AllSpaced(s.log)
  }

  // ---------------------------------------------------------------- every step keeps it

  predicate RecordedSince(s: State, key: Key, floor: Time) {
    key in s.completed && s.completed[key].at >= floor
  }

  predicate AssetReturned(s: State, t: State, key: Key) {
    |s.log| < |t.log| && t.log[|s.log|] == AssetReturn(key)
  }

  /** What a step may do to the facts the invariant rests on: a record is replaced only by a newer
      one or dropped after its retention, and nothing leaves its table without a new record. */
  ghost predicate Careful(s: State, t: State) {
    && s.now <= t.now
    && s.log <= t.log && |t.log| <= |s.log| + 1
    && (forall k :: k in s.completed ==>
          RecordedSince(t, k, s.completed[k].at) || s.completed[k].at + COMPLETED_OPERATION_TTL_SECONDS < t.now)
    && (forall k :: InFlight(s, k) ==> InFlight(t, k) || RecordedSince(t, k, s.now))
    && (forall k :: k in s.active ==> k in t.active || RecordedSince(t, k, s.now) || AssetReturned(s, t, k))
    && (forall k :: k in t.transfers && NotStarted(t.transfers[k].task) ==>
          if k in s.transfers then NotStarted(s.transfers[k].task)
              && t.transfers[k].createdAt == s.transfers[k].createdAt
          else k !in s.completed && t.transfers[k].createdAt == t.now)
  }

  lemma RecordKept(s: State, t: State, key: Key, since: Time)
    requires Careful(s, t) && Recorded(s, key, since)
    ensures Recorded(t, key, since)
  {
  }

  lemma CarefulKeepsStart(s: State, t: State, i: nat)
    requires Careful(s, t) && i < |s.log| && s.log[i].Start?
    requires StartCovered(s, i) && AcceptedLate(s, i)
    ensures StartCovered(t, i) && AcceptedLate(t, i)
  {
    var Start(key, lane, since) := s.log[i];
    assert t.log[i] == s.log[i];
    if Recorded(s, key, since) {
      RecordKept(s, t, key, since);
    } else if lane == PlainLane && key !in s.active {
      var m :| i < m < |s.log| && s.log[m] == AssetReturn(key);
      assert t.log[m] == s.log[m];
    } else if lane == PlainLane && key !in t.active && !Recorded(t, key, since) {
      assert AssetReturned(s, t, key);
    }
  }

  lemma SpacedKept(s: State, t: State, i: nat, j: nat)
    requires s.log <= t.log && i < j < |s.log| && Spaced(s.log, i, j)
    ensures Spaced(t.log, i, j)
  {
    assert t.log[i] == s.log[i] && t.log[j] == s.log[j];
    if exists m :: i < m < j && s.log[m] == AssetReturn(s.log[i].key) {
      var m :| i < m < j && s.log[m] == AssetReturn(s.log[i].key);
      assert t.log[m] == s.log[m];
    }
  }

  /** A careful step keeps every start covered; if it logs one, that start must be covered and
      spaced from the earlier ones. */
  lemma CarefulKeepsHistory(s: State, t: State)
    requires Covered(s) && AllSpaced(s.log) && Careful(s, t)
    requires var n := |s.log|; |t.log| > n && t.log[n].Start? ==> StartCovered(t, n) && AcceptedLate(t, n)
    requires var n := |s.log|; |t.log| > n ==> forall i :: 0 <= i < n ==> Spaced(t.log, i, n)
    ensures Covered(t) && AllSpaced(t.log)
  {
    forall i | 0 <= i < |t.log| && t.log[i].Start? ensures StartCovered(t, i) && AcceptedLate(t, i) {
      if i < |s.log| {
        assert t.log[i] == s.log[i];
        CarefulKeepsStart(s, t, i);
      }
    }
    forall i, j | 0 <= i < j < |t.log| ensures Spaced(t.log, i, j) {
      if j < |s.log| {
        SpacedKept(s, t, i, j);
      }
    }
  }

  lemma MarkIsCareful(s: State, at: Time)
    requires Clocked(s) && Enabled(s, MarkExpired) && s.now <= at
    ensures Careful(s, Next(s, MarkExpired, at)) && Clocked(Next(s, MarkExpired, at))
  {
    var t := Next(s, MarkExpired, at);
    forall k | InFlight(s, k) ensures InFlight(t, k) || RecordedSince(t, k, s.now) {
      assert k in t.transfers;
    }
  }

  lemma AcceptIsCareful(s: State, t: State, key: Key, transfer: Transfer)
    requires Clocked(s) && s.now <= t.now && key !in s.transfers && key !in s.completed && key.operationId != ""
    requires transfer.task == NoTask && transfer.createdAt == t.now
    requires t == s.(transfers := s.transfers[key := transfer], loop := Accepting(key), now := t.now,
                     log := s.log + [Accept(key, t.now)])
    ensures Careful(s, t) && Clocked(t)
  {
  }

  lemma BeginIsCareful(s: State, step: Step, at: Time)
    requires Clocked(s) && Enabled(s, step) && s.now <= at
    requires step.FileBegin?
    ensures Careful(s, Next(s, step, at)) && Clocked(Next(s, step, at))
  {
    hide MarkedTransfers, MarkedRecords, ExpiredTransfers, FreshRecords, AcceptedAll;
    var FileBegin(key, wispId, request) := step;
    if key !in s.completed && key !in s.transfers && Admissible(s.transfers, key, request) {
      AcceptIsCareful(s, Next(s, step, at), key, Transfer(wispId, AcceptedAll(request.files), at, NoTask, false));
    }
  }

  lemma FileStartIsCareful(s: State, step: Step, at: Time)
    requires Clocked(s) && Enabled(s, step) && s.now <= at
    requires step.SpawnWorker? || step.StartFileCallback?
    ensures Careful(s, Next(s, step, at)) && Clocked(Next(s, step, at))
  {
    hide MarkedTransfers, MarkedRecords, ExpiredTransfers, FreshRecords, Begin;
  }

  lemma OutcomeIsCareful(s: State, t: State, key: Key, body: Body)
    requires Clocked(s) && s.now <= t.now && key in s.transfers
    requires t == s.(transfers := s.transfers[key := s.transfers[key].(task := Closing)],
                     completed := Remember(s.completed, key, t.now, body), now := t.now)
    ensures Careful(s, t) && Clocked(t)
  {
  }

  lemma WorkerOutcomeIsCareful(s: State, step: Step, at: Time)
    requires Clocked(s) && Enabled(s, step) && s.now <= at
    requires step.WorkerFailed? || step.WorkerReturned?
    ensures Careful(s, Next(s, step, at)) && Clocked(Next(s, step, at))
  {
    hide MarkedTransfers, MarkedRecords, ExpiredTransfers, FreshRecords, Begin, Careful, Clocked, Remember;
    match step
    case WorkerFailed(key, error) =>
      OutcomeIsCareful(s, Next(s, step, at), key, TransferError(s.transfers[key].wispId, key.operationId, error));
    case WorkerReturned(key, payload) =>
      OutcomeIsCareful(s, Next(s, step, at), key, RetainedOr(s.transfers[key].wispId, payload, key.operationId));
  }

  lemma WorkerEndIsCareful(s: State, step: Step, at: Time)
    requires Clocked(s) && Enabled(s, step) && s.now <= at
    requires step.WorkerExit? || step.WorkerNeverRan?
    ensures Careful(s, Next(s, step, at)) && Clocked(Next(s, step, at))
  {
    hide MarkedTransfers, MarkedRecords, ExpiredTransfers, FreshRecords, Begin;
  }

  lemma ExpiryIsCareful(s: State, step: Step, at: Time)
    requires Clocked(s) && Enabled(s, step) && s.now <= at
    requires step.Sweep? || step.ExpireCompleted? || step.OtherRequest? || step.AnswerFailed?
    ensures Careful(s, Next(s, step, at)) && Clocked(Next(s, step, at))
  {
    hide MarkedTransfers, MarkedRecords, ExpiredTransfers, Begin;
  }

  lemma ActionStartIsCareful(s: State, step: Step, at: Time)
    requires Clocked(s) && Enabled(s, step) && s.now <= at
    requires step.ActionBegin?
    ensures Careful(s, Next(s, step, at)) && Clocked(Next(s, step, at))
  {
    hide MarkedTransfers, MarkedRecords, ExpiredTransfers, FreshRecords, Begin;
  }

  lemma ActionEndIsCareful(s: State, t: State, key: Key, body: Body)
    requires Clocked(s) && s.now <= t.now && (key in s.active ==> key.operationId != "")
    requires t == s.(active := s.active - {key}, loop := Idle, now := t.now,
                     completed := Remember(s.completed, key, t.now, body))
    ensures Careful(s, t) && Clocked(t)
  {
  }

  lemma AssetReturnIsCareful(s: State, t: State, key: Key)
    requires Clocked(s) && s.now <= t.now
    requires t == s.(active := s.active - {key}, loop := Idle, now := t.now, log := s.log + [AssetReturn(key)])
    ensures Careful(s, t) && Clocked(t)
  {
  }

  lemma ActionOutcomeIsCareful(s: State, step: Step, at: Time)
    requires Clocked(s) && Enabled(s, step) && s.now <= at
    requires step.ActionRaised? || step.ActionReturned?
    ensures Careful(s, Next(s, step, at)) && Clocked(Next(s, step, at))
  {
    assert step.key in s.active ==> step.key.operationId != "";
    hide MarkedTransfers, MarkedRecords, ExpiredTransfers, FreshRecords, Begin, Careful, Clocked, Remember;
    var t := Next(s, step, at);
    match step
    case ActionRaised(key, wispId) =>
      ActionEndIsCareful(s, t, key, Operation(wispId, Indeterminate, key.operationId));
    case ActionReturned(key, wispId, payload) =>
      if payload.Some? {
        ActionEndIsCareful(s, t, key, Response(wispId, payload.value));
      } else {
        AssetReturnIsCareful(s, t, key);
      }
  }

  lemma StepIsCareful(s: State, step: Step, at: Time)
    requires Clocked(s) && Enabled(s, step) && s.now <= at
    ensures Careful(s, Next(s, step, at)) && Clocked(Next(s, step, at))
  {
    hide Clocked, Careful, Enabled, Next;
    if step.MarkExpired? {
      MarkIsCareful(s, at);
    } else if step.FileBegin? {
      BeginIsCareful(s, step, at);
    } else if step.SpawnWorker? || step.StartFileCallback? {
      FileStartIsCareful(s, step, at);
    } else if step.WorkerFailed? || step.WorkerReturned? {
      WorkerOutcomeIsCareful(s, step, at);
    } else if step.WorkerExit? || step.WorkerNeverRan? {
      WorkerEndIsCareful(s, step, at);
    } else if step.ActionBegin? {
      ActionStartIsCareful(s, step, at);
    } else if step.ActionRaised? || step.ActionReturned? {
      ActionOutcomeIsCareful(s, step, at);
    } else {
      ExpiryIsCareful(s, step, at);
    }
  }

  predicate ByWorker(step: Step) {
    step.StartFileCallback? || step.WorkerFailed? || step.WorkerReturned? || step.WorkerExit? || step.WorkerNeverRan?
  }

  lemma WorkerKeepsDispatching(s: State, step: Step, at: Time)
    requires Dispatching(s) && Enabled(s, step) && s.now <= at && ByWorker(step)
    ensures Dispatching(Next(s, step, at))
  {
    hide Admissible, AcceptedAll, MarkedTransfers, MarkedRecords, RetainedOr, ExpiredTransfers, FreshRecords, Begin;
  }

  lemma LoopKeepsDispatching(s: State, step: Step, at: Time)
    requires Dispatching(s) && Enabled(s, step) && s.now <= at && !ByWorker(step)
    ensures Dispatching(Next(s, step, at))
  {
    hide Admissible, AcceptedAll, MarkedTransfers, MarkedRecords, RetainedOr, ExpiredTransfers, Remember;
  }

  lemma StepKeepsDispatching(s: State, step: Step, at: Time)
    requires Dispatching(s) && Enabled(s, step) && s.now <= at
    ensures Dispatching(Next(s, step, at))
  {
    hide Enabled, Next, Dispatching;
    if ByWorker(step) {
      WorkerKeepsDispatching(s, step, at);
    } else {
      LoopKeepsDispatching(s, step, at);
    }
  }

  lemma FilesKept(s: State, step: Step, at: Time)
    requires Enabled(s, step)
    requires step.FileBegin? ==> Next(s, step, at).transfers == s.transfers
    ensures var t := Next(s, step, at);
            t.transfers.Keys <= s.transfers.Keys && forall k :: k in t.transfers ==>
                t.transfers[k].files == s.transfers[k].files
  {
    hide Admissible, AcceptedAll, MarkedRecords, FreshRecords, RetainedOr;
  }

  lemma StepKeepsQuota(s: State, step: Step, at: Time)
    requires WithinQuota(s.transfers) && Enabled(s, step)
    ensures WithinQuota(Next(s, step, at).transfers)
  {
    var t := Next(s, step, at).transfers;
    if step.FileBegin? && t != s.transfers {
      assert Admissible(s.transfers, step.key, step.request) && t == s.transfers[step.key := t[step.key]];
      AdmissionKeepsQuota(s.transfers, step.key, step.request, t[step.key]);
    } else {
      FilesKept(s, step, at);
      ShrinkingKeepsQuota(t, s.transfers);
    }
  }

  /** The start of a file callback is spaced: its transfer was accepted late, so every earlier
      start of the key lies more than the retention back. */
  lemma FileStartSpaced(s: State, key: Key, at: Time)
    requires Clocked(s) && Covered(s) && Enabled(s, StartFileCallback(key)) && s.now <= at
    ensures var t := Next(s, StartFileCallback(key), at);
            && StartCovered(t, |s.log|) && AcceptedLate(t, |s.log|)
            && forall i :: 0 <= i < |s.log| ==> Spaced(t.log, i, |s.log|)
  {
    var t := Next(s, StartFileCallback(key), at);
    var n := |s.log|;
    forall i | 0 <= i < n ensures Spaced(t.log, i, n) {
      if s.log[i].Start? {
        assert AcceptedLate(s, i);
      }
    }
  }

  lemma ActionStartSpaced(s: State, key: Key, wispId: string, at: Time)
    requires Clocked(s) && Covered(s) && Enabled(s, ActionBegin(key, wispId)) && s.now <= at
    requires key !in s.completed && key !in s.active
    ensures var t := Next(s, ActionBegin(key, wispId), at);
            && StartCovered(t, |s.log|) && AcceptedLate(t, |s.log|)
            && forall i :: 0 <= i < |s.log| ==> Spaced(t.log, i, |s.log|)
  {
    var t := Next(s, ActionBegin(key, wispId), at);
    var n := |s.log|;
    forall i | 0 <= i < n ensures Spaced(t.log, i, n) {
      if s.log[i].Start? && s.log[i].key == key && s.log[i].lane == PlainLane {
        assert StartCovered(s, i);
        if !Recorded(s, key, s.log[i].at) {
          var m :| i < m < |s.log| && s.log[m] == AssetReturn(key);
          assert t.log[m] == s.log[m];
        }
      }
    }
  }

  lemma NewStartIsSpaced(s: State, step: Step, at: Time)
    requires Clocked(s) && Covered(s) && Enabled(s, step) && s.now <= at
    ensures var t := Next(s, step, at); var n := |s.log|;
            |t.log| > n ==>
              && (t.log[n].Start? ==> StartCovered(t, n) && AcceptedLate(t, n))
              && forall i :: 0 <= i < n ==> Spaced(t.log, i, n)
  {
    hide Clocked, Covered, StartCovered, AcceptedLate, MarkedTransfers, MarkedRecords, ExpiredTransfers, FreshRecords;
    if step.StartFileCallback? {
      FileStartSpaced(s, step.key, at);
    } else if step.ActionBegin? && step.key !in s.completed && step.key !in s.active {
      ActionStartSpaced(s, step.key, step.wispId, at);
    }
  }

  lemma StepKeepsInv(s: State, step: Step, at: Time)
    requires Inv(s) && Enabled(s, step) && s.now <= at
    ensures Inv(Next(s, step, at))
  {
    hide Next, Enabled, Careful, Clocked, Covered, AllSpaced, WithinQuota, Dispatching;
    StepIsCareful(s, step, at);
    StepKeepsQuota(s, step, at);
    StepKeepsDispatching(s, step, at);
    NewStartIsSpaced(s, step, at);
    CarefulKeepsHistory(s, Next(s, step, at));
  }

  lemma {:induction false} ReachableInv(run: Run, s: State)
    requires Reaches(run, s)
    ensures Inv(s)
    decreases |run|
  {
    if run == [] {
      InitInv();
    } else {
      var (step, at) := run[|run| - 1];
      var prev :| LeadsTo(Init, run[..|run| - 1], prev) && Enabled(prev, step) && prev.now <= at
          && s == Next(prev, step, at);
      ReachableInv(run[..|run| - 1], prev);
      StepKeepsInv(prev, step, at);
    }
  }

  lemma InitInv()
    ensures Inv(Init)
  {
    assert forall sender: string :: SenderKeys(map[], sender) == {};
  }

  // ---------------------------------------------------------------- what a resume is told

  /** The `type` of an `operation` object. */
  function StatusText(status: OperationStatus): string {
    match status
    case Indeterminate => "indeterminate"
    case InProgress => "running"
    case Completed => "completed"
    case Expired => "expired"
    case Invalid => "invalid"
  }

  /** What a resume is sent: a body and the status in its `operation` object. A retained body that has
      no such object of its own gets one that says `completed`. */
  datatype Resumed = Resumed(body: Body, status: OperationStatus)

  function ResumeAnswer(s: State, key: Key, wispId: string): Resumed {
    if key in s.completed then
      var body := s.completed[key].body;
      Resumed(body, if body.Operation? then body.status else Completed)
    else if key in s.transfers || key in s.active then
      Resumed(Operation(wispId, InProgress, key.operationId), InProgress)
    else Resumed(Operation(wispId, Expired, key.operationId), Expired)
  }

  /** A transfer that is about to leave the table. */
  predicate Leaving(s: State, key: Key) {
    && key in s.transfers
    && (s.transfers[key].task == Closing || s.transfers[key].cancelled
        || (s.loop.Sweeping? && key in s.loop.expired))
  }

  ghost predicate AcceptKept(s: State, i: nat)
    requires i < |s.log| && s.log[i].Accept?
  {
    var Accept(key, since) := s.log[i];
    && since <= s.now
    && (key in s.transfers ==> since <= s.transfers[key].createdAt)
    && (key in s.transfers || Recorded(s, key, since))
  }

  /** No transfer leaves the table before its outcome is recorded. */
  ghost predicate Remembers(s: State) {
    && (forall k :: Leaving(s, k) ==> Recorded(s, k, s.transfers[k].createdAt))
    && (forall i :: 0 <= i < |s.log| && s.log[i].Accept? ==> AcceptKept(s, i))
  }

  lemma ExitsAreRecorded(s: State, step: Step, at: Time, key: Key)
    requires Remembers(s) && Enabled(s, step)
    requires key in s.transfers && key !in Next(s, step, at).transfers
    ensures Recorded(s, key, s.transfers[key].createdAt)
  {
    assert Leaving(s, key);
  }

  lemma NewlyLeaving(s: State, step: Step, at: Time, key: Key)
    requires Clocked(s) && Enabled(s, step)
    requires Leaving(Next(s, step, at), key) && !Leaving(s, key)
    ensures RecordedSince(Next(s, step, at), key, at)
  {
  }

  lemma TableChange(s: State, step: Step, at: Time, key: Key)
    requires Enabled(s, step) && key in Next(s, step, at).transfers
    ensures var t := Next(s, step, at);
            if key in s.transfers then t.transfers[key].createdAt == s.transfers[key].createdAt
            else t.transfers[key].createdAt == at && key !in s.completed && t.log == s.log + [Accept(key, at)]
  {
  }

  lemma LogChange(s: State, step: Step, at: Time)
    requires Enabled(s, step)
    ensures var t := Next(s, step, at);
            || t.log == s.log
            || (&& |t.log| == |s.log| + 1
                && (t.log[|s.log|].Accept? ==>
                      && t.log[|s.log|].at == at && t.log[|s.log|].key in t.transfers
                      && t.transfers[t.log[|s.log|].key].createdAt == at))
  {
  }

  lemma AcceptStaysKept(s: State, step: Step, at: Time, i: nat)
    requires Clocked(s) && Remembers(s) && Enabled(s, step) && s.now <= at
    requires i < |s.log| && s.log[i].Accept?
    ensures var t := Next(s, step, at); s.log <= t.log && AcceptKept(t, i)
  {
    var t := Next(s, step, at);
    var Accept(key, since) := s.log[i];
    assert AcceptKept(s, i);
    StepIsCareful(s, step, at);
    assert t.log[i] == s.log[i];
    if key in t.transfers {
      TableChange(s, step, at, key);
    } else if key in s.transfers {
      ExitsAreRecorded(s, step, at, key);
      assert Recorded(s, key, since);
      RecordKept(s, t, key, since);
    } else {
      RecordKept(s, t, key, since);
    }
  }

  lemma StepRemembers(s: State, step: Step, at: Time)
    requires Clocked(s) && Remembers(s) && Enabled(s, step) && s.now <= at
    ensures Remembers(Next(s, step, at))
  {
    var t := Next(s, step, at);
    StepIsCareful(s, step, at);
    forall k | Leaving(t, k) ensures Recorded(t, k, t.transfers[k].createdAt) {
      TableChange(s, step, at, k);
      if Leaving(s, k) {
        RecordKept(s, t, k, s.transfers[k].createdAt);
      } else {
        NewlyLeaving(s, step, at, k);
      }
    }
    LogChange(s, step, at);
    forall i | 0 <= i < |t.log| && t.log[i].Accept? ensures AcceptKept(t, i) {
      if i < |s.log| {
        assert t.log[i] == s.log[i];
        AcceptStaysKept(s, step, at, i);
      }
    }
  }

  lemma {:induction false} ReachableRemembers(run: Run, s: State)
    requires Reaches(run, s)
    ensures Inv(s) && Remembers(s)
    decreases |run|
  {
    ReachableInv(run, s);
    if run != [] {
      var (step, at) := run[|run| - 1];
      var prev :| LeadsTo(Init, run[..|run| - 1], prev) && Enabled(prev, step) && prev.now <= at
          && s == Next(prev, step, at);
      ReachableRemembers(run[..|run| - 1], prev);
      StepRemembers(prev, step, at);
    }
  }

  // ---------------------------------------------------------------- main results

  /** File lane: on every run, two callback starts for one key are more than the retention apart. */
  lemma FileLaneAtMostOnce(run: Run, s: State, i: nat, j: nat)
    requires Reaches(run, s)
    requires i < j < |s.log| && s.log[i].Start? && s.log[j].Start?
    requires s.log[i].key == s.log[j].key && s.log[i].lane == s.log[j].lane == FileLane
    ensures s.log[j].at > s.log[i].at + COMPLETED_OPERATION_TTL_SECONDS
  {
    ReachableInv(run, s);
    assert Spaced(s.log, i, j);
  }

  /** Plain lane: a callback runs again within the retention only if an earlier result of the same
      operation carried assets and was therefore not retained. */
  lemma PlainLaneAtMostOnce(run: Run, s: State, i: nat, j: nat)
    requires Reaches(run, s)
    requires i < j < |s.log| && s.log[i].Start? && s.log[j].Start?
    requires s.log[i].key == s.log[j].key && s.log[i].lane == s.log[j].lane == PlainLane
    requires forall m :: i < m < j ==> s.log[m] != AssetReturn(s.log[i].key)
    ensures s.log[j].at > s.log[i].at + COMPLETED_OPERATION_TTL_SECONDS
  {
    ReachableInv(run, s);
    assert Spaced(s.log, i, j);
  }

  /** A start of `key` in `lane` that a repeated request may still find a record of. */
  predicate RecentStart(s: State, i: nat, key: Key, lane: Lane) {
    && i < |s.log| && s.log[i].Start? && s.log[i].key == key && s.log[i].lane == lane
    && s.now <= s.log[i].at + COMPLETED_OPERATION_TTL_SECONDS
  }

  ghost predicate AssetsReturnedSince(s: State, i: nat, key: Key) {
    exists m :: i < m < |s.log| && s.log[m] == AssetReturn(key)
  }

  /** And then it does, exactly: within the retention a plain action runs again if and only if an
      earlier result of it carried assets and no outcome is recorded. */
  lemma AssetResultsAreNotRetained(run: Run, s: State, i: nat, key: Key, wispId: string, at: Time)
    requires Reaches(run, s) && Enabled(s, ActionBegin(key, wispId)) && RecentStart(s, i, key, PlainLane)
    ensures Next(s, ActionBegin(key, wispId), at).log == s.log + [Start(key, PlainLane, at)]
            <==> AssetsReturnedSince(s, i, key) && key !in s.completed
  {
    ReachableInv(run, s);
    assert StartCovered(s, i);
  }

  /** The lanes share the records but not the tables of work in flight: a plain action whose id is
      that of a recent upload runs if and only if that upload is still in flight and no outcome is
      recorded. */
  lemma LanesDoNotSeeEachOther(run: Run, s: State, i: nat, key: Key, wispId: string, at: Time)
    requires Reaches(run, s) && Enabled(s, ActionBegin(key, wispId)) && RecentStart(s, i, key, FileLane)
    ensures Next(s, ActionBegin(key, wispId), at).log == s.log + [Start(key, PlainLane, at)]
            <==> InFlight(s, key) && key !in s.completed
  {
    ReachableInv(run, s);
    assert StartCovered(s, i);
  }

  /** The other way round an upload is never accepted beside a running plain action: one whose id is
      that of a recent plain action is accepted if and only if it is admissible, no outcome is recorded
      and the action returned assets. */
  lemma UploadsDoNotSeeActions(run: Run, s: State, i: nat, key: Key, wispId: string, request: FileRequest, at: Time)
    requires Reaches(run, s) && Enabled(s, FileBegin(key, wispId, request)) && RecentStart(s, i, key, PlainLane)
    ensures Next(s, FileBegin(key, wispId, request), at).log == s.log + [Accept(key, at)]
            <==> Admissible(s.transfers, key, request) && key !in s.completed && AssetsReturnedSince(s, i, key)
  {
    ReachableInv(run, s);
    assert StartCovered(s, i);
  }

  /** At most one plain callback runs, and while it does the event loop waits for it. */
  lemma OneCallbackAtATime(run: Run, s: State, key: Key)
    requires Reaches(run, s)
    ensures key in s.active <==> s.loop == Calling(key)
  {
    ReachableInv(run, s);
  }

  /** Nothing is answered from a record that was older than the retention when the dispatch expired
      the records. */
  lemma AnswersAreFresh(run: Run, s: State, key: Key)
    requires Reaches(run, s) && s.loop.Ready? && key in s.completed
    ensures s.loop.expiredAt <= s.now
    ensures s.loop.expiredAt - COMPLETED_OPERATION_TTL_SECONDS <= s.completed[key].at <= s.now
  {
    ReachableInv(run, s);
  }

  // ---------------------------------------------------------------- runs in which it happens

  lemma OneMoreStep(run: Run, s: State, step: Step, at: Time) returns (longer: Run)
    requires Reaches(run, s) && Enabled(s, step) && s.now <= at
    ensures Reaches(longer, Next(s, step, at)) && longer == run + [(step, at)]
  {
    longer := run + [(step, at)];
    assert longer[..|longer| - 1] == run;
  }

  /** Expiry when no transfer is old enough to be waited for. */
  lemma ExpirySteps(s: State, at: Time) returns (s1: State, s2: State, t: State)
    requires s.loop.Idle? && ExpiredTransfers(s.transfers, at) == {}
    ensures Enabled(s, MarkExpired) && s1 == Next(s, MarkExpired, at)
    ensures Enabled(s1, Sweep) && s2 == Next(s1, Sweep, at)
    ensures Enabled(s2, ExpireCompleted) && t == Next(s2, ExpireCompleted, at)
    ensures t == s.(completed := FreshRecords(s.completed, at), loop := Ready(at), now := at)
  {
    hide FreshRecords;
    s1 := Next(s, MarkExpired, at);
    assert s1 == s.(loop := Sweeping({}), now := at);
    s2 := Next(s1, Sweep, at);
    t := Next(s2, ExpireCompleted, at);
  }

  /** A dispatch comes as far as its body. */
  lemma DispatchStarts(run: Run, s: State, at: Time) returns (longer: Run, t: State)
    requires Reaches(run, s) && s.loop.Idle? && s.now <= at && ExpiredTransfers(s.transfers, at) == {}
    ensures Reaches(longer, t)
    ensures t == s.(completed := FreshRecords(s.completed, at), loop := Ready(at), now := at)
  {
    var s1, s2;
    s1, s2, t := ExpirySteps(s, at);
    assert s1.now == s2.now == at;
    hide LeadsTo, Reaches, FreshRecords, Enabled, Next;
    longer := OneMoreStep(run, s, MarkExpired, at);
    longer := OneMoreStep(longer, s1, Sweep, at);
    longer := OneMoreStep(longer, s2, ExpireCompleted, at);
  }

  /** A plain action runs and returns assets. */
  lemma AssetActionRuns(run: Run, s: State, key: Key, wispId: string, at: Time) returns (longer: Run, t: State)
    requires Reaches(run, s) && s.loop.Ready? && s.now <= at
    requires 0 < |key.operationId| <= MAX_OPERATION_ID_LENGTH && key !in s.completed && s.active == {}
    ensures Reaches(longer, t)
    ensures t == s.(loop := Idle, now := at, log := s.log + [Start(key, PlainLane, at), AssetReturn(key)])
  {
    hide LeadsTo, Reaches;
    longer := OneMoreStep(run, s, ActionBegin(key, wispId), at);
    var s1 := Next(s, ActionBegin(key, wispId), at);
    longer := OneMoreStep(longer, s1, ActionReturned(key, wispId, None), at);
    t := Next(s1, ActionReturned(key, wispId, None), at);
  }

  /** A callback whose results carry assets runs as often as it is asked for. */
  lemma AssetActionRunsTwice(key: Key, wispId: string, later: Time) returns (run: Run, s: State)
    requires 0 < |key.operationId| <= MAX_OPERATION_ID_LENGTH && 0.0 <= later
    ensures Reaches(run, s)
    ensures s.log == [Start(key, PlainLane, 0.0), AssetReturn(key), Start(key, PlainLane, later), AssetReturn(key)]
  {
    assert Reaches([], Init);
    hide LeadsTo, Reaches;
    run, s := DispatchStarts([], Init, 0.0);
    run, s := AssetActionRuns(run, s, key, wispId, 0.0);
    run, s := DispatchStarts(run, s, later);
    run, s := AssetActionRuns(run, s, key, wispId, later);
  }

  lemma OneFileIsAdmissible(key: Key, m: Manifest, data: string)
    requires key.operationId != "" && ValidManifest(m) && m.size.value <= MAX_FILE_ACTION_BYTES
    ensures Admissible(map[], key, FileRequest(Some(data), [m]))
  {
    assert SenderKeys(map[], key.sender) == {};
    assert TableBytes(map[]) == 0 by { assert BytesByKey(map[]) == map[]; }
    var files := AcceptedAll([m]);
    assert files[..0] == [] && FileBytes(files) == m.size.value;
  }

  /** Upload, worker and file callback of one request. */
  lemma UploadStarts(run: Run, s: State, key: Key, wispId: string, request: FileRequest, at: Time)
    returns (longer: Run, t: State)
    requires Reaches(run, s) && s.loop.Ready? && s.now <= at
    requires key !in s.completed && s.transfers == map[] && Admissible(map[], key, request)
    ensures Reaches(longer, t)
    ensures t.log == s.log + [Accept(key, at), Start(key, FileLane, at)]
    ensures t == s.(transfers := t.transfers, loop := Idle, now := at, log := t.log)
    ensures t.transfers.Keys == {key} && t.transfers[key].createdAt == at && InFlight(t, key)
    ensures t.transfers[key].wispId == wispId
  {
    hide LeadsTo, Reaches, Admissible;
    longer := OneMoreStep(run, s, FileBegin(key, wispId, request), at);
    var s1 := Next(s, FileBegin(key, wispId, request), at);
    longer := OneMoreStep(longer, s1, SpawnWorker(key), at);
    var s2 := Next(s1, SpawnWorker(key), at);
    longer := OneMoreStep(longer, s2, StartFileCallback(key), at);
    t := Next(s2, StartFileCallback(key), at);
  }

  /** A plain action runs while the upload of the same id is in flight. */
  lemma ActionDuringUpload(key: Key, wispId: string, m: Manifest, data: string) returns (run: Run, s: State)
    requires 0 < |key.operationId| <= MAX_OPERATION_ID_LENGTH
    requires ValidManifest(m) && m.size.value <= MAX_FILE_ACTION_BYTES
    ensures Reaches(run, s) && InFlight(s, key) && s.loop == Calling(key)
    ensures s.log == [Accept(key, 0.0), Start(key, FileLane, 0.0), Start(key, PlainLane, 0.0)]
  {
    OneFileIsAdmissible(key, m, data);
    assert Reaches([], Init);
    hide LeadsTo, Reaches, Admissible;
    run, s := DispatchStarts([], Init, 0.0);
    run, s := UploadStarts(run, s, key, wispId, FileRequest(Some(data), [m]), 0.0);
    run, s := DispatchStarts(run, s, 0.0);
    var t := s;
    run := OneMoreStep(run, t, ActionBegin(key, wispId), 0.0);
    s := Next(t, ActionBegin(key, wispId), 0.0);
  }

  /** An upload is accepted, and its callback runs, right after the plain action of the same id has
      returned assets. */
  lemma UploadAfterAssets(key: Key, wispId: string, m: Manifest, data: string) returns (run: Run, s: State)
    requires 0 < |key.operationId| <= MAX_OPERATION_ID_LENGTH
    requires ValidManifest(m) && m.size.value <= MAX_FILE_ACTION_BYTES
    ensures Reaches(run, s)
    ensures s.log == [Start(key, PlainLane, 0.0), AssetReturn(key), Accept(key, 0.0), Start(key, FileLane, 0.0)]
  {
    OneFileIsAdmissible(key, m, data);
    assert Reaches([], Init);
    hide LeadsTo, Reaches, Admissible;
    run, s := DispatchStarts([], Init, 0.0);
    run, s := AssetActionRuns(run, s, key, wispId, 0.0);
    run, s := DispatchStarts(run, s, 0.0);
    run, s := UploadStarts(run, s, key, wispId, FileRequest(Some(data), [m]), 0.0);
  }

  /** Receiver quota, in every reachable state. */
  lemma ReachableWithinQuota(run: Run, s: State)
    requires Reaches(run, s)
    ensures WithinQuota(s.transfers)
    ensures TableBytes(s.transfers) <= 268435456
    ensures forall sender :: |SenderKeys(s.transfers, sender)| <= 4
    ensures forall k :: k in s.transfers ==> k.operationId != "" && 1 <= |s.transfers[k].files| <= 32
  {
    ReachableInv(run, s);
  }

  /** An accepted upload is never forgotten early: until its retention is over, a resume is told
      that it is running, or is given an outcome recorded since it was accepted. */
  lemma ResumeNeverExpiresEarly(run: Run, s: State, i: nat, wispId: string)
    requires Reaches(run, s) && i < |s.log| && s.log[i].Accept?
    requires s.now <= s.log[i].at + COMPLETED_OPERATION_TTL_SECONDS
    ensures var key := s.log[i].key;
            && (key in s.completed || ResumeAnswer(s, key, wispId).status == InProgress)
            && (key !in s.transfers ==> RecordedSince(s, key, s.log[i].at))
  {
    ReachableRemembers(run, s);
    assert AcceptKept(s, i);
  }

  /** Nor is a plain action, unless its result carried assets: outside its callback, and so at every
      dispatch, it has an outcome recorded since its start. */
  lemma ActionResumeNeverExpiresEarly(run: Run, s: State, i: nat, key: Key)
    requires Reaches(run, s) && RecentStart(s, i, key, PlainLane) && !AssetsReturnedSince(s, i, key)
    ensures s.loop == Calling(key) || RecordedSince(s, key, s.log[i].at)
  {
    ReachableInv(run, s);
    assert StartCovered(s, i);
  }

  // ---------------------------------------------------------------- what a resume is answered

  /** A record without a result says `indeterminate`. */
  predicate RecordKinds(s: State) {
    forall k :: k in s.completed && s.completed[k].body.Operation? ==> s.completed[k].body.status == Indeterminate
  }

  lemma StepKeepsRecordKinds(s: State, step: Step, at: Time)
    requires RecordKinds(s) && Enabled(s, step)
    ensures RecordKinds(Next(s, step, at))
  {
    hide Admissible;
  }

  lemma {:induction false} ReachableRecordKinds(run: Run, s: State)
    requires Reaches(run, s)
    ensures RecordKinds(s)
    decreases |run|
  {
    if run != [] {
      var (step, at) := run[|run| - 1];
      var prev :| LeadsTo(Init, run[..|run| - 1], prev) && Enabled(prev, step) && prev.now <= at
          && s == Next(prev, step, at);
      ReachableRecordKinds(run[..|run| - 1], prev);
      StepKeepsRecordKinds(prev, step, at);
    }
  }

  // ---------------------------------------------------------------- runs, step by step

  lemma LastStep(run: Run, s: State) returns (prev: State)
    requires Reaches(run, s) && run != []
    ensures var n := |run| - 1;
            && Reaches(run[..n], prev) && Enabled(prev, run[n].0) && prev.now <= run[n].1
            && s == Next(prev, run[n].0, run[n].1)
  {
    var n := |run| - 1;
    var (step, at) := run[n];
    prev :| LeadsTo(Init, run[..n], prev) && Enabled(prev, step) && prev.now <= at && s == Next(prev, step, at);
  }

  /** A run leads to one state only. */
  lemma {:induction false} OneState(run: Run, s: State, t: State)
    requires Reaches(run, s) && Reaches(run, t)
    ensures s == t
    decreases |run|
  {
    if run != [] {
      var n := |run| - 1;
      var a := LastStep(run, s);
      var b := LastStep(run, t);
      OneState(run[..n], a, b);
    }
  }
}
