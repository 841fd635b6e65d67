/** Recovery of a mutating action: Android's start-then-resume protocol (SessionCrypto.kt,
    RelayClient.kt), what it encrypts, and how it reads the answers of the operation ledger. */
module MutationRecovery {
  import opened Wrappers
  import opened PeerSessions
  import Quota = ReceiverQuota
  import Ledger = OperationLedger
  import Records = LedgerRecords

  // ---------------------------------------------------------------- Android's side

  datatype Outcome<T> = Done(value: T) | Recoverable(message: string) | Fatal(message: string)

  /** One attempt: the bodies it encrypted, in order, and how it ended. */
  datatype Attempt<T> = Attempt(sent: seq<Body>, outcome: Outcome<T>)

  /** A body that answers a request: its `response`, and the error of its `transfer` object if it has
      one of type `error`. */
  datatype Reply = Reply(response: string, transferError: Option<string>)

  /** Whether the assets that a reply announces arrive; a reply without assets is received. */
  datatype Receipt = Received | NotReceived(recoverable: bool)

  /** What the network does to one request: each case is a place where the attempt can stop. The
      second reply is read only after a status `running`. */
  datatype Exchange =
    | NoSession(recoverable: bool)
    | SendFailed(encrypted: bool)
    | NoAcceptance
    | Rejected
    | NoResponse
    | Answered(status: Option<string>, reply: Reply, second: Option<Reply>, receipt: Receipt)

  /** `OperationProtocol.recoveryStatus`. */
  datatype Recovery = Running | Completed | Unknown

  function RecoveryStatus(status: Option<string>): Recovery {
    if status == Some("running") then Running
    else if status == Some("completed") then Completed
    else Unknown
  }

  /** How an attempt fails: only a session failure or an I/O error is recoverable. */
  function Failure(recoverable: bool, message: string): Outcome<string> {
    if recoverable then Recoverable(message) else Fatal(message)
  }

  /** `receiveWispState`. */
  function Receive(reply: Reply, receipt: Receipt): Outcome<string> {
    match receipt
    case Received => Done(reply.response)
    case NotReceived(recoverable) => Failure(recoverable, "assets were not received")
  }

  /** An exchange that ends before its answer. */
  function Unanswered(body: Body, x: Exchange): Attempt<string>
    requires !x.Answered?
  {
    match x
    case NoSession(recoverable) => Attempt([], Failure(recoverable, "no session"))
    case SendFailed(encrypted) => Attempt(if encrypted then [body] else [], Recoverable("send failed"))
    case NoAcceptance => Attempt([body], Recoverable("no acceptance"))
    case Rejected => Attempt([body], Fatal("rejected"))
    case NoResponse => Attempt([body], Recoverable("no response"))
  }

  /** The reply that the answer to a resume leads to. */
  function ResumedReply(x: Exchange): Result<Reply, Outcome<string>>
    requires x.Answered?
  {
    match RecoveryStatus(x.status)
    case Completed => Ok(x.reply)
    case Running => if x.second.Some? then Ok(x.second.value) else Err(Recoverable("no completion"))
    case Unknown => Err(Fatal("operation is not known"))
  }

  /** `performActionAttempt`. */
  function PerformAttempt(body: Body, recovering: bool, x: Exchange): Attempt<string> {
    if !x.Answered? then Unanswered(body, x)
    else
      var reply := if recovering then ResumedReply(x) else Ok(x.reply);
      Attempt([body], if reply.Ok? then Receive(reply.value, x.receipt) else reply.error)
  }

  /** Where an upload can stop after `file_begin` was answered. */
  datatype Upload =
    | NotReady
    | BulkFailed(recoverable: bool)
    | NoCompletion
    | Completion(reply: Reply, receipt: Receipt)

  /** How `sendFileAction` ends once it has the body that completes the upload: its error is raised. */
  function Complete(reply: Reply, receipt: Receipt): Outcome<string> {
    if reply.transferError.Some? then Fatal(reply.transferError.value) else Receive(reply, receipt)
  }

  /** The attempt of `sendFileAction`: when reconnecting it resumes and never uploads again. */
  function PerformFileAttempt(begin: Body, reconnecting: bool, x: Exchange, upload: Upload): Attempt<string>
    requires begin.FileBegin?
  {
    var body := if reconnecting then OperationResume(begin.wispId, begin.operationId) else begin;
    if !x.Answered? then Unanswered(body, x)
    else if reconnecting then
      var reply := ResumedReply(x);
      Attempt([body], if reply.Ok? then Complete(reply.value, x.receipt) else reply.error)
    else
      Attempt([body],
        match upload
        case NotReady => Fatal("not ready")
        case BulkFailed(recoverable) => Failure(recoverable, "bulk transfer failed")
        case NoCompletion => Recoverable("no completion")
        case Completion(reply, receipt) => Complete(reply, receipt))
  }

  /** The bodies a recovered mutation encrypts, from those of the two attempts it may make. */
  function RecoverySends<T>(start: Attempt<T>, resume: Attempt<T>): seq<Body> {
    start.sent + if start.outcome.Recoverable? then resume.sent else []
  }

  /** What a recovered mutation comes to. */
  function Recovered<T>(start: Attempt<T>, resume: Attempt<T>): Result<T, string> {
    match start.outcome
    case Done(value) => Ok(value)
    case Fatal(message) => Err(message)
    case Recoverable(message) =>
      if resume.outcome.Done? then Ok(resume.outcome.value)
      else Err("Initial operation failed: " + message + "; resume failed: " + resume.outcome.message)
  }

  /** `recoverMutationOnce`: `start` and `resume` are what the two attempts do if they are made. */
  method RecoverMutationOnce<T>(start: Attempt<T>, resume: Attempt<T>)
    returns (result: Result<T, string>, sent: seq<Body>, invalidated: bool)
    ensures sent == RecoverySends(start, resume) && result == Recovered(start, resume)
    ensures sent == start.sent + if start.outcome.Recoverable? then resume.sent else []
    ensures invalidated <==> start.outcome.Recoverable?
    ensures result.Ok? <==> start.outcome.Done? || (start.outcome.Recoverable? && resume.outcome.Done?)
    ensures result.Ok? ==> result.value == if start.outcome.Done? then start.outcome.value else resume.outcome.value
    ensures result.Err? ==>
              result.error == if start.outcome.Fatal? then start.outcome.message
                              else "Initial operation failed: " + start.outcome.message
                                   + "; resume failed: " + resume.outcome.message
  {
    sent, invalidated := start.sent, false;
    match start.outcome
    case Done(value) =>
      result := Ok(value);
    case Fatal(message) =>
      result := Err(message);
    case Recoverable(message) =>
      invalidated := true;
      sent := sent + resume.sent;
      match resume.outcome {
        case Done(value) => result := Ok(value);
        case Recoverable(later) => result := Err("Initial operation failed: " + message + "; resume failed: " + later);
        case Fatal(later) => result := Err("Initial operation failed: " + message + "; resume failed: " + later);
      }
  }

  // ---------------------------------------------------------------- when a mutation succeeds

  /** The exchanges after which a resume is made, whatever was started. */
  predicate Interrupted(x: Exchange) {
    x == NoSession(true) || x.SendFailed? || x == NoAcceptance || x == NoResponse
  }

  /** The answer to a resume, received with its assets, gives `reply`. */
  predicate ResumedWith(x: Exchange, reply: Reply) {
    && x.Answered? && x.receipt == Received
    && ((x.status == Some("completed") && x.reply == reply) || (x.status == Some("running") && x.second == Some(reply)))
  }

  /** A plain mutation succeeds exactly with the reply to its start, or after an interruption, or after
      an I/O error while it received assets, with the reply that its resume leads to. */
  lemma PlainSucceedsExactly(wispId: string, id: string, first: Exchange, second: Exchange, value: string)
    ensures Recovered(PerformAttempt(UserAction(wispId, id), false, first),
                      PerformAttempt(OperationResume(wispId, id), true, second)) == Ok(value)
            <==> || (first.Answered? && first.receipt == Received && first.reply.response == value)
                 || ((Interrupted(first) || (first.Answered? && first.receipt == NotReceived(true)))
                     && exists reply :: ResumedWith(second, reply) && reply.response == value)
  {
    if second.Answered? && second.receipt == Received {
      if second.status == Some("completed") && second.reply.response == value {
        assert ResumedWith(second, second.reply);
      } else if second.status == Some("running") && second.second.Some? && second.second.value.response == value {
        assert ResumedWith(second, second.second.value);
      }
    }
  }

  /** An upload succeeds exactly with the completion of its upload, or after an interruption, an I/O error
      of the upload, a lost completion or one whose assets met an I/O error, with the reply that its
      resume leads to; in either case only if that is not a transfer error. */
  lemma FileSucceedsExactly(wispId: string, id: string, first: Exchange, upload: Upload, second: Exchange,
      value: string)
    ensures Recovered(PerformFileAttempt(FileBegin(wispId, id), false, first, upload),
                      PerformFileAttempt(FileBegin(wispId, id), true, second, upload)) == Ok(value)
            <==> || (first.Answered? && upload == Completion(Reply(value, None), Received))
                 || ((Interrupted(first)
                      || (first.Answered?
                          && (upload == BulkFailed(true) || upload == NoCompletion
                              || (upload.Completion? && upload.reply.transferError.None?
                                  && upload.receipt == NotReceived(true)))))
                     && ResumedWith(second, Reply(value, None)))
  {
  }

  // ---------------------------------------------------------------- counting requests and starts

  predicate Starts(body: Body, operationId: string) {
    (body.UserAction? || body.FileBegin?) && body.operationId == operationId
  }

  function StartBodies(bodies: seq<Body>, operationId: string): nat {
    if bodies == [] then 0
    else StartBodies(bodies[..|bodies| - 1], operationId) + if Starts(bodies[|bodies| - 1], operationId) then 1 else 0
  }

  lemma {:induction false} StartBodiesMonotone(part: seq<Body>, whole: seq<Body>, operationId: string)
    requires part <= whole
    ensures StartBodies(part, operationId) <= StartBodies(whole, operationId)
    decreases |whole|
  {
    if |part| < |whole| {
      StartBodiesMonotone(part, whole[..|whole| - 1], operationId);
    } else {
      assert part == whole;
    }
  }

  /** One call of `sendAction` or of `sendFileAction`, with what the network does to its start, to the
      upload, and to its resume. */
  datatype Mutation =
    | PlainMutation(wispId: string, operationId: string, first: Exchange, second: Exchange)
    | FileMutation(wispId: string, operationId: string, first: Exchange, upload: Upload, second: Exchange)

  function StartAttempt(m: Mutation): Attempt<string> {
    match m
    case PlainMutation(wispId, id, x, _) => PerformAttempt(UserAction(wispId, id), false, x)
    case FileMutation(wispId, id, x, upload, _) => PerformFileAttempt(FileBegin(wispId, id), false, x, upload)
  }

  function ResumeAttempt(m: Mutation): Attempt<string> {
    match m
    case PlainMutation(wispId, id, _, y) => PerformAttempt(OperationResume(wispId, id), true, y)
    case FileMutation(wispId, id, _, upload, y) => PerformFileAttempt(FileBegin(wispId, id), true, y, upload)
  }

  /** Everything that one mutation encrypts. */
  function MutationSends(m: Mutation): seq<Body> {
    RecoverySends(StartAttempt(m), ResumeAttempt(m))
  }

  /** Whether a request is encrypted at all. */
  predicate IsSent(x: Exchange) {
    !x.NoSession? && x != SendFailed(false)
  }

  /** What a mutation encrypts: its start if it gets that far, and after a recoverable failure the resume
      of the same operation, if that gets as far. */
  lemma WhatIsSent(m: Mutation)
    ensures MutationSends(m)
            == (if !IsSent(m.first) then [] else if m.PlainMutation? then [UserAction(m.wispId, m.operationId)]
                else [FileBegin(m.wispId, m.operationId)])
               + (if IsSent(m.second)
                     && (Interrupted(m.first)
                         || (m.first.Answered?
                             && (if m.PlainMutation? then m.first.receipt == NotReceived(true)
                                 else || m.upload == BulkFailed(true) || m.upload == NoCompletion
                                      || (m.upload.Completion? && m.upload.reply.transferError.None?
                                          && m.upload.receipt == NotReceived(true)))))
                  then [OperationResume(m.wispId, m.operationId)] else [])
  {
  }

  /** The whole protocol encrypts at most two bodies, at most one of which is a start; what follows
      a start is a resume. */
  lemma AtMostOneStart(m: Mutation)
    ensures StartBodies(MutationSends(m), m.operationId) <= 1
    ensures |MutationSends(m)| <= 2
    ensures forall i :: 0 < i < |MutationSends(m)| ==> MutationSends(m)[i].OperationResume?
  {
    var sent := MutationSends(m);
    var start, resume := StartAttempt(m), ResumeAttempt(m);
    assert |start.sent| <= 1 && |resume.sent| <= 1;
    assert |resume.sent| == 1 ==> resume.sent[0].OperationResume?;
    if |sent| == 2 {
      assert sent[1] == resume.sent[0];
      assert StartBodies(sent[..1], m.operationId) <= 1 by {
        assert sent[..1][..0] == [];
      }
    } else if |sent| == 1 {
      assert sent[..0] == [];
    }
  }

  predicate IsStart(e: Ledger.Event, key: Quota.Key) {
    e.Start? && e.key == key
  }

  function CallbackStarts(log: seq<Ledger.Event>, key: Quota.Key): nat {
    if log == [] then 0
    else CallbackStarts(log[..|log| - 1], key) + if IsStart(log[|log| - 1], key) then 1 else 0
  }

  predicate Dispatches(step: Ledger.Step, key: Quota.Key) {
    (step.FileBegin? || step.ActionBegin?) && step.key == key
  }

  function Dispatched(run: Ledger.Run, key: Quota.Key): nat {
    if run == [] then 0
    else Dispatched(run[..|run| - 1], key) + if Dispatches(run[|run| - 1].0, key) then 1 else 0
  }

  /** A callback that an accepted upload may still start. */
  function Owed(s: Ledger.State, key: Quota.Key): nat {
    if key in s.transfers && Ledger.NotStarted(s.transfers[key].task) then 1 else 0
  }

  /** The start that a step logs for `key`. */
  ghost predicate Begins(s: Ledger.State, step: Ledger.Step, key: Quota.Key) {
    || step == Ledger.StartFileCallback(key)
    || (step.ActionBegin? && step.key == key && key !in s.completed && key !in s.active)
  }

  lemma LogDelta(s: Ledger.State, step: Ledger.Step, at: Ledger.Time, key: Quota.Key)
    requires Ledger.Enabled(s, step)
    ensures CallbackStarts(Ledger.Next(s, step, at).log, key)
            == CallbackStarts(s.log, key) + if Begins(s, step, key) then 1 else 0
  {
    hide Ledger.MarkedTransfers, Ledger.MarkedRecords, Ledger.ExpiredTransfers, Ledger.FreshRecords;
    hide Ledger.Remember, Ledger.RetainedOr, Quota.Admissible, Quota.AcceptedAll;
    var t := Ledger.Next(s, step, at);
    if t.log != s.log {
      assert |t.log| == |s.log| + 1 && t.log[..|s.log|] == s.log;
    }
  }

  lemma OwedDelta(s: Ledger.State, step: Ledger.Step, at: Ledger.Time, key: Quota.Key)
    requires Ledger.Enabled(s, step)
    ensures Owed(Ledger.Next(s, step, at), key) + (if step == Ledger.StartFileCallback(key) then 1 else 0)
            <= Owed(s, key) + if step.FileBegin? && step.key == key then 1 else 0
  {
    hide Ledger.MarkedRecords, Ledger.ExpiredTransfers, Ledger.FreshRecords, Ledger.Remember, Ledger.RetainedOr;
    hide Quota.Admissible, Quota.AcceptedAll;
  }

  lemma StepSpendsDispatch(s: Ledger.State, step: Ledger.Step, at: Ledger.Time, key: Quota.Key)
    requires Ledger.Enabled(s, step)
    ensures var t := Ledger.Next(s, step, at);
            CallbackStarts(t.log, key) + Owed(t, key)
            <= CallbackStarts(s.log, key) + Owed(s, key) + if Dispatches(step, key) then 1 else 0
  {
    hide Ledger.Next, Ledger.Enabled, CallbackStarts, Owed;
    LogDelta(s, step, at, key);
    OwedDelta(s, step, at, key);
  }

  /** Every callback start uses up a request that was dispatched for it; a resume gives none. */
  lemma {:induction false} StartsNeedDispatches(run: Ledger.Run, s: Ledger.State, key: Quota.Key)
    requires Ledger.Reaches(run, s)
    ensures CallbackStarts(s.log, key) + Owed(s, key) <= Dispatched(run, key)
    decreases |run|
  {
    if run != [] {
      var (step, at) := run[|run| - 1];
      var prev :| Ledger.LeadsTo(Ledger.Init, run[..|run| - 1], prev) && Ledger.Enabled(prev, step)
          && prev.now <= at && s == Ledger.Next(prev, step, at);
      StartsNeedDispatches(run[..|run| - 1], prev, key);
      StepSpendsDispatch(prev, step, at, key);
    }
  }

  // ---------------------------------------------------------------- how a resume is understood

  /** What Android makes of the answer to a dispatched resume: a result or error that is on record
      completes the operation, an upload in flight is waited for, and everything else ends in an
      explicit failure. A plain action is never found running, since its dispatch has ended. */
  lemma ResumeIsUnderstood(run: Ledger.Run, s: Ledger.State, key: Quota.Key, wispId: string)
    requires Ledger.Reaches(run, s) && Ledger.Enabled(s, Ledger.OtherRequest)
    ensures RecoveryStatus(Some(Ledger.StatusText(Ledger.ResumeAnswer(s, key, wispId).status)))
            == if key in s.completed then if s.completed[key].body.Operation? then Unknown else Completed
               else if key in s.transfers then Running
               else Unknown
  {
    Ledger.ReachableRecordKinds(run, s);
    Ledger.OneCallbackAtATime(run, s, key);
    hide Ledger.Reaches;
  }

  // ---------------------------------------------------------------- a result comes through

  /** How Android parses what a resume is sent. */
  function ReplyOf(body: Ledger.Body): Reply {
    match body
    case Response(_, payload) => Reply(payload, None)
    case TransferError(_, _, error) => Reply("", Some(error))
    case _ => Reply("", None)
  }

  function AnswerTo(answer: Ledger.Resumed): Exchange {
    Answered(Some(Ledger.StatusText(answer.status)), ReplyOf(answer.body), None, Received)
  }

  /** From the callback to Android: if the reply to a plain start is lost in any way, and the resume is
      dispatched within 900 s of the callback's return and its answer arrives, the mutation returns
      exactly what the callback returned. */
  lemma ActionResultComesThrough(run: Ledger.Run, s: Ledger.State, n: nat, key: Quota.Key, wispId: string,
      result: string, first: Exchange, second: Exchange)
    requires Ledger.Reaches(run, s) && Ledger.Enabled(s, Ledger.OtherRequest)
    requires n < |run| && run[n].0 == Ledger.ActionReturned(key, wispId, Some(result))
    requires Records.SilentAfter(run, n, key) && s.now <= run[n].1 + 900.0
    requires Interrupted(first) && second == AnswerTo(Ledger.ResumeAnswer(s, key, wispId))
    ensures Recovered(PerformAttempt(UserAction(wispId, key.operationId), false, first),
                      PerformAttempt(OperationResume(wispId, key.operationId), true, second)) == Ok(result)
  {
    Records.ActionResultIsAnswered(run, s, n, key, wispId, result, wispId);
    hide Ledger.Reaches, Records.SilentAfter, Ledger.ResumeAnswer;
    assert ResumedWith(second, Reply(result, None));
    PlainSucceedsExactly(wispId, key.operationId, first, second, result);
  }

  /** The same for an upload whose completion is lost. */
  lemma UploadResultComesThrough(run: Ledger.Run, s: Ledger.State, n: nat, prev: Ledger.State, key: Quota.Key,
      wispId: string, result: string, first: Exchange, upload: Upload, second: Exchange)
    requires Ledger.Reaches(run, s) && Ledger.Enabled(s, Ledger.OtherRequest)
    requires n < |run| && run[n].0 == Ledger.WorkerReturned(key, Some(result))
    requires Ledger.Reaches(run[..n], prev) && key in prev.transfers
    requires Records.SilentAfter(run, n, key) && s.now <= run[n].1 + 900.0
    requires first.Answered? && (upload == BulkFailed(true) || upload == NoCompletion)
    requires second == AnswerTo(Ledger.ResumeAnswer(s, key, wispId))
    ensures Recovered(PerformFileAttempt(FileBegin(wispId, key.operationId), false, first, upload),
                      PerformFileAttempt(FileBegin(wispId, key.operationId), true, second, upload)) == Ok(result)
  {
    Records.UploadResultIsAnswered(run, s, n, prev, key, result, wispId);
    hide Ledger.Reaches, Records.SilentAfter, Ledger.ResumeAnswer;
    FileSucceedsExactly(wispId, key.operationId, first, upload, second, result);
  }

  /** And the error of an upload is raised with its own text. */
  lemma UploadErrorComesThrough(run: Ledger.Run, s: Ledger.State, n: nat, prev: Ledger.State, key: Quota.Key,
      wispId: string, error: string, upload: Upload, second: Exchange)
    requires Ledger.Reaches(run, s) && Ledger.Enabled(s, Ledger.OtherRequest)
    requires n < |run| && run[n].0 == Ledger.WorkerFailed(key, error)
    requires Ledger.Reaches(run[..n], prev) && key in prev.transfers
    requires Records.SilentAfter(run, n, key) && s.now <= run[n].1 + 900.0
    requires second == AnswerTo(Ledger.ResumeAnswer(s, key, wispId))
    ensures PerformFileAttempt(FileBegin(wispId, key.operationId), true, second, upload).outcome == Fatal(error)
  {
    Records.UploadErrorIsAnswered(run, s, n, prev, key, error, wispId);
    hide Ledger.Reaches, Records.SilentAfter, Ledger.ResumeAnswer;
  }
}
