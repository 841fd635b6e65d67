/** The uploads in the table of the operation ledger: where they come from, when they expire, and runs
    from their request to the resume that is answered. */
module LedgerUploads {
  import opened Wrappers
  import opened ReceiverQuota
  import opened OperationLedger

  // ---------------------------------------------------------------- what is in the table

  /** A file of a transfer is the one of the request, whose entry is within the limits. */
  predicate AsRequested(file: IncomingFile, m: Manifest) {
    && file.id == m.id && file.field == m.field && file.name == m.name && file.contentType == m.contentType
    && m.size == Some(file.size) && m.bulk == Some(file.bulk)
    && 1 <= |m.id| <= 128 && 1 <= |m.field| <= 128 && 1 <= |m.name| <= 512 && |m.contentType| <= 128
    && file.bulk.algorithm == "SESSION-A256GCM-v2" && file.bulk.nonce != ""
    && file.bulk.ciphertextSize == file.size + 16
  }

  predicate AllAsRequested(files: seq<IncomingFile>, ms: seq<Manifest>) {
    && |files| == |ms| && 1 <= |ms| <= 32
    && (forall i :: 0 <= i < |ms| ==> AsRequested(files[i], ms[i]))
    && (forall i, j :: 0 <= i < j < |ms| ==> ms[i].id != ms[j].id)
  }

  lemma AcceptedAsRequested(ms: seq<Manifest>, reserved: nat)
    requires AcceptableFiles(ms, reserved)
    ensures AllAsRequested(AcceptedAll(ms), ms)
  {
    hide FileBytes;
    var files := AcceptedAll(ms);
    forall i, j | 0 <= i < j < |ms| ensures ms[i].id != ms[j].id {
      assert files[i].id != files[j].id;
    }
  }

  /** Step `n` is the request that transfer `t` of `key` was made from, and a proper one. */
  predicate MadeBy(run: Run, n: nat, key: Key, t: Transfer) {
    && n < |run| && run[n].0.FileBegin? && run[n].0.key == key
    && t.wispId == run[n].0.wispId && t.createdAt == run[n].1
    && run[n].0.request.actionData.Some? && AllAsRequested(t.files, run[n].0.request.files)
  }

  lemma BeginMakes(s: State, step: Step, at: Time, key: Key)
    requires Enabled(s, step) && step.FileBegin? && key in Next(s, step, at).transfers
    ensures var t := Next(s, step, at).transfers[key];
            if key in s.transfers then t == s.transfers[key]
            else step.key == key && t.wispId == step.wispId && t.createdAt == at
                 && step.request.actionData.Some? && AllAsRequested(t.files, step.request.files)
  {
    hide AllAsRequested, AcceptableFiles, AcceptedAll;
    if AcceptableFiles(step.request.files, TableBytes(s.transfers)) {
      AcceptedAsRequested(step.request.files, TableBytes(s.transfers));
    }
  }

  lemma OthersKeepOrigins(s: State, step: Step, at: Time, key: Key)
    requires Enabled(s, step) && !step.FileBegin? && key in Next(s, step, at).transfers
    ensures key in s.transfers
    ensures var t := Next(s, step, at).transfers[key];
            && t.wispId == s.transfers[key].wispId && t.createdAt == s.transfers[key].createdAt
            && t.files == s.transfers[key].files
  {
    hide MarkedRecords, FreshRecords, RetainedOr, ExpiredTransfers, Remember, Admissible;
  }

  /** Every transfer is the one its `file_begin` asked for: its Wisp, its files one by one, its age. */
  lemma {:induction false} TransfersAreAsRequested(run: Run, s: State, key: Key) returns (n: nat)
    requires Reaches(run, s) && key in s.transfers
    ensures MadeBy(run, n, key, s.transfers[key])
    decreases |run|
  {
    assert run != [];
    n := |run| - 1;
    var before := LastStep(run, s);
    hide LeadsTo, Reaches, Next, Enabled, AllAsRequested;
    var (step, at) := run[n];
    if step.FileBegin? {
      BeginMakes(before, step, at, key);
    } else {
      OthersKeepOrigins(before, step, at, key);
    }
    if key in before.transfers {
      var last := n;
      n := TransfersAreAsRequested(run[..last], before, key);
      assert run[..last][n] == run[n];
    }
  }

  // ---------------------------------------------------------------- when uploads expire

  /** Only uploads older than 600 s are cancelled or listed for removal, and a listed one whose worker is
      alive is cancelled. */
  predicate Expiring(s: State) {
    && (forall k :: k in s.transfers && s.transfers[k].cancelled ==> s.transfers[k].createdAt + 600.0 < s.now)
    && (s.loop.Sweeping? ==> forall k :: k in s.loop.expired && k in s.transfers ==>
          s.transfers[k].createdAt + 600.0 < s.now && (Live(s.transfers[k].task) ==> s.transfers[k].cancelled))
  }

  lemma StepKeepsExpiring(s: State, step: Step, at: Time)
    requires Expiring(s) && Enabled(s, step) && s.now <= at
    ensures Expiring(Next(s, step, at))
  {
    hide Admissible, AcceptedAll, MarkedRecords, FreshRecords, Remember, RetainedOr;
  }

  /** An upload is cancelled only when it is older than 600 s; so is one that expiry waits for. */
  lemma {:induction false} OnlyOldUploadsExpire(run: Run, s: State)
    requires Reaches(run, s)
    ensures Expiring(s)
    decreases |run|
  {
    if run != [] {
      var prev := LastStep(run, s);
      hide LeadsTo, Reaches, Next, Enabled, Expiring;
      OnlyOldUploadsExpire(run[..|run| - 1], prev);
      StepKeepsExpiring(prev, run[|run| - 1].0, run[|run| - 1].1);
    }
  }

  predicate InDispatch(loop: Loop) {
    loop.Sweeping? || loop.Swept? || loop.Ready?
  }

  /** Every transfer is younger than 600 s at `since`, but for those that are being swept. */
  predicate YoungSince(s: State, since: Time) {
    forall k :: k in s.transfers ==>
      s.transfers[k].createdAt >= since - 600.0 || (s.loop.Sweeping? && k in s.loop.expired)
  }

  lemma StepKeepsYoung(s: State, step: Step, at: Time, since: Time)
    requires Enabled(s, step) && InDispatch(Next(s, step, at).loop)
    requires !step.MarkExpired? ==> YoungSince(s, since)
    ensures step.MarkExpired? ==> YoungSince(Next(s, step, at), at)
    ensures !step.MarkExpired? ==> InDispatch(s.loop) && YoungSince(Next(s, step, at), since)
  {
    hide Admissible, AcceptedAll, MarkedRecords, FreshRecords, Remember, RetainedOr;
  }

  lemma StaysInDispatch(s: State, step: Step, at: Time)
    requires Enabled(s, step) && InDispatch(Next(s, step, at).loop) && !step.MarkExpired?
    ensures InDispatch(s.loop)
  {
    hide Admissible, AcceptedAll, MarkedRecords, FreshRecords, Remember, RetainedOr, MarkedTransfers;
  }

  /** No upload outlives its 600 s by more than one dispatch: when a dispatch acts on its body, every
      transfer in the table was younger than that when the same dispatch looked for expired ones. */
  lemma {:induction false} OldUploadsAreGone(run: Run, s: State) returns (n: nat)
    requires Reaches(run, s) && InDispatch(s.loop)
    ensures n < |run| && run[n].0.MarkExpired? && YoungSince(s, run[n].1)
    ensures forall m :: n < m < |run| ==> !run[m].0.MarkExpired?
    ensures s.loop.Ready? ==> forall k :: k in s.transfers ==> s.transfers[k].createdAt >= run[n].1 - 600.0
    decreases |run|
  {
    assert run != [];
    var last := |run| - 1;
    var prev := LastStep(run, s);
    var (step, at) := run[last];
    hide Next, Enabled, LeadsTo, Reaches;
    if step.MarkExpired? {
      n := last;
      StepKeepsYoung(prev, step, at, at);
    } else {
      StaysInDispatch(prev, step, at);
      n := OldUploadsAreGone(run[..last], prev);
      assert run[..last][n] == run[n];
      StepKeepsYoung(prev, step, at, run[n].1);
    }
  }

  // ---------------------------------------------------------------- a result that was not delivered

  lemma UploadEnds(run: Run, s: State, key: Key, result: string, at: Time) returns (longer: Run, t: State)
    requires Reaches(run, s) && key.operationId != "" && InFlight(s, key) && s.now <= at
    ensures Reaches(longer, t)
    ensures t == s.(transfers := s.transfers - {key}, now := at,
                    completed := s.completed[key := Retained(at, Response(s.transfers[key].wispId, result))])
  {
    hide LeadsTo, Reaches;
    longer := OneMoreStep(run, s, WorkerReturned(key, Some(result)), at);
    var u := Next(s, WorkerReturned(key, Some(result)), at);
    longer := OneMoreStep(longer, u, WorkerExit(key), at);
    t := Next(u, WorkerExit(key), at);
  }

  /** A run in which a resume gets the result of an upload whose own answer was lost. */
  lemma LostResultIsResumed(key: Key, wispId: string, m: Manifest, data: string, result: string)
    returns (run: Run, s: State)
    requires key.operationId != "" && ValidManifest(m) && m.size.value <= MAX_FILE_ACTION_BYTES
    ensures Reaches(run, s) && Enabled(s, OtherRequest) && key !in s.transfers
    ensures s.log == [Accept(key, 0.0), Start(key, FileLane, 0.0)]
    ensures ResumeAnswer(s, key, wispId) == Resumed(Response(wispId, result), Completed)
  {
    OneFileIsAdmissible(key, m, data);
    assert Reaches([], Init);
    hide LeadsTo, Reaches, Admissible, Next;
    run, s := DispatchStarts([], Init, 0.0);
    run, s := UploadStarts(run, s, key, wispId, FileRequest(Some(data), [m]), 0.0);
    run, s := UploadEnds(run, s, key, result, 0.0);
    run, s := DispatchStarts(run, s, 0.0);
  }

  lemma UploadFails(run: Run, s: State, key: Key, error: string, at: Time) returns (longer: Run, t: State)
    requires Reaches(run, s) && key.operationId != "" && InFlight(s, key) && s.now <= at
    ensures Reaches(longer, t)
    ensures t == s.(transfers := s.transfers - {key}, now := at,
                    completed := s.completed[key := Retained(at, TransferError(s.transfers[key].wispId, key.operationId,
                                                                              error))])
  {
    hide LeadsTo, Reaches;
    longer := OneMoreStep(run, s, WorkerFailed(key, error), at);
    var u := Next(s, WorkerFailed(key, error), at);
    longer := OneMoreStep(longer, u, WorkerExit(key), at);
    t := Next(u, WorkerExit(key), at);
  }

  /** A run in which a resume gets the error of an upload. */
  lemma FailedUploadIsResumed(key: Key, wispId: string, m: Manifest, data: string, error: string)
    returns (run: Run, s: State)
    requires key.operationId != "" && ValidManifest(m) && m.size.value <= MAX_FILE_ACTION_BYTES
    ensures Reaches(run, s) && Enabled(s, OtherRequest) && key !in s.transfers
    ensures ResumeAnswer(s, key, wispId) == Resumed(TransferError(wispId, key.operationId, error), Completed)
  {
    OneFileIsAdmissible(key, m, data);
    assert Reaches([], Init);
    hide LeadsTo, Reaches, Admissible, Next;
    run, s := DispatchStarts([], Init, 0.0);
    run, s := UploadStarts(run, s, key, wispId, FileRequest(Some(data), [m]), 0.0);
    run, s := UploadFails(run, s, key, error, 0.0);
    run, s := DispatchStarts(run, s, 0.0);
  }

  /** The only upload is too old: its worker is cancelled, leaves the table, and its outcome is unknown. */
  lemma UploadExpires(run: Run, s: State, key: Key, at: Time) returns (longer: Run, t: State)
    requires Reaches(run, s) && key.operationId != "" && InFlight(s, key) && s.now <= at && s.loop.Idle?
    requires s.transfers.Keys == {key} && s.transfers[key].createdAt < at - 600.0
    ensures Reaches(longer, t) && t.loop.Swept? && t.transfers == map[] && t.now == at && t.log == s.log
    ensures key in t.completed
    ensures t.completed[key] == Retained(at, Operation(s.transfers[key].wispId, Indeterminate, key.operationId))
  {
    hide LeadsTo, Reaches;
    assert ExpiredTransfers(s.transfers, at) == {key};
    longer := OneMoreStep(run, s, MarkExpired, at);
    var u := Next(s, MarkExpired, at);
    assert key in u.transfers && u.transfers[key].cancelled;
    longer := OneMoreStep(longer, u, WorkerExit(key), at);
    var v := Next(u, WorkerExit(key), at);
    assert v.transfers == map[];
    longer := OneMoreStep(longer, v, Sweep, at);
    t := Next(v, Sweep, at);
  }

  /** A run in which an upload that takes too long is cancelled by the dispatch of its own resume. */
  lemma SlowUploadIsResumed(key: Key, wispId: string, m: Manifest, data: string) returns (run: Run, s: State)
    requires key.operationId != "" && ValidManifest(m) && m.size.value <= MAX_FILE_ACTION_BYTES
    ensures Reaches(run, s) && Enabled(s, OtherRequest) && s.transfers == map[]
    ensures ResumeAnswer(s, key, wispId) == Resumed(Operation(wispId, Indeterminate, key.operationId), Indeterminate)
  {
    OneFileIsAdmissible(key, m, data);
    assert Reaches([], Init);
    hide LeadsTo, Reaches, Admissible;
    run, s := DispatchStarts([], Init, 0.0);
    run, s := UploadStarts(run, s, key, wispId, FileRequest(Some(data), [m]), 0.0);
    var t;
    run, t := UploadExpires(run, s, key, 601.0);
    run := OneMoreStep(run, t, ExpireCompleted, 601.0);
    s := Next(t, ExpireCompleted, 601.0);
  }
}
