/** What the operation ledger has on record: the last outcome of every operation, as its callback gave it,
    and what a resume is therefore answered. */
module LedgerRecords {
  import opened Wrappers
  import opened ReceiverQuota
  import opened OperationLedger

  /** The outcome for `key` that a step from `s` records, in terms of the step and the upload alone: a
      result as it was returned, an error with its text, and otherwise that the outcome is unknown. */
  predicate Records(s: State, step: Step, at: Time, key: Key, body: Body) {
    match step
    case ActionReturned(k, wispId, payload) => k == key && payload.Some? && body == Response(wispId, payload.value)
    case ActionRaised(k, wispId) => k == key && body == Operation(wispId, Indeterminate, key.operationId)
    case WorkerReturned(k, payload) =>
      && k == key && key in s.transfers
      && body == if payload.Some? then Response(s.transfers[key].wispId, payload.value)
                 else Operation(s.transfers[key].wispId, Indeterminate, key.operationId)
    case WorkerFailed(k, error) =>
      k == key && key in s.transfers && body == TransferError(s.transfers[key].wispId, key.operationId, error)
    case MarkExpired =>
      && key in s.transfers && s.transfers[key].createdAt < at - 600.0
      && body == Operation(s.transfers[key].wispId, Indeterminate, key.operationId)
    case _ => false
  }

  ghost predicate NothingRecorded(s: State, step: Step, at: Time, key: Key) {
    forall body :: !Records(s, step, at, key, body)
  }

  /** No step of the run after step `n` records anything for `key`. */
  ghost predicate SilentAfter(run: Run, n: nat, key: Key) {
    forall m, s :: n < m < |run| && Reaches(run[..m], s) ==> NothingRecorded(s, run[m].0, run[m].1, key)
  }

  lemma StepRecords(s: State, step: Step, at: Time, key: Key, body: Body)
    requires Inv(s) && Enabled(s, step) && Records(s, step, at, key, body)
    ensures var t := Next(s, step, at); key in t.completed && t.completed[key] == Retained(at, body)
  {
    hide AllSpaced, Covered, WithinQuota, Admissible;
    assert key.operationId != "";
  }

  /** What a step that records nothing for `key` does to its record. */
  lemma StepKeepsRecord(s: State, step: Step, at: Time, key: Key)
    requires Enabled(s, step) && NothingRecorded(s, step, at, key)
    ensures var t := Next(s, step, at);
            && (key in t.completed ==> key in s.completed && t.completed[key] == s.completed[key])
            && (key in s.completed && at <= s.completed[key].at + 900.0 ==> key in t.completed)
  {
    hide Admissible, AcceptedAll;
    match step
    case ActionReturned(_, wispId, Some(payload)) => assert !Records(s, step, at, key, Response(wispId, payload));
    case ActionRaised(_, wispId) =>
      assert !Records(s, step, at, key, Operation(wispId, Indeterminate, key.operationId));
    case WorkerReturned(k, payload) =>
      assert !Records(s, step, at, key, RetainedOr(s.transfers[k].wispId, payload, key.operationId));
    case WorkerFailed(k, error) =>
      assert !Records(s, step, at, key, TransferError(s.transfers[k].wispId, key.operationId, error));
    case MarkExpired =>
      if key in s.transfers {
        assert !Records(s, step, at, key, Operation(s.transfers[key].wispId, Indeterminate, key.operationId));
      }
    case _ =>
  }

  lemma NowIs(s: State, step: Step, at: Time)
    requires Enabled(s, step)
    ensures Next(s, step, at).now == at
  {
  }

  lemma SilentBefore(run: Run, n: nat, key: Key)
    requires n < |run| - 1 && SilentAfter(run, n, key)
    ensures SilentAfter(run[..|run| - 1], n, key)
  {
    hide LeadsTo, Reaches, Records, NothingRecorded;
    var last := |run| - 1;
    forall m, s | n < m < last && Reaches(run[..last][..m], s)
      ensures NothingRecorded(s, run[..last][m].0, run[..last][m].1, key)
    {
      assert run[..last][..m] == run[..m];
    }
  }

  /** The last outcome stays on record, as it was, for 900 s. */
  lemma {:induction false} LastOutcomeIsKept(run: Run, s: State, n: nat, prev: State, key: Key, body: Body)
    requires Reaches(run, s) && n < |run| && Reaches(run[..n], prev)
    requires Records(prev, run[n].0, run[n].1, key, body) && SilentAfter(run, n, key)
    requires s.now <= run[n].1 + 900.0
    ensures key in s.completed && s.completed[key] == Retained(run[n].1, body)
    decreases |run|
  {
    var last := |run| - 1;
    var before := LastStep(run, s);
    hide LeadsTo, Reaches, Next, Enabled, Inv, Records;
    if n == last {
      OneState(run[..n], prev, before);
      ReachableInv(run[..n], prev);
      StepRecords(prev, run[last].0, run[last].1, key, body);
    } else {
      assert run[..last][..n] == run[..n];
      SilentBefore(run, n, key);
      assert NothingRecorded(before, run[last].0, run[last].1, key);
      hide SilentAfter;
      assert before.now <= s.now by { NowIs(before, run[last].0, run[last].1); }
      LastOutcomeIsKept(run[..last], before, n, prev, key, body);
      NowIs(before, run[last].0, run[last].1);
      StepKeepsRecord(before, run[last].0, run[last].1, key);
    }
  }

  lemma SilentOneMore(run: Run, n: nat, key: Key, before: State)
    requires n < |run| - 1 && SilentAfter(run[..|run| - 1], n, key) && Reaches(run[..|run| - 1], before)
    requires NothingRecorded(before, run[|run| - 1].0, run[|run| - 1].1, key)
    ensures SilentAfter(run, n, key)
  {
    hide LeadsTo, Reaches, Records, NothingRecorded;
    var last := |run| - 1;
    forall m, s | n < m < |run| && Reaches(run[..m], s) ensures NothingRecorded(s, run[m].0, run[m].1, key) {
      if m < last {
        assert run[..last][..m] == run[..m];
        assert NothingRecorded(s, run[..last][m].0, run[..last][m].1, key);
      } else {
        OneState(run[..last], s, before);
      }
    }
  }

  /** And there is no other record: each one is the last outcome of its operation. */
  lemma {:induction false} RecordIsLastOutcome(run: Run, s: State, key: Key) returns (n: nat, prev: State)
    requires Reaches(run, s) && key in s.completed
    ensures n < |run| && Reaches(run[..n], prev)
    ensures Records(prev, run[n].0, run[n].1, key, s.completed[key].body) && SilentAfter(run, n, key)
    ensures s.completed[key].at == run[n].1
    decreases |run|
  {
    var last := |run| - 1;
    var before := LastStep(run, s);
    hide LeadsTo, Reaches, Next, Enabled, Inv, Records;
    var (step, at) := run[last];
    if !NothingRecorded(before, step, at, key) {
      var body :| Records(before, step, at, key, body);
      ReachableInv(run[..last], before);
      StepRecords(before, step, at, key, body);
      n, prev := last, before;
    } else {
      StepKeepsRecord(before, step, at, key);
      n, prev := RecordIsLastOutcome(run[..last], before, key);
      assert run[..last][..n] == run[..n];
      SilentOneMore(run, n, key, before);
    }
  }

  /** A plain action that returned without assets: until another outcome of the same id, and for 900 s,
      a resume is given exactly what the callback returned. */
  lemma ActionResultIsAnswered(run: Run, s: State, n: nat, key: Key, wispId: string, result: string, other: string)
    requires Reaches(run, s) && n < |run| && run[n].0 == ActionReturned(key, wispId, Some(result))
    requires SilentAfter(run, n, key) && s.now <= run[n].1 + 900.0
    ensures key in s.completed && s.completed[key].body == Response(wispId, result)
    ensures ResumeAnswer(s, key, other) == Resumed(Response(wispId, result), Completed)
  {
    var prev := StateBefore(run, s, n);
    hide Reaches, SilentAfter;
    LastOutcomeIsKept(run, s, n, prev, key, Response(wispId, result));
  }

  lemma {:induction false} StateBefore(run: Run, s: State, n: nat) returns (prev: State)
    requires Reaches(run, s) && n < |run|
    ensures Reaches(run[..n], prev) && Enabled(prev, run[n].0)
    decreases |run|
  {
    var last := |run| - 1;
    var before := LastStep(run, s);
    hide LeadsTo, Reaches, Next, Enabled;
    if n == last {
      prev := before;
    } else {
      assert run[..last][..n] == run[..n];
      prev := StateBefore(run[..last], before, n);
    }
  }

  /** The same for the callback of an upload. */
  lemma UploadResultIsAnswered(run: Run, s: State, n: nat, prev: State, key: Key, result: string, other: string)
    requires Reaches(run, s) && n < |run| && run[n].0 == WorkerReturned(key, Some(result))
    requires Reaches(run[..n], prev) && key in prev.transfers
    requires SilentAfter(run, n, key) && s.now <= run[n].1 + 900.0
    ensures key in s.completed && s.completed[key].body == Response(prev.transfers[key].wispId, result)
    ensures ResumeAnswer(s, key, other) == Resumed(Response(prev.transfers[key].wispId, result), Completed)
  {
    hide Reaches, SilentAfter;
    LastOutcomeIsKept(run, s, n, prev, key, Response(prev.transfers[key].wispId, result));
  }

  /** An upload that failed: a resume is given the error with its text. */
  lemma UploadErrorIsAnswered(run: Run, s: State, n: nat, prev: State, key: Key, error: string, other: string)
    requires Reaches(run, s) && n < |run| && run[n].0 == WorkerFailed(key, error)
    requires Reaches(run[..n], prev) && key in prev.transfers
    requires SilentAfter(run, n, key) && s.now <= run[n].1 + 900.0
    ensures key in s.completed
    ensures s.completed[key].body == TransferError(prev.transfers[key].wispId, key.operationId, error)
    ensures ResumeAnswer(s, key, other)
            == Resumed(TransferError(prev.transfers[key].wispId, key.operationId, error), Completed)
  {
    hide Reaches, SilentAfter;
    LastOutcomeIsKept(run, s, n, prev, key, TransferError(prev.transfers[key].wispId, key.operationId, error));
  }
}
