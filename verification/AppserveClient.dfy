/** The dictionaries of the Python runtime and the code that updates them (client.py). Each method
    is one stretch of a coroutine between two awaits and is proved to take one step of the
    OperationLedger machine, so everything proved about its runs holds of these fields. */
module AppserveClients {
  import opened Wrappers
  import opened ReceiverQuota
  import opened OperationLedger

  /** Marking one more transfer changes its own entries and no others. */
  lemma MarkOneMore(transfers: Table, completed: map<Key, Retained>, done: set<Key>, key: Key, at: Time)
    requires done <= transfers.Keys && key in transfers && key !in done
    ensures MarkedTransfers(transfers, done + {key})
            == MarkedTransfers(transfers, done)[key :=
                if Live(transfers[key].task) then transfers[key].(cancelled := true) else transfers[key]]
    ensures MarkedRecords(transfers, completed, done + {key}, at)
            == Remember(MarkedRecords(transfers, completed, done, at), key, at,
                        Operation(transfers[key].wispId, Indeterminate, key.operationId))
  {
  }

  class AppserveClient {
    var transfers: Table
    var completed: map<Key, Retained>
    var active: set<Key>
    ghost var loop: Loop
    ghost var now: Time
    ghost var log: seq<Event>

    ghost function View(): State
      reads this
    {
      State(transfers, completed, active, loop, now, log)
    }

    constructor ()
      ensures View() == Init
    {
      transfers, completed, active := map[], map[], {};
      loop, now, log := Idle, 0.0, [];
    }

    /** `_remember_completed_operation`. */
    method RememberCompletedOperation(key: Key, body: Body, at: Time)
      modifies this`completed
      ensures completed == Remember(old(completed), key, at, body)
    {
      if key.operationId != "" {
        completed := completed[key := Retained(at, body)];
      }
    }

    method RecordAndCancelOne(key: Key, at: Time)
      requires key in transfers
      modifies this`transfers, this`completed
      ensures transfers == old(transfers)[key :=
          if Live(old(transfers)[key].task) then old(transfers)[key].(cancelled := true) else old(transfers)[key]]
      ensures completed == Remember(old(completed), key, at,
          Operation(old(transfers)[key].wispId, Indeterminate, key.operationId))
    {
      RememberCompletedOperation(key, Operation(transfers[key].wispId, Indeterminate, key.operationId), at);
      if Live(transfers[key].task) {
        transfers := transfers[key := transfers[key].(cancelled := true)];
      }
    }

    /** The first loop of `_expire_file_transfers`: record an outcome for every expired transfer,
        then cancel its worker. */
    method RecordAndCancel(expired: set<Key>, at: Time)
      requires expired <= transfers.Keys
      modifies this`transfers, this`completed
      ensures transfers == MarkedTransfers(old(transfers), expired)
      ensures completed == MarkedRecords(old(transfers), old(completed), expired, at)
    {
      var rest := expired;
      ghost var done: set<Key> := {};
      while rest != {}
        invariant rest !! done && rest + done == expired
        invariant transfers == MarkedTransfers(old(transfers), done)
        invariant completed == MarkedRecords(old(transfers), old(completed), done, at)
        decreases |rest|
      {
        var key :| key in rest;
        assert transfers[key] == old(transfers)[key];
        MarkOneMore(old(transfers), old(completed), done, key, at);
        RecordAndCancelOne(key, at);
        rest, done := rest - {key}, done + {key};
      }
      assert done == expired;
    }

    /** `_expire_file_transfers` up to its await. */
    method MarkExpiredTransfers(at: Time) returns (expired: set<Key>)
      requires Enabled(View(), MarkExpired)
      modifies this
      ensures View() == Next(old(View()), MarkExpired, at)
      ensures loop == Sweeping(expired)
      ensures expired == set k | k in old(transfers) && old(transfers)[k].createdAt < at - 600.0
      ensures transfers.Keys == old(transfers).Keys
      ensures forall k :: k in expired ==>
                && (Live(transfers[k].task) ==> transfers[k].cancelled)
                && (k.operationId != "" ==>
                      (k in completed
                       && completed[k]
                          == Retained(at, Operation(old(transfers)[k].wispId, Indeterminate, k.operationId))))
    {
      var cutoff := at - FILE_TRANSFER_TIMEOUT_SECONDS;
      expired := set k | k in transfers && transfers[k].createdAt < cutoff;
      assert expired == ExpiredTransfers(transfers, at);
      RecordAndCancel(expired, at);
      loop, now := Sweeping(expired), at;
    }

    /** `_expire_file_transfers` after its await. */
    method SweepExpiredTransfers(expired: set<Key>, at: Time)
      requires loop == Sweeping(expired) && Enabled(View(), Sweep)
      modifies this
      ensures View() == Next(old(View()), Sweep, at)
      ensures transfers == old(transfers) - expired && completed == old(completed)
    {
      var rest := expired;
      while rest != {}
        invariant rest <= expired
        invariant transfers == old(transfers) - (expired - rest)
        invariant completed == old(completed) && active == old(active) && log == old(log)
        decreases |rest|
      {
        var key :| key in rest;
        transfers := transfers - {key};
        rest := rest - {key};
      }
      loop, now := Swept, at;
    }

    /** `_expire_completed_operations`. */
    method ExpireCompletedOperations(at: Time)
      requires Enabled(View(), ExpireCompleted)
      modifies this
      ensures View() == Next(old(View()), ExpireCompleted, at)
      ensures completed == map k | k in old(completed) && old(completed)[k].at >= at - 900.0 :: old(completed)[k]
    {
      var cutoff := at - COMPLETED_OPERATION_TTL_SECONDS;
      completed := map k | k in completed && completed[k].at >= cutoff :: completed[k];
      loop, now := Ready(at), at;
    }

    /** The `operation_resume` branch, which changes no table. */
    method ResumeOperation(key: Key, wispId: string, at: Time) returns (answer: Resumed)
      requires Enabled(View(), OtherRequest)
      modifies this
      ensures View() == Next(old(View()), OtherRequest, at)
      ensures answer == ResumeAnswer(old(View()), key, wispId)
      ensures key in completed ==>
                && answer.body == completed[key].body
                && answer.status == if answer.body.Operation? then answer.body.status else Completed
      ensures key !in completed ==>
                answer == if key in transfers || key in active
                          then Resumed(Operation(wispId, InProgress, key.operationId), InProgress)
                          else Resumed(Operation(wispId, Expired, key.operationId), Expired)
      ensures completed == old(completed) && transfers == old(transfers) && active == old(active)
    {
      if key in completed {
        answer := Resumed(completed[key].body, Completed);
        if answer.body.Operation? {
          answer := answer.(status := answer.body.status);
        }
      } else if key in transfers || key in active {
        answer := Resumed(Operation(wispId, InProgress, key.operationId), InProgress);
      } else {
        answer := Resumed(Operation(wispId, Expired, key.operationId), Expired);
      }
      loop, now := Idle, at;
    }

    /** The `file_begin` branch up to the await that sends its answer. A repeated request is
        answered from the record or with `running`; a rejected one leaves the table alone. */
    method BeginFileAction(key: Key, wispId: string, request: FileRequest, at: Time) returns (response: Body)
      requires Enabled(View(), FileBegin(key, wispId, request))
      modifies this
      ensures View() == Next(old(View()), FileBegin(key, wispId, request), at)
      ensures key in old(completed) ==> response == old(completed)[key].body && transfers == old(transfers)
      ensures key !in old(completed) && key in old(transfers) ==>
                response == Operation(wispId, InProgress, key.operationId) && transfers == old(transfers)
      ensures key !in old(completed) && key !in old(transfers) ==>
                if Admissible(old(transfers), key, request) then
                  && response == TransferReady(wispId, key.operationId)
                  && transfers.Keys == old(transfers).Keys + {key}
                  && transfers[key] == Transfer(wispId, AcceptedAll(request.files), at, NoTask, false)
                else
                  && response.TransferError? && response.wispId == wispId && response.transferId == key.operationId
                  && transfers == old(transfers)
    {
      loop, now := Idle, at;
      if key in completed {
        return completed[key].body;
      }
      if key in transfers {
        return Operation(wispId, InProgress, key.operationId);
      }
      var files := Admit(transfers, key, request);
      if files.None? {
        return TransferError(wispId, key.operationId, "rejected");
      }
      transfers := transfers[key := Transfer(wispId, files.value, at, NoTask, false)];
      loop, log := Accepting(key), log + [Accept(key, at)];
      response := TransferReady(wispId, key.operationId);
    }

    /** The rest of the `file_begin` branch: if its answer was sent, an accepted transfer gets its
        worker, and a rejected one is not in the table. */
    method SpawnTransferWorker(key: Key, sent: bool, at: Time)
      requires if loop.Accepting? then Enabled(View(), SpawnWorker(key)) else key !in transfers
      modifies this
      ensures View() == if !old(loop).Accepting? then old(View())
                        else Next(old(View()), if sent then SpawnWorker(key) else AnswerFailed, at)
    {
      if sent && key in transfers {
        transfers := transfers[key := transfers[key].(task := Receiving)];
      }
      if loop.Accepting? {
        loop, now := Idle, at;
      }
    }

    /** `_receive_bulk_transfer` when every file has arrived: the callback starts. */
    method StartTransferCallback(key: Key, at: Time)
      requires Enabled(View(), StartFileCallback(key))
      modifies this
      ensures View() == Next(old(View()), StartFileCallback(key), at)
    {
      transfers := transfers[key := transfers[key].(task := Running)];
      log := log + [Start(key, FileLane, at)];
      now := at;
    }

    /** The error branch of `_receive_bulk_transfer`: remember first, deliver afterwards. */
    method FailTransfer(key: Key, error: string, at: Time) returns (response: Body)
      requires Enabled(View(), WorkerFailed(key, error))
      modifies this
      ensures View() == Next(old(View()), WorkerFailed(key, error), at)
      ensures response == TransferError(old(transfers)[key].wispId, key.operationId, error)
      ensures key.operationId != "" ==> key in completed && completed[key] == Retained(at, response)
    {
      response := TransferError(transfers[key].wispId, key.operationId, error);
      RememberCompletedOperation(key, response, at);
      transfers := transfers[key := transfers[key].(task := Closing)];
      now := at;
    }

    /** The success branch of `_receive_bulk_transfer`; a result with assets cannot be retained and
        is remembered as indeterminate. */
    method CompleteTransfer(key: Key, payload: Option<string>, at: Time)
      requires Enabled(View(), WorkerReturned(key, payload))
      modifies this
      ensures View() == Next(old(View()), WorkerReturned(key, payload), at)
      ensures key.operationId != "" && payload.Some? ==>
                key in completed && completed[key] == Retained(at, Response(old(transfers)[key].wispId, payload.value))
      ensures key.operationId != "" && payload.None? ==>
                && key in completed
                && completed[key] == Retained(at, Operation(old(transfers)[key].wispId, Indeterminate, key.operationId))
    {
      var wispId := transfers[key].wispId;
      var retained: Body;
      if payload.None? {
        retained := Operation(wispId, Indeterminate, key.operationId);
      } else {
        retained := Response(wispId, payload.value);
      }
      RememberCompletedOperation(key, retained, at);
      transfers := transfers[key := transfers[key].(task := Closing)];
      now := at;
    }

    /** The `finally` of `_receive_bulk_transfer`. */
    method CloseTransfer(key: Key, at: Time)
      requires Enabled(View(), WorkerExit(key))
      modifies this
      ensures View() == Next(old(View()), WorkerExit(key), at)
      ensures transfers == old(transfers) - {key} && completed == old(completed)
    {
      transfers := transfers - {key};
      now := at;
    }

    /** A plain mutating action up to the await of its callback. `started` says whether the
        callback is called; otherwise `response` is sent instead. */
    method BeginAction(key: Key, wispId: string, at: Time) returns (started: bool, response: Option<Body>)
      requires loop.Ready?
      modifies this
      ensures View() == Next(old(View()), if 0 < |key.operationId| <= MAX_OPERATION_ID_LENGTH
                                          then ActionBegin(key, wispId) else OtherRequest, at)
      ensures started <==> (0 < |key.operationId| <= MAX_OPERATION_ID_LENGTH && key !in old(completed)
          && key !in old(active))
      ensures started <==> response.None?
      ensures started ==> active == old(active) + {key}
      ensures 0 < |key.operationId| <= MAX_OPERATION_ID_LENGTH && !started ==>
                response == Some(if key in old(completed) then old(completed)[key].body
                                 else Operation(wispId, InProgress, key.operationId))
      ensures !(0 < |key.operationId| <= MAX_OPERATION_ID_LENGTH) ==> response == Some(Operation(wispId, Invalid, ""))
    {
      loop, now := Idle, at;
      if key.operationId == "" || |key.operationId| > MAX_OPERATION_ID_LENGTH {
        return false, Some(Operation(wispId, Invalid, ""));
      }
      if key in completed {
        return false, Some(completed[key].body);
      }
      if key in active {
        return false, Some(Operation(wispId, InProgress, key.operationId));
      }
      active := active + {key};
      loop := Calling(key);
      log := log + [Start(key, PlainLane, at)];
      return true, None;
    }

    /** The callback of a plain action raised. */
    method RaiseAction(key: Key, wispId: string, at: Time)
      requires Enabled(View(), ActionRaised(key, wispId))
      modifies this
      ensures View() == Next(old(View()), ActionRaised(key, wispId), at)
      ensures key.operationId != "" ==>
                key in completed && completed[key] == Retained(at, Operation(wispId, Indeterminate, key.operationId))
    {
      RememberCompletedOperation(key, Operation(wispId, Indeterminate, key.operationId), at);
      active := active - {key};
      loop, now := Idle, at;
    }

    /** The callback of a plain action returned. */
    method ReturnAction(key: Key, wispId: string, payload: Option<string>, at: Time)
      requires Enabled(View(), ActionReturned(key, wispId, payload))
      modifies this
      ensures View() == Next(old(View()), ActionReturned(key, wispId, payload), at)
      ensures key.operationId != "" && payload.Some? ==>
                key in completed && completed[key] == Retained(at, Response(wispId, payload.value))
      ensures payload.None? ==> completed == old(completed)
      ensures active == old(active) - {key}
    {
      active := active - {key};
      if payload.Some? {
        RememberCompletedOperation(key, Response(wispId, payload.value), at);
      } else {
        log := log + [AssetReturn(key)];
      }
      loop, now := Idle, at;
    }
  }
}
