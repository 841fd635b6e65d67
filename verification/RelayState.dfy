/** The durable endpoint records of the relay (core.py) and the management requests that change them
    (service.py): enrolment, the one-time administrator claim, and what an administrator may do. */
module RelayStates {
  import opened Wrappers

  datatype Status = Pending | Approved | Rejected | Revoked

  /** A record is a JSON object; a missing member is None. */
  datatype Record = Record(publicKey: Option<string>, status: Option<Status>, admin: Option<bool>)

  type Records = map<string, Record>

  datatype Access = UnknownEndpoint | KeyChanged | Administrator | Has(status: Status)

  datatype Claim = UnknownClaimant | AlreadyAdmin | AdminAlreadyClaimed | Claimed

  datatype Decision = Approve | Reject | Revoke

  datatype Reply = Unauthorized | InvalidEndpoint | UnknownTarget | Done(status: Status)

  /** The records in memory and the ones in the state file. */
  datatype State = State(clients: Records, saved: Records)

  const Init := State(map[], map[])

  datatype Step =
    | Enroll(client: string, key: string)
    | Register(client: string, key: string, replace: bool)
    | Save
    | ClaimAdmin(client: string)
    | Manage(caller: string, decision: Decision, target: string)
    | Restart

  // ---------------------------------------------------------------- one step

  /** `item.get("admin") and item.get("status") == "approved"`. */
  predicate ApprovedAdmin(r: Record) {
    r.admin == Some(true) && r.status == Some(Approved)
  }

  /** `_is_admin`: a missing status counts as approved. */
  predicate IsAdmin(clients: Records, client: string) {
    && client in clients && clients[client].admin == Some(true)
    && (clients[client].status == None || clients[client].status == Some(Approved))
  }

  function StatusOf(d: Decision): Status {
    match d
    case Approve => Approved
    case Reject => Rejected
    case Revoke => Revoked
  }

  function Persist(clients: Records): State {
    State(clients, clients)
  }

  function RecordOf(clients: Records, client: string): Record {
    if client in clients then clients[client] else Record(None, None, None)
  }

  /** `register_client` raises when the key differs from the recorded one. */
  predicate KeyConflict(clients: Records, client: string, key: string) {
    var known := RecordOf(clients, client).publicKey;
    known.Some? && known.value != key
  }

  /** `register_client` where it does not raise. */
  function Registered(clients: Records, client: string, key: string, replace: bool): Records {
    var r := RecordOf(clients, client);
    clients[client := if replace || r.publicKey.None? then r.(publicKey := Some(key)) else r]
  }

  function ClaimAnswer(clients: Records, client: string): Claim {
    if client !in clients then UnknownClaimant
    else if ApprovedAdmin(clients[client]) then AlreadyAdmin
    else if exists c :: c in clients && ApprovedAdmin(clients[c]) then AdminAlreadyClaimed
    else Claimed
  }

  function SetStatus(r: Record, status: Status): Record {
    if status == Approved then r.(status := Some(status)) else r.(status := Some(status), admin := Some(false))
  }

  function ManageAnswer(clients: Records, caller: string, d: Decision, target: string): Reply {
    if !IsAdmin(clients, caller) then Unauthorized
    else if target == caller then InvalidEndpoint
    else if target !in clients then UnknownTarget
    else Done(StatusOf(d))
  }

  /** `load` fills in what is missing. */
  function WithDefaults(r: Record): Record {
    r.(status := if r.status.None? then Some(Approved) else r.status,
       admin := if r.admin.None? then Some(false) else r.admin)
  }

  function Loaded(saved: Records): Records {
    map c | c in saved :: WithDefaults(saved[c])
  }

  function Next(s: State, step: Step): State {
    match step
    case Enroll(c, key) =>
      if c in s.clients then s else Persist(s.clients[c := Record(Some(key), Some(Pending), Some(false))])
    case Register(c, key, replace) =>
      if KeyConflict(s.clients, c, key) then s else Persist(Registered(s.clients, c, key, replace))
    case Save => Persist(s.clients)
    case ClaimAdmin(c) =>
      if ClaimAnswer(s.clients, c) != Claimed then s
      else Persist(s.clients[c := s.clients[c].(status := Some(Approved), admin := Some(true))])
    case Manage(caller, d, target) =>
      if ManageAnswer(s.clients, caller, d, target).Done? then
        Persist(s.clients[target := SetStatus(s.clients[target], StatusOf(d))])
      else s
    case Restart => s.(clients := Loaded(s.saved))
  }

  type Run = seq<Step>

  /** The state after a run. */
  function After(s: State, run: Run): State {
    if run == [] then s else Next(After(s, run[..|run| - 1]), run[|run| - 1])
  }

  // ---------------------------------------------------------------- the class of the source

  class RelayState {
    var clients: Records
    var saved: Records

    ghost function View(): State
      reads this
    {
      State(clients, saved)
    }

    constructor ()
      ensures View() == Init
    {
      clients, saved := map[], map[];
    }

    /** `load`, on the state file of an earlier process. */
    method Load()
      modifies this`clients
      ensures View() == Next(old(View()), Restart)
    {
      clients := map c | c in saved :: WithDefaults(saved[c]);
    }

    method SaveRecords()
      modifies this`saved
      ensures View() == Next(old(View()), Save)
    {
      saved := clients;
    }

    /** `register_client`; false stands for the exception. */
    method RegisterClient(client: string, key: string, replace: bool) returns (ok: bool)
      modifies this`clients
      ensures ok <==> !KeyConflict(old(clients), client, key)
      ensures !ok <==> client in old(clients) && old(clients)[client].publicKey.Some?
                       && old(clients)[client].publicKey != Some(key)
      ensures clients == if ok then Registered(old(clients), client, key, replace) else old(clients)
      ensures ok ==> client in clients && clients[client].publicKey == Some(key)
    {
      var record := if client in clients then clients[client] else Record(None, None, None);
      var known := record.publicKey;
      if known.Some? && known.value != key { return false; }
      if replace || known.None? {
        record := record.(publicKey := Some(key));
      }
      clients := clients[client := record];
      return true;
    }

    /** What both callers of `register_client` do: they save before anything else can happen, unless
        it raised. */
    method RegisterAndSave(client: string, key: string, replace: bool) returns (ok: bool)
      modifies this
      ensures View() == Next(old(View()), Register(client, key, replace))
      ensures ok ==> client in saved && saved[client].publicKey == Some(key)
    {
      ok := RegisterClient(client, key, replace);
      if ok {
        SaveRecords();
      }
    }

    /** `enroll_client`; None stands for the exception. */
    method EnrollClient(client: string, key: string) returns (access: Option<Access>)
      modifies this
      ensures View() == Next(old(View()), Enroll(client, key))
      ensures client !in old(clients) ==> access == Some(Has(Pending))
      ensures client in old(clients) ==> (access.None? <==> old(clients)[client].publicKey != Some(key))
      ensures client in old(clients) && access.Some? ==>
                var r := old(clients)[client];
                access.value == if r.admin == Some(true) then Administrator
                                else if r.status.Some? then Has(r.status.value) else Has(Pending)
      ensures client !in old(clients) ==>
                clients == old(clients)[client := Record(Some(key), Some(Pending), Some(false))] && saved == clients
    {
      if client in clients {
        var record := clients[client];
        if record.publicKey != Some(key) { return None; }
        return Some(if record.admin == Some(true) then Administrator
                    else Has(if record.status.Some? then record.status.value else Pending));
      }
      clients := clients[client := Record(Some(key), Some(Pending), Some(false))];
      SaveRecords();
      return Some(Has(Pending));
    }

    /** `claim_admin`. */
    method Claim(client: string) returns (answer: Claim)
      modifies this
      ensures View() == Next(old(View()), ClaimAdmin(client))
      ensures answer == ClaimAnswer(old(clients), client)
    {
      if client !in clients { return UnknownClaimant; }
      var record := clients[client];
      if record.admin == Some(true) && record.status == Some(Approved) { return AlreadyAdmin; }
      if c :| c in clients && clients[c].admin == Some(true) && clients[c].status == Some(Approved) {
        assert ApprovedAdmin(clients[c]);
        return AdminAlreadyClaimed;
      }
      record := record.(status := Some(Approved), admin := Some(true));
      clients := clients[client := record];
      SaveRecords();
      return Claimed;
    }

    /** `set_client_status`; false stands for the KeyError. */
    method SetClientStatus(client: string, status: Status) returns (known: bool)
      modifies this
      ensures known <==> client in old(clients)
      ensures known ==>
                && client in clients && clients[client].status == Some(status)
                && clients[client].publicKey == old(clients)[client].publicKey
                && clients[client].admin == (if status == Approved then old(clients)[client].admin else Some(false))
                && saved == clients
      ensures forall c :: c in old(clients) && c != client ==> c in clients && clients[c] == old(clients)[c]
      ensures View() == if known then Persist(old(clients)[client := SetStatus(old(clients)[client], status)])
          else old(View())
    {
      if client !in clients { return false; }
      var record := clients[client].(status := Some(status));
      if status != Approved {
        record := record.(admin := Some(false));
      }
      clients := clients[client := record];
      SaveRecords();
      return true;
    }

    /** The approve, reject and revoke branches of `management_request`. */
    method ManagementRequest(caller: string, decision: Decision, target: string) returns (reply: Reply)
      modifies this
      ensures View() == Next(old(View()), Manage(caller, decision, target))
      ensures reply == ManageAnswer(old(clients), caller, decision, target)
      ensures reply == if !IsAdmin(old(clients), caller) then Unauthorized
                       else if target == caller then InvalidEndpoint
                       else if target !in old(clients) then UnknownTarget
                       else match decision
                            case Approve => Done(Approved)
                            case Reject => Done(Rejected)
                            case Revoke => Done(Revoked)
      ensures reply.Done? ==> clients.Keys == old(clients).Keys && clients[target].status == Some(reply.status)
                              && clients[target].publicKey == old(clients)[target].publicKey && saved == clients
      ensures forall c :: c in old(clients) && (c != target || !reply.Done?) ==>
                c in clients && clients[c] == old(clients)[c]
    {
      if !IsAdmin(clients, caller) { return Unauthorized; }
      if target == caller { return InvalidEndpoint; }
      var known := SetClientStatus(target, StatusOf(decision));
      reply := if known then Done(StatusOf(decision)) else UnknownTarget;
    }

    /** `client_access`; a missing status counts as approved. */
    function ClientAccess(client: string, key: string): (access: Access)
      reads this
      ensures access == UnknownEndpoint <==> client !in clients
      ensures access == KeyChanged <==> client in clients && clients[client].publicKey != Some(key)
      ensures access.Has? <==> client in clients && clients[client].publicKey == Some(key)
      ensures access.Has? && clients[client].status.Some? ==> access.status == clients[client].status.value
      ensures access.Has? && clients[client].status.None? ==> access.status == Approved
    {
      if client !in clients then UnknownEndpoint
      else if clients[client].publicKey != Some(key) then KeyChanged
      else Has(if clients[client].status.Some? then clients[client].status.value else Approved)
    }
  }

  // ---------------------------------------------------------------- administrators

  /** Who claims to be an administrator, approved or not. */
  function Admins(records: Records): set<string> {
    set c | c in records && records[c].admin == Some(true)
  }

  predicate AdminInv(records: Records) {
    && (forall c :: c in Admins(records) ==> records[c].status == Some(Approved))
    && (forall c, d :: c in Admins(records) && d in Admins(records) ==> c == d)
  }

  /** Memory and file agree on the administrator at all times. */
  predicate Inv(s: State) {
    AdminInv(s.clients) && AdminInv(s.saved) && Admins(s.clients) == Admins(s.saved)
  }

  lemma AdminsAre(records: Records, c: string)
    ensures c in Admins(records) <==> c in records && records[c].admin == Some(true)
    ensures AdminInv(records) ==> (c in Admins(records) <==> IsAdmin(records, c))
  {
  }

  lemma LoadedAdmins(saved: Records)
    ensures Admins(Loaded(saved)) == Admins(saved)
    ensures AdminInv(saved) ==> AdminInv(Loaded(saved))
  {
    forall c ensures c in Admins(Loaded(saved)) <==> c in Admins(saved) {
      AdminsAre(saved, c);
      AdminsAre(Loaded(saved), c);
    }
  }

  /** The administrator cannot be the target, and no status makes one. */
  lemma ManageKeepsAdmins(clients: Records, caller: string, d: Decision, target: string)
    requires AdminInv(clients) && ManageAnswer(clients, caller, d, target).Done?
    ensures var next := clients[target := SetStatus(clients[target], StatusOf(d))];
            Admins(next) == Admins(clients) && AdminInv(next)
  {
    var next := clients[target := SetStatus(clients[target], StatusOf(d))];
    AdminsAre(clients, caller);
    assert target !in Admins(clients);
    forall c ensures c in Admins(next) <==> c in Admins(clients) {
      AdminsAre(next, c);
      AdminsAre(clients, c);
    }
  }

  /** No step takes the administrator away, and none but a claim makes one. */
  lemma StepKeepsAdmins(s: State, step: Step)
    requires Inv(s)
    ensures Inv(Next(s, step)) && Admins(s.clients) <= Admins(Next(s, step).clients)
    ensures Admins(Next(s, step).clients) != Admins(s.clients)
            <==> Admins(s.clients) == {} && step.ClaimAdmin? && step.client in s.clients
  {
    var t := Next(s, step);
    match step
    case Enroll(c, _) => assert Admins(t.clients) == Admins(s.clients);
    case Register(c, _, _) => assert Admins(t.clients) == Admins(s.clients);
    case Save => assert Admins(t.clients) == Admins(s.clients);
    case Manage(_, _, target) =>
      if t != s {
        ManageKeepsAdmins(s.clients, step.caller, step.decision, target);
      }
    case Restart =>
      LoadedAdmins(s.saved);
      assert Admins(t.clients) == Admins(s.clients);
    case ClaimAdmin(c) =>
      if ClaimAnswer(s.clients, c) == Claimed {
        assert Admins(s.clients) == {};
        assert Admins(t.clients) == {c};
      } else if c in s.clients {
        assert exists d :: d in s.clients && ApprovedAdmin(s.clients[d]) && d in Admins(s.clients);
      }
  }

  lemma {:induction false} AdminsStay(s: State, run: Run)
    requires Inv(s)
    ensures Inv(After(s, run)) && Admins(s.clients) <= Admins(After(s, run).clients)
    decreases |run|
  {
    if run == [] {
    } else {
      AdminsStay(s, run[..|run| - 1]);
      StepKeepsAdmins(After(s, run[..|run| - 1]), run[|run| - 1]);
    }
  }

  /** From the empty state on, every administrator is approved and there is at most one. */
  lemma AtMostOneAdmin(run: Run, c: string, d: string)
    requires c in Admins(After(Init, run).clients) && d in Admins(After(Init, run).clients)
    ensures c == d && IsAdmin(After(Init, run).clients, c)
  {
    AdminsStay(Init, run);
  }

  /** Once claimed, the same endpoint stays administrator through every enrolment, registration, claim,
      management request and restart, and no other becomes one. */
  lemma AdminIsPermanent(run: Run, more: Run, admin: string, other: string)
    requires IsAdmin(After(Init, run).clients, admin)
    ensures var t := After(After(Init, run), more);
            IsAdmin(t.clients, admin) && (IsAdmin(t.clients, other) ==> other == admin)
  {
    var s, t := After(Init, run), After(After(Init, run), more);
    AdminsStay(Init, run);
    AdminsStay(s, more);
    AdminsAre(s.clients, admin);
    AdminsAre(t.clients, admin);
    AdminsAre(t.clients, other);
  }

  /** The endpoint whose claim was the first one to come from an enrolled endpoint. */
  function FirstClaimant(run: Run): Option<string> {
    if run == [] then None
    else
      var before, step := run[..|run| - 1], run[|run| - 1];
      if FirstClaimant(before).Some? then FirstClaimant(before)
      else if step.ClaimAdmin? && step.client in After(Init, before).clients then Some(step.client)
      else None
  }

  /** The administrator is whoever claimed first: later claims and requests do not matter. */
  lemma {:induction false} FirstClaimRules(run: Run, c: string)
    ensures IsAdmin(After(Init, run).clients, c) <==> FirstClaimant(run) == Some(c)
    ensures Admins(After(Init, run).clients) == match FirstClaimant(run) { case None => {} case Some(a) => {a} }
    decreases |run|
  {
    AdminsStay(Init, run);
    AdminsAre(After(Init, run).clients, c);
    if run == [] {
    } else {
      var before, step := run[..|run| - 1], run[|run| - 1];
      var s := After(Init, before);
      FirstClaimRules(before, c);
      AdminsStay(Init, before);
      StepKeepsAdmins(s, step);
      if FirstClaimant(before).None? && FirstClaimant(run).Some? {
        AdminsAre(After(Init, run).clients, step.client);
        assert After(Init, run) == Next(s, step) && ClaimAnswer(s.clients, step.client) == Claimed;
      }
    }
  }

  /** A request that changes an endpoint comes from the administrator and is not about the administrator. */
  lemma OnlyTheAdminManages(run: Run, caller: string, d: Decision, target: string)
    requires ManageAnswer(After(Init, run).clients, caller, d, target).Done?
    ensures FirstClaimant(run) == Some(caller) && target != caller
    ensures !IsAdmin(After(Init, run).clients, target)
  {
    FirstClaimRules(run, caller);
    FirstClaimRules(run, target);
  }

  // ---------------------------------------------------------------- public keys

  predicate HasKey(records: Records, c: string, key: string) {
    c in records && records[c].publicKey == Some(key)
  }

  /** Memory and file hold the same keys. */
  predicate KeysInv(s: State) {
    && s.clients.Keys == s.saved.Keys
    && forall c :: c in s.saved ==> s.saved[c].publicKey == s.clients[c].publicKey
  }

  lemma StepKeepsKeys(s: State, step: Step)
    requires KeysInv(s)
    ensures KeysInv(Next(s, step))
    ensures forall c, key :: HasKey(s.clients, c, key) ==> HasKey(Next(s, step).clients, c, key)
  {
  }

  lemma {:induction false} KeysStay(s: State, run: Run, c: string, key: string)
    requires KeysInv(s)
    ensures KeysInv(After(s, run))
    ensures HasKey(s.clients, c, key) ==> HasKey(After(s, run).clients, c, key)
    decreases |run|
  {
    if run == [] {
    } else {
      var n := |run| - 1;
      KeysStay(s, run[..n], c, key);
      StepKeepsKeys(After(s, run[..n]), run[n]);
    }
  }

  /** A recorded public key never changes, through every request and every restart. */
  lemma KeyIsPermanent(run: Run, more: Run, c: string, key: string)
    requires HasKey(After(Init, run).clients, c, key)
    ensures HasKey(After(After(Init, run), more).clients, c, key)
  {
    KeysStay(Init, run, c, key);
    KeysStay(After(Init, run), more, c, key);
  }

  /** In particular a key that an endpoint enrolled with. */
  lemma EnrolledKeyIsPermanent(run: Run, more: Run, c: string, key: string)
    requires c !in After(Init, run).clients
    ensures HasKey(After(After(Init, run + [Enroll(c, key)]), more).clients, c, key)
  {
    assert (run + [Enroll(c, key)])[..|run|] == run;
    KeyIsPermanent(run + [Enroll(c, key)], more, c, key);
  }

  // ---------------------------------------------------------------- approval

  /** Both callers of `register_client` act for a connection that has authenticated as a recorded
      endpoint. */
  predicate RegistersKnown(run: Run) {
    forall n :: 0 <= n < |run| && run[n].Register? ==> run[n].client in After(Init, run[..n]).clients
  }

  /** The last decision of the administrator about `client`, told from the requests alone: the first
      claimant decides, not about itself, and only about recorded endpoints. */
  function LastDecision(run: Run, client: string): Option<Decision> {
    if run == [] then None
    else
      var before, step := run[..|run| - 1], run[|run| - 1];
      if step.Manage? && step.target == client && FirstClaimant(before) == Some(step.caller) && step.caller != client
         && client in After(Init, before).clients then Some(step.decision)
      else LastDecision(before, client)
  }

  /** The status that an endpoint should have: a claim approves, and a decision means what it says. */
  function Due(claimant: Option<string>, decision: Option<Decision>, client: string): Status {
    if claimant == Some(client) then Approved
    else
      match decision
      case None => Pending
      case Some(Approve) => Approved
      case Some(Reject) => Rejected
      case Some(Revoke) => Revoked
  }

  predicate StatusIs(records: Records, client: string, status: Status) {
    client in records ==> records[client].status == Some(status)
  }

  lemma KnownStays(s: State, step: Step, client: string)
    requires KeysInv(s) && client in s.clients
    ensures client in Next(s, step).clients
  {
  }

  /** Nobody decides about the first claimant, nor about an unknown endpoint. */
  lemma {:induction false} NoDecision(run: Run, client: string)
    requires FirstClaimant(run).None? || FirstClaimant(run) == Some(client) || client !in After(Init, run).clients
    ensures LastDecision(run, client).None?
    decreases |run|
  {
    if run != [] {
      var n := |run| - 1;
      var s := After(Init, run[..n]);
      KeysStay(Init, run[..n], client, "");
      if client in s.clients {
        KnownStays(s, run[n], client);
      }
      NoDecision(run[..n], client);
    }
  }

  lemma ClaimantIsKnown(run: Run)
    requires FirstClaimant(run).Some?
    ensures FirstClaimant(run).value in After(Init, run).clients
  {
    FirstClaimRules(run, FirstClaimant(run).value);
  }

  lemma PrefixRegistersKnown(run: Run, n: nat)
    requires RegistersKnown(run) && n <= |run|
    ensures RegistersKnown(run[..n])
  {
    assert forall m :: 0 <= m < n ==> run[..n][m] == run[m] && run[..n][..m] == run[..m];
  }

  /** A decision that is carried out. */
  lemma DecisionIsCarriedOut(run: Run, caller: string, d: Decision, target: string)
    ensures ManageAnswer(After(Init, run).clients, caller, d, target).Done?
            <==> FirstClaimant(run) == Some(caller) && target != caller && target in After(Init, run).clients
  {
    FirstClaimRules(run, caller);
  }

  lemma ClaimIsFirst(run: Run, c: string)
    ensures ClaimAnswer(After(Init, run).clients, c) == Claimed
            <==> FirstClaimant(run).None? && c in After(Init, run).clients
  {
    var clients := After(Init, run).clients;
    AdminsStay(Init, run);
    FirstClaimRules(run, c);
    forall d ensures d in clients && ApprovedAdmin(clients[d]) <==> d in Admins(clients) {
      AdminsAre(clients, d);
    }
    if FirstClaimant(run).Some? {
      assert FirstClaimant(run).value in Admins(clients);
    }
  }

  /** One step, with what is known before it and after it about claims and decisions. */
  lemma StepKeepsDue(s: State, step: Step, client: string, claimant: Option<string>, decision: Option<Decision>,
      claimed: Option<string>, decided: Option<Decision>)
    requires KeysInv(s) && (claimant.Some? ==> claimant.value in s.clients)
    requires claimant.None? || client !in s.clients ==> decision.None?
    requires step.Register? ==> step.client in s.clients
    requires step.ClaimAdmin? ==>
               (ClaimAnswer(s.clients, step.client) == Claimed <==> claimant.None? && step.client in s.clients)
    requires step.Manage? ==>
               (ManageAnswer(s.clients, step.caller, step.decision, step.target).Done?
                <==> claimant == Some(step.caller) && step.target != step.caller && step.target in s.clients)
    requires claimed == if claimant.None? && step.ClaimAdmin? && step.client in s.clients then Some(step.client)
                        else claimant
    requires decided == if step.Manage? && step.target == client && claimant == Some(step.caller)
                           && step.caller != client && client in s.clients then Some(step.decision) else decision
    requires StatusIs(s.clients, client, Due(claimant, decision, client))
    requires StatusIs(s.saved, client, Due(claimant, decision, client))
    ensures StatusIs(Next(s, step).clients, client, Due(claimed, decided, client))
    ensures StatusIs(Next(s, step).saved, client, Due(claimed, decided, client))
  {
    hide ClaimAnswer;
  }

  /** The status of an endpoint, in memory and in the state file, is at all times and through every
      restart what the requests say: pending from its enrolment, approved, rejected or revoked as the
      administrator last decided, and approved for the administrator itself. */
  lemma {:induction false} StatusFollowsDecisions(run: Run, client: string)
    requires RegistersKnown(run)
    ensures var due := Due(FirstClaimant(run), LastDecision(run, client), client);
            StatusIs(After(Init, run).clients, client, due) && StatusIs(After(Init, run).saved, client, due)
    decreases |run|
  {
    if run != [] {
      var n := |run| - 1;
      var before, step := run[..n], run[n];
      var s := After(Init, before);
      PrefixRegistersKnown(run, n);
      StatusFollowsDecisions(before, client);
      KeysStay(Init, before, client, "");
      if FirstClaimant(before).Some? {
        ClaimantIsKnown(before);
      }
      if FirstClaimant(before).None? || client !in s.clients {
        NoDecision(before, client);
      }
      if step.ClaimAdmin? {
        ClaimIsFirst(before, step.client);
      }
      if step.Manage? {
        DecisionIsCarriedOut(before, step.caller, step.decision, step.target);
      }
      hide StatusIs, Due, KeysInv, ClaimAnswer, ManageAnswer, Next;
      StepKeepsDue(s, step, client, FirstClaimant(before), LastDecision(before, client), FirstClaimant(run),
                   LastDecision(run, client));
    }
  }

  /** In particular every endpoint is pending before the first claim of a recorded one. */
  lemma ApprovalNeedsAdmin(run: Run, client: string)
    requires RegistersKnown(run) && FirstClaimant(run).None?
    ensures client in After(Init, run).clients ==> After(Init, run).clients[client].status == Some(Pending)
    ensures client in After(Init, run).saved ==> After(Init, run).saved[client].status == Some(Pending)
  {
    hide After, FirstClaimant, LastDecision, RegistersKnown;
    StatusFollowsDecisions(run, client);
    NoDecision(run, client);
  }

  /** A request changes no key, and no record but its target's. */
  lemma RequestsChangeOneStatus(s: State, caller: string, d: Decision, target: string, other: string)
    ensures var t := Next(s, Manage(caller, d, target));
            && t.clients.Keys == s.clients.Keys
            && (other in s.clients && other != target ==> t.clients[other] == s.clients[other])
            && (target in s.clients ==> t.clients[target].publicKey == s.clients[target].publicKey)
  {
  }

  /** What a claim is answered, told from the claims alone. */
  lemma ClaimAnswers(run: Run, c: string)
    ensures ClaimAnswer(After(Init, run).clients, c)
            == if c !in After(Init, run).clients then UnknownClaimant
               else match FirstClaimant(run)
                    case None => Claimed
                    case Some(admin) => if admin == c then AlreadyAdmin else AdminAlreadyClaimed
  {
    AdminsStay(Init, run);
    ClaimIsFirst(run, c);
    FirstClaimRules(run, c);
    AdminsAre(After(Init, run).clients, c);
  }
}
