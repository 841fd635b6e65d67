/** The bulk pairing table of the relay (`handle_bulk` in service.py). Everything between taking
    and releasing `bulk_lock` is one step; the run is the order in which connections take it. */
module BulkPairing {
  import opened Wrappers

  type Time = real

  const MAX_BULK_BYTES: int := 256 * 1024 * 1024 + 16
  const MAX_PENDING_BULK: nat := 128
  const BULK_TICKET_TTL_SECONDS: Time := 600.0

  /** A parsed JSON value, as far as the header checks look at it; Other stands for every value
      that is neither a string nor an integer, booleans included. */
  datatype Json = Text(text: string) | Number(number: int) | Other

  datatype Header = Header(kind: Json, role: Json, sessionId: Json, transferId: Json,
                           sender: Json, recipient: Json, length: Json)

  datatype Role = Sender | Receiver

  /** `_BulkConnection`; the identifier stands for object identity. */
  datatype Connection = Connection(id: nat, clientId: string, peer: string, role: Role, length: nat)

  datatype Pairing = Pairing(key: string, sender: Connection, receiver: Connection, at: Time)

  datatype Reply = InvalidConnect | TransferUsed | TooManyPending | PairMismatch | Waiting | Paired

  datatype State = State(pending: map<string, Connection>, consumed: map<string, Time>,
                         arrived: set<nat>, left: set<nat>, pairs: seq<Pairing>, now: Time)

  const Init := State(map[], map[], {}, {}, [], 0.0)

  // ---------------------------------------------------------------- one step

  predicate NonEmptyText(value: Json) {
    value.Text? && value.text != ""
  }

  predicate ValidHeader(h: Header) {
    && h.kind == Text("bulk_connect")
    && (h.role == Text("sender") || h.role == Text("receiver"))
    && NonEmptyText(h.sessionId) && NonEmptyText(h.transferId) && NonEmptyText(h.sender) && NonEmptyText(h.recipient)
    && h.sender != h.recipient
    && h.length.Number? && 16 <= h.length.number <= MAX_BULK_BYTES
  }

  function PairKey(sessionId: string, transferId: string): string {
    sessionId + ":" + transferId
  }

  function KeyOf(h: Header): string
    requires ValidHeader(h)
  {
    PairKey(h.sessionId.text, h.transferId.text)
  }

  function ConnectionOf(id: nat, h: Header): Connection
    requires ValidHeader(h)
  {
    var role := if h.role == Text("sender") then Sender else Receiver;
    Connection(id, h.sender.text, h.recipient.text, role, h.length.number)
  }

  /** Two connections describe the two ends of one transfer. */
  predicate Complementary(a: Connection, b: Connection) {
    a.role != b.role && a.clientId == b.peer && a.peer == b.clientId && a.length == b.length
  }

  function Unexpired(consumed: map<string, Time>, at: Time): map<string, Time> {
    map k | k in consumed && consumed[k] > at :: consumed[k]
  }

  function Answer(s: State, id: nat, h: Header, at: Time): Reply {
    if !ValidHeader(h) then InvalidConnect
    else if KeyOf(h) in Unexpired(s.consumed, at) then TransferUsed
    else if KeyOf(h) in s.pending then
      if Complementary(s.pending[KeyOf(h)], ConnectionOf(id, h)) then Paired else PairMismatch
    else if |s.pending| >= MAX_PENDING_BULK then TooManyPending
    else Waiting
  }

  function MakePair(key: string, a: Connection, b: Connection, at: Time): Pairing {
    Pairing(key, if b.role == Sender then b else a, if b.role == Receiver then b else a, at)
  }

  /** A connection has reached the lock: it will not come again, and expired keys are dropped. */
  function Prune(s: State, id: nat, at: Time): State {
    s.(arrived := s.arrived + {id}, consumed := Unexpired(s.consumed, at), now := at)
  }

  function Offer(s: State, key: string, c: Connection): State {
    s.(pending := s.pending[key := c])
  }

  function Join(s: State, key: string, c: Connection): State
    requires key in s.pending
  {
    s.(pending := s.pending - {key},
       consumed := s.consumed[key := s.now + BULK_TICKET_TTL_SECONDS],
       pairs := s.pairs + [MakePair(key, s.pending[key], c, s.now)])
  }

  function Arrive(s: State, id: nat, h: Header, at: Time): State {
    match Answer(s, id, h, at)
    case InvalidConnect => s.(arrived := s.arrived + {id}, now := at)
    case Waiting => Offer(Prune(s, id, at), KeyOf(h), ConnectionOf(id, h))
    case Paired => Join(Prune(s, id, at), KeyOf(h), ConnectionOf(id, h))
    case _ => Prune(s, id, at)
  }

  /** What is left of the pending table once connection `id` has cleaned up. */
  function Without(pending: map<string, Connection>, id: nat): map<string, Connection> {
    map k | k in pending && pending[k].id != id :: pending[k]
  }

  datatype Step = Arrival(id: nat, header: Header) | Cleanup(id: nat)

  predicate Enabled(s: State, step: Step) {
    match step
    case Arrival(id, _) => id !in s.arrived
    case Cleanup(id) => id in s.arrived
  }

  function Next(s: State, step: Step, at: Time): State {
    match step
    case Arrival(id, h) => Arrive(s, id, h, at)
    case Cleanup(id) => s.(pending := Without(s.pending, id), left := s.left + {id}, now := at)
  }

  type Run = seq<(Step, Time)>

  /** How a run goes on from `s` to `t`. */
  ghost predicate LeadsTo(s: State, run: Run, t: State)
    decreases |run|
  {
    if run == [] then t == s
    else
      var (step, at) := run[|run| - 1];
      exists prev: State :: LeadsTo(s, run[..|run| - 1], prev) && Enabled(prev, step) && prev.now <= at
          && t == Next(prev, step, at)
  }

  ghost predicate Reaches(run: Run, s: State) {
    LeadsTo(Init, run, s)
  }

  // ---------------------------------------------------------------- the relay's own table

  class BulkTable {
    var pending: map<string, Connection>
    var consumed: map<string, Time>
    ghost var arrived: set<nat>
    ghost var left: set<nat>
    ghost var pairs: seq<Pairing>
    ghost var now: Time

    ghost function View(): State
      reads this
    {
      State(pending, consumed, arrived, left, pairs, now)
    }

    constructor ()
      ensures View() == Init
    {
      pending, consumed := map[], map[];
      arrived, left, pairs, now := {}, {}, [], 0.0;
    }

    /** The two last branches of `handle_bulk`: a second connection under a key that waits. */
    method MeetWaiting(key: string, connection: Connection, at: Time) returns (reply: Reply)
      requires key in pending && now == at
      modifies this`pending, this`consumed, this`pairs
      ensures reply == if Complementary(old(pending)[key], connection) then Paired else PairMismatch
      ensures View() == if reply == Paired then Join(old(View()), key, connection) else old(View())
    {
      var waiting := pending[key];
      pending := pending - {key};
      if waiting.role == connection.role || waiting.clientId != connection.peer
         || waiting.peer != connection.clientId || waiting.length != connection.length
      {
        pending := pending[key := waiting];
        assert pending == old(pending);
        return PairMismatch;
      }
      consumed := consumed[key := at + BULK_TICKET_TTL_SECONDS];
      var sender := if connection.role == Sender then connection else waiting;
      var receiver := if connection.role == Receiver then connection else waiting;
      pairs := pairs + [Pairing(key, sender, receiver, at)];
      return Paired;
    }

    /** `handle_bulk` up to the release of the lock. */
    method Connect(id: nat, header: Header, at: Time) returns (reply: Reply)
      modifies this
      ensures View() == Next(old(View()), Arrival(id, header), at)
      ensures reply == Answer(old(View()), id, header, at)
    {
      arrived, now := arrived + {id}, at;
      if !ValidHeader(header) { return InvalidConnect; }
      var key, connection := KeyOf(header), ConnectionOf(id, header);
      consumed := map k | k in consumed && consumed[k] > at :: consumed[k];
      assert View() == Prune(old(View()), id, at);
      if key in consumed { return TransferUsed; }
      if key in pending {
        reply := MeetWaiting(key, connection, at);
      } else if |pending| >= MAX_PENDING_BULK {
        reply := TooManyPending;
      } else {
        pending := pending[key := connection];
        reply := Waiting;
      }
    }

    /** The `finally` block of `handle_bulk`. */
    method Disconnect(id: nat, at: Time)
      modifies this
      ensures View() == Next(old(View()), Cleanup(id), at)
      ensures forall k :: k in pending <==> k in old(pending) && old(pending)[k].id != id
      ensures forall k :: k in pending ==> pending[k] == old(pending)[k]
    {
      var rest := pending.Keys;
      while rest != {}
        invariant rest <= old(pending).Keys
        invariant pending == map k | k in old(pending) && (k in rest || old(pending)[k].id != id) :: old(pending)[k]
        invariant consumed == old(consumed) && arrived == old(arrived) && left == old(left) && pairs == old(pairs)
        decreases |rest|
      {
        var key :| key in rest;
        if pending[key].id == id {
          pending := pending - {key};
        }
        rest := rest - {key};
      }
      left, now := left + {id}, at;
    }
  }

  // ---------------------------------------------------------------- the invariant

  predicate Offered(c: Connection) {
    c.clientId != "" && c.peer != "" && c.clientId != c.peer && 16 <= c.length <= MAX_BULK_BYTES
  }

  /** A pair joins a sender to the receiver it names, which names it back and expects its length. */
  predicate WellPaired(p: Pairing) {
    && p.sender.role == Sender && p.receiver.role == Receiver
    && p.sender.clientId == p.receiver.peer && p.sender.peer == p.receiver.clientId
    && p.sender.length == p.receiver.length
    && Offered(p.sender) && Offered(p.receiver)
  }

  predicate Joins(p: Pairing, id: nat) {
    p.sender.id == id || p.receiver.id == id
  }

  predicate NothingShared(p: Pairing, q: Pairing) {
    !Joins(q, p.sender.id) && !Joins(q, p.receiver.id)
  }

  predicate Spaced(p: Pairing, q: Pairing) {
    p.key == q.key ==> p.at + BULK_TICKET_TTL_SECONDS <= q.at
  }

  /** No offer and no pair involves this connection yet. */
  predicate Unseen(s: State, id: nat) {
    && id !in s.left
    && (forall k :: k in s.pending ==> s.pending[k].id != id)
    && (forall i :: 0 <= i < |s.pairs| ==> !Joins(s.pairs[i], id))
  }

  predicate PendingInv(s: State) {
    && |s.pending| <= MAX_PENDING_BULK
    && s.left <= s.arrived
    && (forall k :: k in s.pending ==>
          s.pending[k].id in s.arrived && s.pending[k].id !in s.left && Offered(s.pending[k]))
    && (forall k, l :: k in s.pending && l in s.pending && k != l ==> s.pending[k].id != s.pending[l].id)
  }

  predicate Unpaired(s: State) {
    forall k, i :: k in s.pending && 0 <= i < |s.pairs| ==> !Joins(s.pairs[i], s.pending[k].id)
  }

  predicate Proper(s: State, p: Pairing) {
    WellPaired(p) && p.sender.id != p.receiver.id && p.sender.id in s.arrived && p.receiver.id in s.arrived
  }

  predicate PairsInv(s: State) {
    && (forall i :: 0 <= i < |s.pairs| ==> Proper(s, s.pairs[i]))
    && (forall i, j :: 0 <= i < j < |s.pairs| ==> NothingShared(s.pairs[i], s.pairs[j]))
  }

  /** Every past pairing still blocks its key, or its time is up. */
  predicate Blocks(s: State, p: Pairing) {
    || p.at + BULK_TICKET_TTL_SECONDS <= s.now
    || (p.key in s.consumed && s.consumed[p.key] >= p.at + BULK_TICKET_TTL_SECONDS)
  }

  predicate ConsumedInv(s: State) {
    && s.pending.Keys !! s.consumed.Keys
    && (forall i :: 0 <= i < |s.pairs| ==> Blocks(s, s.pairs[i]))
    && (forall i, j :: 0 <= i < j < |s.pairs| ==> Spaced(s.pairs[i], s.pairs[j]))
  }

  predicate Inv(s: State) {
    PendingInv(s) && Unpaired(s) && PairsInv(s) && ConsumedInv(s)
  }

  lemma FreshIsUnseen(s: State, id: nat)
    requires PendingInv(s) && PairsInv(s) && id !in s.arrived
    ensures Unseen(s, id)
  {
    forall i | 0 <= i < |s.pairs| ensures !Joins(s.pairs[i], id) {
      assert Proper(s, s.pairs[i]);
    }
  }

  lemma PruneKeepsInv(s: State, id: nat, at: Time)
    requires Inv(s) && s.now <= at
    ensures Inv(Prune(s, id, at))
  {
    var t := Prune(s, id, at);
    forall i | 0 <= i < |t.pairs| ensures Proper(t, t.pairs[i]) && Blocks(t, t.pairs[i]) {
      assert Proper(s, s.pairs[i]) && Blocks(s, s.pairs[i]);
    }
  }

  lemma ClockKeepsInv(s: State, id: nat, at: Time)
    requires Inv(s) && s.now <= at
    ensures Inv(s.(arrived := s.arrived + {id}, now := at))
  {
    var t := s.(arrived := s.arrived + {id}, now := at);
    forall i | 0 <= i < |t.pairs| ensures Proper(t, t.pairs[i]) && Blocks(t, t.pairs[i]) {
      assert Proper(s, s.pairs[i]) && Blocks(s, s.pairs[i]);
    }
  }

  lemma OneMore<K, V>(m: map<K, V>, key: K, value: V)
    requires key !in m
    ensures |m[key := value]| == |m| + 1
  {
    assert m[key := value].Keys == m.Keys + {key};
  }

  lemma OfferKeepsPendingInv(s: State, key: string, c: Connection)
    requires PendingInv(s) && Unseen(s, c.id) && c.id in s.arrived && Offered(c)
    requires key !in s.pending && |s.pending| < MAX_PENDING_BULK
    ensures PendingInv(Offer(s, key, c))
  {
    OneMore(s.pending, key, c);
    var t := Offer(s, key, c);
    forall k | k in t.pending ensures t.pending[k].id in t.arrived && t.pending[k].id !in t.left
        && Offered(t.pending[k]) {
      assert k != key ==> k in s.pending;
    }
    forall k, l | k in t.pending && l in t.pending && k != l ensures t.pending[k].id != t.pending[l].id {
      assert (k in s.pending || k == key) && (l in s.pending || l == key);
    }
  }

  lemma OfferKeepsInv(s: State, key: string, c: Connection)
    requires Inv(s) && Unseen(s, c.id) && c.id in s.arrived && Offered(c)
    requires key !in s.pending && key !in s.consumed && |s.pending| < MAX_PENDING_BULK
    ensures Inv(Offer(s, key, c))
  {
    var t := Offer(s, key, c);
    OfferKeepsPendingInv(s, key, c);
    forall i | 0 <= i < |t.pairs| ensures Proper(t, t.pairs[i]) && Blocks(t, t.pairs[i]) {
      assert Proper(s, s.pairs[i]) && Blocks(s, s.pairs[i]);
    }
  }

  lemma Smaller<T>(a: set<T>, b: set<T>)
    requires a <= b
    ensures |a| <= |b|
  {
    assert b == a + (b - a);
  }

  lemma FewerPending(s: State, pending: map<string, Connection>)
    requires PendingInv(s) && pending.Keys <= s.pending.Keys
    requires forall k :: k in pending ==> pending[k] == s.pending[k]
    ensures PendingInv(s.(pending := pending))
    ensures Unpaired(s) ==> Unpaired(s.(pending := pending))
  {
    Smaller(pending.Keys, s.pending.Keys);
  }

  /** The pair about to be formed involves no connection of an earlier one. */
  lemma NewPairIsNew(s: State, key: string, c: Connection)
    requires Inv(s) && Unseen(s, c.id) && c.id in s.arrived && Offered(c)
    requires key in s.pending && Complementary(s.pending[key], c)
    ensures Proper(s, MakePair(key, s.pending[key], c, s.now))
    ensures forall i :: 0 <= i < |s.pairs| ==> NothingShared(s.pairs[i], MakePair(key, s.pending[key], c, s.now))
  {
  }

  lemma JoinKeepsInv(s: State, key: string, c: Connection)
    requires Inv(s) && Unseen(s, c.id) && c.id in s.arrived && Offered(c)
    requires key in s.pending && Complementary(s.pending[key], c)
    ensures Inv(Join(s, key, c))
  {
    var t, n := Join(s, key, c), |s.pairs|;
    NewPairIsNew(s, key, c);
    FewerPending(s, t.pending);
    forall i | 0 <= i < |t.pairs| ensures Proper(t, t.pairs[i]) && Blocks(t, t.pairs[i]) {
      if i < n { assert Proper(s, s.pairs[i]) && Blocks(s, s.pairs[i]); }
    }
    forall i, j | 0 <= i < j < |t.pairs| ensures NothingShared(t.pairs[i], t.pairs[j])
        && Spaced(t.pairs[i], t.pairs[j]) {
      assert t.pairs[i] == s.pairs[i] && Blocks(s, s.pairs[i]);
      if j < n { assert t.pairs[j] == s.pairs[j]; }
    }
    forall k, i | k in t.pending && 0 <= i < |t.pairs| ensures !Joins(t.pairs[i], t.pending[k].id) {
      assert k in s.pending && k != key;
      if i < n { assert t.pairs[i] == s.pairs[i]; }
    }
  }

  lemma CleanupKeepsInv(s: State, id: nat, at: Time)
    requires Inv(s) && id in s.arrived && s.now <= at
    ensures Inv(Next(s, Cleanup(id), at))
  {
    var u := s.(pending := Without(s.pending, id));
    FewerPending(s, u.pending);
    var t := Next(s, Cleanup(id), at);
    assert t.pending == u.pending;
    forall i | 0 <= i < |t.pairs| ensures Proper(t, t.pairs[i]) && Blocks(t, t.pairs[i]) {
      assert Proper(s, s.pairs[i]) && Blocks(s, s.pairs[i]);
    }
  }

  lemma StepKeepsInv(s: State, step: Step, at: Time)
    requires Inv(s) && Enabled(s, step) && s.now <= at
    ensures Inv(Next(s, step, at))
  {
    match step
    case Arrival(id, h) =>
      FreshIsUnseen(s, id);
      ClockKeepsInv(s, id, at);
      PruneKeepsInv(s, id, at);
      match Answer(s, id, h, at) {
        case Waiting => OfferKeepsInv(Prune(s, id, at), KeyOf(h), ConnectionOf(id, h));
        case Paired => JoinKeepsInv(Prune(s, id, at), KeyOf(h), ConnectionOf(id, h));
        case _ =>
      }
    case Cleanup(id) => CleanupKeepsInv(s, id, at);
  }

  lemma {:induction false} ReachableInv(run: Run, s: State)
    requires Reaches(run, s)
    ensures Inv(s)
    decreases |run|
  {
    if run == [] {
    } else {
      var n := |run| - 1;
      var (step, at) := run[n];
      var prev: State :| LeadsTo(Init, run[..n], prev) && Enabled(prev, step) && prev.now <= at
          && s == Next(prev, step, at);
      ReachableInv(run[..n], prev);
      StepKeepsInv(prev, step, at);
    }
  }

  // ---------------------------------------------------------------- what holds of every run

  /** The pairing table: waiting keys and used keys are disjoint, at most 128 connections wait,
      each of them live and under one key only. */
  lemma PairingTable(run: Run, s: State)
    requires Reaches(run, s)
    ensures s.pending.Keys !! s.consumed.Keys
    ensures |s.pending| <= MAX_PENDING_BULK
    ensures forall k :: k in s.pending ==> s.pending[k].id in s.arrived - s.left
    ensures forall k, l :: k in s.pending && l in s.pending && k != l ==> s.pending[k].id != s.pending[l].id
  {
    ReachableInv(run, s);
  }

  /** Every pair is a sender and a receiver that name each other and agree on the length. */
  lemma PairsMatch(run: Run, s: State, i: nat)
    requires Reaches(run, s) && i < |s.pairs|
    ensures WellPaired(s.pairs[i])
  {
    ReachableInv(run, s);
    assert Proper(s, s.pairs[i]);
  }

  function RoleText(role: Role): string {
    match role
    case Sender => "sender"
    case Receiver => "receiver"
  }

  /** The step at which connection `c` announced itself under `key`, in the given role. */
  predicate Announced(step: Step, role: string, c: Connection, key: string) {
    && step.Arrival? && step.id == c.id
    && var h := step.header;
       && h.kind == Text("bulk_connect") && h.role == Text(role)
       && h.sessionId.Text? && h.transferId.Text? && key == h.sessionId.text + ":" + h.transferId.text
       && h.sessionId.text != "" && h.transferId.text != ""
       && h.sender == Text(c.clientId) && h.recipient == Text(c.peer) && h.length == Number(c.length)
  }

  predicate AnnouncedIn(run: Run, role: string, c: Connection, key: string) {
    exists n :: 0 <= n < |run| && Announced(run[n].0, role, c, key)
  }

  predicate PairAnnounced(run: Run, p: Pairing) {
    AnnouncedIn(run, "sender", p.sender, p.key) && AnnouncedIn(run, "receiver", p.receiver, p.key)
  }

  /** Every offer and both ends of every pair have announced themselves as what they are taken for. */
  predicate AllAnnounced(run: Run, s: State) {
    && (forall k :: k in s.pending ==> AnnouncedIn(run, RoleText(s.pending[k].role), s.pending[k], k))
    && (forall i :: 0 <= i < |s.pairs| ==> PairAnnounced(run, s.pairs[i]))
  }

  lemma AnnouncedStays(run: Run, longer: Run, role: string, c: Connection, key: string)
    requires AnnouncedIn(run, role, c, key) && |run| <= |longer| && longer[..|run|] == run
    ensures AnnouncedIn(longer, role, c, key)
  {
    var n :| 0 <= n < |run| && Announced(run[n].0, role, c, key);
    assert longer[..|run|][n] == longer[n];
  }

  lemma ArrivalAnnounces(run: Run, id: nat, h: Header)
    requires run != [] && run[|run| - 1].0 == Arrival(id, h) && ValidHeader(h)
    ensures var c := ConnectionOf(id, h); AnnouncedIn(run, RoleText(c.role), c, KeyOf(h))
  {
    var c := ConnectionOf(id, h);
    assert Announced(run[|run| - 1].0, RoleText(c.role), c, KeyOf(h));
  }

  /** What a step can add to the offers. */
  lemma StepOffers(s: State, step: Step, at: Time, k: string)
    requires Enabled(s, step) && k in Next(s, step, at).pending
    ensures var t := Next(s, step, at);
            || (k in s.pending && t.pending[k] == s.pending[k])
            || (step.Arrival? && ValidHeader(step.header) && k == KeyOf(step.header)
                && t.pending[k] == ConnectionOf(step.id, step.header))
  {
    hide ValidHeader, Complementary, MakePair;
  }

  /** What a step can add to the pairs. */
  lemma StepPairs(s: State, step: Step, at: Time)
    requires Enabled(s, step)
    ensures var t := Next(s, step, at);
            || t.pairs == s.pairs
            || (&& step.Arrival? && ValidHeader(step.header) && KeyOf(step.header) in s.pending
                && var key, c := KeyOf(step.header), ConnectionOf(step.id, step.header);
                   && Complementary(s.pending[key], c)
                   && t.pairs == s.pairs + [MakePair(key, s.pending[key], c, at)]
                   && t.consumed == Unexpired(s.consumed, at)[key := at + BULK_TICKET_TTL_SECONDS])
  {
    hide ValidHeader, Complementary, MakePair, Unexpired;
  }

  lemma NewPairAnnounced(run: Run, key: string, waiting: Connection, c: Connection, at: Time)
    requires AnnouncedIn(run, RoleText(waiting.role), waiting, key) && AnnouncedIn(run, RoleText(c.role), c, key)
    requires Complementary(waiting, c)
    ensures PairAnnounced(run, MakePair(key, waiting, c, at))
  {
    hide AnnouncedIn;
  }

  lemma OffersStayAnnounced(run: Run, s: State, t: State)
    requires run != [] && AllAnnounced(run[..|run| - 1], s) && Enabled(s, run[|run| - 1].0)
    requires t == Next(s, run[|run| - 1].0, run[|run| - 1].1)
    ensures forall k :: k in t.pending ==> AnnouncedIn(run, RoleText(t.pending[k].role), t.pending[k], k)
  {
    var n := |run| - 1;
    var (step, at) := run[n];
    hide Next, Enabled, AnnouncedIn, ValidHeader, KeyOf, ConnectionOf, RoleText;
    forall k | k in t.pending ensures AnnouncedIn(run, RoleText(t.pending[k].role), t.pending[k], k) {
      StepOffers(s, step, at, k);
      if k in s.pending && t.pending[k] == s.pending[k] {
        AnnouncedStays(run[..n], run, RoleText(t.pending[k].role), t.pending[k], k);
      } else {
        ArrivalAnnounces(run, step.id, step.header);
      }
    }
  }

  lemma PairStaysAnnounced(run: Run, longer: Run, p: Pairing)
    requires PairAnnounced(run, p) && |run| <= |longer| && longer[..|run|] == run
    ensures PairAnnounced(longer, p)
  {
    hide AnnouncedIn;
    AnnouncedStays(run, longer, "sender", p.sender, p.key);
    AnnouncedStays(run, longer, "receiver", p.receiver, p.key);
  }

  lemma StepKeepsAnnounced(run: Run, s: State, t: State)
    requires run != [] && AllAnnounced(run[..|run| - 1], s) && Enabled(s, run[|run| - 1].0)
    requires t == Next(s, run[|run| - 1].0, run[|run| - 1].1)
    ensures AllAnnounced(run, t)
  {
    var n := |run| - 1;
    var (step, at) := run[n];
    OffersStayAnnounced(run, s, t);
    StepPairs(s, step, at);
    hide Next, Enabled, AnnouncedIn, PairAnnounced, ValidHeader, KeyOf, ConnectionOf, RoleText, Complementary, MakePair;
    forall i | 0 <= i < |t.pairs| ensures PairAnnounced(run, t.pairs[i]) {
      if i < |s.pairs| {
        assert t.pairs[i] == s.pairs[i] && PairAnnounced(run[..n], s.pairs[i]);
        PairStaysAnnounced(run[..n], run, t.pairs[i]);
      } else {
        var key, c := KeyOf(step.header), ConnectionOf(step.id, step.header);
        ArrivalAnnounces(run, step.id, step.header);
        AnnouncedStays(run[..n], run, RoleText(s.pending[key].role), s.pending[key], key);
        NewPairAnnounced(run, key, s.pending[key], c, at);
      }
    }
  }

  lemma {:induction false} EverythingAnnounced(run: Run, s: State)
    requires Reaches(run, s)
    ensures AllAnnounced(run, s)
    decreases |run|
  {
    if run == [] {
    } else {
      var n := |run| - 1;
      var (step, at) := run[n];
      var prev: State :| LeadsTo(Init, run[..n], prev) && Enabled(prev, step) && prev.now <= at
          && s == Next(prev, step, at);
      hide LeadsTo, Next, Enabled, AllAnnounced;
      EverythingAnnounced(run[..n], prev);
      StepKeepsAnnounced(run, prev, s);
    }
  }

  /** Both ends of a pair are what their headers said: the relay copies from the connection that said
      "sender" to the one that said "receiver", for one session and transfer, between two endpoints that
      name each other, and as many octets as both announced. */
  lemma PairsAreAsAnnounced(run: Run, s: State, i: nat) returns (m: nat, n: nat)
    requires Reaches(run, s) && i < |s.pairs|
    ensures m < |run| && n < |run| && run[m].0.Arrival? && run[n].0.Arrival?
    ensures run[m].0.id == s.pairs[i].sender.id && run[n].0.id == s.pairs[i].receiver.id
    ensures var a, b := run[m].0.header, run[n].0.header;
            && a.role == Text("sender") && b.role == Text("receiver")
            && a.sessionId.Text? && a.transferId.Text? && b.sessionId.Text? && b.transferId.Text?
            && a.sessionId.text != "" && a.transferId.text != "" && b.sessionId.text != "" && b.transferId.text != ""
            && s.pairs[i].key == a.sessionId.text + ":" + a.transferId.text
            && s.pairs[i].key == b.sessionId.text + ":" + b.transferId.text
            && a.sender == b.recipient == Text(s.pairs[i].sender.clientId)
            && a.recipient == b.sender == Text(s.pairs[i].sender.peer)
            && a.length == b.length == Number(s.pairs[i].sender.length) && 16 <= s.pairs[i].sender.length <= 268435472
  {
    EverythingAnnounced(run, s);
    PairsMatch(run, s, i);
    var p := s.pairs[i];
    assert PairAnnounced(run, p);
    m :| 0 <= m < |run| && Announced(run[m].0, "sender", p.sender, p.key);
    n :| 0 <= n < |run| && Announced(run[n].0, "receiver", p.receiver, p.key);
  }

  /** No connection is an end of two pairs, nor both ends of one. */
  lemma JoinsAtMostOnePair(run: Run, s: State, i: nat, j: nat, id: nat)
    requires Reaches(run, s) && i < |s.pairs| && j < |s.pairs|
    requires Joins(s.pairs[i], id)
    ensures s.pairs[i].sender.id != s.pairs[i].receiver.id
    ensures i != j ==> !Joins(s.pairs[j], id)
  {
    ReachableInv(run, s);
    assert Proper(s, s.pairs[i]);
    assert i < j ==> NothingShared(s.pairs[i], s.pairs[j]);
    assert j < i ==> NothingShared(s.pairs[j], s.pairs[i]);
  }

  /** A key pairs again only after its ticket has run out. */
  lemma SameKeyIsSpaced(run: Run, s: State, i: nat, j: nat)
    requires Reaches(run, s) && i < j < |s.pairs| && s.pairs[i].key == s.pairs[j].key
    ensures s.pairs[j].at - s.pairs[i].at >= BULK_TICKET_TTL_SECONDS
  {
    ReachableInv(run, s);
    assert Spaced(s.pairs[i], s.pairs[j]);
  }

  /** A used key is that of a pair, and its ticket runs out 600 s after the pairing. */
  predicate UsedByPair(s: State, key: string)
    requires key in s.consumed
  {
    exists i :: 0 <= i < |s.pairs| && s.pairs[i].key == key && s.consumed[key] == s.pairs[i].at + 600.0
  }

  predicate UsedKeys(s: State) {
    forall k :: k in s.consumed ==> UsedByPair(s, k)
  }

  lemma StepConsumes(s: State, step: Step, at: Time)
    requires Enabled(s, step) && Next(s, step, at).pairs == s.pairs
    ensures var t := Next(s, step, at);
            forall k :: k in t.consumed ==> k in s.consumed && t.consumed[k] == s.consumed[k]
  {
    hide ValidHeader, Complementary, MakePair;
  }

  lemma StepKeepsUsedKeys(s: State, step: Step, at: Time)
    requires UsedKeys(s) && Enabled(s, step)
    ensures UsedKeys(Next(s, step, at))
  {
    var t := Next(s, step, at);
    StepPairs(s, step, at);
    if t.pairs == s.pairs {
      StepConsumes(s, step, at);
    }
    hide ValidHeader, Next, KeyOf, ConnectionOf, Complementary, UsedByPair;
    forall k | k in t.consumed ensures UsedByPair(t, k) {
      if t.pairs != s.pairs && k == KeyOf(step.header) {
        assert t.pairs[|s.pairs|].key == k && t.pairs[|s.pairs|].at == at;
        NewlyUsed(t, k, |s.pairs|);
      } else {
        assert UsedByPair(s, k);
        StillUsed(s, t, k);
      }
    }
  }

  lemma NewlyUsed(t: State, k: string, i: nat)
    requires i < |t.pairs| && k in t.consumed && t.pairs[i].key == k && t.consumed[k] == t.pairs[i].at + 600.0
    ensures UsedByPair(t, k)
  {
  }

  lemma StillUsed(s: State, t: State, k: string)
    requires k in s.consumed && UsedByPair(s, k) && k in t.consumed && t.consumed[k] == s.consumed[k]
    requires s.pairs <= t.pairs
    ensures UsedByPair(t, k)
  {
    var i :| 0 <= i < |s.pairs| && s.pairs[i].key == k && s.consumed[k] == s.pairs[i].at + 600.0;
    assert t.pairs[i] == s.pairs[i];
  }

  lemma {:induction false} ReachableUsedKeys(run: Run, s: State)
    requires Reaches(run, s)
    ensures UsedKeys(s)
    decreases |run|
  {
    if run == [] {
    } else {
      var n := |run| - 1;
      var (step, at) := run[n];
      var prev: State :| LeadsTo(Init, run[..n], prev) && Enabled(prev, step) && prev.now <= at
          && s == Next(prev, step, at);
      hide LeadsTo, Next, Enabled, UsedKeys;
      ReachableUsedKeys(run[..n], prev);
      StepKeepsUsedKeys(prev, step, at);
    }
  }

  /** An arrival is told that its transfer is used if and only if its key was paired less than 600 s ago. */
  lemma UsedExactlyFor600Seconds(run: Run, s: State, id: nat, h: Header, at: Time)
    requires Reaches(run, s) && s.now <= at && ValidHeader(h)
    ensures Answer(s, id, h, at) == TransferUsed
            <==> exists i :: 0 <= i < |s.pairs| && s.pairs[i].key == h.sessionId.text + ":" + h.transferId.text
                   && at < s.pairs[i].at + 600.0
  {
    ReachableInv(run, s);
    ReachableUsedKeys(run, s);
    var key := KeyOf(h);
    if key in s.consumed && s.consumed[key] > at {
      assert UsedByPair(s, key);
    }
    if i :| 0 <= i < |s.pairs| && s.pairs[i].key == key && at < s.pairs[i].at + 600.0 {
      assert Blocks(s, s.pairs[i]);
    }
  }

  lemma GoneAfterStep(s: State, step: Step, at: Time, id: nat)
    requires PendingInv(s) && id in s.left && Enabled(s, step)
    ensures id in Next(s, step, at).left
    ensures s.pairs <= Next(s, step, at).pairs
    ensures forall i :: |s.pairs| <= i < |Next(s, step, at).pairs| ==> !Joins(Next(s, step, at).pairs[i], id)
  {
    assert id in s.arrived;
    if step.Arrival? && Answer(s, step.id, step.header, at) == Paired {
      var key := KeyOf(step.header);
      var waiting := s.pending[key];
      assert waiting.id !in s.left && step.id !in s.arrived;
      hide PendingInv, ValidHeader, Answer;
      assert Next(s, step, at).pairs == s.pairs + [MakePair(key, waiting, ConnectionOf(step.id, step.header), at)] by {
        assert Next(s, step, at) == Join(Prune(s, step.id, at), key, ConnectionOf(step.id, step.header));
      }
    } else {
      assert Next(s, step, at).pairs == s.pairs;
    }
  }

  /** A connection that has left is neither waiting nor paired later on, and pairs are never undone. */
  lemma {:induction false} GoneForGood(s: State, run: Run, t: State, id: nat)
    requires Inv(s) && id in s.left && LeadsTo(s, run, t)
    ensures Inv(t) && id in t.left && s.pairs <= t.pairs
    ensures forall i :: |s.pairs| <= i < |t.pairs| ==> !Joins(t.pairs[i], id)
    decreases |run|
  {
    if run == [] {
    } else {
      var n := |run| - 1;
      var (step, at) := run[n];
      var prev: State :| LeadsTo(s, run[..n], prev) && Enabled(prev, step) && prev.now <= at
          && t == Next(prev, step, at);
      GoneForGood(s, run[..n], prev, id);
      StepKeepsInv(prev, step, at);
      GoneAfterStep(prev, step, at, id);
      forall i | |s.pairs| <= i < |t.pairs| ensures !Joins(t.pairs[i], id) {
        if i < |prev.pairs| { assert t.pairs[i] == prev.pairs[i]; }
      }
    }
  }

  lemma AfterCleanup(run: Run, s: State, id: nat, at: Time, rest: Run, t: State)
    requires Reaches(run, s) && Enabled(s, Cleanup(id)) && s.now <= at
    requires LeadsTo(Next(s, Cleanup(id), at), rest, t)
    ensures forall k :: k in t.pending ==> t.pending[k].id != id
    ensures forall i :: |s.pairs| <= i < |t.pairs| ==> !Joins(t.pairs[i], id)
  {
    ReachableInv(run, s);
    StepKeepsInv(s, Cleanup(id), at);
    GoneForGood(Next(s, Cleanup(id), at), rest, t, id);
  }

  /** An arrival that is turned away, for whatever reason, takes no offer with it. */
  lemma RefusalKeepsOffers(s: State, id: nat, h: Header, at: Time)
    requires Answer(s, id, h, at) != Waiting && Answer(s, id, h, at) != Paired
    ensures Next(s, Arrival(id, h), at).pending == s.pending
    ensures Next(s, Arrival(id, h), at).pairs == s.pairs
  {
  }

  /** The headers of the two ends of one transfer. */
  predicate OppositeEnds(a: Header, b: Header) {
    && a.kind == Text("bulk_connect") && b.kind == Text("bulk_connect")
    && ((a.role == Text("sender") && b.role == Text("receiver"))
        || (a.role == Text("receiver") && b.role == Text("sender")))
    && a.sessionId.Text? && a.sessionId.text != "" && a.sessionId == b.sessionId
    && a.transferId.Text? && a.transferId.text != "" && a.transferId == b.transferId
    && a.sender.Text? && a.sender.text != "" && a.sender == b.recipient
    && a.recipient.Text? && a.recipient.text != "" && a.recipient == b.sender && a.sender != a.recipient
    && a.length.Number? && 16 <= a.length.number <= 268435472 && a.length == b.length
  }

  /** Sender and receiver of a fresh key meet, whichever of them comes first. */
  lemma EitherOrderPairs(s: State, a: Header, b: Header, i: nat, j: nat, at: Time, later: Time)
    requires OppositeEnds(a, b) && i != j && i !in s.arrived && j !in s.arrived && at <= later
    requires |s.pending| < 128
    requires var key := a.sessionId.text + ":" + a.transferId.text;
             key !in s.pending && (key in s.consumed ==> s.consumed[key] <= at)
    ensures var ab := Next(Next(s, Arrival(i, a), at), Arrival(j, b), later);
            var ba := Next(Next(s, Arrival(j, b), at), Arrival(i, a), later);
            && ab == ba && |ab.pairs| == |s.pairs| + 1
            && {ab.pairs[|s.pairs|].sender.id, ab.pairs[|s.pairs|].receiver.id} == {i, j}
            && ab.pairs[|s.pairs|].sender.id == if a.role == Text("sender") then i else j
  {
    OppositeEndsFit(a, b, i, j);
    OppositeEndsFit(b, a, j, i);
    FirstWaits(s, a, i, j, b, at, later);
    FirstWaits(s, b, j, i, a, at, later);
  }

  lemma OppositeEndsFit(a: Header, b: Header, i: nat, j: nat)
    requires OppositeEnds(a, b)
    ensures ValidHeader(a) && ValidHeader(b) && KeyOf(a) == KeyOf(b)
    ensures Complementary(ConnectionOf(i, a), ConnectionOf(j, b))
  {
  }

  lemma FirstWaits(s: State, a: Header, i: nat, j: nat, b: Header, at: Time, later: Time)
    requires ValidHeader(a) && ValidHeader(b) && KeyOf(a) == KeyOf(b)
    requires Complementary(ConnectionOf(i, a), ConnectionOf(j, b))
    requires i !in s.arrived && j !in s.arrived && at <= later
    requires KeyOf(a) !in s.pending && KeyOf(a) !in Unexpired(s.consumed, at) && |s.pending| < 128
    ensures var t := Next(Next(s, Arrival(i, a), at), Arrival(j, b), later);
            && t.pending == s.pending
            && t.consumed == Unexpired(Unexpired(s.consumed, at), later)[KeyOf(a) := later + BULK_TICKET_TTL_SECONDS]
            && t.arrived == s.arrived + {i} + {j} && t.left == s.left && t.now == later
            && t.pairs == s.pairs + [MakePair(KeyOf(a), ConnectionOf(i, a), ConnectionOf(j, b), later)]
  {
    hide ValidHeader, KeyOf, ConnectionOf, Complementary, MakePair;
    var u := Next(s, Arrival(i, a), at);
    assert Answer(s, i, a, at) == Waiting;
    assert Answer(u, j, b, later) == Paired;
    assert u.pending - {KeyOf(a)} == s.pending;
  }

  // ---------------------------------------------------------------- the key of a transfer

  /** The only way to read the key is the one it was made from. */
  ghost predicate Unambiguous(sessionId: string, transferId: string) {
    forall s, t :: s != "" && t != "" && PairKey(s, t) == PairKey(sessionId, transferId) ==>
      s == sessionId && t == transferId
  }

  /** Two readings of one key: the longer session and the longer transfer both have the other colon. */
  lemma ShorterSplit(s: string, t: string, sessionId: string, transferId: string)
    requires s != "" && transferId != "" && PairKey(s, t) == PairKey(sessionId, transferId) && |s| < |sessionId|
    ensures ':' in sessionId[1..] && ':' in t[..|t| - 1]
  {
    var key, n := PairKey(s, t), |sessionId|;
    assert key[|s|] == ':' && key[|s|] == sessionId[1..][|s| - 1];
    assert key[n] == ':' && key[n] == t[..|t| - 1][n - |s| - 1];
  }

  /** The relay does not look for ':' in the identifiers. A key stands for one transfer exactly when
      neither has one, but for the first character of the session and the last of the transfer. */
  lemma KeyIsUnambiguous(sessionId: string, transferId: string)
    requires sessionId != "" && transferId != ""
    ensures Unambiguous(sessionId, transferId) <==> ':' !in sessionId[1..] && ':' !in transferId[..|transferId| - 1]
  {
    var key, n := PairKey(sessionId, transferId), |sessionId|;
    if i :| 1 <= i < n && sessionId[i] == ':' {
      assert key == PairKey(sessionId[..i], sessionId[i + 1..] + ":" + transferId);
    } else if i :| 0 <= i < |transferId| - 1 && transferId[i] == ':' {
      assert key == PairKey(sessionId + ":" + transferId[..i], transferId[i + 1..]);
    } else {
      forall s, t | s != "" && t != "" && PairKey(s, t) == key ensures s == sessionId && t == transferId {
        if |s| < n {
          ShorterSplit(s, t, sessionId, transferId);
        } else if |s| > n {
          ShorterSplit(sessionId, transferId, s, t);
        } else {
          assert key[..n] == s && key[..n] == sessionId && key[n + 1..] == t && key[n + 1..] == transferId;
        }
      }
      assert forall k :: 0 <= k < n - 1 ==> sessionId[1..][k] == sessionId[k + 1];
    }
  }
}
