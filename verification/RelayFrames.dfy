/** The heartbeat-transparent reader of the Android client (RelayFrames.kt). The specification counts
    timeouts and pongs in the stream; the loop remembers one outstanding ping. */
module RelayFrames {
  import opened Wrappers

  /** A parsed frame: a missing nonce reads as the empty text, as with `optString`. */
  datatype Frame = Ping(nonce: string) | Pong(nonce: string) | Application(body: string)

  /** What a call of `readLine` comes to. */
  datatype Input = Line(frame: Frame) | Malformed | Timeout | Closed | Broken

  datatype Cause = ConnectionClosed | TransportFailed | HeartbeatTimedOut | InvalidPing | NonceMismatch | NotJson

  /** `Waiting` is a reader that has used up a finite stream. */
  datatype Outcome = Returned(body: string) | Failed(cause: Cause) | Waiting

  /** Ping nonces come from a factory, here as a function of how many it has made. */
  type Nonces = nat -> string

  // ---------------------------------------------------------------- the specification

  function Timeouts(inputs: seq<Input>): nat {
    if inputs == [] then 0 else Timeouts(inputs[..|inputs| - 1]) + if inputs[|inputs| - 1] == Timeout then 1 else 0
  }

  predicate IsPong(input: Input) {
    input.Line? && input.frame.Pong?
  }

  function Pongs(inputs: seq<Input>): nat {
    if inputs == [] then 0 else Pongs(inputs[..|inputs| - 1]) + if IsPong(inputs[|inputs| - 1]) then 1 else 0
  }

  /** Why the reader gives up at an entry, or None, after it has sent some own pings and seen them
      answered. A timeout is in order while every own ping has been answered; a pong is in order if it
      answers the one that has not. */
  function TroubleAt(e: Input, sent: nat, answered: nat, nonces: Nonces): Option<Cause> {
    match e
    case Malformed => Some(NotJson)
    case Closed => Some(ConnectionClosed)
    case Broken => Some(TransportFailed)
    case Timeout => if sent == answered then None else Some(HeartbeatTimedOut)
    case Line(Ping(nonce)) => if nonce == "" then Some(InvalidPing) else None
    case Line(Pong(nonce)) => if sent == answered + 1 && nonce == nonces(answered) then None else Some(NonceMismatch)
    case Line(Application(_)) => None
  }

  function Trouble(inputs: seq<Input>, k: nat, nonces: Nonces): Option<Cause>
    requires k < |inputs|
  {
    TroubleAt(inputs[k], Timeouts(inputs[..k]), Pongs(inputs[..k]), nonces)
  }

  predicate IsApplication(input: Input) {
    input.Line? && input.frame.Application?
  }

  /** Every entry before `k` is heartbeat traffic in good order. */
  predicate Quiet(inputs: seq<Input>, k: nat, nonces: Nonces)
    requires k <= |inputs|
  {
    forall i :: 0 <= i < k ==> !IsApplication(inputs[i]) && Trouble(inputs, i, nonces).None?
  }

  /** The outcome of reading from entry `k` on: that of the first entry that is not quiet. */
  function OutcomeFrom(inputs: seq<Input>, k: nat, nonces: Nonces): Outcome
    requires k <= |inputs|
    decreases |inputs| - k
  {
    if k == |inputs| then Waiting
    else if IsApplication(inputs[k]) then Returned(inputs[k].frame.body)
    else match Trouble(inputs, k, nonces)
         case Some(cause) => Failed(cause)
         case None => OutcomeFrom(inputs, k + 1, nonces)
  }

  /** The frames written in answer to quiet entries. */
  function Replies(inputs: seq<Input>, nonces: Nonces): seq<Frame> {
    if inputs == [] then []
    else
      var n := |inputs| - 1;
      Replies(inputs[..n], nonces)
      + match inputs[n]
        case Timeout => [Ping(nonces(Timeouts(inputs[..n])))]
        case Line(Ping(nonce)) => [Pong(nonce)]
        case _ => []
  }

  // ---------------------------------------------------------------- the loop

  /** The ping that a reader is waiting for after the entries given. */
  function Outstanding(inputs: seq<Input>, nonces: Nonces): Option<string> {
    if Timeouts(inputs) == Pongs(inputs) then None else Some(nonces(Pongs(inputs)))
  }

  /** At most one own ping is unanswered at any time. */
  lemma {:induction false} AtMostOneOutstanding(inputs: seq<Input>, k: nat, nonces: Nonces)
    requires k <= |inputs| && Quiet(inputs, k, nonces)
    ensures Pongs(inputs[..k]) <= Timeouts(inputs[..k]) <= Pongs(inputs[..k]) + 1
    decreases k
  {
    if k == 0 {
    } else {
      AtMostOneOutstanding(inputs, k - 1, nonces);
      assert inputs[..k][..k - 1] == inputs[..k - 1];
      assert Trouble(inputs, k - 1, nonces).None?;
    }
  }

  lemma OneMoreEntry(inputs: seq<Input>, k: nat, nonces: Nonces)
    requires k < |inputs| && Quiet(inputs, k, nonces)
    requires !IsApplication(inputs[k]) && Trouble(inputs, k, nonces).None?
    ensures Quiet(inputs, k + 1, nonces)
    ensures inputs[..k + 1][..k] == inputs[..k]
  {
  }

  // ---------------------------------------------------------------- what the outcome means

  /** The outcome is decided by the first entry that is not quiet, and by nothing after it. */
  lemma {:induction false} DecidedBy(inputs: seq<Input>, j: nat, k: nat, nonces: Nonces)
    requires j <= k < |inputs| && Quiet(inputs, k, nonces)
    requires IsApplication(inputs[k]) || Trouble(inputs, k, nonces).Some?
    ensures OutcomeFrom(inputs, j, nonces)
            == if IsApplication(inputs[k]) then Returned(inputs[k].frame.body)
                else Failed(Trouble(inputs, k, nonces).value)
    decreases k - j
  {
    if j < k {
      DecidedBy(inputs, j + 1, k, nonces);
    }
  }

  /** A frame is returned exactly when it is the first one that is neither ping nor pong and only
      heartbeats in good order come before it. */
  lemma ReturnsFirstApplication(inputs: seq<Input>, nonces: Nonces, body: string)
    ensures OutcomeFrom(inputs, 0, nonces) == Returned(body)
            <==> exists k :: 0 <= k < |inputs| && Quiet(inputs, k, nonces) && inputs[k] == Line(Application(body))
  {
    if k :| 0 <= k < |inputs| && Quiet(inputs, k, nonces) && inputs[k] == Line(Application(body)) {
      DecidedBy(inputs, 0, k, nonces);
    }
    var k := Stop(inputs, 0, nonces);
    if k < |inputs| {
      DecidedBy(inputs, 0, k, nonces);
    }
  }

  lemma FailsAtFirstTrouble(inputs: seq<Input>, nonces: Nonces, cause: Cause)
    ensures OutcomeFrom(inputs, 0, nonces) == Failed(cause)
            <==> exists k :: 0 <= k < |inputs| && Quiet(inputs, k, nonces) && Trouble(inputs, k, nonces) == Some(cause)
  {
    if k :| 0 <= k < |inputs| && Quiet(inputs, k, nonces) && Trouble(inputs, k, nonces) == Some(cause) {
      DecidedBy(inputs, 0, k, nonces);
    }
    var k := Stop(inputs, 0, nonces);
    if k < |inputs| {
      DecidedBy(inputs, 0, k, nonces);
    }
  }

  /** Where the reader stops. */
  lemma {:induction false} Stop(inputs: seq<Input>, j: nat, nonces: Nonces) returns (k: nat)
    requires j <= |inputs| && Quiet(inputs, j, nonces)
    ensures k <= |inputs| && Quiet(inputs, k, nonces)
    ensures k < |inputs| ==> IsApplication(inputs[k]) || Trouble(inputs, k, nonces).Some?
    ensures k == |inputs| ==> OutcomeFrom(inputs, j, nonces) == Waiting
    decreases |inputs| - j
  {
    if j == |inputs| || IsApplication(inputs[j]) || Trouble(inputs, j, nonces).Some? {
      k := j;
    } else {
      OneMoreEntry(inputs, j, nonces);
      k := Stop(inputs, j + 1, nonces);
    }
  }

  // ---------------------------------------------------------------- entry by entry

  lemma Cut<T>(s: seq<T>, k: nat)
    requires k <= |s|
    ensures s[..k] + s[k..] == s
  {
  }

  lemma OneLonger<T>(s: seq<T>, k: nat)
    requires k < |s|
    ensures s[..k + 1] == s[..k] + [s[k]]
  {
  }

  lemma PartOfConcat<T>(p: seq<T>, b: seq<T>, j: nat)
    requires j < |b|
    ensures (p + b)[..|p| + j] == p + b[..j] && (p + b)[|p| + j] == b[j]
  {
  }

  lemma {:induction false} CountsOfConcat(a: seq<Input>, b: seq<Input>)
    ensures Timeouts(a + b) == Timeouts(a) + Timeouts(b) && Pongs(a + b) == Pongs(a) + Pongs(b)
    decreases |b|
  {
    if b == [] {
      assert a + b == a;
    } else {
      assert (a + b)[..|a + b| - 1] == a + b[..|b| - 1];
      CountsOfConcat(a, b[..|b| - 1]);
    }
  }

  /** What is read after `a` does not depend on what `a` is, as long as it is decided there or not. */
  lemma {:induction false} Extend(a: seq<Input>, b: seq<Input>, j: nat, nonces: Nonces)
    requires j <= |a|
    ensures OutcomeFrom(a + b, j, nonces)
            == if OutcomeFrom(a, j, nonces) == Waiting then OutcomeFrom(a + b, |a|, nonces)
               else OutcomeFrom(a, j, nonces)
    decreases |a| - j
  {
    if j < |a| {
      assert (a + b)[..j] == a[..j] && (a + b)[j] == a[j];
      Extend(a, b, j + 1, nonces);
    }
  }

  /** From `k` on, one factory makes what the other makes `d` later. */
  ghost predicate Shifted(nonces: Nonces, others: Nonces, k: nat, d: nat) {
    forall i {:trigger others(i)} :: i >= k ==> others(i) == nonces(i + d)
  }

  lemma NextNonce(nonces: Nonces, others: Nonces, k: nat, d: nat, i: nat)
    requires Shifted(nonces, others, k, d) && i >= k
    ensures others(i) == nonces(i + d)
  {
  }

  lemma TroubleShifts(e: Input, sent: nat, answered: nat, d: nat, nonces: Nonces, others: Nonces)
    requires others(answered) == nonces(answered + d)
    ensures TroubleAt(e, sent + d, answered + d, nonces) == TroubleAt(e, sent, answered, others)
  {
  }

  lemma TroubleIs(inputs: seq<Input>, k: nat, past: seq<Input>, e: Input, nonces: Nonces)
    requires k < |inputs| && inputs[..k] == past && inputs[k] == e
    ensures Trouble(inputs, k, nonces) == TroubleAt(e, Timeouts(past), Pongs(past), nonces)
  {
  }

  /** Entry `j` of `b`, after `p`. */
  lemma TroubleAfter(p: seq<Input>, b: seq<Input>, j: nat, nonces: Nonces)
    requires j < |b|
    ensures (p + b)[|p| + j] == b[j]
    ensures Trouble(p + b, |p| + j, nonces)
            == TroubleAt(b[j], Timeouts(p) + Timeouts(b[..j]), Pongs(p) + Pongs(b[..j]), nonces)
  {
    hide *;
    PartOfConcat(p, b, j);
    TroubleIs(p + b, |p| + j, p + b[..j], b[j], nonces);
    CountsOfConcat(p, b[..j]);
  }

  lemma SameTrouble(p: seq<Input>, q: seq<Input>, b: seq<Input>, j: nat, d: nat, nonces: Nonces, others: Nonces)
    requires j < |b| && Timeouts(p) == Timeouts(q) + d && Pongs(p) == Pongs(q) + d
    requires Shifted(nonces, others, Pongs(q), d)
    ensures (p + b)[|p| + j] == b[j] == (q + b)[|q| + j]
    ensures Trouble(p + b, |p| + j, nonces) == Trouble(q + b, |q| + j, others)
  {
    hide *;
    var sent, answered := Timeouts(q) + Timeouts(b[..j]), Pongs(q) + Pongs(b[..j]);
    TroubleAfter(p, b, j, nonces);
    TroubleAfter(q, b, j, others);
    NextNonce(nonces, others, Pongs(q), d, answered);
    TroubleShifts(b[j], sent, answered, d, nonces, others);
  }

  /** Two readers go on alike if as many pings are outstanding and the same nonces are still to come. */
  lemma {:induction false} GoesOnAlike(p: seq<Input>, q: seq<Input>, b: seq<Input>, j: nat, d: nat, nonces: Nonces,
      others: Nonces)
    requires j <= |b| && Timeouts(p) == Timeouts(q) + d && Pongs(p) == Pongs(q) + d
    requires Shifted(nonces, others, Pongs(q), d)
    ensures OutcomeFrom(p + b, |p| + j, nonces) == OutcomeFrom(q + b, |q| + j, others)
    decreases |b| - j
  {
    hide Timeouts, Pongs, Trouble, Shifted;
    if j < |b| {
      SameTrouble(p, q, b, j, d, nonces, others);
      GoesOnAlike(p, q, b, j + 1, d, nonces, others);
    }
  }

  /** What one more entry comes to, and what is written for it, once nothing before it was decisive. */
  lemma NextEntryDecides(a: seq<Input>, e: Input, nonces: Nonces)
    requires OutcomeFrom(a, 0, nonces) == Waiting
    ensures OutcomeFrom(a + [e], 0, nonces)
            == match e
               case Line(Application(body)) => Returned(body)
               case Line(Ping(nonce)) => if nonce == "" then Failed(InvalidPing) else Waiting
               case Line(Pong(nonce)) =>
                 if Timeouts(a) == Pongs(a) + 1 && nonce == nonces(Pongs(a)) then Waiting else Failed(NonceMismatch)
               case Timeout => if Timeouts(a) == Pongs(a) then Waiting else Failed(HeartbeatTimedOut)
               case Malformed => Failed(NotJson)
               case Closed => Failed(ConnectionClosed)
               case Broken => Failed(TransportFailed)
    ensures Replies(a + [e], nonces)
            == Replies(a, nonces) + match e
                                    case Line(Ping(nonce)) => [Pong(nonce)]
                                    case Timeout => [Ping(nonces(Timeouts(a)))]
                                    case _ => []
  {
    Extend(a, [e], 0, nonces);
    assert (a + [e])[..|a|] == a && (a + [e])[|a|] == e;
    assert OutcomeFrom(a + [e], |a| + 1, nonces) == Waiting;
  }

  /** Once decided, nothing that comes later matters. */
  lemma DecidedStays(a: seq<Input>, b: seq<Input>, nonces: Nonces)
    requires OutcomeFrom(a, 0, nonces) != Waiting
    ensures OutcomeFrom(a + b, 0, nonces) == OutcomeFrom(a, 0, nonces)
  {
    Extend(a, b, 0, nonces);
  }

  /** The entry that decides, if there is one. */
  lemma {:induction false} DecidingEntry(inputs: seq<Input>, nonces: Nonces) returns (k: nat)
    requires OutcomeFrom(inputs, 0, nonces) != Waiting
    ensures k < |inputs| && OutcomeFrom(inputs[..k], 0, nonces) == Waiting
    ensures OutcomeFrom(inputs[..k + 1], 0, nonces) == OutcomeFrom(inputs, 0, nonces)
    decreases |inputs|
  {
    assert inputs != [];
    var n := |inputs| - 1;
    if OutcomeFrom(inputs[..n], 0, nonces) == Waiting {
      k := n;
      assert inputs[..n + 1] == inputs;
    } else {
      k := DecidingEntry(inputs[..n], nonces);
      assert inputs[..n] + [inputs[n]] == inputs;
      DecidedStays(inputs[..n], [inputs[n]], nonces);
      assert inputs[..n][..k] == inputs[..k] && inputs[..n][..k + 1] == inputs[..k + 1];
    }
  }

  /** Every cause is that of the deciding entry, and of no other kind of entry. */
  lemma CauseIsThatOfTheEntry(inputs: seq<Input>, nonces: Nonces, cause: Cause) returns (k: nat)
    requires OutcomeFrom(inputs, 0, nonces) == Failed(cause)
    ensures k < |inputs| && OutcomeFrom(inputs[..k], 0, nonces) == Waiting
    ensures cause == InvalidPing <==> inputs[k] == Line(Ping(""))
    ensures cause == NonceMismatch <==> inputs[k].Line? && inputs[k].frame.Pong?
    ensures cause == NonceMismatch ==>
              !(Timeouts(inputs[..k]) == Pongs(inputs[..k]) + 1 && inputs[k].frame.nonce == nonces(Pongs(inputs[..k])))
    ensures cause == HeartbeatTimedOut <==> inputs[k] == Timeout
    ensures cause == HeartbeatTimedOut ==> Timeouts(inputs[..k]) != Pongs(inputs[..k])
    ensures cause == NotJson <==> inputs[k] == Malformed
    ensures cause == ConnectionClosed <==> inputs[k] == Closed
    ensures cause == TransportFailed <==> inputs[k] == Broken
  {
    k := DecidingEntry(inputs, nonces);
    assert inputs[..k] + [inputs[k]] == inputs[..k + 1];
    NextEntryDecides(inputs[..k], inputs[k], nonces);
  }

  lemma OneMoreCount(a: seq<Input>, e: Input)
    ensures Timeouts(a + [e]) == Timeouts(a) + if e == Timeout then 1 else 0
    ensures Pongs(a + [e]) == Pongs(a) + if IsPong(e) then 1 else 0
  {
    assert (a + [e])[..|a|] == a;
  }

  /** Pings are transparent: whatever comes before and after one, the outcome is the same without it. */
  lemma PingIsTransparent(a: seq<Input>, nonce: string, b: seq<Input>, nonces: Nonces)
    requires nonce != ""
    ensures OutcomeFrom(a + [Line(Ping(nonce))] + b, 0, nonces) == OutcomeFrom(a + b, 0, nonces)
  {
    hide OutcomeFrom, Replies, Timeouts, Pongs;
    var ping := Line(Ping(nonce));
    if OutcomeFrom(a, 0, nonces) == Waiting {
      NextEntryDecides(a, ping, nonces);
      Extend(a + [ping], b, 0, nonces);
      Extend(a, b, 0, nonces);
      OneMoreCount(a, ping);
      GoesOnAlike(a + [ping], a, b, 0, 0, nonces, nonces);
    } else {
      DecidedStays(a, [ping], nonces);
      DecidedStays(a + [ping], b, nonces);
      DecidedStays(a, b, nonces);
    }
  }

  ghost predicate AgreeBelow(nonces: Nonces, others: Nonces, k: nat) {
    forall i {:trigger others(i)} :: 0 <= i < k ==> nonces(i) == others(i)
  }

  lemma {:induction false} FewNoncesMatter(a: seq<Input>, j: nat, nonces: Nonces, others: Nonces)
    requires j <= |a| && AgreeBelow(nonces, others, Timeouts(a))
    ensures OutcomeFrom(a, j, nonces) == OutcomeFrom(a, j, others)
    decreases |a| - j
  {
    if j < |a| {
      assert a[..j] + a[j..] == a;
      CountsOfConcat(a[..j], a[j..]);
      FewNoncesMatter(a, j + 1, nonces, others);
    }
  }

  lemma OwnPingIsAnswered(a: seq<Input>, nonces: Nonces)
    requires OutcomeFrom(a + [Timeout], 0, nonces) == Waiting
    ensures Timeouts(a) == Pongs(a) && OutcomeFrom(a, 0, nonces) == Waiting
    ensures var q := a + [Timeout] + [Line(Pong(nonces(Timeouts(a))))];
            && OutcomeFrom(q, 0, nonces) == Waiting
            && Timeouts(q) == Timeouts(a) + 1 && Pongs(q) == Pongs(a) + 1
  {
    hide OutcomeFrom, Replies, Timeouts, Pongs;
    if OutcomeFrom(a, 0, nonces) != Waiting {
      DecidedStays(a, [Timeout], nonces);
    }
    NextEntryDecides(a, Timeout, nonces);
    OneMoreCount(a, Timeout);
    var pong := Line(Pong(nonces(Timeouts(a))));
    NextEntryDecides(a + [Timeout], pong, nonces);
    OneMoreCount(a + [Timeout], pong);
  }

  /** So is an own ping with the pong that answers it: the outcome is the same without the two, from a
      factory that does not make the nonce they used up. */
  lemma OwnPingIsTransparent(a: seq<Input>, b: seq<Input>, nonces: Nonces, others: Nonces)
    requires OutcomeFrom(a + [Timeout], 0, nonces) == Waiting
    requires AgreeBelow(nonces, others, Timeouts(a)) && Shifted(nonces, others, Timeouts(a), 1)
    ensures OutcomeFrom(a + [Timeout] + [Line(Pong(nonces(Timeouts(a))))] + b, 0, nonces)
            == OutcomeFrom(a + b, 0, others)
  {
    hide OutcomeFrom, Replies, Timeouts, Pongs, Shifted, AgreeBelow;
    var q := a + [Timeout] + [Line(Pong(nonces(Timeouts(a))))];
    OwnPingIsAnswered(a, nonces);
    Extend(q, b, 0, nonces);
    FewNoncesMatter(a, 0, nonces, others);
    Extend(a, b, 0, others);
    GoesOnAlike(q, a, b, 0, 1, nonces, others);
  }

  // ---------------------------------------------------------------- the loop itself

  /** The entries that a reader has got past are quiet. */
  lemma {:induction false} WaitingIsQuiet(inputs: seq<Input>, k: nat, nonces: Nonces)
    requires k <= |inputs| && OutcomeFrom(inputs[..k], 0, nonces) == Waiting
    ensures Quiet(inputs, k, nonces)
    ensures OutcomeFrom(inputs, 0, nonces) == OutcomeFrom(inputs, k, nonces)
    decreases k
  {
    hide OutcomeFrom;
    Cut(inputs, k);
    Extend(inputs[..k], inputs[k..], 0, nonces);
    if k > 0 {
      var a, e := inputs[..k - 1], inputs[k - 1];
      OneLonger(inputs, k - 1);
      if OutcomeFrom(a, 0, nonces) != Waiting {
        DecidedStays(a, [e], nonces);
      }
      NextEntryDecides(a, e, nonces);
      WaitingIsQuiet(inputs, k - 1, nonces);
    }
  }

  /** What the loop knows about the entries it has got past. */
  ghost predicate GotPast(past: seq<Input>, nonces: Nonces, outstandingPing: Option<string>, sent: nat,
      written: seq<Frame>) {
    && OutcomeFrom(past, 0, nonces) == Waiting
    && sent == Timeouts(past) && written == Replies(past, nonces)
    && (outstandingPing.None? ==> Pongs(past) == sent)
    && (outstandingPing.Some? ==> Pongs(past) + 1 == sent && outstandingPing.value == nonces(Pongs(past)))
  }

  lemma NothingPast(nonces: Nonces)
    ensures GotPast([], nonces, None, 0, [])
  {
  }

  /** One pass of the loop. */
  lemma OnePass(past: seq<Input>, e: Input, nonces: Nonces, ping: Option<string>, sent: nat, written: seq<Frame>)
    requires GotPast(past, nonces, ping, sent, written)
    ensures match e
            case Line(Application(body)) => OutcomeFrom(past + [e], 0, nonces) == Returned(body)
            case Line(Ping(nonce)) =>
              if nonce == "" then OutcomeFrom(past + [e], 0, nonces) == Failed(InvalidPing)
              else GotPast(past + [e], nonces, ping, sent, written + [Pong(nonce)])
            case Line(Pong(nonce)) =>
              if ping == Some(nonce) then GotPast(past + [e], nonces, None, sent, written)
              else OutcomeFrom(past + [e], 0, nonces) == Failed(NonceMismatch)
            case Timeout =>
              if ping.Some? then OutcomeFrom(past + [e], 0, nonces) == Failed(HeartbeatTimedOut)
              else GotPast(past + [e], nonces, Some(nonces(sent)), sent + 1, written + [Ping(nonces(sent))])
            case Malformed => OutcomeFrom(past + [e], 0, nonces) == Failed(NotJson)
            case Closed => OutcomeFrom(past + [e], 0, nonces) == Failed(ConnectionClosed)
            case Broken => OutcomeFrom(past + [e], 0, nonces) == Failed(TransportFailed)
  {
    hide OutcomeFrom, Replies, Timeouts, Pongs;
    NextEntryDecides(past, e, nonces);
    OneMoreCount(past, e);
  }

  lemma Prefix(inputs: seq<Input>, k: nat, nonces: Nonces)
    requires k < |inputs|
    ensures inputs[..k + 1] == inputs[..k] + [inputs[k]]
    ensures OutcomeFrom(inputs[..k + 1], 0, nonces) != Waiting ==>
              OutcomeFrom(inputs, 0, nonces) == OutcomeFrom(inputs[..k + 1], 0, nonces)
  {
    hide *;
    OneLonger(inputs, k);
    Cut(inputs, k + 1);
    if OutcomeFrom(inputs[..k + 1], 0, nonces) != Waiting {
      DecidedStays(inputs[..k + 1], inputs[k + 1..], nonces);
    }
  }

  /** `readApplicationFrame` on a finite stream. It returns the first frame that is neither ping nor
      pong or fails at the first entry out of order; it answers every ping before that, in order, and
      sends one ping per timeout. */
  method ReadApplicationFrame(inputs: seq<Input>, nonces: Nonces)
    returns (outcome: Outcome, written: seq<Frame>, used: nat)
    ensures used <= |inputs| && Quiet(inputs, used, nonces)
    ensures outcome == OutcomeFrom(inputs, 0, nonces) == OutcomeFrom(inputs, used, nonces)
    ensures outcome.Waiting? <==> used == |inputs|
    ensures written == Replies(inputs[..used], nonces)
    ensures used < |inputs| ==>
              match inputs[used]
              case Line(Application(body)) => outcome == Returned(body)
              case Line(Ping(nonce)) => nonce == "" && outcome == Failed(InvalidPing)
              case Line(Pong(_)) => outcome == Failed(NonceMismatch)
              case Timeout => outcome == Failed(HeartbeatTimedOut)
              case Malformed => outcome == Failed(NotJson)
              case Closed => outcome == Failed(ConnectionClosed)
              case Broken => outcome == Failed(TransportFailed)
  {
    hide OutcomeFrom, Replies, Timeouts, Pongs, GotPast, Quiet;
    var outstandingPing: Option<string>, sent: nat := None, 0;
    written, used := [], 0;
    NothingPast(nonces);
    assert inputs[..0] == [];
    while used < |inputs|
      invariant used <= |inputs| && GotPast(inputs[..used], nonces, outstandingPing, sent, written)
    {
      Prefix(inputs, used, nonces);
      OnePass(inputs[..used], inputs[used], nonces, outstandingPing, sent, written);
      match inputs[used] {
        case Closed => outcome := Failed(ConnectionClosed); break;
        case Malformed => outcome := Failed(NotJson); break;
        case Broken => outcome := Failed(TransportFailed); break;
        case Timeout =>
          if outstandingPing.Some? { outcome := Failed(HeartbeatTimedOut); break; }
          outstandingPing := Some(nonces(sent));
          written := written + [Ping(nonces(sent))];
          sent := sent + 1;
        case Line(Ping(nonce)) =>
          if nonce == "" { outcome := Failed(InvalidPing); break; }
          written := written + [Pong(nonce)];
        case Line(Pong(nonce)) =>
          if Some(nonce) != outstandingPing { outcome := Failed(NonceMismatch); break; }
          outstandingPing := None;
        case Line(Application(body)) => outcome := Returned(body); break;
      }
      used := used + 1;
    }
    if used == |inputs| {
      outcome := Waiting;
    }
    PastIs(inputs, used, nonces, outstandingPing, sent, written);
  }

  lemma PastIs(inputs: seq<Input>, used: nat, nonces: Nonces, ping: Option<string>, sent: nat, written: seq<Frame>)
    requires used <= |inputs| && GotPast(inputs[..used], nonces, ping, sent, written)
    ensures Quiet(inputs, used, nonces) && written == Replies(inputs[..used], nonces)
    ensures OutcomeFrom(inputs, 0, nonces) == OutcomeFrom(inputs, used, nonces)
    ensures used == |inputs| ==> OutcomeFrom(inputs, 0, nonces) == Waiting
  {
    WaitingIsQuiet(inputs, used, nonces);
  }

  // ---------------------------------------------------------------- heartbeats

  predicate IsHeartbeat(input: Input) {
    input == Timeout || (input.Line? && !input.frame.Application?)
  }

  function WithoutHeartbeats(inputs: seq<Input>): seq<Input> {
    if inputs == [] then []
    else (if IsHeartbeat(inputs[0]) then [] else [inputs[0]]) + WithoutHeartbeats(inputs[1..])
  }

  lemma {:induction false} QuietIsHeartbeat(inputs: seq<Input>, k: nat)
    requires k < |inputs| && IsApplication(inputs[k]) && forall i :: 0 <= i < k ==> IsHeartbeat(inputs[i])
    ensures WithoutHeartbeats(inputs) != [] && WithoutHeartbeats(inputs)[0] == inputs[k]
    decreases k
  {
    if k > 0 {
      QuietIsHeartbeat(inputs[1..], k - 1);
    }
  }

  /** Heartbeats are transparent: what is returned is what a stream without any would have returned. */
  lemma HeartbeatsAreTransparent(inputs: seq<Input>, nonces: Nonces, others: Nonces)
    requires OutcomeFrom(inputs, 0, nonces).Returned?
    ensures OutcomeFrom(WithoutHeartbeats(inputs), 0, others) == OutcomeFrom(inputs, 0, nonces)
  {
    var k := Stop(inputs, 0, nonces);
    DecidedBy(inputs, 0, k, nonces);
    forall i | 0 <= i < k ensures IsHeartbeat(inputs[i]) {
      assert Trouble(inputs, i, nonces).None?;
    }
    QuietIsHeartbeat(inputs, k);
  }

  // ---------------------------------------------------------------- what is written

  function PingNonces(inputs: seq<Input>): seq<string> {
    if inputs == [] then []
    else
      var last := inputs[|inputs| - 1];
      PingNonces(inputs[..|inputs| - 1]) + if last.Line? && last.frame.Ping? then [last.frame.nonce] else []
  }

  function Answers(frames: seq<Frame>): seq<string> {
    if frames == [] then []
    else
      var last := frames[|frames| - 1];
      Answers(frames[..|frames| - 1]) + if last.Pong? then [last.nonce] else []
  }

  function OwnPings(frames: seq<Frame>): seq<string> {
    if frames == [] then []
    else
      var last := frames[|frames| - 1];
      OwnPings(frames[..|frames| - 1]) + if last.Ping? then [last.nonce] else []
  }

  lemma OneMoreFrame(frames: seq<Frame>, frame: Frame)
    ensures Answers(frames + [frame]) == Answers(frames) + if frame.Pong? then [frame.nonce] else []
    ensures OwnPings(frames + [frame]) == OwnPings(frames) + if frame.Ping? then [frame.nonce] else []
  {
    assert (frames + [frame])[..|frames|] == frames;
  }

  /** Every ping is answered once, with its own nonce and in order, and every timeout sends the next
      nonce of the factory. */
  lemma {:induction false} RepliesAnswerPings(inputs: seq<Input>, nonces: Nonces)
    ensures Answers(Replies(inputs, nonces)) == PingNonces(inputs)
    ensures |OwnPings(Replies(inputs, nonces))| == Timeouts(inputs)
    ensures forall i :: 0 <= i < Timeouts(inputs) ==> OwnPings(Replies(inputs, nonces))[i] == nonces(i)
    decreases |inputs|
  {
    if inputs != [] {
      var n := |inputs| - 1;
      RepliesAnswerPings(inputs[..n], nonces);
      var before, t := Replies(inputs[..n], nonces), Timeouts(inputs[..n]);
      match inputs[n]
      case Timeout => OneMoreFrame(before, Ping(nonces(t)));
      case Line(Ping(nonce)) => OneMoreFrame(before, Pong(nonce));
      case _ => assert Replies(inputs, nonces) == before;
    }
  }

  // ---------------------------------------------------------------- one reader after another

  /** The factory after it has made `n` nonces. */
  function Later(nonces: Nonces, n: nat): Nonces {
    (i: nat) => nonces(i + n)
  }

  /** A new reader takes over after `prefix` without anyone noticing, whatever comes next. */
  ghost predicate Seamless(prefix: seq<Input>, nonces: Nonces) {
    forall rest: seq<Input> ::
      OutcomeFrom(rest, 0, Later(nonces, Timeouts(prefix))) == OutcomeFrom(prefix + rest, |prefix|, nonces)
  }

  lemma FreshReaderGoesOn(prefix: seq<Input>, rest: seq<Input>, nonces: Nonces)
    requires Timeouts(prefix) == Pongs(prefix)
    ensures OutcomeFrom(rest, 0, Later(nonces, Timeouts(prefix))) == OutcomeFrom(prefix + rest, |prefix|, nonces)
  {
    hide OutcomeFrom;
    assert [] + rest == rest;
    GoesOnAlike(prefix, [], rest, 0, Timeouts(prefix), nonces, Later(nonces, Timeouts(prefix)));
  }

  lemma LatePongFails(prefix: seq<Input>, nonces: Nonces)
    requires Timeouts(prefix) == Pongs(prefix) + 1
    ensures var rest := [Line(Pong(nonces(Pongs(prefix))))];
            && OutcomeFrom(prefix + rest, |prefix|, nonces) == Waiting
            && OutcomeFrom(rest, 0, Later(nonces, Timeouts(prefix))) == Failed(NonceMismatch)
  {
    var rest := [Line(Pong(nonces(Pongs(prefix))))];
    assert (prefix + rest)[..|prefix|] == prefix && rest[..0] == [];
  }

  /** Every frame is read by a reader of its own, which starts without an outstanding ping. That is
      seamless exactly when the one before has no ping outstanding; otherwise the late pong, although
      it is the right answer, fails the new reader. */
  lemma SeamlessExactlyWithoutPing(prefix: seq<Input>, nonces: Nonces)
    requires Quiet(prefix, |prefix|, nonces)
    ensures Seamless(prefix, nonces) <==> Outstanding(prefix, nonces).None?
  {
    assert prefix[..|prefix|] == prefix;
    AtMostOneOutstanding(prefix, |prefix|, nonces);
    if Timeouts(prefix) == Pongs(prefix) {
      forall rest: seq<Input>
        ensures OutcomeFrom(rest, 0, Later(nonces, Timeouts(prefix))) == OutcomeFrom(prefix + rest, |prefix|, nonces)
      {
        FreshReaderGoesOn(prefix, rest, nonces);
      }
    } else {
      LatePongFails(prefix, nonces);
      var rest := [Line(Pong(nonces(Pongs(prefix))))];
      assert OutcomeFrom(rest, 0, Later(nonces, Timeouts(prefix))) != OutcomeFrom(prefix + rest, |prefix|, nonces);
    }
  }
}
