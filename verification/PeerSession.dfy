/** The symmetric peer session of both runtimes (e2e.py and SessionCrypto.kt).

    Cryptography is ideal: a ciphertext is either a term that records the key, nonce, additional
    data and plaintext it was made from, or bytes that open under no key. HKDF is injective, so a
    directional key is the term it was derived from. */
module PeerSessions {
  import opened Wrappers

  type Byte = b: nat | b < 256

  // ---------------------------------------------------------------- nonces

  const PREFIX: seq<Byte> := [0x57, 0x47, 1, 0]
  const TWO_63: int := 0x8000_0000_0000_0000
  const TWO_64: int := 0x1_0000_0000_0000_0000

  /** Python's `int.to_bytes(length, "big")`, for a number that fits. */
  function ToBytes(n: nat, length: nat): (r: seq<Byte>)
    ensures |r| == length
  {
    if length == 0 then [] else ToBytes(n / 256, length - 1) + [n % 256]
  }

  /** Java's `ByteBuffer.putLong`: the eight bytes of the two's complement word, high byte first. */
  function PutLong(value: int): (r: seq<Byte>)
    requires -TWO_63 <= value < TWO_63
    ensures |r| == 8
  {
    var word := value % TWO_64;
    [word / 0x100_0000_0000_0000, word / 0x1_0000_0000_0000 % 256,
     word / 0x100_0000_0000 % 256, word / 0x1_0000_0000 % 256,
     word / 0x100_0000 % 256, word / 0x1_0000 % 256, word / 0x100 % 256, word % 256]
  }

  datatype Runtime = Python | Kotlin

  /** The counter nonce, or None where the source raises. */
  function Nonce(runtime: Runtime, sequence: int): Option<seq<Byte>>
    requires runtime == Kotlin ==> -TWO_63 <= sequence < TWO_63
  {
    match runtime
    case Python => if 0 <= sequence < TWO_64 then Some(PREFIX + ToBytes(sequence, 8)) else None
    case Kotlin => if sequence >= 0 then Some(PREFIX + PutLong(sequence)) else None
  }

  lemma {:induction false} ToBytesInjective(m: nat, n: nat, length: nat)
    requires ToBytes(m, length) == ToBytes(n, length)
    requires m < Power256(length) && n < Power256(length)
    ensures m == n
  {
    if length > 0 {
      var a, b := ToBytes(m, length), ToBytes(n, length);
      assert a[..length - 1] == ToBytes(m / 256, length - 1) && b[..length - 1] == ToBytes(n / 256, length - 1);
      assert a[length - 1] == m % 256 && b[length - 1] == n % 256;
      ToBytesInjective(m / 256, n / 256, length - 1);
    }
  }

  /** The number that bytes stand for, high byte first. */
  function Value(bytes: seq<Byte>): nat {
    if bytes == [] then 0 else 256 * Value(bytes[..|bytes| - 1]) + bytes[|bytes| - 1]
  }

  lemma {:induction false} ToBytesValue(n: nat, length: nat)
    requires n < Power256(length)
    ensures Value(ToBytes(n, length)) == n
  {
    if length > 0 {
      var b := ToBytes(n, length);
      assert b[..length - 1] == ToBytes(n / 256, length - 1) && b[length - 1] == n % 256;
      ToBytesValue(n / 256, length - 1);
    }
  }

  /** The nonce of either runtime: "WG", 1, 0, and the sequence number in eight bytes, high byte first. */
  lemma NonceLayout(runtime: Runtime, sequence: nat)
    requires sequence < if runtime == Kotlin then TWO_63 else TWO_64
    ensures var n := Nonce(runtime, sequence);
            && n.Some? && |n.value| == 12 && n.value[..4] == [0x57, 0x47, 1, 0] && Value(n.value[4..]) == sequence
  {
    if runtime == Kotlin {
      EncodersAgree(sequence);
    }
    Power256At8();
    ToBytesValue(sequence, 8);
    assert (PREFIX + ToBytes(sequence, 8))[4..] == ToBytes(sequence, 8);
  }

  function Power256(n: nat): nat {
    if n == 0 then 1 else 256 * Power256(n - 1)
  }

  lemma Power256At8()
    ensures Power256(8) == TWO_64
  {
    assert Power256(4) == 0x1_0000_0000;
  }

  lemma ShiftByByte(n: nat)
    ensures n / 0x100 / 256 == n / 0x1_0000
    ensures n / 0x1_0000 / 256 == n / 0x100_0000
    ensures n / 0x100_0000 / 256 == n / 0x1_0000_0000
    ensures n / 0x1_0000_0000 / 256 == n / 0x100_0000_0000
    ensures n / 0x100_0000_0000 / 256 == n / 0x1_0000_0000_0000
    ensures n / 0x1_0000_0000_0000 / 256 == n / 0x100_0000_0000_0000
  {
  }

  /** Both encoders write the same eight bytes wherever both are defined. */
  lemma EncodersAgree(sequence: nat)
    requires sequence < TWO_63
    ensures Nonce(Python, sequence) == Nonce(Kotlin, sequence)
  {
    var n := sequence;
    ShiftByByte(n);
    assert n % TWO_64 == n;
    var n2, n4 := n / 0x1_0000, n / 0x1_0000_0000;
    var n6, n7 := n / 0x1_0000_0000_0000, n / 0x100_0000_0000_0000;
    assert n7 % 256 == n7;
    var high := [n7, n6 % 256];
    assert ToBytes(n6, 2) == high;
    var middle := high + [n / 0x100_0000_0000 % 256] + [n4 % 256];
    assert ToBytes(n4, 4) == middle;
    var low := middle + [n / 0x100_0000 % 256] + [n2 % 256];
    assert ToBytes(n2, 6) == low;
    assert ToBytes(n, 8) == low + [n / 0x100 % 256] + [n % 256];
    assert ToBytes(n, 8) == PutLong(n);
  }

  /** No two sequence numbers share a nonce, over the whole range of either runtime and across them. */
  lemma NonceInjective(r1: Runtime, m: nat, r2: Runtime, n: nat)
    requires m < (if r1 == Kotlin then TWO_63 else TWO_64) && n < (if r2 == Kotlin then TWO_63 else TWO_64)
    requires Nonce(r1, m) == Nonce(r2, n)
    ensures m == n
  {
    if r1 == Kotlin {
      EncodersAgree(m);
    }
    if r2 == Kotlin {
      EncodersAgree(n);
    }
    var a, b := PREFIX + ToBytes(m, 8), PREFIX + ToBytes(n, 8);
    assert a == b;
    assert a[4..] == ToBytes(m, 8) && b[4..] == ToBytes(n, 8);
    Power256At8();
    ToBytesInjective(m, n, 8);
  }

  // ---------------------------------------------------------------- frames

  /** The application bodies of a session. Only the requests that concern operations are told apart. */
  datatype Body =
    | UserAction(wispId: string, operationId: string)
    | FileBegin(wispId: string, operationId: string)
    | OperationResume(wispId: string, operationId: string)
    | Other(text: string)

  datatype Direction = AndroidToWisp | WispToAndroid

  /** HKDF of the master secret, salted with the session id and labelled with the direction. */
  datatype SessionKey = SessionKey(master: nat, sessionId: string, direction: Direction)

  /** The authenticated routing object; its JSON text is not modelled. */
  datatype Aad = Aad(sessionId: string, sender: string, recipient: string, sequence: int)

  datatype Ciphertext =
    | Sealed(key: SessionKey, nonce: seq<Byte>, aad: Aad, body: Body)
    | Garbage(bytes: seq<Byte>)

  datatype Envelope = Envelope(version: int, kind: string, sessionId: string, sender: string, recipient: string,
                               sequence: int, ciphertext: Ciphertext)

  // ---------------------------------------------------------------- one endpoint of a session

  /** The fields of a `PeerSession` object; only the two sequence numbers change. */
  datatype Session = Session(runtime: Runtime, sessionId: string, localId: string, peerId: string, createdAt: real,
                             sendKey: SessionKey, receiveKey: SessionKey, sendSequence: int, receiveSequence: int)
  {
    /** A Kotlin sequence number is a 64-bit `Long`. */
    predicate Valid() {
      runtime == Kotlin ==> -TWO_63 <= sendSequence < TWO_63 && -TWO_63 <= receiveSequence < TWO_63
    }
  }

  /** Seconds in Python, milliseconds in Kotlin. */
  function Lifetime(runtime: Runtime): real {
    match runtime
    case Python => 1800.0
    case Kotlin => 1800000.0
  }

  predicate Live(s: Session, now: real) {
    now < s.createdAt + Lifetime(s.runtime)
  }

  /** `sequence += 1`, which wraps around in a `Long`. */
  function Advance(runtime: Runtime, sequence: int): int {
    if runtime == Kotlin && sequence == TWO_63 - 1 then -TWO_63 else sequence + 1
  }

  predicate CanSend(s: Session, now: real)
    requires s.Valid()
  {
    Live(s, now) && Nonce(s.runtime, s.sendSequence).Some?
  }

  /** The frame that carries `body` as message number `sequence` from one endpoint to the other. */
  function Frame(key: SessionKey, sessionId: string, sender: string, recipient: string, sequence: int,
                 nonce: seq<Byte>, body: Body): Envelope {
    Envelope(1, "session_envelope", sessionId, sender, recipient, sequence,
             Sealed(key, nonce, Aad(sessionId, sender, recipient, sequence), body))
  }

  function NextFrame(s: Session, body: Body): Envelope
    requires s.Valid() && Nonce(s.runtime, s.sendSequence).Some?
  {
    Frame(s.sendKey, s.sessionId, s.localId, s.peerId, s.sendSequence, Nonce(s.runtime, s.sendSequence).value, body)
  }

  /** A frame is accepted only if it is live, routed to this endpoint of this session, carries the
      exact next sequence number, and opens under the receive key for that number. */
  predicate Accepts(s: Session, e: Envelope, now: real)
    requires s.Valid()
  {
    && Live(s, now)
    && e.version == 1 && e.kind == "session_envelope"
    && e.sessionId == s.sessionId && e.sender == s.peerId && e.recipient == s.localId
    && e.sequence == s.receiveSequence
    && Nonce(s.runtime, s.receiveSequence).Some?
    && e.ciphertext.Sealed?
    && e.ciphertext.key == s.receiveKey
    && e.ciphertext.nonce == Nonce(s.runtime, s.receiveSequence).value
    && e.ciphertext.aad == Aad(s.sessionId, s.peerId, s.localId, s.receiveSequence)
  }

  datatype Failure = SessionExpired | InvalidRoute | InvalidSequence | InvalidAuthentication

  class PeerSession {
    const runtime: Runtime
    const sessionId: string
    const localId: string
    const peerId: string
    const createdAt: real
    const sendKey: SessionKey
    const receiveKey: SessionKey
    var sendSequence: int
    var receiveSequence: int

    function View(): Session
      reads this
    {
      Session(runtime, sessionId, localId, peerId, createdAt, sendKey, receiveKey, sendSequence, receiveSequence)
    }

    constructor (runtime: Runtime, sessionId: string, localId: string, peerId: string, master: nat, createdAt: real,
        androidSide: bool)
      ensures View() == Opened(runtime, sessionId, localId, peerId, master, createdAt, androidSide)
      ensures View().Valid()
    {
      this.runtime, this.sessionId, this.localId, this.peerId, this.createdAt :=
          runtime, sessionId, localId, peerId, createdAt;
      var androidToWisp, wispToAndroid :=
          SessionKey(master, sessionId, AndroidToWisp), SessionKey(master, sessionId, WispToAndroid);
      sendKey := if androidSide then androidToWisp else wispToAndroid;
      receiveKey := if androidSide then wispToAndroid else androidToWisp;
      sendSequence, receiveSequence := 0, 0;
    }

    method Encrypt(body: Body, now: real) returns (result: Result<Envelope, Failure>)
      requires View().Valid()
      modifies this`sendSequence
      ensures View().Valid()
      ensures result.Ok? <==> old(CanSend(View(), now))
      ensures result.Ok? <==>
                && now < createdAt + (if runtime == Python then 1800.0 else 1800000.0)
                && 0 <= old(sendSequence) < if runtime == Python then 0x1_0000_0000_0000_0000 else 0x8000_0000_0000_0000
      ensures result.Ok? ==>
                && result.value.version == 1 && result.value.kind == "session_envelope"
                && result.value.sessionId == sessionId
                && result.value.sender == localId && result.value.recipient == peerId
                && result.value.sequence == old(sendSequence)
                && result.value.ciphertext.Sealed? && result.value.ciphertext.key == sendKey
                && result.value.ciphertext.body == body
                && result.value.ciphertext.aad == Aad(sessionId, localId, peerId, old(sendSequence))
                && Some(result.value.ciphertext.nonce) == Nonce(runtime, old(sendSequence))
      ensures result.Ok? ==>
                result.value == old(NextFrame(View(), body)) && sendSequence == Advance(runtime, old(sendSequence))
      ensures result.Err? ==> sendSequence == old(sendSequence)
    {
      if now >= createdAt + Lifetime(runtime) {
        return Err(SessionExpired);
      }
      var sequence := sendSequence;
      var nonce := Nonce(runtime, sequence);
      if nonce.None? {
        return Err(InvalidSequence);
      }
      var ciphertext := Sealed(sendKey, nonce.value, Aad(sessionId, localId, peerId, sequence), body);
      sendSequence := Advance(runtime, sendSequence);
      return Ok(Envelope(1, "session_envelope", sessionId, localId, peerId, sequence, ciphertext));
    }

    method Decrypt(envelope: Envelope, now: real) returns (result: Result<Body, Failure>)
      requires View().Valid()
      modifies this`receiveSequence
      ensures View().Valid()
      ensures result.Ok? <==> old(Accepts(View(), envelope, now))
      ensures result.Ok? <==>
                && now < createdAt + (if runtime == Python then 1800.0 else 1800000.0)
                && envelope.version == 1 && envelope.kind == "session_envelope" && envelope.sessionId == sessionId
                && envelope.sender == peerId && envelope.recipient == localId
                && envelope.sequence == old(receiveSequence)
                && envelope.ciphertext.Sealed? && envelope.ciphertext.key == receiveKey
                && envelope.ciphertext.aad == Aad(sessionId, peerId, localId, envelope.sequence)
                && Nonce(runtime, old(receiveSequence)) == Some(envelope.ciphertext.nonce)
      ensures result.Ok? ==>
                result.value == envelope.ciphertext.body && receiveSequence == Advance(runtime, old(receiveSequence))
      ensures result.Err? ==> receiveSequence == old(receiveSequence)
    {
      if now >= createdAt + Lifetime(runtime) {
        return Err(SessionExpired);
      }
      if envelope.version != 1 || envelope.kind != "session_envelope" || envelope.sessionId != sessionId
         || envelope.sender != peerId || envelope.recipient != localId {
        return Err(InvalidRoute);
      }
      var sequence := envelope.sequence;
      if sequence != receiveSequence {
        return Err(InvalidSequence);
      }
      var nonce := Nonce(runtime, sequence);
      if nonce.None? {
        return Err(InvalidAuthentication);
      }
      match envelope.ciphertext
      case Sealed(key, n, aad, body) =>
        if key != receiveKey || n != nonce.value || aad != Aad(sessionId, peerId, localId, sequence) {
          return Err(InvalidAuthentication);
        }
        receiveSequence := Advance(runtime, receiveSequence);
        return Ok(body);
      case Garbage(_) =>
        return Err(InvalidAuthentication);
    }
  }

  /** The state of a new session object. */
  function Opened(runtime: Runtime, sessionId: string, localId: string, peerId: string, master: nat, createdAt: real,
                  androidSide: bool): Session {
    var a, w := SessionKey(master, sessionId, AndroidToWisp), SessionKey(master, sessionId, WispToAndroid);
    Session(runtime, sessionId, localId, peerId, createdAt,
            if androidSide then a else w, if androidSide then w else a, 0, 0)
  }

  // ---------------------------------------------------------------- the Wisp's slot for one peer

  /** What a frame does to the entry of its sender in `_peer_sessions`, and the body that comes out of
      it: a frame for no session changes nothing, and a rejected one costs the session. */
  function SlotAfter(slot: Option<Session>, frame: Envelope, now: real): (Option<Session>, Option<Body>)
    requires slot.Some? ==> slot.value.Valid()
  {
    if slot.None? then (None, None)
    else
      var s := slot.value;
      if Accepts(s, frame, now) then
        (Some(s.(receiveSequence := Advance(s.runtime, s.receiveSequence))), Some(frame.ciphertext.body))
      else (None, None)
  }

  /** `_peer_sessions[peerId]` in the Python runtime. */
  class PeerSlot {
    const localId: string
    const peerId: string
    var session: PeerSession?

    constructor (localId: string, peerId: string)
      ensures View() == None && this.localId == localId && this.peerId == peerId
    {
      this.localId, this.peerId, session := localId, peerId, null;
    }

    function View(): Option<Session>
      reads this, session
    {
      if session == null then None else Some(session.View())
    }

    /** `_handle_envelope`: every `session_init` gets a new object, whether it was seen before or not. */
    method HandleEnvelope(sessionId: string, master: nat, now: real)
      modifies this
      ensures View() == Some(Opened(Python, sessionId, localId, peerId, master, now, false)) && fresh(session)
    {
      session := new PeerSession(Python, sessionId, localId, peerId, master, now, false);
    }

    /** `_handle_session_envelope` up to the dispatch of the body. */
    method HandleSessionEnvelope(frame: Envelope, now: real) returns (body: Option<Body>)
      requires View().Some? ==> View().value.Valid()
      modifies this, session
      ensures (View(), body) == SlotAfter(old(View()), frame, now)
      ensures body.Some? <==> old(session != null && Accepts(session.View(), frame, now))
      ensures body.Some? ==> body.value == frame.ciphertext.body && session == old(session)
      ensures body.None? ==> session == null
    {
      if session == null { return None; }
      var result := session.Decrypt(frame, now);
      if result.Err? {
        session := null;
        return None;
      }
      body := Some(result.value);
    }

    /** A `session_reset` that names this runtime as its recipient. */
    method HandleReset()
      modifies this
      ensures View() == None
    {
      session := null;
    }
  }
}
