/** One file on the bulk lane: Android encrypts it (BulkFileCrypto.kt), the relay copies the
    ciphertext (service.py) and the Wisp decrypts it (client.py), each in chunks of its own.

    AES-GCM is a keystream addressed by position and a tag over the additional data and the
    ciphertext; both are arbitrary functions. */
module BulkTransfer {
  import opened Wrappers
  import opened PeerSessions
  import opened Transcripts
  import BulkPairing

  type Octet = bv8

  type Tag = t: seq<Octet> | |t| == 16 witness [0, 0, 0, 0, 0, 0, 0, 0, 0, 0, 0, 0, 0, 0, 0, 0]

  const CHUNK: nat := 256 * 1024

  /** HKDF of a directional session key, salted with the transfer. */
  datatype BulkKey = BulkKey(sessionKey: SessionKey, transferId: string)

  /** A key together with the nonce of one file. */
  datatype FileKey = FileKey(key: BulkKey, nonce: seq<Byte>)

  datatype Gcm = Gcm(stream: (FileKey, nat) -> Octet, tag: (FileKey, seq<Byte>, seq<Octet>) -> Tag)

  datatype Failure = Incomplete | InvalidTag | InvalidNonce | LengthChanged

  // ---------------------------------------------------------------- the cipher on whole files

  function Mask(g: Gcm, k: FileKey, position: nat, octet: Octet): Octet {
    octet ^ g.stream(k, position)
  }

  /** Encryption and decryption alike. */
  function Masked(g: Gcm, k: FileKey, from: nat, data: seq<Octet>): (r: seq<Octet>)
    ensures |r| == |data|
  {
    seq(|data|, i requires 0 <= i < |data| => Mask(g, k, from + i, data[i]))
  }

  function Encrypted(g: Gcm, k: FileKey, aad: seq<Byte>, content: seq<Octet>): (r: seq<Octet>)
    ensures |r| == |content| + 16
  {
    var ciphertext := Masked(g, k, 0, content);
    ciphertext + g.tag(k, aad, ciphertext)
  }

  /** Reading a file of `size` octets from the front of a stream. */
  function Decrypted(g: Gcm, k: FileKey, aad: seq<Byte>, size: nat, stream: seq<Octet>): Result<seq<Octet>, Failure> {
    if |stream| < size + 16 then Err(Incomplete)
    else if g.tag(k, aad, stream[..size]) != stream[size..size + 16] then Err(InvalidTag)
    else Ok(Masked(g, k, 0, stream[..size]))
  }

  /** What a relay that has to copy `length` octets passes on of a stream: all of them, or the whole
      chunks of a stream that ends early. */
  function Relayed(length: nat, stream: seq<Octet>): seq<Octet> {
    if length <= |stream| then stream[..length] else stream[..|stream| / CHUNK * CHUNK]
  }

  // ---------------------------------------------------------------- the cipher object

  lemma MaskedConcat(g: Gcm, k: FileKey, a: seq<Octet>, b: seq<Octet>)
    ensures Masked(g, k, 0, a + b) == Masked(g, k, 0, a) + Masked(g, k, |a|, b)
  {
  }

  /** The cipher object of both crypto libraries. It may hold back any part of its output; `input`
      stands for the position and the running hash that it keeps. */
  class StreamCipher {
    const g: Gcm
    const k: FileKey
    const aad: seq<Byte>
    var input: seq<Octet>
    var held: seq<Octet>
    ghost var released: seq<Octet>

    ghost predicate Valid()
      reads this
    {
      released + held == Masked(g, k, 0, input)
    }

    constructor (g: Gcm, k: FileKey, aad: seq<Byte>)
      ensures Valid() && input == [] && released == []
      ensures this.g == g && this.k == k && this.aad == aad
    {
      this.g, this.k, this.aad := g, k, aad;
      input, held, released := [], [], [];
    }

    method Update(chunk: seq<Octet>) returns (output: seq<Octet>)
      requires Valid()
      modifies this
      ensures Valid() && input == old(input) + chunk && released == old(released) + output
    {
      MaskedConcat(g, k, input, chunk);
      held := held + Masked(g, k, |input|, chunk);
      input := input + chunk;
      var n: nat :| n <= |held|;
      output, held := held[..n], held[n..];
      released := released + output;
    }

    /** `doFinal` of an encryption: what is held back, and the tag. */
    method FinishEncrypting() returns (output: seq<Octet>)
      requires Valid()
      ensures released + output == Encrypted(g, k, aad, input)
    {
      output := held + g.tag(k, aad, Masked(g, k, 0, input));
    }

    /** `finalize_with_tag` of a decryption. */
    method FinishDecrypting(tag: seq<Octet>) returns (result: Result<seq<Octet>, Failure>)
      requires Valid()
      ensures result.Ok? <==> tag == g.tag(k, aad, input)
      ensures result.Ok? ==> released + result.value == Masked(g, k, 0, input)
      ensures result.Err? ==> result.error == InvalidTag
    {
      result := if tag == g.tag(k, aad, input) then Ok(held) else Err(InvalidTag);
    }
  }

  // ---------------------------------------------------------------- the three loops

  /** `PreparedBulkUpload.encryptTo`: `content` is what the file holds when it is read. */
  method EncryptTo(g: Gcm, k: FileKey, context: BulkContext, content: seq<Octet>)
    returns (output: seq<Octet>, result: Result<nat, Failure>)
    ensures output == Encrypted(g, k, KotlinBulkAad(context), content)
    ensures |output| == |content| + 16 && output[|content|..] == g.tag(k, KotlinBulkAad(context), output[..|content|])
    ensures forall i :: 0 <= i < |content| ==> output[i] == content[i] ^ g.stream(k, i)
    ensures result == if |content| == context.size then Ok(context.size + 16) else Err(LengthChanged)
  {
    var cipher := new StreamCipher(g, k, KotlinBulkAad(context));
    var position, written := 0, 0;
    output := [];
    while position < |content|
      invariant 0 <= position <= |content|
      invariant cipher.Valid() && cipher.input == content[..position] && cipher.released == output
          && written == |output|
      invariant cipher.g == g && cipher.k == k && cipher.aad == KotlinBulkAad(context)
    {
      var count: nat :| 1 <= count <= CHUNK && position + count <= |content|;
      var piece := cipher.Update(content[position..position + count]);
      assert content[..position] + content[position..position + count] == content[..position + count];
      output, written := output + piece, written + |piece|;
      position := position + count;
    }
    assert content[..position] == content;
    var final := cipher.FinishEncrypting();
    output, written := output + final, written + |final|;
    result := if written == context.size + 16 then Ok(written) else Err(LengthChanged);
  }

  lemma NextChunk(stream: seq<Octet>, consumed: nat, n: nat)
    requires consumed + n <= |stream|
    ensures stream[..consumed] + stream[consumed..consumed + n] == stream[..consumed + n]
    ensures consumed % CHUNK == 0 && n == CHUNK ==> (consumed + n) % CHUNK == 0
  {
  }

  lemma RelayedWhole(length: nat, stream: seq<Octet>)
    requires length <= |stream|
    ensures Relayed(length, stream) == stream[..length]
  {
  }

  lemma RelayedShort(length: nat, stream: seq<Octet>, consumed: nat)
    requires consumed % CHUNK == 0 && consumed <= |stream| < length
    requires |stream| - consumed < if length - consumed < CHUNK then length - consumed else CHUNK
    ensures Relayed(length, stream) == stream[..consumed] == stream[..|stream| / 262144 * 262144]
  {
  }

  /** `_copy_bulk_ciphertext`; `complete` is false when `readexactly` raises. */
  method CopyBulkCiphertext(length: nat, stream: seq<Octet>)
    returns (forwarded: seq<Octet>, consumed: nat, complete: bool)
    ensures forwarded == Relayed(length, stream)
    ensures complete <==> length <= |stream|
    ensures complete ==> consumed == length && forwarded == stream[..length]
    ensures !complete ==> forwarded == stream[..|stream| / 262144 * 262144]
  {
    hide Relayed;
    var remaining: nat := length;
    forwarded, consumed := [], 0;
    while remaining > 0
      invariant consumed + remaining == length && consumed <= |stream|
      invariant forwarded == stream[..consumed]
      invariant remaining > 0 ==> consumed % CHUNK == 0
    {
      var n := if remaining < CHUNK then remaining else CHUNK;
      if |stream| - consumed < n {
        RelayedShort(length, stream, consumed);
        return forwarded, consumed, false;
      }
      NextChunk(stream, consumed, n);
      forwarded := forwarded + stream[consumed..consumed + n];
      consumed, remaining := consumed + n, remaining - n;
    }
    RelayedWhole(length, stream);
    complete := true;
  }

  /** The loop of `_receive_bulk_file`. */
  method DecryptBody(decryptor: StreamCipher, size: nat, stream: seq<Octet>)
    returns (target: seq<Octet>, consumed: nat, complete: bool)
    requires decryptor.Valid() && decryptor.input == [] && decryptor.released == []
    modifies decryptor
    ensures complete <==> size <= |stream|
    ensures decryptor.Valid() && decryptor.released == target
    ensures complete ==> consumed == size && decryptor.input == stream[..size]
  {
    var remaining: nat := size;
    target, consumed := [], 0;
    while remaining > 0
      invariant consumed + remaining == size && consumed <= |stream|
      invariant decryptor.Valid() && decryptor.input == stream[..consumed] && decryptor.released == target
    {
      var n := if remaining < CHUNK then remaining else CHUNK;
      if |stream| - consumed < n {
        return target, consumed, false;
      }
      var plaintext := decryptor.Update(stream[consumed..consumed + n]);
      NextChunk(stream, consumed, n);
      target := target + plaintext;
      consumed, remaining := consumed + n, remaining - n;
    }
    complete := true;
  }

  /** The rest of `_receive_bulk_file`: the tag and the length. */
  method DecryptFile(g: Gcm, k: FileKey, aad: seq<Byte>, size: nat, stream: seq<Octet>)
    returns (target: seq<Octet>, consumed: nat, result: Result<nat, Failure>)
    ensures Decrypted(g, k, aad, size, stream) == if result.Ok? then Ok(target) else Err(result.error)
    ensures result.Ok? ==> result.value == size && consumed == size + 16
  {
    var decryptor := new StreamCipher(g, k, aad);
    var complete;
    target, consumed, complete := DecryptBody(decryptor, size, stream);
    if !complete || |stream| - consumed < 16 {
      return target, consumed, Err(Incomplete);
    }
    var final := decryptor.FinishDecrypting(stream[consumed..consumed + 16]);
    consumed := consumed + 16;
    if final.Err? {
      return target, consumed, Err(InvalidTag);
    }
    target := target + final.value;
    if |target| != size {
      return target, consumed, Err(LengthChanged);
    }
    result := Ok(|target|);
  }

  /** `_receive_bulk_file` once the relay is ready. A transfer is admitted only with a ciphertext that
      is 16 octets longer than its file (client.py:610-617). */
  method ReceiveBulkFile(g: Gcm, k: FileKey, context: BulkContext, ciphertextSize: nat, stream: seq<Octet>)
    returns (target: seq<Octet>, consumed: nat, result: Result<nat, Failure>)
    requires ciphertextSize == context.size + 16
    ensures |k.nonce| != 12 ==> result == Err(InvalidNonce) && consumed == 0
    ensures |k.nonce| == 12 ==>
              Decrypted(g, k, PythonBulkAad(context), context.size, stream) == if result.Ok? then Ok(target)
                  else Err(result.error)
    ensures result.Ok? ==> result.value == context.size && consumed == ciphertextSize
  {
    if |k.nonce| != 12 {
      return [], 0, Err(InvalidNonce);
    }
    target, consumed, result := DecryptFile(g, k, PythonBulkAad(context), ciphertextSize - 16, stream);
  }

  // ---------------------------------------------------------------- the transfer

  lemma MaskTwice(g: Gcm, k: FileKey, position: nat, octet: Octet)
    ensures Mask(g, k, position, Mask(g, k, position, octet)) == octet
  {
  }

  lemma MaskedTwice(g: Gcm, k: FileKey, from: nat, data: seq<Octet>)
    ensures Masked(g, k, from, Masked(g, k, from, data)) == data
  {
    forall i | 0 <= i < |data| ensures Masked(g, k, from, Masked(g, k, from, data))[i] == data[i] {
      MaskTwice(g, k, from + i, data[i]);
    }
  }

  /** Decryption is the exact inverse of encryption: a file comes out of a stream if and only if the
      stream begins with its encryption. */
  lemma DecryptsExactlyWhatWasEncrypted(g: Gcm, k: FileKey, aad: seq<Byte>, size: nat, stream: seq<Octet>,
      file: seq<Octet>)
    ensures Decrypted(g, k, aad, size, stream) == Ok(file) <==> |file| == size && Encrypted(g, k, aad, file) <= stream
  {
    if Decrypted(g, k, aad, size, stream) == Ok(file) {
      MaskedTwice(g, k, 0, stream[..size]);
      assert stream[..size + 16] == stream[..size] + stream[size..size + 16];
    }
    if |file| == size && Encrypted(g, k, aad, file) <= stream {
      MaskedTwice(g, k, 0, file);
      var ciphertext := Masked(g, k, 0, file);
      assert stream[..size] == Encrypted(g, k, aad, file)[..size] == ciphertext;
      assert stream[size..size + 16] == Encrypted(g, k, aad, file)[size..] == g.tag(k, aad, ciphertext);
    }
  }

  /** The whole lane, for any two connections that the relay has paired: when the sender announced
      the encryption of `content` and the receiver expects that file, the receiver gets `content`
      and no octet of what follows. */
  lemma BulkFileIsDelivered(run: BulkPairing.Run, s: BulkPairing.State, i: nat, g: Gcm, k: FileKey,
                            context: BulkContext, content: seq<Octet>, later: seq<Octet>)
    requires BulkPairing.Reaches(run, s) && i < |s.pairs|
    requires |content| == context.size && s.pairs[i].receiver.length == context.size + 16
    ensures var stream := Encrypted(g, k, KotlinBulkAad(context), content) + later;
            var copy := Relayed(s.pairs[i].sender.length, stream);
            && |copy| == context.size + 16
            && Decrypted(g, k, PythonBulkAad(context), context.size, copy) == Ok(content)
  {
    BulkPairing.PairsMatch(run, s, i);
    RuntimesAgree([Mark(BulkFile)] + (Ids(context) + [Decimal(context.size)]));
    var encrypted := Encrypted(g, k, KotlinBulkAad(context), content);
    assert Relayed(context.size + 16, encrypted + later) == encrypted;
    DecryptsExactlyWhatWasEncrypted(g, k, PythonBulkAad(context), context.size, encrypted, content);
  }

  /** A file that a sender encrypted. */
  datatype Upload = Upload(key: FileKey, context: BulkContext, content: seq<Octet>)

  /** The tag of this ciphertext was computed for upload `u`. */
  predicate TagOf(g: Gcm, u: Upload, k: FileKey, aad: seq<Byte>, ciphertext: seq<Octet>) {
    u.key == k && KotlinBulkAad(u.context) == aad && Masked(g, k, 0, u.content) == ciphertext
  }

  /** A tag that fits a ciphertext although it was computed for none of the uploads. */
  predicate Forged(g: Gcm, uploads: set<Upload>, k: FileKey, aad: seq<Byte>, ciphertext: seq<Octet>, tag: Tag) {
    g.tag(k, aad, ciphertext) == tag && forall u :: u in uploads ==> !TagOf(g, u, k, aad, ciphertext)
  }

  lemma TagOfSameFile(g: Gcm, u: Upload, k: FileKey, expected: BulkContext, ciphertext: seq<Octet>)
    requires NulFree(Ids(expected))
    ensures TagOf(g, u, k, PythonBulkAad(expected), ciphertext)
            <==> u == Upload(k, expected, Masked(g, k, 0, ciphertext))
  {
    BulkAadMatches(expected, u.context);
    MaskedTwice(g, k, 0, u.content);
    MaskedTwice(g, k, 0, ciphertext);
  }

  /** Whatever arrives: a file that a receiver accepts is one that was uploaded under its key for the
      context it expects, or else, and only then, its tag is forged. */
  lemma AcceptedOrForged(g: Gcm, uploads: set<Upload>, k: FileKey, expected: BulkContext, stream: seq<Octet>,
      file: seq<Octet>)
    requires Decrypted(g, k, PythonBulkAad(expected), expected.size, stream) == Ok(file)
    requires NulFree(Ids(expected))
    ensures Upload(k, expected, file) in uploads
            <==> !Forged(g, uploads, k, PythonBulkAad(expected), stream[..expected.size],
                         stream[expected.size..expected.size + 16])
  {
    var ciphertext := stream[..expected.size];
    forall u ensures TagOf(g, u, k, PythonBulkAad(expected), ciphertext) <==> u == Upload(k, expected, file) {
      TagOfSameFile(g, u, k, expected, ciphertext);
    }
  }

  /** A file that shrank while it was sent is never accepted; the sender notices any change. */
  lemma ShorterFileIsRefused(g: Gcm, k: FileKey, aad: seq<Byte>, size: nat, content: seq<Octet>)
    requires |content| < size
    ensures Decrypted(g, k, aad, size, Relayed(size + 16, Encrypted(g, k, aad, content))) == Err(Incomplete)
  {
    var n := |content| + 16;
    assert n / CHUNK * CHUNK <= n;
  }
}
