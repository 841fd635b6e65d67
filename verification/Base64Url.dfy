/** The hand-written base64url codec of the Android runtime (E2EEnvelope.kt), which implements
    section 5 of RFC 4648 without padding.

    The loops work on Kotlin's 32-bit `Int`, modelled as `bv32`, with the operators the source
    uses. The meaning of a text and of a byte array is the sequence of bits it stands for, written as
    two-bit digits because every boundary in the format falls on an even bit; the two loops are proved
    to preserve that sequence, and both round trips follow from it. */
module Base64Url {
  import opened Wrappers

  type Digits = seq<bv32>

  const UPPER := "ABCDEFGHIJKLM" + "NOPQRSTUVWXYZ"
  const LOWER := "abcdefghijklm" + "nopqrstuvwxyz"
  const ALPHABET: string := UPPER + LOWER + "0123456789-_"

  // ---------------------------------------------------------------- the alphabet

  lemma UpperAt(i: int)
    requires 0 <= i < 26
    ensures |UPPER| == 26 && UPPER[i] as int == i + 65
  {
    if i < 13 {
      assert UPPER[i] == "ABCDEFGHIJKLM"[i];
    } else {
      assert UPPER[i] == "NOPQRSTUVWXYZ"[i - 13];
    }
  }

  lemma LowerAt(i: int)
    requires 0 <= i < 26
    ensures |LOWER| == 26 && LOWER[i] as int == i + 97
  {
    if i < 13 {
      assert LOWER[i] == "abcdefghijklm"[i];
    } else {
      assert LOWER[i] == "nopqrstuvwxyz"[i - 13];
    }
  }

  lemma AlphabetAt(i: int)
    requires 0 <= i < 64
    ensures |ALPHABET| == 64
    ensures ALPHABET[i] as int ==
            if i < 26 then i + 65 else if i < 52 then i + 71 else if i < 62 then i - 4 else if i == 62 then 45 else 95
  {
    if i < 26 {
      UpperAt(i);
      LowerAt(0);
      assert ALPHABET[i] == UPPER[i];
    } else if i < 52 {
      UpperAt(0);
      LowerAt(i - 26);
      assert ALPHABET[i] == LOWER[i - 26];
    } else {
      UpperAt(0);
      LowerAt(0);
      assert ALPHABET[i] == "0123456789-_"[i - 52];
    }
  }

  lemma IndexInRange(k: bv32)
    requires k < 64
    ensures 0 <= (k as int) < 64 && |ALPHABET| == 64
  {
    AlphabetAt(0);
  }

  function Symbol(k: bv32): char
    requires k < 64
  {
    IndexInRange(k);
    ALPHABET[k as int]
  }

  lemma SymbolInjective(j: bv32, k: bv32)
    requires j < 64 && k < 64 && Symbol(j) == Symbol(k)
    ensures j == k
  {
    IndexInRange(j);
    IndexInRange(k);
    AlphabetAt(j as int);
    AlphabetAt(k as int);
  }

  /** `alphabet.indexOf(character)`, searching from position `k`; None stands for -1. */
  function IndexFrom(c: char, k: bv32): (r: Option<bv32>)
    requires k <= 64
    ensures r.Some? ==> r.value < 64 && Symbol(r.value) == c
    ensures r.None? ==> forall j: bv32 :: k <= j < 64 ==> Symbol(j) != c
    decreases 64 - k
  {
    if k == 64 then None
    else if Symbol(k) == c then Some(k)
    else IndexFrom(c, k + 1)
  }

  function IndexOf(c: char): (r: Option<bv32>)
    ensures r.Some? ==> r.value < 64 && Symbol(r.value) == c
  {
    IndexFrom(c, 0)
  }

  lemma IndexOfSymbol(k: bv32)
    requires k < 64
    ensures IndexOf(Symbol(k)) == Some(k)
  {
    var r := IndexFrom(Symbol(k), 0);
    assert r.Some?;
    SymbolInjective(r.value, k);
  }

  // ---------------------------------------------------------------- digit sequences

  /** The three digits of a symbol's value. */
  function SextetDigits(v: bv32): Digits {
    [(v >> 4) & 3, (v >> 2) & 3, v & 3]
  }

  function ByteDigits(b: bv8): Digits {
    [(b as bv32 >> 6) & 3, (b as bv32 >> 4) & 3, (b as bv32 >> 2) & 3, b as bv32 & 3]
  }

  predicate Valid(text: string) {
    forall i :: 0 <= i < |text| ==> IndexOf(text[i]).Some?
  }

  /** The digits a base64url text stands for, most significant first. */
  function TextDigits(text: string): (r: Digits)
    requires Valid(text)
    ensures |r| == 3 * |text|
  {
    if text == [] then [] else TextDigits(text[..|text| - 1]) + SextetDigits(IndexOf(text[|text| - 1]).value)
  }

  /** The digits of a byte array, most significant first. */
  function DataDigits(data: seq<bv8>): (r: Digits)
    ensures |r| == 4 * |data|
  {
    if data == [] then [] else DataDigits(data[..|data| - 1]) + ByteDigits(data[|data| - 1])
  }

  ghost predicate AllZero(digits: Digits) {
    forall i :: 0 <= i < |digits| ==> digits[i] == 0
  }

  lemma TextDigitsSnoc(text: string, k: bv32)
    requires Valid(text) && k < 64
    ensures Valid(text + [Symbol(k)])
    ensures TextDigits(text + [Symbol(k)]) == TextDigits(text) + SextetDigits(k)
  {
    IndexOfSymbol(k);
    assert (text + [Symbol(k)])[..|text|] == text;
  }

  lemma DataDigitsSnoc(data: seq<bv8>, b: bv8)
    ensures DataDigits(data + [b]) == DataDigits(data) + ByteDigits(b)
  {
    assert (data + [b])[..|data|] == data;
  }

  lemma ByteDigitsInjective(a: bv8, b: bv8)
    requires ByteDigits(a) == ByteDigits(b)
    ensures a == b
  {
    assert ByteDigits(a)[0] == ByteDigits(b)[0] && ByteDigits(a)[1] == ByteDigits(b)[1];
    assert ByteDigits(a)[2] == ByteDigits(b)[2] && ByteDigits(a)[3] == ByteDigits(b)[3];
  }

  lemma SextetDigitsInjective(v: bv32, w: bv32)
    requires v < 64 && w < 64 && SextetDigits(v) == SextetDigits(w)
    ensures v == w
  {
    assert SextetDigits(v)[0] == SextetDigits(w)[0];
    assert SextetDigits(v)[1] == SextetDigits(w)[1];
    assert SextetDigits(v)[2] == SextetDigits(w)[2];
  }

  /** Byte arrays with the same digits are equal. */
  lemma {:induction false} DataDigitsInjective(a: seq<bv8>, b: seq<bv8>)
    requires DataDigits(a) == DataDigits(b)
    ensures a == b
  {
    hide ByteDigits;
    assert |a| == |b|;
    if a != [] {
      var n := |a| - 1;
      var x, y := DataDigits(a), DataDigits(b);
      assert x[..4 * n] == DataDigits(a[..n]) && y[..4 * n] == DataDigits(b[..n]);
      DataDigitsInjective(a[..n], b[..n]);
      assert x[4 * n..] == ByteDigits(a[n]) && y[4 * n..] == ByteDigits(b[n]);
      ByteDigitsInjective(a[n], b[n]);
      assert a == a[..n] + [a[n]] && b == b[..n] + [b[n]];
    }
  }

  lemma TextDigitsSplit(text: string)
    requires Valid(text) && text != []
    ensures var n := |text| - 1;
            && TextDigits(text)[..3 * n] == TextDigits(text[..n])
            && TextDigits(text)[3 * n..] == SextetDigits(IndexOf(text[n]).value)
  {
  }

  lemma SymbolDigitsInjective(c: char, d: char)
    requires IndexOf(c).Some? && IndexOf(d).Some?
    requires SextetDigits(IndexOf(c).value) == SextetDigits(IndexOf(d).value)
    ensures c == d
  {
    SextetDigitsInjective(IndexOf(c).value, IndexOf(d).value);
  }

  /** Texts over the alphabet with the same digits are equal. */
  lemma {:induction false} TextDigitsInjective(s: string, t: string)
    requires Valid(s) && Valid(t) && TextDigits(s) == TextDigits(t)
    ensures s == t
  {
    hide SextetDigits, IndexOf;
    assert |s| == |t|;
    if s != [] {
      var n := |s| - 1;
      TextDigitsSplit(s);
      TextDigitsSplit(t);
      TextDigitsInjective(s[..n], t[..n]);
      SymbolDigitsInjective(s[n], t[n]);
      assert s == s[..n] + [s[n]] && t == t[..n] + [t[n]];
    }
  }

  // ---------------------------------------------------------------- the two loops

  /** What `encode64` returns: the digits of the data, with as few zeros as needed to fill the
      last symbol. */
  ghost predicate Encodes(data: seq<bv8>, text: string) {
    && Valid(text)
    && |text| == (4 * |data| + 2) / 3
    && DataDigits(data) <= TextDigits(text)
    && AllZero(TextDigits(text)[4 * |data|..])
  }

  /** What `decode64` returns: every whole byte of the text's digits; up to three digits are dropped. */
  ghost predicate Decodes(text: string, data: seq<bv8>) {
    && Valid(text)
    && |data| == 6 * |text| / 8
    && DataDigits(data) <= TextDigits(text)
  }

  // The four symbols of one group of up to three bytes; None stands for a byte past the end.

  function Unsigned(b: bv8): bv32 {
    b as bv32 & 255
  }

  function Symbol0(first: bv8): bv32 {
    Unsigned(first) >> 2
  }

  function Symbol1(first: bv8, second: Option<bv8>): bv32 {
    ((Unsigned(first) & 3) << 4) | (if second.Some? then Unsigned(second.value) >> 4 else 0)
  }

  function Symbol2(second: bv8, third: Option<bv8>): bv32 {
    ((Unsigned(second) & 15) << 2) | (if third.Some? then Unsigned(third.value) >> 6 else 0)
  }

  function Symbol3(third: bv8): bv32 {
    Unsigned(third) & 63
  }

  lemma Symbol0Digits(a: bv8)
    ensures Symbol0(a) < 64 && SextetDigits(Symbol0(a)) == ByteDigits(a)[..3]
  {
  }

  lemma Symbol1DigitValues(a: bv8, b: bv8)
    ensures var v := Symbol1(a, Some(b));
            && v < 64 && (v >> 4) & 3 == a as bv32 & 3
            && (v >> 2) & 3 == (b as bv32 >> 6) & 3 && v & 3 == (b as bv32 >> 4) & 3
  {
  }

  lemma Symbol1Digits(a: bv8, b: bv8)
    ensures Symbol1(a, Some(b)) < 64
    ensures SextetDigits(Symbol1(a, Some(b))) == ByteDigits(a)[3..] + ByteDigits(b)[..2]
  {
    Symbol1DigitValues(a, b);
    assert ByteDigits(a)[3..] == [a as bv32 & 3];
    assert ByteDigits(b)[..2] == [(b as bv32 >> 6) & 3, (b as bv32 >> 4) & 3];
  }

  lemma Symbol1LastDigits(a: bv8)
    ensures Symbol1(a, None) < 64
    ensures SextetDigits(Symbol1(a, None)) == ByteDigits(a)[3..] + [0, 0]
  {
  }

  lemma Symbol2Digits(b: bv8, c: bv8)
    ensures Symbol2(b, Some(c)) < 64
    ensures SextetDigits(Symbol2(b, Some(c))) == ByteDigits(b)[2..] + ByteDigits(c)[..1]
  {
  }

  lemma Symbol2LastDigits(b: bv8)
    ensures Symbol2(b, None) < 64
    ensures SextetDigits(Symbol2(b, None)) == ByteDigits(b)[2..] + [0]
  {
  }

  lemma Symbol3Digits(c: bv8)
    ensures Symbol3(c) < 64 && SextetDigits(Symbol3(c)) == ByteDigits(c)[1..]
  {
  }

  lemma Regroup3(base: Digits, a: Digits, b: Digits, c: Digits)
    requires |a| == |b| == |c| == 4
    ensures base + a[..3] + (a[3..] + b[..2]) + (b[2..] + c[..1]) + c[1..] == base + a + b + c
  {
  }

  lemma Regroup2(base: Digits, a: Digits, b: Digits, zeros: Digits)
    requires |a| == |b| == 4
    ensures base + a[..3] + (a[3..] + b[..2]) + (b[2..] + zeros) == base + a + b + zeros
  {
  }

  lemma Regroup1(base: Digits, a: Digits, zeros: Digits)
    requires |a| == 4
    ensures base + a[..3] + (a[3..] + zeros) == base + a + zeros
  {
  }

  lemma Snoc2<T>(s: seq<T>, a: T, b: T)
    ensures s + [a] + [b] == s + [a, b]
  {
  }

  lemma Snoc3<T>(s: seq<T>, a: T, b: T, c: T)
    ensures s + [a] + [b] + [c] == s + [a, b, c]
  {
  }

  lemma Snoc4<T>(s: seq<T>, a: T, b: T, c: T, d: T)
    ensures s + [a] + [b] + [c] + [d] == s + [a, b, c, d]
  {
  }

  lemma ZeroPadded(data: seq<bv8>, text: string, zeros: Digits)
    requires Valid(text) && |text| == (4 * |data| + 2) / 3
    requires TextDigits(text) == DataDigits(data) + zeros && AllZero(zeros)
    ensures Encodes(data, text)
  {
    assert TextDigits(text)[4 * |data|..] == zeros;
  }

  lemma WholeLength(bytes: nat, symbols: nat)
    requires bytes % 3 == 0 && symbols == (4 * bytes + 2) / 3
    ensures 3 * symbols == 4 * bytes
  {
    var groups := bytes / 3;
    assert bytes == 3 * groups && symbols == 4 * groups;
  }

  lemma WholeGroups(data: seq<bv8>, text: string)
    requires |data| % 3 == 0 && Encodes(data, text)
    ensures Valid(text) && TextDigits(text) == DataDigits(data) && 3 * |text| == 4 * |data|
  {
    hide SextetDigits, ByteDigits, IndexOf, Symbol, TextDigits, DataDigits;
    WholeLength(|data|, |text|);
  }

  /** Appending a whole group keeps the digits exact: three bytes fill four symbols. */
  lemma EncodeThree(data: seq<bv8>, text: string, a: bv8, b: bv8, c: bv8, s0: bv32, s1: bv32, s2: bv32, s3: bv32)
    requires |data| % 3 == 0 && Encodes(data, text)
    requires s0 == Symbol0(a) && s1 == Symbol1(a, Some(b))
    requires s2 == Symbol2(b, Some(c)) && s3 == Symbol3(c)
    ensures s0 < 64 && s1 < 64 && s2 < 64 && s3 < 64
    ensures Encodes(data + [a, b, c], text + [Symbol(s0), Symbol(s1), Symbol(s2), Symbol(s3)])
  {
    WholeGroups(data, text);
    hide SextetDigits, ByteDigits, IndexOf, Symbol, Symbol0, Symbol1, Symbol2, Symbol3, Encodes, TextDigits, DataDigits;
    Symbol0Digits(a);
    Symbol1Digits(a, b);
    Symbol2Digits(b, c);
    Symbol3Digits(c);
    TextDigitsSnoc(text, s0);
    TextDigitsSnoc(text + [Symbol(s0)], s1);
    TextDigitsSnoc(text + [Symbol(s0)] + [Symbol(s1)], s2);
    TextDigitsSnoc(text + [Symbol(s0)] + [Symbol(s1)] + [Symbol(s2)], s3);
    DataDigitsSnoc(data, a);
    DataDigitsSnoc(data + [a], b);
    DataDigitsSnoc(data + [a] + [b], c);
    Regroup3(DataDigits(data), ByteDigits(a), ByteDigits(b), ByteDigits(c));
    ZeroPadded(data + [a] + [b] + [c], text + [Symbol(s0)] + [Symbol(s1)] + [Symbol(s2)] + [Symbol(s3)], []);
    Snoc4(text, Symbol(s0), Symbol(s1), Symbol(s2), Symbol(s3));
    Snoc3(data, a, b, c);
  }

  lemma EncodeTwo(data: seq<bv8>, text: string, a: bv8, b: bv8, s0: bv32, s1: bv32, s2: bv32)
    requires |data| % 3 == 0 && Encodes(data, text)
    requires s0 == Symbol0(a) && s1 == Symbol1(a, Some(b)) && s2 == Symbol2(b, None)
    ensures s0 < 64 && s1 < 64 && s2 < 64
    ensures Encodes(data + [a, b], text + [Symbol(s0), Symbol(s1), Symbol(s2)])
  {
    WholeGroups(data, text);
    hide SextetDigits, ByteDigits, IndexOf, Symbol, Symbol0, Symbol1, Symbol2, Symbol3, Encodes, TextDigits, DataDigits;
    Symbol0Digits(a);
    Symbol1Digits(a, b);
    Symbol2LastDigits(b);
    TextDigitsSnoc(text, s0);
    TextDigitsSnoc(text + [Symbol(s0)], s1);
    TextDigitsSnoc(text + [Symbol(s0)] + [Symbol(s1)], s2);
    DataDigitsSnoc(data, a);
    DataDigitsSnoc(data + [a], b);
    Regroup2(DataDigits(data), ByteDigits(a), ByteDigits(b), [0]);
    ZeroPadded(data + [a] + [b], text + [Symbol(s0)] + [Symbol(s1)] + [Symbol(s2)], [0]);
    Snoc3(text, Symbol(s0), Symbol(s1), Symbol(s2));
    Snoc2(data, a, b);
  }

  lemma EncodeOne(data: seq<bv8>, text: string, a: bv8, s0: bv32, s1: bv32)
    requires |data| % 3 == 0 && Encodes(data, text)
    requires s0 == Symbol0(a) && s1 == Symbol1(a, None)
    ensures s0 < 64 && s1 < 64
    ensures Encodes(data + [a], text + [Symbol(s0), Symbol(s1)])
  {
    WholeGroups(data, text);
    hide SextetDigits, ByteDigits, IndexOf, Symbol, Symbol0, Symbol1, Symbol2, Symbol3, Encodes, TextDigits, DataDigits;
    Symbol0Digits(a);
    Symbol1LastDigits(a);
    TextDigitsSnoc(text, s0);
    TextDigitsSnoc(text + [Symbol(s0)], s1);
    DataDigitsSnoc(data, a);
    Regroup1(DataDigits(data), ByteDigits(a), [0, 0]);
    ZeroPadded(data + [a], text + [Symbol(s0)] + [Symbol(s1)], [0, 0]);
    Snoc2(text, Symbol(s0), Symbol(s1));
  }

  /** What one pass of the loop appends. */
  function Group(first: bv8, second: Option<bv8>, third: Option<bv8>): string
    requires third.Some? ==> second.Some?
  {
    Symbol0Digits(first);
    Symbol1LastDigits(first);
    if second.None? then [Symbol(Symbol0(first)), Symbol(Symbol1(first, second))]
    else
      Symbol1Digits(first, second.value);
      Symbol2LastDigits(second.value);
      if third.None? then [Symbol(Symbol0(first)), Symbol(Symbol1(first, second)), Symbol(Symbol2(second.value, third))]
      else
        Symbol2Digits(second.value, third.value);
        Symbol3Digits(third.value);
        [Symbol(Symbol0(first)), Symbol(Symbol1(first, second)), Symbol(Symbol2(second.value, third)),
            Symbol(Symbol3(third.value))]
  }

  function GroupBytes(first: bv8, second: Option<bv8>, third: Option<bv8>): seq<bv8>
    requires third.Some? ==> second.Some?
  {
    if second.None? then [first]
    else if third.None? then [first, second.value]
    else [first, second.value, third.value]
  }

  lemma EncodeGroup(data: seq<bv8>, text: string, first: bv8, second: Option<bv8>, third: Option<bv8>)
    requires |data| % 3 == 0 && Encodes(data, text)
    requires third.Some? ==> second.Some?
    ensures Encodes(data + GroupBytes(first, second, third), text + Group(first, second, third))
  {
    if second.None? {
      EncodeOne(data, text, first, Symbol0(first), Symbol1(first, second));
    } else if third.None? {
      EncodeTwo(data, text, first, second.value, Symbol0(first), Symbol1(first, second), Symbol2(second.value, third));
    } else {
      EncodeThree(data, text, first, second.value, third.value,
                  Symbol0(first), Symbol1(first, second), Symbol2(second.value, third), Symbol3(third.value));
    }
  }

  method Encode64(data: seq<bv8>) returns (output: string)
    ensures Encodes(data, output)
  {
    hide SextetDigits, ByteDigits, IndexOf, Symbol, TextDigits, Group;
    output := [];
    var index := 0;
    ghost var groups := 0;
    while index < |data|
      invariant 0 <= index <= |data| && (index == 3 * groups || index == |data|)
      invariant Encodes(data[..index], output)
      decreases |data| - index
    {
      ghost var start := index;
      groups := groups + 1;
      var first := data[index];
      index := index + 1;
      var second: Option<bv8> := None;
      if index < |data| {
        second := Some(data[index]);
        index := index + 1;
      }
      var third: Option<bv8> := None;
      if index < |data| {
        third := Some(data[index]);
        index := index + 1;
      }
      EncodeGroup(data[..start], output, first, second, third);
      assert data[..index] == data[..start] + GroupBytes(first, second, third);
      output := output + Group(first, second, third);
    }
    assert data[..|data|] == data;
  }

  /** The last `n` bits of the decoder's accumulator, which have been read but not yet written. */
  function Pending(buffer: bv32, n: nat): Digits
    requires n in {0, 2, 4, 6}
  {
    SextetDigits(buffer)[3 - n / 2..]
  }

  /** The accumulator after one more symbol. Nothing masks it: bits fall off the 32-bit word. */
  function Absorb(buffer: bv32, decoded: bv32): bv32 {
    (buffer << 6) | decoded
  }

  function LowByte(value: bv32, shift: nat): bv8
    requires shift <= 32
  {
    ((value >> shift) & 255) as bv8
  }

  lemma ShiftInNone(buffer: bv32, decoded: bv32)
    requires decoded < 64
    ensures Pending(Absorb(buffer, decoded), 6) == SextetDigits(decoded)
  {
  }

  lemma ShiftInTwo(buffer: bv32, decoded: bv32)
    requires decoded < 64
    ensures ByteDigits(LowByte(Absorb(buffer, decoded), 0)) + Pending(Absorb(buffer, decoded), 0)
            == Pending(buffer, 2) + SextetDigits(decoded)
  {
  }

  lemma ShiftInFour(buffer: bv32, decoded: bv32)
    requires decoded < 64
    ensures ByteDigits(LowByte(Absorb(buffer, decoded), 2)) + Pending(Absorb(buffer, decoded), 2)
            == Pending(buffer, 4) + SextetDigits(decoded)
  {
  }

  lemma LowByteDigits(value: bv32)
    ensures ByteDigits(LowByte(value, 4)) == [(value >> 10) & 3, (value >> 8) & 3, (value >> 6) & 3, (value >> 4) & 3]
  {
  }

  lemma AbsorbDigits(buffer: bv32, decoded: bv32)
    requires decoded < 64
    ensures var value := Absorb(buffer, decoded);
            && (value >> 10) & 3 == (buffer >> 4) & 3 && (value >> 8) & 3 == (buffer >> 2) & 3
            && (value >> 6) & 3 == buffer & 3 && (value >> 4) & 3 == (decoded >> 4) & 3
            && (value >> 2) & 3 == (decoded >> 2) & 3 && value & 3 == decoded & 3
  {
  }

  lemma ShiftInSix(buffer: bv32, decoded: bv32)
    requires decoded < 64
    ensures ByteDigits(LowByte(Absorb(buffer, decoded), 4)) + Pending(Absorb(buffer, decoded), 4)
            == Pending(buffer, 6) + SextetDigits(decoded)
  {
    hide Absorb, LowByte, ByteDigits;
    LowByteDigits(Absorb(buffer, decoded));
    AbsorbDigits(buffer, decoded);
  }

  /** Only the twelve low bits of the accumulator ever reach the output, whatever older bits the
      shifts have pushed above them or out of the 32-bit word. */
  lemma ShiftIn(buffer: bv32, decoded: bv32, bits: nat)
    requires decoded < 64 && bits in {2, 4, 6}
    ensures ByteDigits(LowByte(Absorb(buffer, decoded), bits - 2)) + Pending(Absorb(buffer, decoded), bits - 2)
            == Pending(buffer, bits) + SextetDigits(decoded)
  {
    hide *;
    if bits == 2 {
      ShiftInTwo(buffer, decoded);
    } else if bits == 4 {
      ShiftInFour(buffer, decoded);
    } else {
      ShiftInSix(buffer, decoded);
    }
  }

  lemma Regroup(written: Digits, out: Digits, pending: Digits, read: Digits, rest: Digits)
    requires out + rest == pending + read
    ensures (written + out) + rest == (written + pending) + read
  {
    assert (written + out) + rest == written + (out + rest);
  }

  /** The decoder's loop invariant: what has been read is what has been written plus what is pending. */
  ghost predicate Decoding(text: string, output: seq<bv8>, buffer: bv32, bits: nat) {
    && Valid(text)
    && bits in {0, 2, 4, 6}
    && 6 * |text| == 8 * |output| + bits
    && TextDigits(text) == DataDigits(output) + Pending(buffer, bits)
  }

  lemma NextSymbol(text: string, c: char)
    requires Valid(text) && IndexOf(c).Some?
    ensures Valid(text + [c]) && TextDigits(text + [c]) == TextDigits(text) + SextetDigits(IndexOf(c).value)
  {
    assert (text + [c])[..|text|] == text;
  }

  lemma DecodeStep(text: string, output: seq<bv8>, buffer: bv32, bits: nat, c: char)
    requires Decoding(text, output, buffer, bits) && IndexOf(c).Some?
    ensures var next := Absorb(buffer, IndexOf(c).value);
            if bits == 0 then Decoding(text + [c], output, next, 6)
            else bits in {2, 4, 6} && Decoding(text + [c], output + [LowByte(next, bits - 2)], next, bits - 2)
  {
    hide SextetDigits, ByteDigits, LowByte, Absorb, IndexOf;
    var decoded := IndexOf(c).value;
    var next := Absorb(buffer, decoded);
    NextSymbol(text, c);
    if bits == 0 {
      ShiftInNone(buffer, decoded);
      assert Pending(buffer, 0) == [];
      Regroup(DataDigits(output), [], Pending(buffer, 0), SextetDigits(decoded), Pending(next, 6));
    } else {
      ShiftIn(buffer, decoded, bits);
      var out := LowByte(next, bits - 2);
      DataDigitsSnoc(output, out);
      Regroup(DataDigits(output), ByteDigits(out), Pending(buffer, bits), SextetDigits(decoded),
          Pending(next, bits - 2));
    }
  }

  lemma DecodingStarts()
    ensures Decoding("", [], 0, 0)
  {
    assert Pending(0, 0) == [];
  }

  lemma DecodingDone(text: string, output: seq<bv8>, buffer: bv32, bits: nat)
    requires Decoding(text, output, buffer, bits)
    ensures Decodes(text, output)
  {
  }

  lemma ForeignCharacter(text: string, i: nat)
    requires i < |text| && IndexOf(text[i]).None?
    ensures !Valid(text)
  {
  }

  method Decode64(text: string) returns (result: Option<seq<bv8>>)
    ensures result.None? <==> !Valid(text)
    ensures result.Some? ==> Decodes(text, result.value)
  {
    DecodingStarts();
    hide SextetDigits, ByteDigits, IndexOf, Absorb, LowByte, Pending, Decoding, TextDigits, DataDigits;
    var output: seq<bv8> := [];
    var buffer: bv32 := 0;
    var bits := 0;
    assert text[..0] == "";
    for i := 0 to |text|
      invariant bits in {0, 2, 4, 6} && Decoding(text[..i], output, buffer, bits)
    {
      var decoded := IndexOf(text[i]);
      if decoded.None? {
        ForeignCharacter(text, i);
        return None;
      }
      assert text[..i + 1] == text[..i] + [text[i]];
      DecodeStep(text[..i], output, buffer, bits, text[i]);
      buffer := Absorb(buffer, decoded.value);
      bits := bits + 6;
      if bits >= 8 {
        bits := bits - 8;
        output := output + [LowByte(buffer, bits)];
      }
    }
    assert text[..|text|] == text;
    DecodingDone(text, output, buffer, bits);
    result := Some(output);
  }

  // ---------------------------------------------------------------- both round trips

  lemma PrefixesOfEqualLength(a: Digits, b: Digits, whole: Digits)
    requires a <= whole && b <= whole && |a| == |b|
    ensures a == b
  {
  }

  /** Decoding what was encoded gives the data back, for data of any length. */
  lemma RoundTrip(data: seq<bv8>, text: string, back: seq<bv8>)
    requires Encodes(data, text) && Decodes(text, back)
    ensures back == data
  {
    assert |back| == |data|;
    PrefixesOfEqualLength(DataDigits(back), DataDigits(data), TextDigits(text));
    DataDigitsInjective(back, data);
  }

  /** The texts `encode64` can produce: no dangling single symbol, and zero trailing bits. */
  ghost predicate Canonical(text: string)
    requires Valid(text)
  {
    |text| % 4 != 1 && AllZero(TextDigits(text)[4 * (6 * |text| / 8)..])
  }

  /** Encoding what was decoded gives the text back exactly when the text is canonical. */
  lemma CanonicalInverse(text: string, data: seq<bv8>, again: string)
    requires Decodes(text, data) && Encodes(data, again)
    ensures again == text <==> Canonical(text)
  {
    hide SextetDigits, ByteDigits, IndexOf, TextDigits, DataDigits;
    var n := |data|;
    if Canonical(text) {
      assert |again| == |text|;
      var x, y := TextDigits(text), TextDigits(again);
      forall i | 0 <= i < |x| ensures x[i] == y[i] {
        if i < 4 * n {
          assert x[i] == DataDigits(data)[i] && y[i] == DataDigits(data)[i];
        } else {
          assert x[i] == x[4 * n..][i - 4 * n] && y[i] == y[4 * n..][i - 4 * n];
        }
      }
      assert x == y;
      TextDigitsInjective(text, again);
    }
    if again == text {
      assert |text| == (4 * n + 2) / 3;
    }
  }

  /** Both loops together: no byte array is changed by encoding and decoding it. */
  method EncodeThenDecode(data: seq<bv8>) returns (back: Option<seq<bv8>>)
    ensures back == Some(data)
  {
    var text := Encode64(data);
    back := Decode64(text);
    RoundTrip(data, text, back.value);
  }
}
