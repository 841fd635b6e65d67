/** The byte strings that authenticate a bulk file and a session acceptance (client.py:721-729,
    BulkFileCrypto.kt:21-23, e2e.py:41-46, SessionCrypto.kt:105-112): fields joined by NUL, in UTF-8.
    Python encodes the fields and joins the bytes; Kotlin joins the text and encodes it. */
module Transcripts {
  import opened PeerSessions

  const NUL: char := '\0'

  // ---------------------------------------------------------------- UTF-8

  /** The UTF-8 form of one Unicode scalar value (RFC 3629, section 3). */
  function Utf8Char(c: char): (r: seq<Byte>)
    ensures r != []
  {
    var x := c as int;
    if x < 0x80 then [x]
    else if x < 0x800 then [0xC0 + x / 0x40, 0x80 + x % 0x40]
    else if x < 0x10000 then [0xE0 + x / 0x1000, 0x80 + x / 0x40 % 0x40, 0x80 + x % 0x40]
    else [0xF0 + x / 0x40000, 0x80 + x / 0x1000 % 0x40, 0x80 + x / 0x40 % 0x40, 0x80 + x % 0x40]
  }

  function Utf8(text: string): seq<Byte> {
    if text == "" then [] else Utf8Char(text[0]) + Utf8(text[1..])
  }

  lemma {:induction false} Utf8Concat(s: string, t: string)
    ensures Utf8(s + t) == Utf8(s) + Utf8(t)
  {
    if s == "" {
      assert s + t == t;
    } else {
      assert (s + t)[1..] == s[1..] + t;
      Utf8Concat(s[1..], t);
    }
  }

  /** The number of bytes of a character can be told from the first one. */
  lemma SameLength(c: char, d: char)
    requires Utf8Char(c)[0] == Utf8Char(d)[0]
    ensures |Utf8Char(c)| == |Utf8Char(d)|
  {
  }

  /** Dividing and multiplying back by 64 once, twice and three times. */
  lemma Digits(x: nat)
    ensures x == x / 0x40 * 0x40 + x % 0x40
    ensures x / 0x40 == x / 0x1000 * 0x40 + x / 0x40 % 0x40
    ensures x / 0x1000 == x / 0x40000 * 0x40 + x / 0x1000 % 0x40
  {
  }

  lemma CharInjective(c: char, d: char)
    requires Utf8Char(c) == Utf8Char(d)
    ensures c == d
  {
    Digits(c as int);
    Digits(d as int);
    SameLength(c, d);
  }

  /** No character is a prefix of another, so the text can be read off its bytes. */
  lemma {:induction false} Utf8Injective(s: string, t: string)
    requires Utf8(s) == Utf8(t)
    ensures s == t
  {
    if s == "" || t == "" {
    } else {
      var c, d := Utf8Char(s[0]), Utf8Char(t[0]);
      assert c[0] == Utf8(s)[0] == Utf8(t)[0] == d[0];
      SameLength(s[0], t[0]);
      assert c == Utf8(s)[..|c|] == Utf8(t)[..|c|] == d;
      CharInjective(s[0], t[0]);
      assert Utf8(s[1..]) == Utf8(s)[|c|..] == Utf8(t)[|c|..] == Utf8(t[1..]);
      Utf8Injective(s[1..], t[1..]);
      assert s == [s[0]] + s[1..] && t == [t[0]] + t[1..];
    }
  }

  // ---------------------------------------------------------------- joining fields

  /** Kotlin's `joinToString("\u0000")`. */
  function Join(fields: seq<string>): string
    requires fields != []
  {
    if |fields| == 1 then fields[0] else fields[0] + [NUL] + Join(fields[1..])
  }

  /** Python's `b"\0".join`, over fields that are encoded one by one. */
  function JoinEncoded(fields: seq<string>): seq<Byte>
    requires fields != []
  {
    if |fields| == 1 then Utf8(fields[0]) else Utf8(fields[0]) + [0] + JoinEncoded(fields[1..])
  }

  /** Both runtimes authenticate the same bytes. */
  lemma {:induction false} RuntimesAgree(fields: seq<string>)
    requires fields != []
    ensures JoinEncoded(fields) == Utf8(Join(fields))
  {
    if |fields| == 1 {
    } else {
      RuntimesAgree(fields[1..]);
      assert Utf8([NUL]) == [0];
      Utf8Concat(fields[0], [NUL]);
      Utf8Concat(fields[0] + [NUL], Join(fields[1..]));
    }
  }

  predicate NulFree(fields: seq<string>) {
    forall f :: f in fields ==> NUL !in f
  }

  function Nuls(s: string): nat {
    if s == "" then 0 else (if s[0] == NUL then 1 else 0) + Nuls(s[1..])
  }

  lemma {:induction false} NulsOfConcat(s: string, t: string)
    ensures Nuls(s + t) == Nuls(s) + Nuls(t)
  {
    if s == "" {
      assert s + t == t;
    } else {
      assert (s + t)[1..] == s[1..] + t;
      NulsOfConcat(s[1..], t);
    }
  }

  lemma {:induction false} NoNuls(s: string)
    ensures Nuls(s) == 0 <==> NUL !in s
  {
    if s == "" {
    } else {
      NoNuls(s[1..]);
      assert s == [s[0]] + s[1..];
    }
  }

  lemma {:induction false} NulsOfJoin(fields: seq<string>)
    requires fields != []
    ensures Nuls(Join(fields)) >= |fields| - 1
    ensures Nuls(Join(fields)) == |fields| - 1 <==> NulFree(fields)
  {
    NoNuls(fields[0]);
    if |fields| == 1 {
    } else {
      NulsOfJoin(fields[1..]);
      NulsOfConcat(fields[0], [NUL]);
      NulsOfConcat(fields[0] + [NUL], Join(fields[1..]));
      assert fields == [fields[0]] + fields[1..];
    }
  }

  lemma CoveredNul(s: string, t: string, u: string, v: string)
    requires s + [NUL] + u == t + [NUL] + v && |s| < |t|
    ensures NUL in t
  {
    assert (s + [NUL] + u)[|s|] == NUL && (t + [NUL] + v)[|s|] == t[|s|];
  }

  lemma FirstNul(s: string, t: string, u: string, v: string)
    requires NUL !in s && NUL !in t && s + [NUL] + u == t + [NUL] + v
    ensures s == t && u == v
  {
    if |s| < |t| {
      CoveredNul(s, t, u, v);
    } else if |t| < |s| {
      CoveredNul(t, s, v, u);
    } else {
      var left, right := s + [NUL] + u, t + [NUL] + v;
      assert left[..|s|] == s && right[..|t|] == t && left[|s| + 1..] == u && right[|t| + 1..] == v;
    }
  }

  lemma {:induction false} NulFreeJoinInjective(a: seq<string>, b: seq<string>)
    requires |a| == |b| && a != [] && NulFree(a) && NulFree(b) && Join(a) == Join(b)
    ensures a == b
  {
    if |a| > 1 {
      FirstNul(a[0], b[0], Join(a[1..]), Join(b[1..]));
      NulFreeJoinInjective(a[1..], b[1..]);
    }
    assert a == [a[0]] + a[1..] && b == [b[0]] + b[1..];
  }

  /** One NUL-free side is enough: the other cannot have a NUL to spare. */
  lemma JoinInjective(a: seq<string>, b: seq<string>)
    requires |a| == |b| && a != [] && NulFree(a) && Join(a) == Join(b)
    ensures a == b
  {
    NulsOfJoin(a);
    NulsOfJoin(b);
    NulFreeJoinInjective(a, b);
  }

  // ---------------------------------------------------------------- when fields have a NUL

  /** Moving the border between two neighbours leaves the joined text as it was. */
  lemma {:induction false} MovedBorder(pre: seq<string>, x: string, y: string, z: string, w: string, post: seq<string>)
    requires x + [NUL] + y == z + [NUL] + w
    ensures Join(pre + [x, y] + post) == Join(pre + [z, w] + post)
    decreases |pre|
  {
    if pre == [] {
      FirstTwo(x, y, post);
      FirstTwo(z, w, post);
      assert [] + [x, y] + post == [x, y] + post && [] + [z, w] + post == [z, w] + post;
    } else {
      MovedBorder(pre[1..], x, y, z, w, post);
      assert (pre + [x, y] + post)[1..] == pre[1..] + [x, y] + post;
      assert (pre + [z, w] + post)[1..] == pre[1..] + [z, w] + post;
    }
  }

  lemma FirstTwo(x: string, y: string, post: seq<string>)
    ensures Join([x, y] + post) == x + [NUL] + y + (if post == [] then "" else [NUL] + Join(post))
  {
    assert ([x, y] + post)[1..] == [y] + post;
    assert ([y] + post)[1..] == post;
  }

  predicate NoneEmpty(fields: seq<string>) {
    forall i :: 0 <= i < |fields| ==> fields[i] != ""
  }

  function Tail(s: string): string {
    if s == "" then "" else s[1..]
  }

  function Front(s: string): string {
    if s == "" then "" else s[..|s| - 1]
  }

  /** No border between two fields can be moved so that both stay non-empty: a NUL can only be the
      first character of the first field, the last one of the last, or the whole of one between. */
  predicate Tight(fields: seq<string>) {
    && (forall i :: 0 <= i < |fields| - 1 ==> NUL !in Tail(fields[i]))
    && (forall i :: 0 < i < |fields| ==> NUL !in Front(fields[i]))
  }

  /** Adjacent fields that are not tight can be read in another way, again without an empty field. */
  lemma OtherReading(pre: seq<string>, fields: seq<string>, post: seq<string>) returns (other: seq<string>)
    requires NoneEmpty(fields) && !Tight(fields)
    ensures |other| == |fields| && other != fields && NoneEmpty(other)
    ensures Join(pre + other + post) == Join(pre + fields + post)
  {
    var j, z, w := LooseBorder(fields);
    other := fields[j := z][j + 1 := w];
    MovedBorder(pre + fields[..j], fields[j], fields[j + 1], z, w, fields[j + 2..] + post);
    assert pre + fields + post == (pre + fields[..j]) + [fields[j], fields[j + 1]] + (fields[j + 2..] + post);
    assert pre + other + post == (pre + fields[..j]) + [z, w] + (fields[j + 2..] + post);
    assert |z| != |fields[j]|;
  }

  lemma LooseBorder(fields: seq<string>) returns (j: nat, z: string, w: string)
    requires !Tight(fields)
    ensures j + 1 < |fields| && z != "" && w != "" && |z| != |fields[j]|
    ensures fields[j] + [NUL] + fields[j + 1] == z + [NUL] + w
  {
    if i :| 0 <= i < |fields| - 1 && NUL in Tail(fields[i]) {
      z, w := BeforeNul(fields[i], fields[i + 1]);
      j := i;
    } else {
      var i :| 0 < i < |fields| && NUL in Front(fields[i]);
      z, w := AfterNul(fields[i - 1], fields[i]);
      j := i - 1;
    }
  }

  lemma BeforeNul(f: string, g: string) returns (z: string, w: string)
    requires NUL in Tail(f)
    ensures z != "" && w != "" && |z| != |f| && f + [NUL] + g == z + [NUL] + w
  {
    var k :| 0 <= k < |Tail(f)| && Tail(f)[k] == NUL;
    assert f[k + 1] == NUL && f == f[..k + 1] + [NUL] + f[k + 2..];
    z, w := f[..k + 1], f[k + 2..] + [NUL] + g;
  }

  lemma AfterNul(f: string, g: string) returns (z: string, w: string)
    requires NUL in Front(g)
    ensures z != "" && w != "" && |z| != |f| && f + [NUL] + g == z + [NUL] + w
  {
    var k :| 0 <= k < |Front(g)| && Front(g)[k] == NUL;
    assert g[k] == NUL && g == g[..k] + [NUL] + g[k + 1..];
    z, w := f + [NUL] + g[..k], g[k + 1..];
  }

  // ---------------------------------------------------------------- tight fields

  lemma JoinNotEmpty(fields: seq<string>)
    requires fields != [] && NoneEmpty(fields)
    ensures Join(fields) != "" && Join(fields)[0] == fields[0][0]
  {
  }

  lemma Parts(s: string, u: string)
    ensures (s + [NUL] + u)[..|s|] == s && (s + [NUL] + u)[|s|] == NUL && (s + [NUL] + u)[|s| + 1..] == u
  {
  }

  lemma FrontHasNul(s: string, k: nat)
    requires k < |s| - 1 && s[k] == NUL
    ensures NUL in Front(s)
  {
    assert Front(s)[k] == NUL;
  }

  lemma JoinHead(fields: seq<string>)
    requires |fields| > 1 && NoneEmpty(fields)
    ensures Join(fields) == fields[0] + [NUL] + Join(fields[1..])
    ensures fields[0] != "" && NoneEmpty(fields[1..])
  {
  }

  /** A border right after the first field's last character but one: the next field of `b` begins with
      the NUL that the border leaves over. */
  lemma BorderAtEnd(x: string, first: string, more: string, field: string, rest: string)
    requires |x| == |first| - 1 && field != "" && x + [NUL] + (field + [NUL] + rest) == first + [NUL] + more
    ensures field[1..] + [NUL] + rest == more
  {
    Parts(x, field + [NUL] + rest);
    Parts(first, more);
    assert (first + [NUL] + more)[|x| + 1..] == [NUL] + more;
    assert field + [NUL] + rest == [NUL] + more;
    assert (field + [NUL] + rest)[1..] == field[1..] + [NUL] + rest;
  }

  /** A border after the whole first field. */
  lemma BorderAfter(x: string, first: string, more: string, joined: string)
    requires |x| == |first| && x + [NUL] + joined == first + [NUL] + more
    ensures joined == more
  {
    Parts(x, joined);
    Parts(first, more);
  }

  /** A border further on. */
  lemma BorderBeyond(x: string, first: string, more: string, joined: string)
    requires |x| > |first| && x + [NUL] + joined == first + [NUL] + more
    ensures x[|first| + 1..] + [NUL] + joined == more
  {
    Parts(first, more);
    assert (x + [NUL] + joined)[|first| + 1..] == x[|first| + 1..] + [NUL] + joined;
  }

  /** If the fields `a` begin with a text `x` and a border that is followed by at least as many fields
      as they are, some field of `a` has a NUL before its end. */
  lemma {:induction false} CatchUp(x: string, a: seq<string>, b: seq<string>) returns (j: nat)
    requires a != [] && |b| >= |a| && NoneEmpty(a) && NoneEmpty(b) && x + [NUL] + Join(b) == Join(a)
    ensures j < |a| && NUL in Front(a[j])
    decreases |a|
  {
    var k, first := |x|, a[0];
    JoinNotEmpty(b);
    Parts(x, Join(b));
    if |a| == 1 {
      FrontHasNul(first, k);
      return 0;
    }
    JoinHead(a);
    JoinHead(b);
    hide Join, NoneEmpty, Front;
    var more := Join(a[1..]);
    Parts(first, more);
    if k < |first| - 1 {
      assert first[k] == NUL;
      FrontHasNul(first, k);
      return 0;
    }
    if k == |first| - 1 {
      BorderAtEnd(x, first, more, b[0], Join(b[1..]));
      j := CatchUp(b[0][1..], a[1..], b[1..]);
    } else if k == |first| {
      BorderAfter(x, first, more, Join(b));
      j := CatchUp(b[0], a[1..], b[1..]);
    } else {
      BorderBeyond(x, first, more, Join(b));
      j := CatchUp(x[|first| + 1..], a[1..], b);
    }
    j := j + 1;
  }

  lemma EarlierBorder(a: seq<string>, b: seq<string>)
    requires |a| == |b| && |a| > 1 && NoneEmpty(b) && Join(a) == Join(b) && |b[0]| < |a[0]|
    ensures !Tight(a)
  {
    Parts(a[0], Join(a[1..]));
    Parts(b[0], Join(b[1..]));
    assert a[0][|b[0]|] == NUL && Tail(a[0])[|b[0]| - 1] == NUL;
  }

  lemma LaterBorder(a: seq<string>, b: seq<string>)
    requires |a| == |b| && |a| > 1 && NoneEmpty(a) && NoneEmpty(b) && Join(a) == Join(b) && |a[0]| < |b[0]|
    ensures !Tight(a)
  {
    Parts(a[0], Join(a[1..]));
    Parts(b[0], Join(b[1..]));
    var x := b[0][|a[0]| + 1..];
    assert Join(b)[|a[0]| + 1..] == x + [NUL] + Join(b[1..]);
    var j := CatchUp(x, a[1..], b[1..]);
    assert NUL in Front(a[j + 1]);
  }

  /** Without empty fields, the joined text of tight fields can be read in no other way. */
  lemma {:induction false} TightInjective(a: seq<string>, b: seq<string>)
    requires |a| == |b| && a != [] && NoneEmpty(a) && NoneEmpty(b) && Tight(a) && Join(a) == Join(b)
    ensures a == b
  {
    if |a| > 1 {
      if |b[0]| < |a[0]| {
        EarlierBorder(a, b);
      } else if |a[0]| < |b[0]| {
        LaterBorder(a, b);
      } else {
        Parts(a[0], Join(a[1..]));
        Parts(b[0], Join(b[1..]));
        assert Tight(a[1..]) by {
          assert forall i :: 0 <= i < |a| - 1 ==> a[1..][i] == a[i + 1];
        }
        TightInjective(a[1..], b[1..]);
      }
    }
    assert a == [a[0]] + a[1..] && b == [b[0]] + b[1..];
  }

  lemma {:induction false} JoinSnoc(fields: seq<string>, last: string)
    requires fields != []
    ensures Join(fields + [last]) == Join(fields) + [NUL] + last
    decreases |fields|
  {
    assert (fields + [last])[1..] == fields[1..] + [last];
    if |fields| > 1 {
      JoinSnoc(fields[1..], last);
    }
  }

  lemma UncoveredNul(s: string, t: string, u: string, v: string)
    requires s + [NUL] + u == t + [NUL] + v && |s| < |t|
    ensures NUL in u
  {
    Parts(s, u);
    Parts(t, v);
    assert u[|t| - |s| - 1] == (s + [NUL] + u)[|t|];
  }

  lemma LastNul(s: string, t: string, u: string, v: string)
    requires NUL !in u && NUL !in v && s + [NUL] + u == t + [NUL] + v
    ensures s == t && u == v
  {
    if |s| < |t| {
      UncoveredNul(s, t, u, v);
    } else if |t| < |s| {
      UncoveredNul(t, s, v, u);
    } else {
      Parts(s, u);
      Parts(t, v);
    }
  }

  // ---------------------------------------------------------------- decimal numbers

  predicate IsDigit(c: char) {
    '0' <= c <= '9'
  }

  function DigitChar(d: nat): (c: char)
    requires d < 10
    ensures IsDigit(c) && c as int == '0' as int + d
  {
    ('0' as int + d) as char
  }

  /** Python's `str` and Java's `Long.toString` of a size. */
  function Decimal(n: nat): (r: string)
    ensures r != "" && forall c :: c in r ==> IsDigit(c)
  {
    if n < 10 then [DigitChar(n)] else Decimal(n / 10) + [DigitChar(n % 10)]
  }

  lemma {:induction false} DecimalInjective(m: nat, n: nat)
    requires Decimal(m) == Decimal(n)
    ensures m == n
  {
    var a, b := Decimal(m), Decimal(n);
    assert a[|a| - 1] == DigitChar(m % 10) && b[|b| - 1] == DigitChar(n % 10);
    if m >= 10 && n >= 10 {
      assert a[..|a| - 1] == Decimal(m / 10) && b[..|b| - 1] == Decimal(n / 10);
      DecimalInjective(m / 10, n / 10);
    }
  }

  // ---------------------------------------------------------------- marked transcripts

  datatype Purpose = BulkFile | SessionAccept

  /** The first field of every transcript. */
  function Mark(purpose: Purpose): (m: string)
    ensures NUL !in m
  {
    match purpose
    case BulkFile => "wispgate-bulk-v2"
    case SessionAccept => "wispgate-session-v1/accept"
  }

  /** A transcript: a mark and a fixed number of fields. */
  function KotlinTranscript(purpose: Purpose, fields: seq<string>): seq<Byte> {
    Utf8(Join([Mark(purpose)] + fields))
  }

  function PythonTranscript(purpose: Purpose, fields: seq<string>): seq<Byte> {
    JoinEncoded([Mark(purpose)] + fields)
  }

  lemma MarkedNulFree(mark: string, fields: seq<string>)
    requires NUL !in mark && NulFree(fields)
    ensures NulFree([mark] + fields)
  {
  }

  lemma TranscriptInjective(purpose: Purpose, mine: seq<string>, theirs: seq<string>)
    requires NulFree(mine) && |mine| == |theirs|
    ensures PythonTranscript(purpose, mine) == KotlinTranscript(purpose, theirs) <==> mine == theirs
    ensures KotlinTranscript(purpose, mine) == PythonTranscript(purpose, theirs) <==> mine == theirs
  {
    var a, b := [Mark(purpose)] + mine, [Mark(purpose)] + theirs;
    RuntimesAgree(a);
    RuntimesAgree(b);
    if Utf8(Join(a)) == Utf8(Join(b)) {
      Utf8Injective(Join(a), Join(b));
      MarkedNulFree(Mark(purpose), mine);
      JoinInjective(a, b);
      assert a[1..] == mine && b[1..] == theirs;
    }
  }

  /** Identifiers that are not tight share their bytes with another list of them. */
  lemma TranscriptCollision(purpose: Purpose, ids: seq<string>, rest: seq<string>) returns (other: seq<string>)
    requires NoneEmpty(ids) && !Tight(ids)
    ensures |other| == |ids| && other != ids && NoneEmpty(other)
    ensures PythonTranscript(purpose, ids + rest) == KotlinTranscript(purpose, other + rest)
    ensures KotlinTranscript(purpose, ids + rest) == PythonTranscript(purpose, other + rest)
  {
    var mark := Mark(purpose);
    other := OtherReading([mark], ids, rest);
    assert [mark] + (ids + rest) == [mark] + ids + rest && [mark] + (other + rest) == [mark] + other + rest;
    RuntimesAgree([mark] + (ids + rest));
    RuntimesAgree([mark] + (other + rest));
  }

  /** Tight identifiers share theirs with no other. */
  lemma TightTranscript(purpose: Purpose, mine: seq<string>, theirs: seq<string>)
    requires |mine| == |theirs| && mine != [] && NoneEmpty(mine) && NoneEmpty(theirs) && Tight(mine)
    requires PythonTranscript(purpose, mine) == KotlinTranscript(purpose, theirs)
             || KotlinTranscript(purpose, mine) == PythonTranscript(purpose, theirs)
    ensures mine == theirs
  {
    SameText(purpose, mine, theirs);
    TightInjective(mine, theirs);
  }

  lemma SameText(purpose: Purpose, mine: seq<string>, theirs: seq<string>)
    requires mine != [] && theirs != []
    requires PythonTranscript(purpose, mine) == KotlinTranscript(purpose, theirs)
             || KotlinTranscript(purpose, mine) == PythonTranscript(purpose, theirs)
    ensures Join(mine) == Join(theirs)
  {
    var a, b := [Mark(purpose)] + mine, [Mark(purpose)] + theirs;
    RuntimesAgree(a);
    RuntimesAgree(b);
    Utf8Injective(Join(a), Join(b));
    assert a[1..] == mine && b[1..] == theirs;
    Parts(Mark(purpose), Join(mine));
    Parts(Mark(purpose), Join(theirs));
  }

  /** The same, when a field without a NUL follows. */
  lemma TightSizedTranscript(purpose: Purpose, mine: seq<string>, theirs: seq<string>, x: string, y: string)
    requires |mine| == |theirs| && mine != [] && NoneEmpty(mine) && NoneEmpty(theirs) && Tight(mine)
    requires NUL !in x && NUL !in y
    requires PythonTranscript(purpose, mine + [x]) == KotlinTranscript(purpose, theirs + [y])
    ensures mine == theirs && x == y
  {
    SameText(purpose, mine + [x], theirs + [y]);
    JoinSnoc(mine, x);
    JoinSnoc(theirs, y);
    LastNul(Join(mine), Join(theirs), x, y);
    TightInjective(mine, theirs);
  }

  // ---------------------------------------------------------------- the bulk file

  datatype BulkContext = BulkContext(sessionId: string, sender: string, recipient: string,
                                     transferId: string, fileId: string, size: nat)

  function Ids(c: BulkContext): seq<string> {
    [c.sessionId, c.sender, c.recipient, c.transferId, c.fileId]
  }

  /** `PreparedBulkUpload.aad`. */
  function KotlinBulkAad(c: BulkContext): seq<Byte> {
    KotlinTranscript(BulkFile, Ids(c) + [Decimal(c.size)])
  }

  /** The additional data of `_receive_bulk_file`. */
  function PythonBulkAad(c: BulkContext): seq<Byte> {
    PythonTranscript(BulkFile, Ids(c) + [Decimal(c.size)])
  }

  lemma {:induction false} JoinIsNested(fields: seq<string>, last: string)
    requires fields != []
    ensures Join(fields + [last]) == Join(fields) + [NUL] + last
    decreases |fields|
  {
    if |fields| == 1 {
      assert (fields + [last])[1..] == [last];
    } else {
      assert (fields + [last])[1..] == fields[1..] + [last];
      JoinIsNested(fields[1..], last);
      assert (fields + [last])[0] == fields[0];
    }
  }

  /** The order of the fields in both transcripts. */
  lemma Layouts(c: BulkContext, a: Acceptance)
    ensures KotlinBulkAad(c)
            == Utf8(Mark(BulkFile) + [NUL] + c.sessionId + [NUL] + c.sender + [NUL] + c.recipient + [NUL]
                    + c.transferId + [NUL] + c.fileId + [NUL] + Decimal(c.size))
    ensures KotlinAcceptTranscript(a)
            == Utf8(Mark(SessionAccept) + [NUL] + a.sessionId + [NUL] + a.challenge + [NUL] + a.androidId + [NUL]
                    + a.wispId)
  {
    hide Decimal, Mark, Utf8;
    var m := [Mark(BulkFile)];
    var m1 := m + [c.sessionId];
    var m2 := m1 + [c.sender];
    var m3 := m2 + [c.recipient];
    var m4 := m3 + [c.transferId];
    var m5 := m4 + [c.fileId];
    JoinIsNested(m, c.sessionId);
    JoinIsNested(m1, c.sender);
    JoinIsNested(m2, c.recipient);
    JoinIsNested(m3, c.transferId);
    JoinIsNested(m4, c.fileId);
    JoinIsNested(m5, Decimal(c.size));
    assert m5 + [Decimal(c.size)] == m + (Ids(c) + [Decimal(c.size)]);
    var n := [Mark(SessionAccept)];
    var n1 := n + [a.sessionId];
    var n2 := n1 + [a.challenge];
    var n3 := n2 + [a.androidId];
    JoinIsNested(n, a.sessionId);
    JoinIsNested(n1, a.challenge);
    JoinIsNested(n2, a.androidId);
    JoinIsNested(n3, a.wispId);
    assert n3 + [a.wispId] == n + AcceptIds(a);
  }

  lemma SizedNulFree(c: BulkContext)
    requires NulFree(Ids(c))
    ensures NulFree(Ids(c) + [Decimal(c.size)])
  {
  }

  lemma SameFields(c: BulkContext, d: BulkContext)
    requires Ids(c) + [Decimal(c.size)] == Ids(d) + [Decimal(d.size)]
    ensures c == d
  {
    var a, b := Ids(c) + [Decimal(c.size)], Ids(d) + [Decimal(d.size)];
    assert a[0] == b[0] && a[1] == b[1] && a[2] == b[2] && a[3] == b[3] && a[4] == b[4] && a[5] == b[5];
    DecimalInjective(c.size, d.size);
  }

  /** The receiver authenticates the sender's bytes exactly when it expects the same file of the same
      transfer, provided that the identifiers it uses have no NUL. */
  lemma BulkAadMatches(mine: BulkContext, theirs: BulkContext)
    requires NulFree(Ids(mine))
    ensures PythonBulkAad(mine) == KotlinBulkAad(theirs) <==> mine == theirs
  {
    SizedNulFree(mine);
    TranscriptInjective(BulkFile, Ids(mine) + [Decimal(mine.size)], Ids(theirs) + [Decimal(theirs.size)]);
    if PythonBulkAad(mine) == KotlinBulkAad(theirs) {
      SameFields(mine, theirs);
    }
  }

  function WithIds(ids: seq<string>, size: nat): (c: BulkContext)
    requires |ids| == 5
    ensures Ids(c) == ids && c.size == size
  {
    BulkContext(ids[0], ids[1], ids[2], ids[3], ids[4], size)
  }

  lemma BulkAadCollision(c: BulkContext) returns (d: BulkContext)
    requires NoneEmpty(Ids(c)) && !Tight(Ids(c))
    ensures d != c && NoneEmpty(Ids(d)) && PythonBulkAad(c) == KotlinBulkAad(d)
  {
    var o := TranscriptCollision(BulkFile, Ids(c), [Decimal(c.size)]);
    d := WithIds(o, c.size);
  }

  /** No other context that the runtimes admit, that is, without an empty identifier, has its
      additional data. */
  ghost predicate BulkAadUnambiguous(c: BulkContext) {
    forall d :: NoneEmpty(Ids(d)) && PythonBulkAad(c) == KotlinBulkAad(d) ==> c == d
  }

  /** Both runtimes refuse empty identifiers, and neither looks for NUL in them. The additional data
      stands for one context exactly when no border between two identifiers can be moved. */
  lemma BulkAadIsUnambiguous(c: BulkContext)
    requires NoneEmpty(Ids(c))
    ensures BulkAadUnambiguous(c) <==> Tight(Ids(c))
  {
    if Tight(Ids(c)) {
      forall d | NoneEmpty(Ids(d)) && PythonBulkAad(c) == KotlinBulkAad(d) ensures c == d {
        TightSizedTranscript(BulkFile, Ids(c), Ids(d), Decimal(c.size), Decimal(d.size));
        SameFields(c, d);
      }
    } else {
      var d := BulkAadCollision(c);
    }
  }

  // ---------------------------------------------------------------- the session acceptance

  datatype Acceptance = Acceptance(sessionId: string, challenge: string, androidId: string, wispId: string)

  function AcceptIds(a: Acceptance): seq<string> {
    [a.sessionId, a.challenge, a.androidId, a.wispId]
  }

  /** What `session_accept_proof` computes the MAC of. */
  function PythonAcceptTranscript(a: Acceptance): seq<Byte> {
    PythonTranscript(SessionAccept, AcceptIds(a))
  }

  /** What `SessionCrypto.acceptProof` computes the MAC of. */
  function KotlinAcceptTranscript(a: Acceptance): seq<Byte> {
    KotlinTranscript(SessionAccept, AcceptIds(a))
  }

  /** The proof that Android expects covers the session, challenge and endpoints that the Wisp
      answered for, provided that those Android uses have no NUL. */
  lemma AcceptMatches(mine: Acceptance, theirs: Acceptance)
    requires NulFree(AcceptIds(mine))
    ensures KotlinAcceptTranscript(mine) == PythonAcceptTranscript(theirs) <==> mine == theirs
  {
    TranscriptInjective(SessionAccept, AcceptIds(mine), AcceptIds(theirs));
    if AcceptIds(mine) == AcceptIds(theirs) {
      SameAcceptance(mine, theirs);
    }
  }

  function AcceptanceOf(ids: seq<string>): (a: Acceptance)
    requires |ids| == 4
    ensures AcceptIds(a) == ids
  {
    Acceptance(ids[0], ids[1], ids[2], ids[3])
  }

  lemma AcceptCollision(a: Acceptance) returns (b: Acceptance)
    requires NoneEmpty(AcceptIds(a)) && !Tight(AcceptIds(a))
    ensures b != a && NoneEmpty(AcceptIds(b)) && KotlinAcceptTranscript(a) == PythonAcceptTranscript(b)
  {
    var o := TranscriptCollision(SessionAccept, AcceptIds(a), []);
    b := AcceptanceOf(o);
    assert AcceptIds(a) + [] == AcceptIds(a) && o + [] == o;
  }

  lemma SameAcceptance(a: Acceptance, b: Acceptance)
    requires AcceptIds(a) == AcceptIds(b)
    ensures a == b
  {
    var x, y := AcceptIds(a), AcceptIds(b);
    assert x[0] == y[0] && x[1] == y[1] && x[2] == y[2] && x[3] == y[3];
  }

  ghost predicate AcceptUnambiguous(a: Acceptance) {
    forall b :: NoneEmpty(AcceptIds(b)) && KotlinAcceptTranscript(a) == PythonAcceptTranscript(b) ==> a == b
  }

  /** The acceptance stands for one handshake under the same condition. */
  lemma AcceptIsUnambiguous(a: Acceptance)
    requires NoneEmpty(AcceptIds(a))
    ensures AcceptUnambiguous(a) <==> Tight(AcceptIds(a))
  {
    if Tight(AcceptIds(a)) {
      forall b | NoneEmpty(AcceptIds(b)) && KotlinAcceptTranscript(a) == PythonAcceptTranscript(b) ensures a == b {
        TightTranscript(SessionAccept, AcceptIds(a), AcceptIds(b));
        SameAcceptance(a, b);
      }
    } else {
      var b := AcceptCollision(a);
    }
  }
}
