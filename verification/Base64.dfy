/** base64.c: the encoding of section 4 of RFC 4648 and its inverse. */
module Base64 {

  type byte = bv8

  const PAD: byte := 61   // '='

  /** Base64[v] */
  function Chr(v: byte): byte {
    if v < 26 then v + 65        // A..Z
    else if v < 52 then v + 71   // a..z
    else if v < 62 then v - 4    // 0..9
    else if v == 62 then 43      // +
    else 47                      // /
  }

  predicate InAlphabet(ch: byte) {
    65 <= ch <= 90 || 97 <= ch <= 122 || 48 <= ch <= 57 || ch == 43 || ch == 47
  }

  /** strchr(Base64, ch) - Base64 */
  function Pos(ch: byte): byte {
    if 65 <= ch <= 90 then ch - 65
    else if 97 <= ch <= 122 then ch - 71
    else if 48 <= ch <= 57 then ch + 4
    else if ch == 43 then 62
    else 63
  }

  /** isspace */
  predicate Space(ch: byte) { ch == 32 || 9 <= ch <= 13 }

  /** The groups of six bits of three bytes */
  function S0(a: byte): byte { a >> 2 }
  function S1(a: byte, b: byte): byte { ((a & 0x03) << 4) + (b >> 4) }
  function S2(b: byte, c: byte): byte { ((b & 0x0f) << 2) + (c >> 6) }
  function S3(c: byte): byte { c & 0x3f }

  /** Four groups of six bits are three bytes, the most significant bits first. */
  lemma {:induction false} GroupBits(a: byte, b: byte, c: byte)
    ensures S0(a) < 64 && S1(a, b) < 64 && S2(b, c) < 64 && S3(c) < 64
    ensures (S0(a) as bv24 << 18) + (S1(a, b) as bv24 << 12) + (S2(b, c) as bv24 << 6) + S3(c) as bv24
            == (a as bv24 << 16) + (b as bv24 << 8) + c as bv24
  {
  }

  /** Each value has the character of table 1 of RFC 4648. */
  lemma {:induction false} Alphabet(v: byte)
    requires v < 64
    ensures Chr(v) as int == "ABCDEFGHIJKLMNOPQRSTUVWXYZabcdefghijklmnopqrstuvwxyz0123456789+/"[v as int] as int
  {
    hide Chr;
    ChrIs(v);
    var k := v as int;
    TableParts();
    InParts("ABCDEFGHIJKLMNOPQRSTUVWXYZ", "abcdefghijklmnopqrstuvwxyz", "0123456789", "+/", k);
    if k < 26 { Upper(k); } else if k < 52 { Lower(k - 26); } else if k < 62 { Digit(k - 52); }
  }

  lemma TableParts()
    ensures "ABCDEFGHIJKLMNOPQRSTUVWXYZabcdefghijklmnopqrstuvwxyz0123456789+/"
            == "ABCDEFGHIJKLMNOPQRSTUVWXYZ" + "abcdefghijklmnopqrstuvwxyz" + "0123456789" + "+/"
  {
  }

  lemma InParts(a: string, b: string, c: string, d: string, k: nat)
    requires |a| == |b| == 26 && |c| == 10 && |d| == 2 && k < 64
    ensures (a + b + c + d)[k]
            == if k < 26 then a[k] else if k < 52 then b[k - 26] else if k < 62 then c[k - 52] else d[k - 62]
  {
  }

  lemma {:induction false} ChrIs(v: byte)
    requires v < 64
    ensures var k := v as int;
            Chr(v) as int == if k < 26 then k + 65 else if k < 52 then k + 71 else if k < 62 then k - 4
                             else if k == 62 then 43 else 47
  {
  }

  lemma Upper(k: nat)
    requires k < 26
    ensures "ABCDEFGHIJKLMNOPQRSTUVWXYZ"[k] as int == k + 65
  {
  }

  lemma Lower(k: nat)
    requires k < 26
    ensures "abcdefghijklmnopqrstuvwxyz"[k] as int == k + 97
  {
  }

  lemma Digit(k: nat)
    requires k < 10
    ensures "0123456789"[k] as int == k + 48
  {
  }

  /** The encoding: four characters for three bytes, the last group padded. */
  function Enc(x: seq<byte>): seq<byte> {
    if x == [] then []
    else if |x| == 1 then [Chr(S0(x[0])), Chr(S1(x[0], 0)), PAD, PAD]
    else if |x| == 2 then [Chr(S0(x[0])), Chr(S1(x[0], x[1])), Chr(S2(x[1], 0)), PAD]
    else [Chr(S0(x[0])), Chr(S1(x[0], x[1])), Chr(S2(x[1], x[2])), Chr(S3(x[2]))] + Enc(x[3..])
  }

  /** Test vectors of section 10 of RFC 4648: "", "f", "fo", "foo" and "foobar" */
  lemma {:induction false} Vectors()
    ensures Enc([]) == []
    ensures Enc([102]) == [90, 103, 61, 61]                                  // Zg==
    ensures Enc([102, 111]) == [90, 109, 56, 61]                             // Zm8=
    ensures Enc([102, 111, 111]) == [90, 109, 57, 118]                       // Zm9v
    ensures Enc([102, 111, 111, 98, 97, 114]) == [90, 109, 57, 118, 89, 109, 70, 121]   // Zm9vYmFy
  {
    assert [102, 111, 111][3..] == [] && [102, 111, 111, 98, 97, 114][3..] == [98, 97, 114];
    assert [98, 97, 114][3..] == [];
  }

  /** The length of the encoding of n bytes */
  function EncLen(n: nat): nat { (n + 2) / 3 * 4 }

  lemma {:induction false} EncLength(x: seq<byte>)
    ensures |Enc(x)| == EncLen(|x|)
  {
    if |x| > 2 { EncLength(x[3..]); }
  }

  lemma {:induction false} EncSplit(x: seq<byte>, y: seq<byte>)
    requires |x| % 3 == 0
    ensures Enc(x + y) == Enc(x) + Enc(y)
    decreases |x|
  {
    hide Chr, S0, S1, S2, S3;
    if x == [] {
      assert x + y == y;
    } else {
      assert (x + y)[3..] == x[3..] + y;
      EncSplit(x[3..], y);
    }
  }

  /** The first whole groups of three bytes */
  function Groups(n: nat): (k: nat) ensures k <= n && k % 3 == 0 && n - k < 3 { n - n % 3 }

  // ----- encoding -----

  method PutFour(target: array<byte>, at: nat, c0: byte, c1: byte, c2: byte, c3: byte)
    requires at + 4 <= target.Length
    modifies target
    ensures target[..at + 4] == old(target[..at]) + [c0, c1, c2, c3]
  {
    target[at], target[at + 1], target[at + 2], target[at + 3] := c0, c1, c2, c3;
  }

  /** b64_encode: succeeds exactly if the encoding and the zero behind it fit. */
  method Encode(src: seq<byte>, target: array<byte>) returns (r: int)
    requires target.Length > 0
    modifies target
    ensures r == if EncLen(|src|) < target.Length then EncLen(|src|) else -1
    ensures r >= 0 ==> target[..r] == Enc(src) && target[r] == 0
  {
    hide Chr, S0, S1, S2, S3, Enc;
    EncNone();
    var datalength := 0;
    var i := 0;
    while 2 < |src| - i
      invariant 0 <= i <= |src| && i % 3 == 0 && datalength == EncLen(i) && datalength <= target.Length
      invariant target[..datalength] == Enc(src[..i])
    {
      var a, b, c := src[i], src[i + 1], src[i + 2];
      if datalength + 4 > target.Length {
        return -1;
      }
      EncSplit(src[..i], [a, b, c]);
      assert src[..i + 3] == src[..i] + [a, b, c];
      EncThree(a, b, c);
      PutFour(target, datalength, Chr(S0(a)), Chr(S1(a, b)), Chr(S2(b, c)), Chr(S3(c)));
      datalength := datalength + 4;
      i := i + 3;
    }
    EncSplit(src[..i], src[i..]);
    assert src == src[..i] + src[i..];
    if i != |src| {
      var a, b := src[i], if i + 1 < |src| then src[i + 1] else 0;
      if datalength + 4 > target.Length {
        return -1;
      }
      EncLast(src[i..]);
      PutFour(target, datalength, Chr(S0(a)), Chr(S1(a, b)), if |src| - i == 1 then PAD else Chr(S2(b, 0)), PAD);
      datalength := datalength + 4;
    }
    assert target[..datalength] == Enc(src);
    if datalength >= target.Length {
      return -1;
    }
    target[datalength] := 0;
    return datalength;
  }

  lemma {:induction false} EncNone()
    ensures Enc([]) == []
  {
  }

  lemma {:induction false} EncLast(x: seq<byte>)
    requires 1 <= |x| <= 2
    ensures var b := if |x| == 2 then x[1] else 0;
      Enc(x) == [Chr(S0(x[0])), Chr(S1(x[0], b)), if |x| == 1 then PAD else Chr(S2(b, 0)), PAD]
  {
    hide Chr, S0, S1, S2, S3;
  }

  lemma {:induction false} EncThree(a: byte, b: byte, c: byte)
    ensures Enc([a, b, c]) == [Chr(S0(a)), Chr(S1(a, b)), Chr(S2(b, c)), Chr(S3(c))]
  {
    hide Chr, S0, S1, S2, S3;
    assert [a, b, c][3..] == [];
  }

  // ----- decoding -----

  /** s without its whitespace */
  function Strip(s: seq<byte>): seq<byte> {
    if s == [] then [] else (if Space(s[0]) then [] else [s[0]]) + Strip(s[1..])
  }

  /** Exactly the blank, tab, newline, vertical tab, form feed and carriage return are skipped. */
  lemma {:induction false} Stripped(s: seq<byte>, ch: byte)
    ensures ch in Strip(s) <==> ch in s && ch !in [32, 9, 10, 11, 12, 13]
  {
    if s != [] {
      Stripped(s[1..], ch);
    }
  }

  lemma {:induction false} StripSplit(s: seq<byte>, t: seq<byte>)
    ensures Strip(s + t) == Strip(s) + Strip(t)
  {
    hide Strip;
    if s == [] {
      assert s + t == t;
      StripNothing();
      assert [] + Strip(t) == Strip(t);
    } else {
      assert (s + t)[1..] == s[1..] + t;
      StripFirst(s);
      StripFirst(s + t);
      StripSplit(s[1..], t);
      var first := if Space(s[0]) then [] else [s[0]];
      assert first + Strip(s[1..]) + Strip(t) == first + (Strip(s[1..]) + Strip(t));
    }
  }

  lemma StripNothing()
    ensures Strip([]) == []
  {
  }

  lemma StripFirst(s: seq<byte>)
    requires s != []
    ensures Strip(s) == (if Space(s[0]) then [] else [s[0]]) + Strip(s[1..])
  {
    hide Space;
  }

  lemma {:induction false} StripOne(ch: byte)
    ensures Strip([ch]) == if Space(ch) then [] else [ch]
  {
    hide Space;
    assert [ch][1..] == [];
  }

  /** The characters that lead to the bytes t in a state of the decoder in which the bits in
      part are left over. */
  ghost function Chars(t: seq<byte>, state: nat, part: byte): seq<byte>
    requires state < 4 && |t| % 3 == if state == 0 then 0 else state - 1
  {
    var q := Groups(|t|);
    Enc(t[..q]) +
    if state == 0 then []
    else if state == 1 then [Chr(S0(part))]
    else if state == 2 then [Chr(S0(t[q])), Chr(S1(t[q], part))]
    else [Chr(S0(t[q])), Chr(S1(t[q], t[q + 1])), Chr(S2(t[q + 1], part))]
  }

  /** The bits of the next byte that are not known yet are zero. */
  ghost predicate Low(state: nat, part: byte) {
    if state == 0 then part == 0
    else if state == 1 then part & 0x03 == 0
    else if state == 2 then part & 0x0f == 0
    else part & 0x3f == 0
  }

  // What b64_decode stores for a group v of six bits: the byte t completed, and the start of the next

  function D0(v: byte): byte { v << 2 }
  function D1(t: byte, v: byte): byte { t | (v >> 4) }
  function N1(v: byte): byte { (v & 0x0f) << 4 }
  function D2(t: byte, v: byte): byte { t | (v >> 2) }
  function N2(v: byte): byte { (v & 0x03) << 6 }
  function D3(t: byte, v: byte): byte { t | v }

  lemma {:induction false} Bits0(v: byte)
    requires v < 64
    ensures S0(D0(v)) == v && Low(1, D0(v))
  {
  }

  lemma {:induction false} Bits1(part: byte, v: byte)
    requires v < 64 && Low(1, part)
    ensures S0(D1(part, v)) == S0(part) && S1(D1(part, v), N1(v)) == v && Low(2, N1(v))
  {
  }

  lemma {:induction false} Bits2(part: byte, v: byte, a: byte)
    requires v < 64 && Low(2, part)
    ensures S1(a, D2(part, v)) == S1(a, part) && S2(D2(part, v), N2(v)) == v && Low(3, N2(v))
  {
  }

  lemma {:induction false} Bits3(part: byte, v: byte, b: byte)
    requires v < 64 && Low(3, part)
    ensures S2(b, D3(part, v)) == S2(b, part) && S3(D3(part, v)) == v
  {
  }

  lemma {:induction false} PosChr(ch: byte)
    requires InAlphabet(ch)
    ensures Pos(ch) < 64 && Chr(Pos(ch)) == ch
  {
  }

  lemma {:induction false} ChrIn(v: byte)
    ensures v < 64 ==> InAlphabet(Chr(v)) && Chr(v) != PAD && Pos(Chr(v)) == v
  {
  }

  lemma {:induction false} Sextets(a: byte, b: byte, c: byte)
    ensures S0(a) < 64 && S1(a, b) < 64 && S2(b, c) < 64 && S3(c) < 64
  {
  }

  lemma {:induction false} NotSpace(ch: byte)
    ensures InAlphabet(ch) || ch == PAD ==> !Space(ch)
    ensures !InAlphabet(PAD)
  {
  }

  // What Chars says in each state

  lemma {:induction false} GroupsOf(n: nat, k: nat)
    requires n % 3 == 0 && k < 3
    ensures (n + k) % 3 == k && Groups(n + k) == n
  {
  }

  lemma {:induction false} Chars01(t: seq<byte>, part: byte)
    requires |t| % 3 == 0
    ensures Chars(t, 0, part) == Enc(t) && Chars(t, 1, part) == Enc(t) + [Chr(S0(part))]
  {
    hide Enc, Chr, S0, Groups;
    GroupsOf(|t|, 0);
    assert t[..|t|] == t;
  }

  lemma {:induction false} Chars2(t: seq<byte>, b: byte, part: byte)
    requires |t| % 3 == 0
    ensures |t + [b]| % 3 == 1 && Chars(t + [b], 2, part) == Enc(t) + [Chr(S0(b)), Chr(S1(b, part))]
  {
    hide Enc, Chr, S0, S1, Groups;
    GroupsOf(|t|, 1);
    assert (t + [b])[..|t|] == t;
  }

  lemma {:induction false} Chars3(t: seq<byte>, b: byte, c: byte, part: byte)
    requires |t| % 3 == 0
    ensures |t + [b, c]| % 3 == 2
    ensures Chars(t + [b, c], 3, part) == Enc(t) + [Chr(S0(b)), Chr(S1(b, c)), Chr(S2(c, part))]
  {
    hide Enc, Chr, S0, S1, S2, Groups;
    GroupsOf(|t|, 2);
    assert (t + [b, c])[..|t|] == t;
  }

  // Each character of the alphabet takes the decoder one state on.

  lemma {:induction false} Next0(t: seq<byte>, ch: byte)
    requires |t| % 3 == 0 && InAlphabet(ch)
    ensures Chars(t, 1, D0(Pos(ch))) == Chars(t, 0, 0) + [ch] && Low(1, D0(Pos(ch)))
  {
    hide Enc, Chr, Pos, S0, S1, S2, S3, D0, D1, D2, D3, N1, N2, InAlphabet, Chars, Low;
    PosChr(ch);
    Bits0(Pos(ch));
    Chars01(t, D0(Pos(ch)));
    Chars01(t, 0);
  }

  lemma {:induction false} Next1(t: seq<byte>, part: byte, ch: byte)
    requires |t| % 3 == 0 && InAlphabet(ch) && Low(1, part)
    ensures var b := D1(part, Pos(ch)); var n := N1(Pos(ch));
      |t + [b]| % 3 == 1 && Chars(t + [b], 2, n) == Chars(t, 1, part) + [ch] && Low(2, n)
  {
    hide Enc, Chr, Pos, S0, S1, S2, S3, D0, D1, D2, D3, N1, N2, InAlphabet, Chars, Low;
    PosChr(ch);
    Bits1(part, Pos(ch));
    Chars01(t, part);
    Chars2(t, D1(part, Pos(ch)), N1(Pos(ch)));
  }

  lemma {:induction false} Next2(t: seq<byte>, part: byte, ch: byte)
    requires |t| % 3 == 1 && InAlphabet(ch) && Low(2, part)
    ensures var b := D2(part, Pos(ch)); var n := N2(Pos(ch));
      |t + [b]| % 3 == 2 && Chars(t + [b], 3, n) == Chars(t, 2, part) + [ch] && Low(3, n)
  {
    hide Enc, Chr, Pos, S0, S1, S2, S3, D0, D1, D2, D3, N1, N2, InAlphabet, Chars, Low;
    PosChr(ch);
    var low, a, b := t[..|t| - 1], t[|t| - 1], D2(part, Pos(ch));
    Bits2(part, Pos(ch), a);
    Chars2(low, a, part);
    Chars3(low, a, b, N2(Pos(ch)));
    assert low + [a] == t;
    assert low + [a, b] == t + [b];
  }

  lemma {:induction false} Next3(t: seq<byte>, part: byte, ch: byte)
    requires |t| % 3 == 2 && InAlphabet(ch) && Low(3, part)
    ensures |t + [D3(part, Pos(ch))]| % 3 == 0 && Chars(t + [D3(part, Pos(ch))], 0, 0) == Chars(t, 3, part) + [ch]
  {
    hide Enc, Chr, Pos, S0, S1, S2, S3, D0, D1, D2, D3, N1, N2, InAlphabet, Chars, Low;
    PosChr(ch);
    var low, a, b, c := t[..|t| - 2], t[|t| - 2], t[|t| - 1], D3(part, Pos(ch));
    Bits3(part, Pos(ch), b);
    Chars3(low, a, b, part);
    Chars01(low + [a, b, c], 0);
    EncSplit(low, [a, b, c]);
    EncThree(a, b, c);
    assert low + [a, b] == t;
    assert low + [a, b, c] == t + [c];
  }

  /** Padding a state without left-over bits completes the encoding of the bytes so far. */
  lemma {:induction false} Padded(t: seq<byte>, state: nat)
    requires 2 <= state < 4 && |t| % 3 == state - 1
    ensures Chars(t, state, 0) + (if state == 2 then [PAD, PAD] else [PAD]) == Enc(t)
  {
    hide Enc, Chr, S0, S1, S2, S3;
    var q := Groups(|t|);
    assert t == t[..q] + t[q..];
    EncSplit(t[..q], t[q..]);
    EncLast(t[q..]);
  }

  /** What the characters of an encoding say about the bytes: padding is only at the end, and a
      character at position p needs more than 3 p / 4 bytes. */
  lemma {:induction false} EncChar(x: seq<byte>, p: nat)
    requires p < |Enc(x)|
    ensures Enc(x)[p] == PAD ==> p % 4 >= 2 && |Enc(x)| == p - p % 4 + 4 && (p % 4 == 2 ==> Enc(x)[p + 1] == PAD)
    ensures Enc(x)[p] != PAD ==> InAlphabet(Enc(x)[p]) && |x| > 3 * p / 4
    decreases |x|
  {
    hide Chr, S0, S1, S2, S3, InAlphabet, EncLen;
    if |x| > 2 && p >= 4 {
      assert Enc(x)[p] == Enc(x[3..])[p - 4] && |Enc(x)| == 4 + |Enc(x[3..])|;
      EncChar(x[3..], p - 4);
      Shifted(p);
    } else {
      EncCharFirst(x, p);
    }
  }

  lemma {:induction false} Shifted(p: nat)
    requires p >= 4
    ensures p % 4 == (p - 4) % 4 && 3 * p / 4 == 3 * (p - 4) / 4 + 3
  {
  }

  /** The first group of characters */
  lemma {:induction false} EncCharFirst(x: seq<byte>, p: nat)
    requires p < |Enc(x)| && p < 4
    ensures Enc(x)[p] == PAD ==> p >= 2 && |Enc(x)| == 4 && (p == 2 ==> Enc(x)[3] == PAD)
    ensures Enc(x)[p] != PAD ==> InAlphabet(Enc(x)[p]) && |x| > 3 * p / 4
  {
    hide Chr, S0, S1, S2, S3, InAlphabet;
    var b, c := if |x| > 1 then x[1] else 0, if |x| > 2 then x[2] else 0;
    Sextets(x[0], b, c);
    ChrIn(S0(x[0]));
    ChrIn(S1(x[0], b));
    ChrIn(S2(b, c));
    ChrIn(S3(c));
  }

  lemma {:induction false} BitsLow(a: byte, b: byte, part: byte)
    ensures part & 0x0f == 0 && S1(a, part) == S1(b, 0) ==> part == 0
    ensures part & 0x3f == 0 && S2(a, part) == S2(b, 0) ==> part == 0
  {
  }

  lemma {:induction false} ChrInjective(v: byte, w: byte)
    requires v < 64 && w < 64 && Chr(v) == Chr(w)
    ensures v == w
  {
    ChrIn(v);
    ChrIn(w);
  }

  /** Left-over bits that are not zero belong to one more byte. */
  lemma {:induction false} LeftOver(x: seq<byte>, t: seq<byte>, state: nat, part: byte)
    requires 2 <= state < 4 && |t| % 3 == state - 1 && Low(state, part)
    requires Chars(t, state, part) <= Enc(x) && |x| <= |t|
    ensures part == 0 && |x| == |t|
  {
    hide Enc, Chr, S0, S1, S2, S3, InAlphabet;
    var q := Groups(|t|);
    var c := Chars(t, state, part);
    var p := |c| - 1;
    EncLength(t[..q]);
    var last := if state == 2 then S1(t[q], part) else S2(t[q + 1], part);
    assert Enc(x)[p] == c[p] == Chr(last);
    if state == 2 { Sextets(t[q], part, 0); } else { Sextets(0, t[q + 1], part); }
    ChrIn(last);
    EncChar(x, p);
    assert |x| == |t|;
    EncLength(x[..q]);
    EncSplit(x[..q], x[q..]);
    assert x == x[..q] + x[q..];
    EncLast(x[q..]);
    var other := if state == 2 then S1(x[q], 0) else S2(x[q + 1], 0);
    assert Enc(x)[p] == Chr(other);
    if state == 2 { Sextets(x[q], 0, 0); } else { Sextets(0, x[q + 1], 0); }
    ChrInjective(last, other);
    if state == 2 { BitsLow(t[q], x[q], part); } else { BitsLow(t[q + 1], x[q + 1], part); }
  }

  /** Nothing that begins with c is the encoding of at most size bytes. */
  ghost predicate TooBig(c: seq<byte>, size: nat) { forall x :: c <= Enc(x) ==> |x| > size }

  lemma {:induction false} CharsLength(t: seq<byte>, state: nat, part: byte)
    requires state < 4 && |t| % 3 == if state == 0 then 0 else state - 1
    ensures |Chars(t, state, part)| == |t| / 3 * 4 + state
  {
    hide Enc;
    EncLength(t[..Groups(|t|)]);
  }

  lemma {:induction false} NoRoom(c: seq<byte>, ch: byte, size: nat)
    requires InAlphabet(ch) && size <= 3 * |c| / 4
    ensures TooBig(c + [ch], size)
  {
    hide Enc, InAlphabet;
    NotSpace(ch);
    forall x | c + [ch] <= Enc(x) ensures |x| > size {
      assert Enc(x)[|c|] == ch;
      EncChar(x, |c|);
    }
  }

  lemma {:induction false} NoRoomForPart(t: seq<byte>, state: nat, part: byte, size: nat)
    requires 2 <= state < 4 && |t| % 3 == state - 1 && Low(state, part) && part != 0 && size <= |t|
    ensures TooBig(Chars(t, state, part), size)
  {
    hide Enc, Chars, Low;
    forall x | Chars(t, state, part) <= Enc(x) ensures |x| > size {
      if |x| <= size { LeftOver(x, t, state, part); }
    }
  }

  lemma {:induction false} LowNone(part: byte)
    ensures Low(0, part) <==> part == 0
    ensures Low(0, 0)
  {
  }

  /** How the target and the local variables of b64_decode go together */
  ghost predicate Held(mem: seq<byte>, tarindex: nat, state: nat, part: byte) {
    && state < 4 && tarindex <= |mem| && tarindex % 3 == (if state == 0 then 0 else state - 1) && Low(state, part)
    && (state != 0 ==> if tarindex < |mem| then mem[tarindex] == part else part == 0)
    && (state == 1 ==> tarindex < |mem|)
  }

  /** The switch of b64_decode on one character of the alphabet */
  method Take(target: array<byte>, tarindex: nat, state: nat, ghost part: byte, ch: byte)
    returns (ok: bool, index: nat, next: nat, ghost left: byte)
    requires Held(target[..], tarindex, state, part) && InAlphabet(ch)
    modifies target
    ensures ok ==> Held(target[..], index, next, left)
    ensures ok ==> Chars(target[..index], next, left) == Chars(old(target[..tarindex]), state, part) + [ch]
    ensures !ok ==> TooBig(Chars(old(target[..tarindex]), state, part) + [ch], target.Length)
  {
    hide Chars, Enc, Chr, Pos, S0, S1, S2, S3, D0, D1, D2, D3, N1, N2, InAlphabet, TooBig, Low;
    LowNone(part);
    ghost var t := target[..tarindex];
    ghost var c := Chars(t, state, part);
    CharsLength(t, state, part);
    ok, index, next, left := false, tarindex, state, part;
    if tarindex >= target.Length {
      NoRoom(c, ch, target.Length);
      return;
    }
    if state == 0 {
      Next0(t, ch);
      target[tarindex] := D0(Pos(ch));
      left := D0(Pos(ch));
      assert target[..tarindex] == t;
      ok, next := true, 1;
    } else if state == 1 {
      Next1(t, part, ch);
      target[tarindex] := D1(target[tarindex], Pos(ch));
      var nextbyte := N1(Pos(ch));
      if tarindex + 1 < target.Length {
        target[tarindex + 1] := nextbyte;
      } else if nextbyte != 0 {
        NoRoomForPart(t + [D1(part, Pos(ch))], 2, nextbyte, target.Length);
        return;
      }
      left := nextbyte;
      assert target[..tarindex + 1] == t + [D1(part, Pos(ch))];
      ok, index, next := true, tarindex + 1, 2;
    } else if state == 2 {
      Next2(t, part, ch);
      target[tarindex] := D2(target[tarindex], Pos(ch));
      var nextbyte := N2(Pos(ch));
      if tarindex + 1 < target.Length {
        target[tarindex + 1] := nextbyte;
      } else if nextbyte != 0 {
        NoRoomForPart(t + [D2(part, Pos(ch))], 3, nextbyte, target.Length);
        return;
      }
      left := nextbyte;
      assert target[..tarindex + 1] == t + [D2(part, Pos(ch))];
      ok, index, next := true, tarindex + 1, 3;
    } else {
      Next3(t, part, ch);
      target[tarindex] := D3(target[tarindex], Pos(ch));
      left := 0;
      assert target[..tarindex + 1] == t + [D3(part, Pos(ch))];
      ok, index, next := true, tarindex + 1, 0;
    }
  }

  /** The source is the encoding of at most size bytes, with whitespace anywhere. */
  ghost predicate Decodable(src: seq<byte>, size: nat) {
    exists x :: |x| <= size && Enc(x) == Strip(src)
  }

  ghost predicate Text(src: seq<byte>) { forall i :: 0 <= i < |src| ==> src[i] != 0 }

  /** src[i], with the zero at the end */
  function At(src: seq<byte>, i: nat): byte
    requires i <= |src|
  {
    if i == |src| then 0 else src[i]
  }

  /** Skips whitespace. */
  method Skip(src: seq<byte>, i: nat) returns (j: nat)
    requires i <= |src| && Text(src)
    ensures i <= j <= |src| && Strip(src[i..]) == Strip(src[j..])
    ensures j < |src| ==> !Space(src[j])
    ensures Strip(src[i..]) == if j == |src| then [] else [src[j]] + Strip(src[j + 1..])
  {
    hide Space;
    j := i;
    while At(src, j) != 0
      invariant i <= j <= |src| && Strip(src[i..]) == Strip(src[j..])
      decreases |src| - j
    {
      if !Space(src[j]) {
        assert src[j..][1..] == src[j + 1..];
        break;
      }
      assert src[j..][1..] == src[j + 1..];
      j := j + 1;
    }
  }

  lemma {:induction false} TooBigNot(src: seq<byte>, c: seq<byte>, size: nat)
    requires TooBig(c, size) && c <= Strip(src)
    ensures !Decodable(src, size)
  {
    hide Enc, Strip;
  }

  /** A character that no encoding has at this place */
  lemma {:induction false} WrongChar(src: seq<byte>, c: seq<byte>, ch: byte, rest: seq<byte>, size: nat)
    requires Strip(src) == c + [ch] + rest && !InAlphabet(ch) && (ch == PAD ==> |c| % 4 < 2)
    ensures !Decodable(src, size)
  {
    hide Enc, Strip, InAlphabet;
    forall x | Enc(x) == Strip(src) ensures false {
      assert Enc(x)[|c|] == ch;
      EncChar(x, |c|);
    }
  }

  /** A length that no encoding has */
  lemma {:induction false} WrongLength(src: seq<byte>, size: nat)
    requires |Strip(src)| % 4 != 0
    ensures !Decodable(src, size)
  {
    hide Enc, Strip;
    forall x | Enc(x) == Strip(src) ensures false {
      EncLength(x);
    }
  }

  /** Padding must be complete, and nothing may follow it. */
  lemma {:induction false} WrongPadding(src: seq<byte>, c: seq<byte>, rest: seq<byte>, size: nat)
    requires Strip(src) == c + [PAD] + rest && |c| % 4 >= 2
    requires rest != if |c| % 4 == 2 then [PAD] else []
    ensures !Decodable(src, size)
  {
    hide Enc, Strip, InAlphabet;
    forall x | Enc(x) == Strip(src) ensures false {
      assert Enc(x)[|c|] == PAD;
      EncChar(x, |c|);
    }
  }

  lemma {:induction false} WrongBits(src: seq<byte>, t: seq<byte>, state: nat, part: byte, size: nat)
    requires 2 <= state < 4 && |t| % 3 == state - 1 && Low(state, part) && part != 0
    requires Strip(src) == Chars(t, state, part) + if state == 2 then [PAD, PAD] else [PAD]
    ensures !Decodable(src, size)
  {
    hide Enc, Strip, Low, Chars;
    CharsLength(t, state, part);
    forall x | Enc(x) == Strip(src) ensures false {
      EncLength(x);
      EncChar(x, |Chars(t, state, part)|);
      if |x| > |t| {
        PadMeans(x, |Chars(t, state, part)|);
      }
      LeftOver(x, t, state, part);
    }
  }

  /** Padding at position p says how many bytes there are at most. */
  lemma {:induction false} PadMeans(x: seq<byte>, p: nat)
    requires p < |Enc(x)| && Enc(x)[p] == PAD
    ensures |x| <= 3 * p / 4
    decreases |x|
  {
    hide Chr, S0, S1, S2, S3, InAlphabet;
    if |x| > 2 {
      ChrIn(S0(x[0])); ChrIn(S1(x[0], x[1])); ChrIn(S2(x[1], x[2])); ChrIn(S3(x[2]));
      Sextets(x[0], x[1], x[2]);
      PadMeans(x[3..], p - 4);
    } else {
      ChrIn(S0(x[0]));
      Sextets(x[0], 0, 0);
      if |x| == 1 { ChrIn(S1(x[0], 0)); } else { ChrIn(S1(x[0], x[1])); ChrIn(S2(x[1], 0)); Sextets(x[0], x[1], 0); }
    }
  }

  lemma {:induction false} Found(src: seq<byte>, x: seq<byte>, size: nat)
    requires |x| <= size && Enc(x) == Strip(src)
    ensures Decodable(src, size)
  {
  }

  /** The second '=' in state 2, and only whitespace behind it */
  method Ending(src: seq<byte>, i: nat, state: nat) returns (ok: bool)
    requires i <= |src| && Text(src) && 2 <= state < 4
    ensures ok <==> Strip(src[i..]) == if state == 2 then [PAD] else []
  {
    hide Strip, Space;
    var j := i;
    if state == 2 {
      j := Skip(src, j);
      if At(src, j) != PAD {
        assert j < |src| ==> ([src[j]] + Strip(src[j + 1..]))[0] != PAD;
        return false;
      }
      j := j + 1;
    }
    ghost var rest := Strip(src[j..]);
    assert Strip(src[i..]) == (if state == 2 then [PAD] else []) + rest;
    j := Skip(src, j);
    return j == |src|;
  }

  /** The part of b64_decode behind the first '=', which is at position i. */
  method Finish(src: seq<byte>, i: nat, ghost t: seq<byte>, state: nat, ghost part: byte, next: byte, ghost size: nat)
      returns (ok: bool)
    requires i < |src| && Text(src) && src[i] == PAD && state < 4 && |t| % 3 == (if state == 0 then 0 else state - 1)
    requires Low(state, part) && (state != 0 ==> next == part) && |t| <= size
    requires Strip(src) == Chars(t, state, part) + [PAD] + Strip(src[i + 1..])
    ensures ok ==> Strip(src) == Enc(t)
    ensures !ok ==> !Decodable(src, size)
  {
    hide Enc, Strip, InAlphabet, Space, Low, Chars, Decodable;
    CharsLength(t, state, part);
    ghost var c := Chars(t, state, part);
    NotSpace(PAD);
    if state < 2 {
      WrongChar(src, c, PAD, Strip(src[i + 1..]), size);
      return false;
    }
    ghost var rest := Strip(src[i + 1..]);
    var right := Ending(src, i + 1, state);
    if !right {
      WrongPadding(src, c, rest, size);
      return false;
    }
    assert c + [PAD] + rest == c + if state == 2 then [PAD, PAD] else [PAD];
    if next != 0 {
      WrongBits(src, t, state, part, size);
      return false;
    }
    Padded(t, state);
    return true;
  }

  /** b64_decode: recovers what was encoded, and rejects everything else; the result fills the
      target up to the index returned. */
  method Decode(src: seq<byte>, target: array<byte>) returns (r: int)
    requires Text(src) && target.Length > 0
    modifies target
    ensures r == -1 || 0 <= r <= target.Length
    ensures r >= 0 <==> Decodable(src, target.Length)
    ensures r >= 0 ==> Enc(target[..r]) == Strip(src) && (r < target.Length ==> target[r] == 0)
  {
    hide Enc, Strip, InAlphabet, Space, Low, Decodable, Pos, TooBig, Chars, Held;
    var state: nat, tarindex: nat := 0, 0;
    ghost var part: byte := 0;
    var i: nat := 0;
    Begin(target[..]);
    StripNone(src);
    while At(src, i) != 0
      invariant i <= |src| && Held(target[..], tarindex, state, part)
      invariant tarindex <= target.Length && HeldFits(tarindex, state)
                && Strip(src[..i]) == Chars(target[..tarindex], state, part)
      decreases |src| - i
    {
      var ch := src[i];
      ghost var c := Chars(target[..tarindex], state, part);
      StripAt(src, i);
      NotSpace(ch);
      if Space(ch) {
        i := i + 1;
        continue;
      }
      if ch == PAD {
        break;
      }
      if !InAlphabet(ch) {
        WrongChar(src, c, ch, Strip(src[i + 1..]), target.Length);
        return -1;
      }
      var ok;
      ok, tarindex, state, part := Take(target, tarindex, state, part, ch);
      if !ok {
        TooBigNot(src, c + [ch], target.Length);
        return -1;
      }
      HeldFacts(target[..], tarindex, state, part);
      i := i + 1;
    }
    HeldFacts(target[..], tarindex, state, part);
    ghost var t := target[..tarindex];
    if i < |src| {
      StripAt(src, i);
      var next := if tarindex < target.Length then target[tarindex] else 0;
      var ok := Finish(src, i, t, state, part, next, target.Length);
      if !ok {
        return -1;
      }
    } else {
      assert src[..i] == src;
      CharsLength(t, state, part);
      if state != 0 {
        WrongLength(src, target.Length);
        return -1;
      }
      CharsWhole(t, part);
    }
    if tarindex < target.Length {
      target[tarindex] := 0;
    }
    assert target[..tarindex] == t;
    Found(src, t, target.Length);
    return tarindex;
  }

  ghost predicate HeldFits(tarindex: nat, state: nat) {
    state < 4 && tarindex % 3 == if state == 0 then 0 else state - 1
  }

  lemma {:induction false} HeldFacts(mem: seq<byte>, tarindex: nat, state: nat, part: byte)
    requires Held(mem, tarindex, state, part)
    ensures tarindex <= |mem| && HeldFits(tarindex, state) && Low(state, part)
    ensures state != 0 ==> part == if tarindex < |mem| then mem[tarindex] else 0
  {
    hide Low;
  }

  lemma {:induction false} Begin(mem: seq<byte>)
    ensures Held(mem, 0, 0, 0) && Chars(mem[..0], 0, 0) == []
  {
  }

  lemma {:induction false} StripNone(src: seq<byte>)
    ensures Strip(src[..0]) == []
  {
  }

  lemma {:induction false} CharsWhole(t: seq<byte>, part: byte)
    requires |t| % 3 == 0
    ensures Chars(t, 0, part) == Enc(t)
  {
    hide Enc;
    assert t[..Groups(|t|)] == t;
  }

  lemma {:induction false} StripAt(src: seq<byte>, i: nat)
    requires i < |src|
    ensures Strip(src[..i + 1]) == Strip(src[..i]) + if Space(src[i]) then [] else [src[i]]
    ensures Strip(src) == Strip(src[..i]) + (if Space(src[i]) then [] else [src[i]]) + Strip(src[i + 1..])
  {
    hide Strip, Space;
    assert src[..i + 1] == src[..i] + [src[i]];
    assert src == src[..i + 1] + src[i + 1..];
    StripSplit(src[..i], [src[i]]);
    StripSplit(src[..i + 1], src[i + 1..]);
    StripOne(src[i]);
  }

  /** Encodings contain no whitespace, and different bytes have different encodings. */
  lemma {:induction false} EncStripped(x: seq<byte>)
    ensures Strip(Enc(x)) == Enc(x) && Text(Enc(x))
  {
    hide Enc, InAlphabet;
    forall p | 0 <= p < |Enc(x)| ensures Clean(Enc(x)[p]) {
      EncChar(x, p);
      CleanAlphabet(Enc(x)[p]);
    }
    StripClean(Enc(x));
  }

  ghost predicate Clean(ch: byte) { !Space(ch) && ch != 0 }

  lemma {:induction false} CleanAlphabet(ch: byte)
    requires InAlphabet(ch) || ch == PAD
    ensures Clean(ch)
  {
  }

  lemma {:induction false} StripClean(s: seq<byte>)
    requires forall p :: 0 <= p < |s| ==> Clean(s[p])
    ensures Strip(s) == s && Text(s)
  {
    hide Space;
    if s != [] {
      assert forall p :: 0 <= p < |s[1..]| ==> s[1..][p] == s[p + 1];
      StripClean(s[1..]);
    }
  }

  // The bytes from their groups of six bits

  lemma {:induction false} Back0(a: byte, b: byte)
    ensures a == (S0(a) << 2) | (S1(a, b) >> 4)
  {
  }

  lemma {:induction false} Back1(a: byte, b: byte, c: byte)
    ensures b == ((S1(a, b) & 0x0f) << 4) | (S2(b, c) >> 2)
  {
  }

  lemma {:induction false} Back2(b: byte, c: byte)
    ensures c == ((S2(b, c) & 0x03) << 6) | S3(c)
  {
  }

  lemma {:induction false} SextetsInjective(a: byte, b: byte, c: byte, d: byte, e: byte, f: byte)
    requires S0(a) == S0(d) && S1(a, b) == S1(d, e)
    ensures a == d && (S2(b, c) == S2(e, f) ==> b == e && (S3(c) == S3(f) ==> c == f))
  {
    hide S0, S1, S2, S3;
    Back0(a, b);
    Back0(d, e);
    Back1(a, b, c);
    Back1(d, e, f);
    Back2(b, c);
    Back2(e, f);
  }

  /** Padding in the first group tells apart one, two and more bytes. */
  lemma {:induction false} FirstGroup(x: seq<byte>)
    requires x != []
    ensures |Enc(x)| >= 4 && (|x| == 1 <==> Enc(x)[2] == PAD) && (|x| <= 2 <==> Enc(x)[3] == PAD)
    ensures var b := if |x| > 1 then x[1] else 0; var c := if |x| > 2 then x[2] else 0;
      && Enc(x)[0] == Chr(S0(x[0])) && Enc(x)[1] == Chr(S1(x[0], b))
      && (|x| > 1 ==> Enc(x)[2] == Chr(S2(b, c))) && (|x| > 2 ==> Enc(x)[3] == Chr(S3(c)))
  {
    hide Chr, S0, S1, S2, S3;
    var b := if |x| > 1 then x[1] else 0;
    var c := if |x| > 2 then x[2] else 0;
    Sextets(x[0], b, c);
    ChrIn(S2(b, c));
    ChrIn(S3(c));
  }

  lemma {:induction false} EncInjective(x: seq<byte>, y: seq<byte>)
    requires Enc(x) == Enc(y)
    ensures x == y
    decreases |x|
  {
    hide Chr, S0, S1, S2, S3, InAlphabet;
    EncLength(x);
    EncLength(y);
    if x != [] {
      FirstGroup(x);
      FirstGroup(y);
      var b, c := if |x| > 1 then x[1] else 0, if |x| > 2 then x[2] else 0;
      var e, f := if |y| > 1 then y[1] else 0, if |y| > 2 then y[2] else 0;
      Sextets(x[0], b, c);
      Sextets(y[0], e, f);
      ChrInjective(S0(x[0]), S0(y[0]));
      ChrInjective(S1(x[0], b), S1(y[0], e));
      if |x| > 1 { ChrInjective(S2(b, c), S2(e, f)); }
      if |x| > 2 { ChrInjective(S3(c), S3(f)); }
      SextetsInjective(x[0], b, c, y[0], e, f);
      if |x| > 2 {
        assert Enc(x)[4..] == Enc(x[3..]) && Enc(y)[4..] == Enc(y[3..]);
        EncInjective(x[3..], y[3..]);
        assert x == [x[0], x[1], x[2]] + x[3..] && y == [y[0], y[1], y[2]] + y[3..];
      }
    }
  }

  /** Decoding an encoding succeeds if there is room for the bytes, and gives them back. */
  lemma {:induction false} RoundTrip(x: seq<byte>, size: nat)
    ensures Decodable(Enc(x), size) <==> |x| <= size
    ensures forall y :: Enc(y) == Strip(Enc(x)) ==> y == x
  {
    hide Enc, Strip;
    EncStripped(x);
    forall y | Enc(y) == Strip(Enc(x)) ensures y == x {
      EncInjective(x, y);
    }
  }
}
