/** md5.c: the four rounds of the MD5 block function of RFC 1321. */
module Md5Rounds {

  // ----- sections 3.3 to 3.5 of RFC 1321 -----

  /** The registers A, B, C, D. */
  datatype State = State(a: bv32, b: bv32, c: bv32, d: bv32)

  const INIT := State(0x67452301, 0xefcdab89, 0x98badcfe, 0x10325476)

  function F(x: bv32, y: bv32, z: bv32): bv32 { (x & y) | (!x & z) }
  function G(x: bv32, y: bv32, z: bv32): bv32 { (x & z) | (y & !z) }
  function H(x: bv32, y: bv32, z: bv32): bv32 { x ^ y ^ z }
  function I(x: bv32, y: bv32, z: bv32): bv32 { y ^ (x | !z) }

  /** T[1..16]: the integer part of 4294967296 times abs(sin(i)) */
  function T1(i: nat): bv32 {
    match i
    case 0 => 0xd76aa478
    case 1 => 0xe8c7b756
    case 2 => 0x242070db
    case 3 => 0xc1bdceee
    case 4 => 0xf57c0faf
    case 5 => 0x4787c62a
    case 6 => 0xa8304613
    case 7 => 0xfd469501
    case 8 => 0x698098d8
    case 9 => 0x8b44f7af
    case 10 => 0xffff5bb1
    case 11 => 0x895cd7be
    case 12 => 0x6b901122
    case 13 => 0xfd987193
    case 14 => 0xa679438e
    case _ => 0x49b40821
  }

  /** T[17..32]: the integer part of 4294967296 times abs(sin(i)) */
  function T2(i: nat): bv32 {
    match i
    case 0 => 0xf61e2562
    case 1 => 0xc040b340
    case 2 => 0x265e5a51
    case 3 => 0xe9b6c7aa
    case 4 => 0xd62f105d
    case 5 => 0x02441453
    case 6 => 0xd8a1e681
    case 7 => 0xe7d3fbc8
    case 8 => 0x21e1cde6
    case 9 => 0xc33707d6
    case 10 => 0xf4d50d87
    case 11 => 0x455a14ed
    case 12 => 0xa9e3e905
    case 13 => 0xfcefa3f8
    case 14 => 0x676f02d9
    case _ => 0x8d2a4c8a
  }

  /** T[33..48]: the integer part of 4294967296 times abs(sin(i)) */
  function T3(i: nat): bv32 {
    match i
    case 0 => 0xfffa3942
    case 1 => 0x8771f681
    case 2 => 0x6d9d6122
    case 3 => 0xfde5380c
    case 4 => 0xa4beea44
    case 5 => 0x4bdecfa9
    case 6 => 0xf6bb4b60
    case 7 => 0xbebfbc70
    case 8 => 0x289b7ec6
    case 9 => 0xeaa127fa
    case 10 => 0xd4ef3085
    case 11 => 0x04881d05
    case 12 => 0xd9d4d039
    case 13 => 0xe6db99e5
    case 14 => 0x1fa27cf8
    case _ => 0xc4ac5665
  }

  /** T[49..64]: the integer part of 4294967296 times abs(sin(i)) */
  function T4(i: nat): bv32 {
    match i
    case 0 => 0xf4292244
    case 1 => 0x432aff97
    case 2 => 0xab9423a7
    case 3 => 0xfc93a039
    case 4 => 0x655b59c3
    case 5 => 0x8f0ccc92
    case 6 => 0xffeff47d
    case 7 => 0x85845dd1
    case 8 => 0x6fa87e4f
    case 9 => 0xfe2ce6e0
    case 10 => 0xa3014314
    case 11 => 0x4e0811a1
    case 12 => 0xf7537e82
    case 13 => 0xbd3af235
    case 14 => 0x2ad7d2bb
    case _ => 0xeb86d391
  }

  /** Shift amounts */
  function S1(i: nat): (s: bv32) ensures s < 32 { match i % 4 case 0 => 7 case 1 => 12 case 2 => 17 case _ => 22 }
  function S2(i: nat): (s: bv32) ensures s < 32 { match i % 4 case 0 => 5 case 1 => 9 case 2 => 14 case _ => 20 }
  function S3(i: nat): (s: bv32) ensures s < 32 { match i % 4 case 0 => 4 case 1 => 11 case 2 => 16 case _ => 23 }
  function S4(i: nat): (s: bv32) ensures s < 32 { match i % 4 case 0 => 6 case 1 => 10 case 2 => 15 case _ => 21 }

  /** Which word of the block an operation uses */
  function K1(i: nat): (k: nat) ensures k < 16 { i % 16 }
  function K2(i: nat): (k: nat) ensures k < 16 { (1 + 5 * i) % 16 }
  function K3(i: nat): (k: nat) ensures k < 16 { (5 + 3 * i) % 16 }
  function K4(i: nat): (k: nat) ensures k < 16 { (7 * i) % 16 }

  function Plus(x: bv32, y: bv32): bv32 { x + y }

  /** v <<< s: v shifted left circularly by s bits */
  function Rotl(v: bv32, s: bv32): bv32
    requires s < 32
  {
    (v << s) | (v >> (32 - s))
  }

  /** b + ((a + f + X[k] + T[i]) <<< s) */
  function Sum(s: State, f: bv32, x: bv32, t: bv32, shift: bv32): bv32
    requires shift < 32
  {
    Plus(s.b, Rotl(Plus(Plus(Plus(s.a, f), x), t), shift))
  }

  /** The new value takes part as b in the next operation, b as c, c as d and d as a. */
  function Turn(s: State, v: bv32): State { State(s.d, v, s.b, s.c) }

  /** Operation i of the 64 */
  function Op(i: nat, s: State, x: seq<bv32>): State
    requires i < 64 && |x| == 16
  {
    if i < 16 then Turn(s, Sum(s, F(s.b, s.c, s.d), x[K1(i)], T1(i), S1(i)))
    else if i < 32 then var j := i - 16; Turn(s, Sum(s, G(s.b, s.c, s.d), x[K2(j)], T2(j), S2(j)))
    else if i < 48 then var j := i - 32; Turn(s, Sum(s, H(s.b, s.c, s.d), x[K3(j)], T3(j), S3(j)))
    else var j := i - 48; Turn(s, Sum(s, I(s.b, s.c, s.d), x[K4(j)], T4(j), S4(j)))
  }

  /** n operations from number first on */
  function Ops(first: nat, n: nat, s: State, x: seq<bv32>): State
    requires first + n <= 64 && |x| == 16
  {
    if n == 0 then s else Op(first + n - 1, Ops(first, n - 1, s, x), x)
  }

  // ----- the same in md5.c -----

  function CodeF(x: bv32, y: bv32, z: bv32): bv32 { z ^ (x & (y ^ z)) }
  function CodeG(x: bv32, y: bv32, z: bv32): bv32 { y ^ (z & (x ^ y)) }
  function CodeH(x: bv32, y: bv32, z: bv32): bv32 { (x ^ y) ^ z }
  function CodeH2(x: bv32, y: bv32, z: bv32): bv32 { x ^ (y ^ z) }
  function CodeI(x: bv32, y: bv32, z: bv32): bv32 { y ^ (x | !z) }

  function Rotated(a: bv32, s: bv32): bv32
    requires s < 32
  {
    (a << s) | ((a & 0xffffffff) >> (32 - s))
  }

  function StepF(a: bv32, b: bv32, c: bv32, d: bv32, x: bv32, t: bv32, s: bv32): bv32
    requires s < 32
  {
    Plus(Rotated(Plus(Plus(Plus(a, CodeF(b, c, d)), x), t), s), b)
  }

  function StepG(a: bv32, b: bv32, c: bv32, d: bv32, x: bv32, t: bv32, s: bv32): bv32
    requires s < 32
  {
    Plus(Rotated(Plus(Plus(Plus(a, CodeG(b, c, d)), x), t), s), b)
  }

  function StepH(a: bv32, b: bv32, c: bv32, d: bv32, x: bv32, t: bv32, s: bv32): bv32
    requires s < 32
  {
    Plus(Rotated(Plus(Plus(Plus(a, CodeH(b, c, d)), x), t), s), b)
  }

  function StepH2(a: bv32, b: bv32, c: bv32, d: bv32, x: bv32, t: bv32, s: bv32): bv32
    requires s < 32
  {
    Plus(Rotated(Plus(Plus(Plus(a, CodeH2(b, c, d)), x), t), s), b)
  }

  function StepI(a: bv32, b: bv32, c: bv32, d: bv32, x: bv32, t: bv32, s: bv32): bv32
    requires s < 32
  {
    Plus(Rotated(Plus(Plus(Plus(a, CodeI(b, c, d)), x), t), s), b)
  }

  lemma {:induction false} BitsF(x: bv32, y: bv32, z: bv32)
    ensures z ^ (x & (y ^ z)) == (x & y) | (!x & z)
  {
  }

  lemma {:induction false} FormsF(x: bv32, y: bv32, z: bv32)
    ensures CodeF(x, y, z) == F(x, y, z)
  {
    BitsF(x, y, z);
  }

  lemma {:induction false} BitsG(x: bv32, y: bv32, z: bv32)
    ensures y ^ (z & (x ^ y)) == (x & z) | (y & !z)
  {
  }

  lemma {:induction false} FormsG(x: bv32, y: bv32, z: bv32)
    ensures CodeG(x, y, z) == G(x, y, z)
  {
    BitsG(x, y, z);
  }

  lemma {:induction false} FormsH(x: bv32, y: bv32, z: bv32)
    ensures CodeH(x, y, z) == H(x, y, z)
  {
  }

  lemma {:induction false} BitsH2(x: bv32, y: bv32, z: bv32)
    ensures x ^ (y ^ z) == x ^ y ^ z
  {
  }

  lemma {:induction false} FormsH2(x: bv32, y: bv32, z: bv32)
    ensures CodeH2(x, y, z) == H(x, y, z)
  {
    BitsH2(x, y, z);
  }

  lemma {:induction false} FormsI(x: bv32, y: bv32, z: bv32)
    ensures CodeI(x, y, z) == I(x, y, z)
  {
  }

  lemma {:induction false} RotatedIs(a: bv32, s: bv32)
    requires s < 32
    ensures Rotated(a, s) == Rotl(a, s)
  {
    assert a & 0xffffffff == a;
  }

  lemma {:induction false} PlusCommutes(x: bv32, y: bv32)
    ensures Plus(x, y) == Plus(y, x)
  {
  }

  lemma {:induction false} StepFIs(s: State, x: bv32, t: bv32, n: bv32)
    requires n < 32
    ensures StepF(s.a, s.b, s.c, s.d, x, t, n) == Sum(s, F(s.b, s.c, s.d), x, t, n)
  {
    hide Plus, Rotl, Rotated, F, CodeF;
    FormsF(s.b, s.c, s.d);
    RotatedIs(Plus(Plus(Plus(s.a, F(s.b, s.c, s.d)), x), t), n);
    PlusCommutes(s.b, Rotl(Plus(Plus(Plus(s.a, F(s.b, s.c, s.d)), x), t), n));
  }

  lemma {:induction false} StepGIs(s: State, x: bv32, t: bv32, n: bv32)
    requires n < 32
    ensures StepG(s.a, s.b, s.c, s.d, x, t, n) == Sum(s, G(s.b, s.c, s.d), x, t, n)
  {
    hide Plus, Rotl, Rotated, G, CodeG;
    FormsG(s.b, s.c, s.d);
    RotatedIs(Plus(Plus(Plus(s.a, G(s.b, s.c, s.d)), x), t), n);
    PlusCommutes(s.b, Rotl(Plus(Plus(Plus(s.a, G(s.b, s.c, s.d)), x), t), n));
  }

  lemma {:induction false} StepHIs(s: State, x: bv32, t: bv32, n: bv32)
    requires n < 32
    ensures StepH(s.a, s.b, s.c, s.d, x, t, n) == Sum(s, H(s.b, s.c, s.d), x, t, n)
  {
    hide Plus, Rotl, Rotated, H, CodeH;
    FormsH(s.b, s.c, s.d);
    RotatedIs(Plus(Plus(Plus(s.a, H(s.b, s.c, s.d)), x), t), n);
    PlusCommutes(s.b, Rotl(Plus(Plus(Plus(s.a, H(s.b, s.c, s.d)), x), t), n));
  }

  lemma {:induction false} StepH2Is(s: State, x: bv32, t: bv32, n: bv32)
    requires n < 32
    ensures StepH2(s.a, s.b, s.c, s.d, x, t, n) == Sum(s, H(s.b, s.c, s.d), x, t, n)
  {
    hide Plus, Rotl, Rotated, H, CodeH2;
    FormsH2(s.b, s.c, s.d);
    RotatedIs(Plus(Plus(Plus(s.a, H(s.b, s.c, s.d)), x), t), n);
    PlusCommutes(s.b, Rotl(Plus(Plus(Plus(s.a, H(s.b, s.c, s.d)), x), t), n));
  }

  lemma {:induction false} StepIIs(s: State, x: bv32, t: bv32, n: bv32)
    requires n < 32
    ensures StepI(s.a, s.b, s.c, s.d, x, t, n) == Sum(s, I(s.b, s.c, s.d), x, t, n)
  {
    hide Plus, Rotl, Rotated, I, CodeI;
    FormsI(s.b, s.c, s.d);
    RotatedIs(Plus(Plus(Plus(s.a, I(s.b, s.c, s.d)), x), t), n);
    PlusCommutes(s.b, Rotl(Plus(Plus(Plus(s.a, I(s.b, s.c, s.d)), x), t), n));
  }

  lemma {:induction false} Op1Is(i: nat, s: State, x: seq<bv32>)
    requires i < 16 && |x| == 16
    ensures var o := Ops(0, i, s, x);
      Ops(0, i + 1, s, x) == Turn(o, StepF(o.a, o.b, o.c, o.d, x[K1(i)], T1(i), S1(i)))
  {
    hide Sum, StepF, T1, S1;
    StepFIs(Ops(0, i, s, x), x[K1(i)], T1(i), S1(i));
  }

  lemma {:induction false} Op2Is(i: nat, s: State, x: seq<bv32>)
    requires i < 16 && |x| == 16
    ensures var o := Ops(16, i, s, x);
      Ops(16, i + 1, s, x) == Turn(o, StepG(o.a, o.b, o.c, o.d, x[K2(i)], T2(i), S2(i)))
  {
    hide Sum, StepG, T2, S2;
    StepGIs(Ops(16, i, s, x), x[K2(i)], T2(i), S2(i));
  }

  lemma {:induction false} Op3Is(i: nat, s: State, x: seq<bv32>)
    requires i < 16 && |x| == 16
    ensures var o := Ops(32, i, s, x);
      Ops(32, i + 1, s, x) == Turn(o, StepH(o.a, o.b, o.c, o.d, x[K3(i)], T3(i), S3(i)))
  {
    hide Sum, StepH, T3, S3;
    StepHIs(Ops(32, i, s, x), x[K3(i)], T3(i), S3(i));
  }

  lemma {:induction false} Op4Is(i: nat, s: State, x: seq<bv32>)
    requires i < 16 && |x| == 16
    ensures var o := Ops(48, i, s, x);
      Ops(48, i + 1, s, x) == Turn(o, StepI(o.a, o.b, o.c, o.d, x[K4(i)], T4(i), S4(i)))
  {
    hide Sum, StepI, T4, S4;
    StepIIs(Ops(48, i, s, x), x[K4(i)], T4(i), S4(i));
  }

  lemma {:induction false} NoOps(first: nat, s: State, x: seq<bv32>)
    requires first <= 64 && |x| == 16
    ensures Ops(first, 0, s, x) == s
  {
  }

  lemma {:induction false} Op3Is2(i: nat, s: State, x: seq<bv32>)
    requires i < 16 && |x| == 16
    ensures var o := Ops(32, i, s, x);
      Ops(32, i + 1, s, x) == Turn(o, StepH2(o.a, o.b, o.c, o.d, x[K3(i)], T3(i), S3(i)))
  {
    hide Sum, StepH2, T3, S3;
    StepH2Is(Ops(32, i, s, x), x[K3(i)], T3(i), S3(i));
  }

  lemma {:induction false} Table1a()
    ensures T1(0) == 0xd76aa478 && S1(0) == 7 && K1(0) == 0
    ensures T1(1) == 0xe8c7b756 && S1(1) == 12 && K1(1) == 1
    ensures T1(2) == 0x242070db && S1(2) == 17 && K1(2) == 2
    ensures T1(3) == 0xc1bdceee && S1(3) == 22 && K1(3) == 3
    ensures T1(4) == 0xf57c0faf && S1(4) == 7 && K1(4) == 4
    ensures T1(5) == 0x4787c62a && S1(5) == 12 && K1(5) == 5
    ensures T1(6) == 0xa8304613 && S1(6) == 17 && K1(6) == 6
    ensures T1(7) == 0xfd469501 && S1(7) == 22 && K1(7) == 7
  {
  }

  lemma {:induction false} Table1b()
    ensures T1(8) == 0x698098d8 && S1(8) == 7 && K1(8) == 8
    ensures T1(9) == 0x8b44f7af && S1(9) == 12 && K1(9) == 9
    ensures T1(10) == 0xffff5bb1 && S1(10) == 17 && K1(10) == 10
    ensures T1(11) == 0x895cd7be && S1(11) == 22 && K1(11) == 11
    ensures T1(12) == 0x6b901122 && S1(12) == 7 && K1(12) == 12
    ensures T1(13) == 0xfd987193 && S1(13) == 12 && K1(13) == 13
    ensures T1(14) == 0xa679438e && S1(14) == 17 && K1(14) == 14
    ensures T1(15) == 0x49b40821 && S1(15) == 22 && K1(15) == 15
  {
  }

  lemma {:induction false} Table2a()
    ensures T2(0) == 0xf61e2562 && S2(0) == 5 && K2(0) == 1
    ensures T2(1) == 0xc040b340 && S2(1) == 9 && K2(1) == 6
    ensures T2(2) == 0x265e5a51 && S2(2) == 14 && K2(2) == 11
    ensures T2(3) == 0xe9b6c7aa && S2(3) == 20 && K2(3) == 0
    ensures T2(4) == 0xd62f105d && S2(4) == 5 && K2(4) == 5
    ensures T2(5) == 0x02441453 && S2(5) == 9 && K2(5) == 10
    ensures T2(6) == 0xd8a1e681 && S2(6) == 14 && K2(6) == 15
    ensures T2(7) == 0xe7d3fbc8 && S2(7) == 20 && K2(7) == 4
  {
  }

  lemma {:induction false} Table2b()
    ensures T2(8) == 0x21e1cde6 && S2(8) == 5 && K2(8) == 9
    ensures T2(9) == 0xc33707d6 && S2(9) == 9 && K2(9) == 14
    ensures T2(10) == 0xf4d50d87 && S2(10) == 14 && K2(10) == 3
    ensures T2(11) == 0x455a14ed && S2(11) == 20 && K2(11) == 8
    ensures T2(12) == 0xa9e3e905 && S2(12) == 5 && K2(12) == 13
    ensures T2(13) == 0xfcefa3f8 && S2(13) == 9 && K2(13) == 2
    ensures T2(14) == 0x676f02d9 && S2(14) == 14 && K2(14) == 7
    ensures T2(15) == 0x8d2a4c8a && S2(15) == 20 && K2(15) == 12
  {
  }

  lemma {:induction false} Table3a()
    ensures T3(0) == 0xfffa3942 && S3(0) == 4 && K3(0) == 5
    ensures T3(1) == 0x8771f681 && S3(1) == 11 && K3(1) == 8
    ensures T3(2) == 0x6d9d6122 && S3(2) == 16 && K3(2) == 11
    ensures T3(3) == 0xfde5380c && S3(3) == 23 && K3(3) == 14
    ensures T3(4) == 0xa4beea44 && S3(4) == 4 && K3(4) == 1
    ensures T3(5) == 0x4bdecfa9 && S3(5) == 11 && K3(5) == 4
    ensures T3(6) == 0xf6bb4b60 && S3(6) == 16 && K3(6) == 7
    ensures T3(7) == 0xbebfbc70 && S3(7) == 23 && K3(7) == 10
  {
  }

  lemma {:induction false} Table3b()
    ensures T3(8) == 0x289b7ec6 && S3(8) == 4 && K3(8) == 13
    ensures T3(9) == 0xeaa127fa && S3(9) == 11 && K3(9) == 0
    ensures T3(10) == 0xd4ef3085 && S3(10) == 16 && K3(10) == 3
    ensures T3(11) == 0x04881d05 && S3(11) == 23 && K3(11) == 6
    ensures T3(12) == 0xd9d4d039 && S3(12) == 4 && K3(12) == 9
    ensures T3(13) == 0xe6db99e5 && S3(13) == 11 && K3(13) == 12
    ensures T3(14) == 0x1fa27cf8 && S3(14) == 16 && K3(14) == 15
    ensures T3(15) == 0xc4ac5665 && S3(15) == 23 && K3(15) == 2
  {
  }

  lemma {:induction false} Table4a()
    ensures T4(0) == 0xf4292244 && S4(0) == 6 && K4(0) == 0
    ensures T4(1) == 0x432aff97 && S4(1) == 10 && K4(1) == 7
    ensures T4(2) == 0xab9423a7 && S4(2) == 15 && K4(2) == 14
    ensures T4(3) == 0xfc93a039 && S4(3) == 21 && K4(3) == 5
    ensures T4(4) == 0x655b59c3 && S4(4) == 6 && K4(4) == 12
    ensures T4(5) == 0x8f0ccc92 && S4(5) == 10 && K4(5) == 3
    ensures T4(6) == 0xffeff47d && S4(6) == 15 && K4(6) == 10
    ensures T4(7) == 0x85845dd1 && S4(7) == 21 && K4(7) == 1
  {
  }

  lemma {:induction false} Table4b()
    ensures T4(8) == 0x6fa87e4f && S4(8) == 6 && K4(8) == 8
    ensures T4(9) == 0xfe2ce6e0 && S4(9) == 10 && K4(9) == 15
    ensures T4(10) == 0xa3014314 && S4(10) == 15 && K4(10) == 6
    ensures T4(11) == 0x4e0811a1 && S4(11) == 21 && K4(11) == 13
    ensures T4(12) == 0xf7537e82 && S4(12) == 6 && K4(12) == 4
    ensures T4(13) == 0xbd3af235 && S4(13) == 10 && K4(13) == 11
    ensures T4(14) == 0x2ad7d2bb && S4(14) == 15 && K4(14) == 2
    ensures T4(15) == 0xeb86d391 && S4(15) == 21 && K4(15) == 9
  {
  }

  /** The first round of body */
  method Round1(s: State, x: seq<bv32>) returns (out: State)
    requires |x| == 16
    ensures out == Ops(0, 16, s, x)
  {
    hide StepF, Ops, T1, S1, K1;
    Table1a();
    Table1b();
    NoOps(0, s, x);
    var a, b, c, d := s.a, s.b, s.c, s.d;
    a := StepF(a, b, c, d, x[0], 0xd76aa478, 7);
    Op1Is(0, s, x);
    d := StepF(d, a, b, c, x[1], 0xe8c7b756, 12);
    Op1Is(1, s, x);
    c := StepF(c, d, a, b, x[2], 0x242070db, 17);
    Op1Is(2, s, x);
    b := StepF(b, c, d, a, x[3], 0xc1bdceee, 22);
    Op1Is(3, s, x);
    assert Ops(0, 4, s, x) == State(a, b, c, d);
    a := StepF(a, b, c, d, x[4], 0xf57c0faf, 7);
    Op1Is(4, s, x);
    d := StepF(d, a, b, c, x[5], 0x4787c62a, 12);
    Op1Is(5, s, x);
    c := StepF(c, d, a, b, x[6], 0xa8304613, 17);
    Op1Is(6, s, x);
    b := StepF(b, c, d, a, x[7], 0xfd469501, 22);
    Op1Is(7, s, x);
    assert Ops(0, 8, s, x) == State(a, b, c, d);
    a := StepF(a, b, c, d, x[8], 0x698098d8, 7);
    Op1Is(8, s, x);
    d := StepF(d, a, b, c, x[9], 0x8b44f7af, 12);
    Op1Is(9, s, x);
    c := StepF(c, d, a, b, x[10], 0xffff5bb1, 17);
    Op1Is(10, s, x);
    b := StepF(b, c, d, a, x[11], 0x895cd7be, 22);
    Op1Is(11, s, x);
    assert Ops(0, 12, s, x) == State(a, b, c, d);
    a := StepF(a, b, c, d, x[12], 0x6b901122, 7);
    Op1Is(12, s, x);
    d := StepF(d, a, b, c, x[13], 0xfd987193, 12);
    Op1Is(13, s, x);
    c := StepF(c, d, a, b, x[14], 0xa679438e, 17);
    Op1Is(14, s, x);
    b := StepF(b, c, d, a, x[15], 0x49b40821, 22);
    Op1Is(15, s, x);
    out := State(a, b, c, d);
  }

  /** The second round of body */
  method Round2(s: State, x: seq<bv32>) returns (out: State)
    requires |x| == 16
    ensures out == Ops(16, 16, s, x)
  {
    hide StepG, Ops, T2, S2, K2;
    Table2a();
    Table2b();
    NoOps(16, s, x);
    var a, b, c, d := s.a, s.b, s.c, s.d;
    a := StepG(a, b, c, d, x[1], 0xf61e2562, 5);
    Op2Is(0, s, x);
    d := StepG(d, a, b, c, x[6], 0xc040b340, 9);
    Op2Is(1, s, x);
    c := StepG(c, d, a, b, x[11], 0x265e5a51, 14);
    Op2Is(2, s, x);
    b := StepG(b, c, d, a, x[0], 0xe9b6c7aa, 20);
    Op2Is(3, s, x);
    assert Ops(16, 4, s, x) == State(a, b, c, d);
    a := StepG(a, b, c, d, x[5], 0xd62f105d, 5);
    Op2Is(4, s, x);
    d := StepG(d, a, b, c, x[10], 0x02441453, 9);
    Op2Is(5, s, x);
    c := StepG(c, d, a, b, x[15], 0xd8a1e681, 14);
    Op2Is(6, s, x);
    b := StepG(b, c, d, a, x[4], 0xe7d3fbc8, 20);
    Op2Is(7, s, x);
    assert Ops(16, 8, s, x) == State(a, b, c, d);
    a := StepG(a, b, c, d, x[9], 0x21e1cde6, 5);
    Op2Is(8, s, x);
    d := StepG(d, a, b, c, x[14], 0xc33707d6, 9);
    Op2Is(9, s, x);
    c := StepG(c, d, a, b, x[3], 0xf4d50d87, 14);
    Op2Is(10, s, x);
    b := StepG(b, c, d, a, x[8], 0x455a14ed, 20);
    Op2Is(11, s, x);
    assert Ops(16, 12, s, x) == State(a, b, c, d);
    a := StepG(a, b, c, d, x[13], 0xa9e3e905, 5);
    Op2Is(12, s, x);
    d := StepG(d, a, b, c, x[2], 0xfcefa3f8, 9);
    Op2Is(13, s, x);
    c := StepG(c, d, a, b, x[7], 0x676f02d9, 14);
    Op2Is(14, s, x);
    b := StepG(b, c, d, a, x[12], 0x8d2a4c8a, 20);
    Op2Is(15, s, x);
    out := State(a, b, c, d);
  }

  /** The third round of body */
  method Round3(s: State, x: seq<bv32>) returns (out: State)
    requires |x| == 16
    ensures out == Ops(32, 16, s, x)
  {
    hide StepH, StepH2, Ops, T3, S3, K3;
    Table3a();
    Table3b();
    NoOps(32, s, x);
    var a, b, c, d := s.a, s.b, s.c, s.d;
    a := StepH(a, b, c, d, x[5], 0xfffa3942, 4);
    Op3Is(0, s, x);
    d := StepH2(d, a, b, c, x[8], 0x8771f681, 11);
    Op3Is2(1, s, x);
    c := StepH(c, d, a, b, x[11], 0x6d9d6122, 16);
    Op3Is(2, s, x);
    b := StepH2(b, c, d, a, x[14], 0xfde5380c, 23);
    Op3Is2(3, s, x);
    assert Ops(32, 4, s, x) == State(a, b, c, d);
    a := StepH(a, b, c, d, x[1], 0xa4beea44, 4);
    Op3Is(4, s, x);
    d := StepH2(d, a, b, c, x[4], 0x4bdecfa9, 11);
    Op3Is2(5, s, x);
    c := StepH(c, d, a, b, x[7], 0xf6bb4b60, 16);
    Op3Is(6, s, x);
    b := StepH2(b, c, d, a, x[10], 0xbebfbc70, 23);
    Op3Is2(7, s, x);
    assert Ops(32, 8, s, x) == State(a, b, c, d);
    a := StepH(a, b, c, d, x[13], 0x289b7ec6, 4);
    Op3Is(8, s, x);
    d := StepH2(d, a, b, c, x[0], 0xeaa127fa, 11);
    Op3Is2(9, s, x);
    c := StepH(c, d, a, b, x[3], 0xd4ef3085, 16);
    Op3Is(10, s, x);
    b := StepH2(b, c, d, a, x[6], 0x04881d05, 23);
    Op3Is2(11, s, x);
    assert Ops(32, 12, s, x) == State(a, b, c, d);
    a := StepH(a, b, c, d, x[9], 0xd9d4d039, 4);
    Op3Is(12, s, x);
    d := StepH2(d, a, b, c, x[12], 0xe6db99e5, 11);
    Op3Is2(13, s, x);
    c := StepH(c, d, a, b, x[15], 0x1fa27cf8, 16);
    Op3Is(14, s, x);
    b := StepH2(b, c, d, a, x[2], 0xc4ac5665, 23);
    Op3Is2(15, s, x);
    out := State(a, b, c, d);
  }

  /** The fourth round of body */
  method Round4(s: State, x: seq<bv32>) returns (out: State)
    requires |x| == 16
    ensures out == Ops(48, 16, s, x)
  {
    hide StepI, Ops, T4, S4, K4;
    Table4a();
    Table4b();
    NoOps(48, s, x);
    var a, b, c, d := s.a, s.b, s.c, s.d;
    a := StepI(a, b, c, d, x[0], 0xf4292244, 6);
    Op4Is(0, s, x);
    d := StepI(d, a, b, c, x[7], 0x432aff97, 10);
    Op4Is(1, s, x);
    c := StepI(c, d, a, b, x[14], 0xab9423a7, 15);
    Op4Is(2, s, x);
    b := StepI(b, c, d, a, x[5], 0xfc93a039, 21);
    Op4Is(3, s, x);
    assert Ops(48, 4, s, x) == State(a, b, c, d);
    a := StepI(a, b, c, d, x[12], 0x655b59c3, 6);
    Op4Is(4, s, x);
    d := StepI(d, a, b, c, x[3], 0x8f0ccc92, 10);
    Op4Is(5, s, x);
    c := StepI(c, d, a, b, x[10], 0xffeff47d, 15);
    Op4Is(6, s, x);
    b := StepI(b, c, d, a, x[1], 0x85845dd1, 21);
    Op4Is(7, s, x);
    assert Ops(48, 8, s, x) == State(a, b, c, d);
    a := StepI(a, b, c, d, x[8], 0x6fa87e4f, 6);
    Op4Is(8, s, x);
    d := StepI(d, a, b, c, x[15], 0xfe2ce6e0, 10);
    Op4Is(9, s, x);
    c := StepI(c, d, a, b, x[6], 0xa3014314, 15);
    Op4Is(10, s, x);
    b := StepI(b, c, d, a, x[13], 0x4e0811a1, 21);
    Op4Is(11, s, x);
    assert Ops(48, 12, s, x) == State(a, b, c, d);
    a := StepI(a, b, c, d, x[4], 0xf7537e82, 6);
    Op4Is(12, s, x);
    d := StepI(d, a, b, c, x[11], 0xbd3af235, 10);
    Op4Is(13, s, x);
    c := StepI(c, d, a, b, x[2], 0x2ad7d2bb, 15);
    Op4Is(14, s, x);
    b := StepI(b, c, d, a, x[9], 0xeb86d391, 21);
    Op4Is(15, s, x);
    out := State(a, b, c, d);
  }
}
