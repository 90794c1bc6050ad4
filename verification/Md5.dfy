/** md5.c: the message digest of RFC 1321, computed piece by piece. */
module Md5 {
  import opened Basics
  import opened Md5Rounds

  // ----- the digest as RFC 1321 defines it -----

  /** Word n of a block: its low-order byte comes first. */
  function Word(block: seq<byte>, n: nat): bv32
    requires |block| == 64 && n < 16
  {
    var b0: int, b1: int, b2: int, b3: int := block[4 * n], block[4 * n + 1], block[4 * n + 2], block[4 * n + 3];
    (b0 + 0x100 * b1 + 0x1_0000 * b2 + 0x100_0000 * b3) as bv32
  }

  function Words(block: seq<byte>): (x: seq<bv32>)
    requires |block| == 64
    ensures |x| == 16
  {
    seq(16, n requires 0 <= n < 16 => Word(block, n))
  }

  function Add(s: State, o: State): State { State(Plus(o.a, s.a), Plus(o.b, s.b), Plus(o.c, s.c), Plus(o.d, s.d)) }

  /** Section 3.4: a block changes the registers by all 64 operations. */
  function Compress(s: State, block: seq<byte>): State
    requires |block| == 64
  {
    Add(s, Ops(0, 64, s, Words(block)))
  }

  ghost predicate Blocks(m: seq<byte>) { |m| % 64 == 0 }

  /** Every block in turn */
  ghost function Fold(s: State, m: seq<byte>): State
    requires Blocks(m)
    decreases |m|
  {
    if m == [] then s else Fold(Compress(s, m[..64]), m[64..])
  }

  function Zeros(n: nat): (z: seq<byte>) ensures |z| == n { seq(n, i => 0) }

  /** The low-order byte first */
  function Bytes4(n: nat): (s: seq<byte>)
    ensures |s| == 4
  {
    [n % 0x100, n / 0x100 % 0x100, n / 0x1_0000 % 0x100, n / 0x100_0000 % 0x100]
  }

  lemma {:induction false} PadLength(n: nat)
    ensures (n + 1 + (55 - n) % 64 + 8) % 64 == 0
  {
  }

  /** Sections 3.1 and 3.2: a one bit, zeros up to 448 modulo 512 bits, and the number of bits
      modulo 2^64, low-order word first. */
  ghost function Pad(m: seq<byte>): (p: seq<byte>)
    ensures Blocks(p)
  {
    var bits := 8 * |m| % 0x1_0000_0000_0000_0000;
    PadLength(|m|);
    m + [0x80] + Zeros((55 - |m|) % 64) + Bytes4(bits % 0x1_0000_0000) + Bytes4(bits / 0x1_0000_0000)
  }

  function Out(s: State): (r: seq<byte>)
    ensures |r| == 16
  {
    Bytes4(s.a as int) + Bytes4(s.b as int) + Bytes4(s.c as int) + Bytes4(s.d as int)
  }

  ghost function Digest(m: seq<byte>): seq<byte> {
    Out(Fold(INIT, Pad(m)))
  }

  /** Four bytes of r are the word w, with its low-order byte first. */
  ghost predicate LowFirst(r: seq<byte>, at: nat, w: bv32) {
    at + 4 <= |r| && w as int == (r[at] as int) + 0x100 * (r[at + 1] as int) + 0x1_0000 * (r[at + 2] as int)
                                + 0x100_0000 * (r[at + 3] as int)
  }

  /** Section 3.5: the digest is A, B, C, D, beginning with the low-order byte of A. */
  ghost predicate Gives(r: seq<byte>, s: State) {
    |r| == 16 && LowFirst(r, 0, s.a) && LowFirst(r, 4, s.b) && LowFirst(r, 8, s.c) && LowFirst(r, 12, s.d)
  }

  lemma {:induction false} DigestGives(m: seq<byte>)
    ensures Gives(Digest(m), Fold(INIT, Pad(m)))
  {
    hide Fold, Pad, Bytes4, LowFirst;
    var s := Fold(INIT, Pad(m));
    var a, b, c, d := Bytes4(s.a as int), Bytes4(s.b as int), Bytes4(s.c as int), Bytes4(s.d as int);
    WordIn([], s.a, b + c + d);
    WordIn(a, s.b, c + d);
    WordIn(a + b, s.c, d);
    WordIn(a + b + c, s.d, []);
    assert Out(s) == [] + a + (b + c + d) == a + b + (c + d) == (a + b) + c + d == (a + b + c) + d + [];
  }

  lemma {:induction false} WordIn(p: seq<byte>, w: bv32, q: seq<byte>)
    ensures LowFirst(p + Bytes4(w as int) + q, |p|, w)
  {
    hide Bytes4;
    Bytes4Reads(w as int);
    var b := Bytes4(w as int);
    assert forall i :: 0 <= i < 4 ==> (p + b + q)[|p| + i] == b[i];
  }

  lemma {:induction false} Bytes4Reads(n: nat)
    requires n < 0x1_0000_0000
    ensures var r := Bytes4(n);
            n == (r[0] as int) + 0x100 * (r[1] as int) + 0x1_0000 * (r[2] as int) + 0x100_0000 * (r[3] as int)
  {
    assert n / 0x100 / 0x100 == n / 0x1_0000 && n / 0x1_0000 / 0x100 == n / 0x100_0000;
  }

  // ----- facts -----

  lemma {:induction false} OpsSplit(first: nat, n: nat, m: nat, s: State, x: seq<bv32>)
    requires first + n + m <= 64 && |x| == 16
    ensures Ops(first, n + m, s, x) == Ops(first + n, m, Ops(first, n, s, x), x)
  {
    hide Op;
    if m > 0 {
      OpsSplit(first, n, m - 1, s, x);
    }
  }

  lemma {:induction false} FourRounds(s: State, x: seq<bv32>)
    requires |x| == 16
    ensures Ops(0, 64, s, x) == Ops(48, 16, Ops(32, 16, Ops(16, 16, Ops(0, 16, s, x), x), x), x)
  {
    hide Ops;
    OpsSplit(0, 16, 48, s, x);
    OpsSplit(16, 16, 32, Ops(0, 16, s, x), x);
    OpsSplit(32, 16, 16, Ops(16, 16, Ops(0, 16, s, x), x), x);
  }

  lemma {:induction false} FoldConcat(s: State, a: seq<byte>, b: seq<byte>)
    requires Blocks(a) && Blocks(b)
    ensures Blocks(a + b) && Fold(s, a + b) == Fold(Fold(s, a), b)
    decreases |a|
  {
    hide Compress;
    if a == [] {
      assert a + b == b;
    } else {
      assert (a + b)[..64] == a[..64];
      assert (a + b)[64..] == a[64..] + b;
      FoldConcat(Compress(s, a[..64]), a[64..], b);
    }
  }

  lemma {:induction false} FoldNone(s: State)
    ensures Fold(s, []) == s
  {
  }

  /** The whole blocks of m, and what is left. */
  ghost function Done(m: seq<byte>): (d: seq<byte>)
    ensures Blocks(d)
  {
    m[..|m| - |m| % 64]
  }

  ghost function Rest(m: seq<byte>): (r: seq<byte>)
    ensures |r| == |m| % 64
  {
    m[|m| - |m| % 64..]
  }

  /** More data only has to be looked at together with what was left. */
  lemma {:induction false} Carry(m: seq<byte>, data: seq<byte>)
    ensures Done(m + data) == Done(m) + Done(Rest(m) + data) && Rest(m + data) == Rest(Rest(m) + data)
  {
    var tail := Rest(m) + data;
    assert m + data == Done(m) + tail;
    assert (|Done(m)| + |tail|) % 64 == |tail| % 64;
  }

  lemma {:induction false} Short(m: seq<byte>)
    requires |m| < 64
    ensures Done(m) == [] && Rest(m) == m
  {
  }

  lemma {:induction false} CarryBlock(block: seq<byte>, data: seq<byte>)
    requires |block| == 64
    ensures Done(block + data) == block + Done(data) && Rest(block + data) == Rest(data)
  {
    Carry(block, data);
    assert Done(block) == block && Rest(block) + data == data;
  }

  const LO_MOD := 0x2000_0000
  const HI_MOD := 0x1_0000_0000
  const SIZE_MOD := 0x1_0000_0000_0000_0000

  /** The counters after n bytes */
  ghost predicate Counts(lo: int, hi: int, n: nat) {
    lo == n % LO_MOD && hi == n / LO_MOD % HI_MOD
  }

  lemma {:induction false} Used(lo: int, hi: int, n: nat)
    requires Counts(lo, hi, n)
    ensures lo % 64 == n % 64 && lo >= 0 && hi >= 0
  {
    var q := n / LO_MOD;
    assert n == 64 * (0x80_0000 * q) + lo;
    Multiple64(0x80_0000 * q, lo);
  }

  lemma {:induction false} Multiple64(k: nat, x: nat)
    ensures (64 * k + x) % 64 == x % 64
  {
  }

  ghost predicate CountsOn(lo: int, hi: int, n: nat, size: nat) {
    var low := (lo + size) % SIZE_MOD % LO_MOD;
    Counts(low, (((if low < lo then (hi + 1) % HI_MOD else hi)) + size / LO_MOD) % HI_MOD, n + size)
  }

  /** md5_hash carries from lo to hi correctly. */
  lemma {:induction false} Counting(lo: int, hi: int, n: nat, size: nat)
    requires Counts(lo, hi, n) && size < SIZE_MOD
    ensures CountsOn(lo, hi, n, size)
  {
    var q, p, t := n / LO_MOD, size / LO_MOD, size % LO_MOD;
    var c := if lo + t >= LO_MOD then 1 else 0;
    var low := lo + t - c * LO_MOD;
    Wraps(lo + size);
    assert n + size == (q + p + c) * LO_MOD + low && lo + size == (p + c) * LO_MOD + low;
    Remainder29(q + p + c, low);
    Remainder29(p + c, low);
    ModAdd(q, p, c);
    assert low < lo <==> c == 1;
  }

  /** A size_t that wraps around still has the right low-order bits. */
  lemma {:induction false} Wraps(x: nat)
    ensures x % SIZE_MOD % LO_MOD == x % LO_MOD
  {
    var q := x / SIZE_MOD;
    assert x == 0x8_0000_0000 * q * LO_MOD + x % SIZE_MOD;
    Congruent(0x8_0000_0000 * q, x % SIZE_MOD);
  }

  lemma {:induction false} Congruent(k: nat, x: nat)
    ensures (k * LO_MOD + x) % LO_MOD == x % LO_MOD
  {
  }

  lemma {:induction false} Remainder29(k: nat, x: nat)
    requires x < LO_MOD
    ensures (k * LO_MOD + x) % LO_MOD == x && (k * LO_MOD + x) / LO_MOD == k
  {
  }

  lemma {:induction false} ModAdd(q: nat, p: nat, c: nat)
    ensures (q % HI_MOD + p + c) % HI_MOD == (q + p + c) % HI_MOD
    ensures ((q % HI_MOD + c) % HI_MOD + p) % HI_MOD == (q + p + c) % HI_MOD
  {
  }

  lemma {:induction false} ModCarry(n: nat, k: nat)
    ensures (n + k) % 64 == (n % 64 + k) % 64
  {
  }

  /** The two words of the number of bits */
  lemma {:induction false} BitCount(lo: int, hi: int, n: nat)
    requires Counts(lo, hi, n)
    ensures var bits := 8 * n % 0x1_0000_0000_0000_0000;
      lo * 8 % HI_MOD == bits % 0x1_0000_0000 && hi == bits / 0x1_0000_0000
  {
    var q := n / LO_MOD;
    var r := q / HI_MOD;
    assert n == q * LO_MOD + lo && q == r * HI_MOD + hi;
    var low := hi * HI_MOD + 8 * lo;
    assert 8 * n == r * SIZE_MOD + low;
    Remainder64(r, low);
    Remainder32(hi, 8 * lo);
  }

  lemma {:induction false} Remainder64(q: nat, x: nat)
    requires x < SIZE_MOD
    ensures (q * SIZE_MOD + x) % SIZE_MOD == x
  {
  }

  lemma {:induction false} Remainder32(q: nat, x: nat)
    requires x < HI_MOD
    ensures (q * HI_MOD + x) % HI_MOD == x && (q * HI_MOD + x) / HI_MOD == q && x % HI_MOD == x
  {
  }

  /** What Pad puts behind the whole blocks */
  ghost function PadTail(rest: seq<byte>, lo: int, hi: int): (p: seq<byte>)
    requires |rest| < 64 && lo >= 0 && hi >= 0
    ensures |p| == if |rest| < 56 then 64 else 128
  {
    rest + [0x80] + Zeros(if |rest| < 56 then 55 - |rest| else 119 - |rest|) + Bytes4(lo * 8 % HI_MOD) + Bytes4(hi)
  }

  /** What closes the last block behind the given bytes */
  ghost function LastBlock(rest: seq<byte>, lo: int, hi: int): (p: seq<byte>)
    requires |rest| <= 56 && lo >= 0 && hi >= 0
    ensures |p| == 64
  {
    rest + Zeros(56 - |rest|) + Bytes4(lo * 8 % HI_MOD) + Bytes4(hi)
  }

  lemma {:induction false} PadParts(rest: seq<byte>, lo: int, hi: int)
    requires |rest| < 64 && lo >= 0 && hi >= 0
    ensures PadTail(rest, lo, hi) == if |rest| < 56 then LastBlock(rest + [0x80], lo, hi)
            else (rest + [0x80] + Zeros(63 - |rest|)) + LastBlock([], lo, hi)
  {
    hide Bytes4;
    assert |rest| >= 56 ==> Zeros(119 - |rest|) == Zeros(63 - |rest|) + Zeros(56);
  }

  lemma {:induction false} PadSplit(m: seq<byte>, lo: int, hi: int)
    requires Counts(lo, hi, |m|)
    ensures Pad(m) == Done(m) + PadTail(Rest(m), lo, hi)
  {
    hide Bytes4, Blocks, Counts;
    BitCount(lo, hi, |m|);
    PadZeros(|m|);
    assert m == Done(m) + Rest(m);
  }

  lemma {:induction false} PadZeros(n: nat)
    ensures (55 - n) % 64 == if n % 64 < 56 then 55 - n % 64 else 119 - n % 64
  {
    var q, u := n / 64, n % 64;
    assert 55 - n == 64 * -q + (55 - u) == 64 * (-q - 1) + (119 - u);
  }

  /** md5_ctx_t; msg is all that was hashed so far. */
  class Context {
    var lo: int
    var hi: int
    var a: bv32
    var b: bv32
    var c: bv32
    var d: bv32
    const buffer: array<byte>
    ghost var msg: seq<byte>

    function Registers(): State
      reads this
    {
      State(a, b, c, d)
    }

    /** The counters hold the number of bytes, the registers what the whole blocks give, and
        the buffer what is left. */
    ghost predicate Valid()
      reads this, buffer
    {
      && buffer.Length == 64 && Counts(lo, hi, |msg|)
      && Registers() == Fold(INIT, Done(msg)) && buffer[..|msg| % 64] == Rest(msg)
    }

    constructor ()
      ensures Valid() && msg == [] && fresh(buffer)
    {
      buffer := new byte[64](i => 0);
      lo, hi, a, b, c, d := 0, 0, 0x67452301, 0xefcdab89, 0x98badcfe, 0x10325476;
      msg := [];
    }

    /** body: one or more blocks */
    method Body(data: seq<byte>)
      requires |data| > 0 && Blocks(data)
      modifies `a, `b, `c, `d
      ensures Registers() == Fold(old(Registers()), data)
    {
      hide Ops, Words;
      var s := State(a, b, c, d);
      var ptr := 0;
      while ptr < |data|
        invariant 0 <= ptr <= |data| && Blocks(data[ptr..])
        invariant Fold(s, data[ptr..]) == Fold(old(Registers()), data)
      {
        var x := Words(data[ptr..][..64]);
        var saved := s;
        s := Round1(s, x);
        s := Round2(s, x);
        s := Round3(s, x);
        s := Round4(s, x);
        FourRounds(saved, x);
        s := Add(saved, s);
        assert data[ptr..][64..] == data[ptr + 64..];
        ptr := ptr + 64;
      }
      a, b, c, d := s.a, s.b, s.c, s.d;
    }

    /** memcpy into the buffer */
    method Store(at: nat, bytes: seq<byte>)
      requires buffer.Length == 64 && at + |bytes| <= 64
      modifies buffer
      ensures buffer[..] == old(buffer[..at]) + bytes + old(buffer[at + |bytes|..])
    {
      forall i | 0 <= i < |bytes| {
        buffer[at + i] := bytes[i];
      }
    }

    /** The counters of md5_hash */
    method Count(size: nat)
      requires size < SIZE_MOD
      modifies `lo, `hi
      ensures forall n: nat :: Counts(old(lo), old(hi), n) ==> Counts(lo, hi, n + size)
    {
      hide Counts;
      forall n: nat | Counts(lo, hi, n) ensures CountsOn(lo, hi, n, size) {
        Counting(lo, hi, n, size);
      }
      var savedLo := lo;
      lo := (savedLo + size) % SIZE_MOD % LO_MOD;
      if lo < savedLo {
        hi := (hi + 1) % HI_MOD;
      }
      hi := (hi + size / LO_MOD) % HI_MOD;
    }

    /** The rest of md5_hash once no partial block is left */
    method AbsorbBlocks(data: seq<byte>)
      requires buffer.Length == 64
      modifies `a, `b, `c, `d, buffer
      ensures Registers() == Fold(old(Registers()), Done(data)) && buffer[..|data| % 64] == Rest(data)
    {
      hide Fold, Compress;
      FoldNone(Registers());
      var whole := |data| - |data| % 64;
      if |data| >= 64 {
        Body(data[..whole]);
      }
      Store(0, data[whole..]);
    }

    /** What md5_hash does with the data when the buffer holds used bytes */
    method Absorb(used: nat, data: seq<byte>)
      requires buffer.Length == 64 && used < 64
      modifies `a, `b, `c, `d, buffer
      ensures Registers() == Fold(old(Registers()), Done(old(buffer[..used]) + data))
      ensures buffer[..(used + |data|) % 64] == Rest(old(buffer[..used]) + data)
    {
      hide Fold, Compress, Done, Rest;
      ghost var tail := buffer[..used] + data;
      var rest := data;
      if used != 0 {
        var available := 64 - used;
        if |data| < available {
          Store(used, data);
          Short(tail);
          FoldNone(Registers());
          return;
        }
        Store(used, data[..available]);
        rest := data[available..];
        ghost var first := buffer[..];
        assert tail == first + rest;
        CarryBlock(first, rest);
        FoldConcat(Registers(), first, Done(rest));
        Body(buffer[..]);
      } else {
        assert tail == data;
      }
      AbsorbBlocks(rest);
      assert buffer[..|rest| % 64] == Rest(tail);
    }

    /** md5_hash: however a message is cut into pieces, the context knows all of it. */
    method Hash(data: seq<byte>)
      requires Valid() && |data| < SIZE_MOD
      modifies this, buffer
      ensures Valid() && msg == old(msg) + data
    {
      hide Counts, Fold, Compress, Done, Rest;
      ModCarry(|msg|, |data|);
      Used(lo, hi, |msg|);
      Carry(msg, data);
      FoldConcat(INIT, Done(msg), Done(Rest(msg) + data));
      var used := lo % 64;
      Count(|data|);
      Absorb(used, data);
      msg := msg + data;
    }

    /** md5_end: the digest of all that was hashed. */
    method End() returns (result: seq<byte>)
      requires Valid()
      modifies this, buffer
      ensures result == Digest(old(msg)) && Gives(result, Fold(INIT, Pad(old(msg))))
      ensures lo == 0 && hi == 0 && Registers() == State(0, 0, 0, 0)
              && forall i :: 0 <= i < buffer.Length ==> buffer[i] == 0
    {
      hide Fold, Compress, Counts, Pad, Done, Rest, Out, Bytes4, PadTail, Gives;
      DigestGives(msg);
      Used(lo, hi, |msg|);
      PadSplit(msg, lo, hi);
      var used := lo % 64;
      FoldConcat(INIT, Done(msg), PadTail(buffer[..used], lo, hi));
      Finish(used);
      result := Out(Registers());
      lo, hi, a, b, c, d := 0, 0, 0, 0, 0, 0;
      forall i | 0 <= i < buffer.Length {
        buffer[i] := 0;
      }
    }

    /** Padding, and the last one or two blocks */
    method Finish(used: nat)
      requires buffer.Length == 64 && used < 64 && lo >= 0 && hi >= 0
      modifies this, buffer
      ensures Registers() == Fold(old(Registers()), PadTail(old(buffer[..used]), old(lo), old(hi)))
    {
      hide Fold, Compress, Bytes4, PadTail, Zeros;
      ghost var rest := buffer[..used];
      PadParts(rest, lo, hi);
      buffer[used] := 0x80;
      var n := used + 1;
      assert buffer[..n] == rest + [0x80];
      var available := 64 - n;
      if available < 8 {
        Store(n, Zeros(available));
        assert buffer[..] == rest + [0x80] + Zeros(63 - used);
        FoldConcat(Registers(), buffer[..], LastBlock([], lo, hi));
        Body(buffer[..]);
        n := 0;
        assert buffer[..n] == [];
      }
      Close(n);
      Body(buffer[..]);
    }

    /** Zeros behind the first n bytes, and the number of bits */
    method Close(n: nat)
      requires buffer.Length == 64 && n <= 56 && lo >= 0 && hi >= 0
      modifies `lo, buffer
      ensures buffer[..] == LastBlock(old(buffer[..n]), old(lo), hi)
    {
      hide Bytes4, Zeros;
      Store(n, Zeros(56 - n));
      lo := lo * 8 % HI_MOD;
      Store(56, Bytes4(lo));
      Store(60, Bytes4(hi));
    }
  }

  ghost function Concat(chunks: seq<seq<byte>>): seq<byte> {
    if chunks == [] then [] else Concat(chunks[..|chunks| - 1]) + chunks[|chunks| - 1]
  }

  lemma {:induction false} ConcatNone()
    ensures Concat([]) == []
  {
  }

  lemma {:induction false} ConcatNext(chunks: seq<seq<byte>>, k: nat)
    requires k < |chunks|
    ensures Concat(chunks[..k + 1]) == Concat(chunks[..k]) + chunks[k]
  {
    assert chunks[..k + 1][..k] == chunks[..k];
  }

  /** md5sum, with the chunks that fread returned: any way to cut a message up gives the digest
      of the message. */
  method Md5Sum(chunks: seq<seq<byte>>) returns (result: seq<byte>)
    requires forall i :: 0 <= i < |chunks| ==> |chunks[i]| < SIZE_MOD
    ensures result == Digest(Concat(chunks)) && Gives(result, Fold(INIT, Pad(Concat(chunks))))
  {
    hide *;
    ConcatNone();
    var ctx := new Context();
    var k := 0;
    while k < |chunks|
      invariant 0 <= k <= |chunks| && ctx.Valid() && ctx.msg == Concat(chunks[..k]) && fresh(ctx) && fresh(ctx.buffer)
    {
      ctx.Hash(chunks[k]);
      ConcatNext(chunks, k);
      k := k + 1;
    }
    assert chunks[..k] == chunks;
    result := ctx.End();
  }
}
