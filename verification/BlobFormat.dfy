/** The tagged binary format of blob.h and blobmsg.h: its encoding as a function of an
    abstract tree, and what the iteration macros read back from it. */
module BlobFormat {
  import opened Basics

  const LEN_MASK: int := 0xffffff

  /** An attribute: a plain one of blob.c has no name, one of blobmsg.c has a name (which
      may be empty) and the extended bit. */
  datatype Blob =
    | Leaf(id: int, name: Option<seq<byte>>, data: seq<byte>)
    | Nest(id: int, name: Option<seq<byte>>, kids: seq<Blob>)

  ghost predicate Aligned(n: int) { n % 4 == 0 }

  lemma SumAligned(a: int, b: int)
    requires Aligned(a) && Aligned(b)
    ensures Aligned(a + b)
  {
  }

  /** Round up to BLOB_ATTR_ALIGN. */
  function Pad4(n: nat): (m: nat)
    ensures n <= m < n + 4 && Aligned(m) && (Aligned(n) ==> m == n)
  {
    (n + 3) / 4 * 4
  }

  function Zeros(n: nat): (z: seq<byte>)
    ensures |z| == n && forall i :: 0 <= i < n ==> z[i] == 0
  {
    seq(n, i => 0)
  }

  /** The id_len word in big-endian order: extended bit, 7 bits of id, 24 bits of length. */
  function Header(ext: bool, id: int, len: int): (h: seq<byte>)
    requires 0 <= id < 128 && 0 <= len <= LEN_MASK
    ensures |h| == 4
  {
    [(if ext then 128 else 0) + id] + Len24(len)
  }

  /** The 24 length bits, most significant byte first. */
  function Len24(len: int): (b: seq<byte>)
    requires 0 <= len <= LEN_MASK
    ensures |b| == 3 && (b[0] as int) * 0x1_0000 + (b[1] as int) * 0x100 + b[2] as int == len
  {
    [len / 65536, len / 256 % 256, len % 256]
  }

  /** `& BLOB_ATTR_LEN_MASK` */
  function Mask24(n: nat): (m: nat)
    ensures m <= LEN_MASK && (n <= LEN_MASK ==> m == n) && (LEN_MASK < n <= 2 * LEN_MASK + 1 ==> m == n - LEN_MASK - 1)
  {
    n % (LEN_MASK + 1)
  }

  /** blob_raw_len, blob_id and blob_is_extended of the attribute at the front of a. */
  function RawLen(a: seq<byte>): (n: int)
    requires |a| >= 4
    ensures 0 <= n <= LEN_MASK
  {
    (a[1] as int) * 65536 + (a[2] as int) * 256 + a[3] as int
  }

  function Id(a: seq<byte>): (n: int)
    requires |a| >= 4
    ensures 0 <= n < 128
  {
    a[0] % 128
  }

  predicate IsExtended(a: seq<byte>)
    requires |a| >= 4
  {
    a[0] >= 128
  }

  /** The first four bytes are a word with its most significant byte first: the extended bit, seven
      bits of id and 24 bits of length. */
  lemma WordReads(a: seq<byte>)
    requires |a| >= 4
    ensures (a[0] as int) * 0x100_0000 + (a[1] as int) * 0x1_0000 + (a[2] as int) * 0x100 + a[3] as int
            == (if IsExtended(a) then 0x8000_0000 else 0) + Id(a) * 0x100_0000 + RawLen(a)
  {
  }

  /** blobmsg_hdrlen */
  function HdrLen(namelen: nat): nat { Pad4(namelen + 3) }

  /** The blobmsg header: big-endian name length, name, NUL, padding. */
  function NameHdr(name: Option<seq<byte>>): seq<byte>
    requires name.Some? ==> |name.value| < 65536
  {
    match name
    case None => []
    case Some(s) => [|s| / 256, |s| % 256] + s + Zeros(HdrLen(|s|) - 2 - |s|)
  }

  ghost predicate GoodName(name: Option<seq<byte>>) { name.Some? ==> |name.value| < 65536 }

  /** What a name of 65536 bytes or more comes to: its length is stored modulo 65536, and where the
      stored length puts the end of the name the name goes on. */
  ghost predicate Garbled(b: seq<byte>, at: nat, name: seq<byte>) {
    var n := |name| % 65536;
    && n < |name| && at + 7 + n <= |b| && b[at] >= 128 && b[at + 4] == n / 256 && b[at + 5] == n % 256
    && b[at + 6..at + 7 + n] == name[..n + 1]
  }

  // ----- encoding -----

  function BodyLen(t: Blob): nat
    decreases t, 1
  {
    NameLen(t.name) + match t case Leaf(_, _, d) => |d| case Nest(_, _, kids) => AllLen(kids)
  }

  function NameLen(name: Option<seq<byte>>): nat { if name.None? then 0 else HdrLen(|name.value|) }

  /** The padded length of the encoding of t, and of several attributes. */
  function EncLen(t: Blob): nat
    decreases t, 2
  {
    Pad4(4 + BodyLen(t))
  }

  function AllLen(ts: seq<Blob>): nat
    decreases ts, 0
  {
    if ts == [] then 0 else EncLen(ts[0]) + AllLen(ts[1..])
  }

  /** Ids and names fit their fields and the whole fits the 24-bit length. */
  ghost predicate Fits(t: Blob) {
    0 <= t.id < 128 && GoodName(t.name) && 4 + BodyLen(t) <= LEN_MASK && (t.Nest? ==> AllFit(t.kids))
  }

  ghost predicate AllFit(ts: seq<Blob>) {
    forall i :: 0 <= i < |ts| ==> Fits(ts[i])
  }

  /** The bytes of an attribute, padded to a multiple of four. */
  ghost function Enc(t: Blob): seq<byte>
    requires Fits(t)
    decreases t, 2
  {
    Header(t.name.Some?, t.id, 4 + BodyLen(t)) + (NameHdr(t.name) + Content(t)) + Zeros(EncLen(t) - 4 - BodyLen(t))
  }

  /** What follows the headers: the data of a leaf, the attributes of a container. */
  ghost function Content(t: Blob): seq<byte>
    requires Fits(t)
    decreases t, 1
  {
    match t case Leaf(_, _, d) => d case Nest(_, _, kids) => EncAll(kids)
  }

  ghost function EncAll(ts: seq<Blob>): seq<byte>
    requires AllFit(ts)
    decreases ts, 0
  {
    if ts == [] then [] else Enc(ts[0]) + EncAll(ts[1..])
  }

  lemma {:induction false} EncSize(t: Blob)
    requires Fits(t)
    ensures |Enc(t)| == EncLen(t)
    decreases t, 1
  {
    if t.Nest? { EncAllSize(t.kids); }
  }

  lemma {:induction false} EncAllSize(ts: seq<Blob>)
    requires AllFit(ts)
    ensures |EncAll(ts)| == AllLen(ts) && Aligned(AllLen(ts))
    decreases ts, 0
  {
    hide Enc, Pad4;
    if ts != [] {
      EncSize(ts[0]);
      EncAllSize(ts[1..]);
      SumAligned(EncLen(ts[0]), AllLen(ts[1..]));
    }
  }

  lemma {:induction false} EncAllConcat(a: seq<Blob>, b: seq<Blob>)
    requires AllFit(a) && AllFit(b)
    ensures AllFit(a + b) && EncAll(a + b) == EncAll(a) + EncAll(b) && AllLen(a + b) == AllLen(a) + AllLen(b)
  {
    forall i | 0 <= i < |a + b| ensures Fits((a + b)[i]) {}
    if a == [] {
      assert a + b == b;
    } else {
      assert (a + b)[1..] == a[1..] + b;
      EncAllConcat(a[1..], b);
    }
  }

  /** The header of an encoding reads back. */
  lemma {:induction false} HeaderReads(ext: bool, id: int, len: int, rest: seq<byte>)
    requires 0 <= id < 128 && 0 <= len <= LEN_MASK
    ensures var a := Header(ext, id, len) + rest;
            RawLen(a) == len && Id(a) == id && IsExtended(a) == ext
  {
    var h := len / 256;
    assert len == h * 256 + len % 256 && h == h / 256 * 256 + h % 256 && h / 256 == len / 65536;
  }

  // ----- reading -----

  /** Of the body of an extended attribute: blobmsg_namelen, the name, and where
      blobmsg_data starts; a body too short for its header is taken as nameless data. */
  function BodyName(ext: bool, body: seq<byte>): Option<seq<byte>> {
    if ext && |body| >= 2 then
      var n := (body[0] as int) * 256 + body[1] as int;
      if HdrLen(n) <= |body| then Some(body[2..2 + n]) else None
    else None
  }

  function BodyData(ext: bool, body: seq<byte>): (d: seq<byte>)
    ensures |d| <= |body|
  {
    var name := BodyName(ext, body);
    if name.Some? then body[HdrLen(|name.value|)..] else body
  }

  /** The tree that reading with blobmsg_for_each_attr recovers; `nested` says which ids
      are containers. */
  function Decode(nested: int -> bool, a: seq<byte>): Blob
    requires 4 <= |a|
    decreases |a|, 0
  {
    var len := RawLen(a);
    var body := if 4 <= len <= |a| then a[4..len] else [];
    var name, data := BodyName(IsExtended(a), body), BodyData(IsExtended(a), body);
    if nested(Id(a)) then Nest(Id(a), name, Walk(nested, data)) else Leaf(Id(a), name, data)
  }

  /** The iteration macros: pos and rem delimit the bytes d still ahead. */
  function Walk(nested: int -> bool, d: seq<byte>): seq<Blob>
    decreases |d|, 1
  {
    if |d| >= 4 && 4 <= Pad4(RawLen(d)) <= |d| then
      [Decode(nested, d)] + Walk(nested, d[Pad4(RawLen(d))..])
    else []
  }

  /** Containers have container ids, and only they. */
  ghost predicate Typed(nested: int -> bool, t: Blob) {
    (t.Nest? <==> nested(t.id)) && (t.Nest? ==> AllTyped(nested, t.kids))
  }

  ghost predicate AllTyped(nested: int -> bool, ts: seq<Blob>) {
    forall i :: 0 <= i < |ts| ==> Typed(nested, ts[i])
  }

  /** A name header reads back as the name, and the data starts right after it. */
  lemma {:induction false} NameReads(name: Option<seq<byte>>, d: seq<byte>)
    requires GoodName(name)
    ensures |NameHdr(name)| == NameLen(name)
    ensures BodyName(name.Some?, NameHdr(name) + d) == name && BodyData(name.Some?, NameHdr(name) + d) == d
  {
    if name.Some? {
      var s, body := name.value, NameHdr(name) + d;
      assert body[0] == |s| / 256 && body[1] == |s| % 256;
      assert body[2..2 + |s|] == s;
      assert body[HdrLen(|s|)..] == d;
    } else {
      assert NameHdr(name) + d == d;
    }
  }

  lemma {:induction false} EncParts(t: Blob)
    requires Fits(t)
    ensures 4 + BodyLen(t) <= EncLen(t) && |NameHdr(t.name) + Content(t)| == BodyLen(t)
    ensures Enc(t) ==
              Header(t.name.Some?, t.id, 4 + BodyLen(t)) + (NameHdr(t.name) + Content(t))
                + Zeros(EncLen(t) - 4 - BodyLen(t))
  {
    hide Zeros, Header, NameHdr, HdrLen, EncAll, AllLen;
    NameReads(t.name, []);
    if t.Nest? { EncAllSize(t.kids); }
  }

  lemma {:induction false} Regroup(h: seq<byte>, body: seq<byte>, pad: seq<byte>, rest: seq<byte>)
    ensures (h + body + pad) + rest == h + (body + pad + rest)
    ensures (h + (body + pad + rest))[|h|..|h| + |body|] == body
  {
  }

  /** The fields of an encoded attribute, whatever follows it. */
  lemma {:induction false} EncReads(t: Blob, rest: seq<byte>)
    requires Fits(t)
    ensures var a := Enc(t) + rest;
            && |Enc(t)| == EncLen(t) && RawLen(a) == 4 + BodyLen(t) && Id(a) == t.id && IsExtended(a) == t.name.Some?
            && a[4..4 + BodyLen(t)] == NameHdr(t.name) + Content(t)
  {
    hide RawLen, Id, IsExtended, Zeros, Header, NameHdr, BodyLen, EncLen, Enc, Content;
    EncParts(t);
    EncSize(t);
    var body, pad := NameHdr(t.name) + Content(t), Zeros(EncLen(t) - 4 - BodyLen(t));
    HeaderReads(t.name.Some?, t.id, 4 + BodyLen(t), body + pad + rest);
    Regroup(Header(t.name.Some?, t.id, 4 + BodyLen(t)), body, pad, rest);
  }

  /** The bytes of an attribute on the wire. First comes a word with its most significant byte
      first: a bit that says whether there is a name, seven bits of id, and the length. A name
      comes with its length in two bytes, the more significant one first, and a zero behind it; the
      data start at a multiple of four bytes, and zeros fill the last word. */
  lemma {:induction false} Wire(t: Blob)
    requires Fits(t)
    ensures var b, d := Enc(t), Content(t);
            var h := if t.name.None? then 4 else 4 + (|t.name.value| + 6) / 4 * 4;
            && |b| % 4 == 0 && h + |d| <= |b| < h + |d| + 4
            && (b[0] as int) * 0x100_0000 + (b[1] as int) * 0x1_0000 + (b[2] as int) * 0x100 + b[3] as int
               == (if t.name.Some? then 0x8000_0000 else 0) + t.id * 0x100_0000 + (h + |d|)
            && (t.name.Some? ==>
                  var s := t.name.value;
                  (b[4] as int) * 0x100 + b[5] as int == |s| && b[6..6 + |s|] == s
                  && forall i :: 6 + |s| <= i < h ==> b[i] == 0)
            && b[h..h + |d|] == d && forall i :: h + |d| <= i < |b| ==> b[i] == 0
  {
    hide Header, NameHdr, BodyLen, EncLen, Enc, Content, RawLen, Id, IsExtended, Zeros;
    var b, d := Enc(t), Content(t);
    var h := 4 + NameLen(t.name);
    NameReads(t.name, d);
    EncParts(t);
    EncSize(t);
    EncSizeAligned(t);
    WireName(t.name);
    HeaderReads(t.name.Some?, t.id, h + |d|, []);
    var n, e := NameHdr(t.name), Zeros(EncLen(t) - 4 - BodyLen(t));
    var w := Header(t.name.Some?, t.id, h + |d|);
    assert w + [] == w;
    WordReads(w);
    assert b == w + n + d + e;
    WireParts(w, n, d, e);
    if t.name.Some? {
      assert b[6..6 + |t.name.value|] == b[4..h][2..2 + |t.name.value|];
    }
  }

  lemma WireParts(w: seq<byte>, n: seq<byte>, d: seq<byte>, e: seq<byte>)
    requires |w| == 4 && forall i :: 0 <= i < |e| ==> e[i] == 0
    ensures var b := w + n + d + e; var h := 4 + |n|;
            && b[..4] == w && b[4..h] == n && b[h..h + |d|] == d
            && (forall i :: 4 <= i < h ==> b[i] == n[i - 4]) && forall i :: h + |d| <= i < |b| ==> b[i] == 0
  {
  }

  lemma EncSizeAligned(t: Blob)
    ensures EncLen(t) % 4 == 0 && EncLen(t) < 4 + BodyLen(t) + 4
  {
    hide BodyLen;
  }

  lemma WireName(name: Option<seq<byte>>)
    requires GoodName(name)
    ensures name.None? ==> NameHdr(name) == []
    ensures name.Some? ==>
              var n, s := NameHdr(name), name.value;
              && |n| == (|s| + 6) / 4 * 4 && (n[0] as int) * 0x100 + n[1] as int == |s| && n[2..2 + |s|] == s
              && forall i :: 2 + |s| <= i < |n| ==> n[i] == 0
  {
    if name.Some? {
      assert NameHdr(name)[2..2 + |name.value|] == name.value;
    }
  }

  /** Whatever follows its encoding, an attribute decodes to itself. */
  lemma {:induction false} DecodeEnc(nested: int -> bool, t: Blob, rest: seq<byte>)
    requires Fits(t) && Typed(nested, t)
    ensures |Enc(t)| == EncLen(t) && Decode(nested, Enc(t) + rest) == t
    decreases t, 1
  {
    hide RawLen, Id, IsExtended, Pad4, Enc, EncAll, NameHdr, Zeros, BodyName, BodyData;
    EncReads(t, rest);
    NameReads(t.name, Content(t));
    if t.Nest? { WalkEnc(nested, t.kids); }
  }

  /** Walking the encoding of several attributes returns exactly those, in order. */
  lemma {:induction false} WalkEnc(nested: int -> bool, ts: seq<Blob>)
    requires AllFit(ts) && AllTyped(nested, ts)
    ensures Walk(nested, EncAll(ts)) == ts
    decreases ts, 0
  {
    hide RawLen, Enc, Decode;
    if ts != [] {
      var d, rest := EncAll(ts), EncAll(ts[1..]);
      EncReads(ts[0], rest);
      DecodeEnc(nested, ts[0], rest);
      WalkEnc(nested, ts[1..]);
      assert d[EncLen(ts[0])..] == rest;
    }
  }
}
