/** The builder half of blob.c and blobmsg.c: nested attributes are serialized in place
    into a buffer that is reallocated as it grows, and the lengths of open containers are
    fixed up late. */
module BlobBuf {
  import opened Basics
  import opened BlobFormat

  const BLOB_COOKIE: int := 0x01234567
  const TYPE_ARRAY: int := 1
  const TYPE_TABLE: int := 2

  /** An open container: what its attribute will be, with the children written so far. */
  datatype Frame = Frame(id: int, name: Option<seq<byte>>, kids: seq<Blob>)

  ghost predicate GoodFrame(f: Frame) {
    0 <= f.id < 128 && GoodName(f.name) && AllFit(f.kids)
  }

  ghost function FrameLen(f: Frame): nat { 4 + NameLen(f.name) + AllLen(f.kids) }

  /** What a frame writes after its length word. */
  ghost function Rest(f: Frame): seq<byte>
    requires GoodFrame(f)
  {
    NameHdr(f.name) + EncAll(f.kids)
  }

  /** The bytes of a frame whose stored length is its own plus `extra`. */
  ghost function FrameBytes(f: Frame, extra: nat): seq<byte>
    requires GoodFrame(f) && FrameLen(f) + extra <= LEN_MASK
  {
    Header(f.name.Some?, f.id, FrameLen(f) + extra) + Rest(f)
  }

  ghost predicate Open(fs: seq<Frame>) {
    forall i :: 0 <= i < |fs| ==> GoodFrame(fs[i]) && FrameLen(fs[i]) + 4 <= LEN_MASK
  }

  /** Containers with a further open one inside them count only its header. */
  ghost function OpenBytes(fs: seq<Frame>): seq<byte>
    requires Open(fs)
  {
    if fs == [] then [] else OpenBytes(fs[..|fs| - 1]) + FrameBytes(fs[|fs| - 1], 4)
  }

  ghost function AddKid(f: Frame, t: Blob): Frame { f.(kids := f.kids + [t]) }

  function Overwrite(b: seq<byte>, at: int, bs: seq<byte>): (r: seq<byte>)
    requires 0 <= at && at + |bs| <= |b|
    ensures |r| == |b|
  {
    b[..at] + bs + b[at + |bs|..]
  }

  /** Sizes the buffer can have: multiples of 256, at most 2^24. */
  ghost predicate Chunked(n: int) { n % 256 == 0 && 0 <= n <= LEN_MASK + 1 }

  /** The buffer grows by whole multiples of 256 and never beyond 2^24 bytes. */
  lemma GrowStep(len: nat, required: nat)
    requires Chunked(len) && required > 0 && len + required <= LEN_MASK
    ensures var len' := len + (required / 256 + 1) * 256;
            Chunked(len') && len + required <= len'
  {
    var q, r := required / 256, required % 256;
    assert required == q * 256 + r;
    var k := len / 256;
    assert len == k * 256;
    assert len + (q + 1) * 256 == (k + q + 1) * 256;
    assert (k + q) * 256 <= 0xffffff;
  }

  /** An attribute that fits without its padding fits with it. */
  lemma PadFits(off: nat, n: nat, len: nat)
    requires Aligned(off) && Chunked(len) && off + n <= len
    ensures off + Pad4(n) <= len
  {
    var a, k, m := off / 4, len / 256, (n + 3) / 4;
    assert off == 4 * a && len == 256 * k && Pad4(n) == m * 4;
    assert 4 * m <= n + 3 <= 4 * (64 * k - a) + 3;
    assert m <= 64 * k - a;
  }

  lemma FrameSize(f: Frame)
    requires GoodFrame(f)
    ensures |Rest(f)| == FrameLen(f) - 4 && Aligned(FrameLen(f))
  {
    hide EncAll, AllLen, Pad4, NameHdr, HdrLen, NameLen, Aligned;
    NameReads(f.name, []);
    EncAllSize(f.kids);
    NameAligned(f.name);
    SumAligned(4 + NameLen(f.name), AllLen(f.kids));
  }

  lemma NameAligned(name: Option<seq<byte>>)
    ensures Aligned(4 + NameLen(name))
  {
  }

  lemma {:induction false} OpenSize(fs: seq<Frame>)
    requires Open(fs)
    ensures Aligned(|OpenBytes(fs)|)
  {
    hide FrameLen, Aligned, Header, Rest;
    if fs != [] {
      var pre, f := fs[..|fs| - 1], fs[|fs| - 1];
      OpenSize(pre);
      FrameSize(f);
      SumAligned(|OpenBytes(pre)|, FrameLen(f));
    } else {
      assert Aligned(0) by { ZeroAligned(); }
    }
  }

  lemma ZeroAligned()
    ensures Aligned(0)
  {
  }

  /** A finished child extends its parent's bytes and length. */
  lemma KidBytes(f: Frame, t: Blob)
    requires GoodFrame(f) && Fits(t)
    ensures GoodFrame(AddKid(f, t)) && FrameLen(AddKid(f, t)) == FrameLen(f) + EncLen(t)
    ensures Rest(AddKid(f, t)) == Rest(f) + Enc(t) && |Enc(t)| == EncLen(t)
  {
    hide Enc, EncLen, NameHdr;
    assert AllFit([t]);
    EncAllConcat(f.kids, [t]);
    assert EncAll([t]) == Enc(t) + [] && AllLen([t]) == EncLen(t);
    EncSize(t);
    assert NameHdr(f.name) + (EncAll(f.kids) + Enc(t)) == NameHdr(f.name) + EncAll(f.kids) + Enc(t);
  }

  /** The stored length of the attribute at the end of `pre`. */
  lemma HeadReads(b: seq<byte>, pre: seq<byte>, f: Frame, extra: nat)
    requires GoodFrame(f) && FrameLen(f) + extra <= LEN_MASK && pre + FrameBytes(f, extra) <= b
    ensures |pre| + 4 <= |b| && RawLen(b[|pre|..]) == FrameLen(f) + extra
  {
    hide RawLen, EncAll;
    var h := Header(f.name.Some?, f.id, FrameLen(f) + extra);
    var rest := b[|pre| + 4..];
    assert b[|pre|..] == h + rest;
    HeaderReads(f.name.Some?, f.id, FrameLen(f) + extra, rest);
  }

  lemma FrameLenMin(f: Frame)
    ensures FrameLen(f) >= 4
  {
  }

  lemma NewReads(d: seq<byte>, id: int, payload: nat)
    requires NewAt(d, id, payload)
    ensures |d| >= 4 && RawLen(d) == 4 + payload
  {
    hide RawLen, Header;
    HeaderReads(false, id, 4 + payload, d[4..]);
    assert d == d[..4] + d[4..];
  }

  /** blob_set_raw_len rewrites the length bits of a header and nothing else. */
  lemma Relength(pre: seq<byte>, ext: bool, id: int, len: int, rest: seq<byte>, n: int)
    requires 0 <= id < 128 && 0 <= len <= LEN_MASK && 0 <= n <= LEN_MASK
    ensures Overwrite(pre + Header(ext, id, len) + rest, |pre| + 1, Len24(n))
              == pre + Header(ext, id, n) + rest
  {
    var a, b := pre + Header(ext, id, len) + rest, pre + Header(ext, id, n) + rest;
    var c := Overwrite(a, |pre| + 1, Len24(n));
    assert |a| == |b| == |c|;
    forall i | 0 <= i < |c| ensures c[i] == b[i] {
      if |pre| <= i < |pre| + 4 {
        assert b[i] == Header(ext, id, n)[i - |pre|];
        assert i == |pre| ==> c[i] == a[i] == Header(ext, id, len)[0];
      }
    }
  }

  lemma ChunkedMax(n: int)
    requires Chunked(n)
    ensures 0 <= n <= LEN_MASK + 1
  {
  }

  lemma AlignedNonzero(n: nat)
    requires Aligned(n)
    ensures n == 0 || n >= 4
  {
  }

  /** The bytes d start with a fresh header for `payload` bytes, with zero padding after them. */
  ghost predicate NewAt(d: seq<byte>, id: int, payload: nat) {
    && 0 <= id < 128 && 4 + payload <= LEN_MASK && Pad4(4 + payload) <= |d|
    && d[..4] == Header(false, id, 4 + payload)
    && d[4 + payload..Pad4(4 + payload)] == Zeros(Pad4(4 + payload) - 4 - payload)
  }

  /** Rewriting the length of the open attribute after `pre` leaves what follows it alone. */
  lemma CountNew(b: seq<byte>, pre: seq<byte>, f: Frame, n: int)
    requires GoodFrame(f) && FrameLen(f) <= LEN_MASK && 0 <= n <= LEN_MASK && pre + FrameBytes(f, 0) <= b
    ensures var b', e := Overwrite(b, |pre| + 1, Len24(n)), |pre| + FrameLen(f);
            && |pre| + 4 <= e <= |b| && b'[..e] == pre + Header(f.name.Some?, f.id, n) + Rest(f) && b'[e..] == b[e..]
  {
    hide FrameLen, Rest, Header, Len24, Overwrite;
    FrameSize(f);
    var e, h, h' := |pre| + FrameLen(f), Header(f.name.Some?, f.id, FrameLen(f)), Header(f.name.Some?, f.id, n);
    var tail := b[e..];
    assert b == pre + h + (Rest(f) + tail);
    Relength(pre, f.name.Some?, f.id, FrameLen(f), Rest(f) + tail, n);
    var b' := pre + h' + (Rest(f) + tail);
    assert b'[..e] == pre + h' + Rest(f) && b'[e..] == tail;
  }

  /** Copying the payload completes a plain leaf. */
  lemma LeafBytes(d: seq<byte>, id: int, data: seq<byte>)
    requires NewAt(d, id, |data|)
    ensures var t := Leaf(id, None, data);
            Fits(t) && EncLen(t) == Pad4(4 + |data|) <= |d| && Enc(t) <= Overwrite(d, 4, data)
  {
    hide Header, Zeros, Pad4, Overwrite;
    var t, p := Leaf(id, None, data), Pad4(4 + |data|);
    assert Enc(t) == Header(false, id, 4 + |data|) + ([] + data) + Zeros(p - 4 - |data|);
    OnePart(d, 4, data, p);
  }

  lemma OnePart(d: seq<byte>, k: nat, a: seq<byte>, p: nat)
    requires k + |a| <= p <= |d|
    ensures Overwrite(d, k, a)[..p] == d[..k] + ([] + a) + d[k + |a|..p]
  {
  }

  /** The one way to outgrow the length field: the outermost attribute, by exactly filling 2^24 bytes. */
  lemma Outgrown(size: int, outer: seq<Frame>, f: Frame, n: nat)
    requires Open(outer) && GoodFrame(f) && Chunked(size) && Aligned(n)
    requires |OpenBytes(outer)| + FrameLen(f) + n <= size && FrameLen(f) + n > LEN_MASK
    ensures outer == [] && FrameLen(f) + n == LEN_MASK + 1
  {
    hide FrameLen, Rest, Header;
    FrameSize(f);
    SumAligned(FrameLen(f), n);
  }

  lemma EncAligned(t: Blob)
    ensures Aligned(EncLen(t))
  {
  }

  lemma LengthLost(b: seq<byte>, f: Frame)
    requires GoodFrame(f) && FrameLen(f) <= |b| && b[..FrameLen(f)] == Header(f.name.Some?, f.id, 0) + Rest(f)
    ensures |b| >= 4 && RawLen(b) == 0
  {
    hide Rest, RawLen, Header;
    HeaderReads(f.name.Some?, f.id, 0, b[4..]);
    assert b == b[..FrameLen(f)] + b[FrameLen(f)..];
    assert b == Header(f.name.Some?, f.id, 0) + b[4..];
  }

  /** An attribute that has outgrown its length field is the outermost, and its length reads zero. */
  lemma Overflowed(b: seq<byte>, outer: seq<Frame>, f: Frame, n: nat)
    requires Open(outer) && GoodFrame(f) && Chunked(|b|) && Aligned(n) && FrameLen(f) + n > LEN_MASK
    requires var pre := OpenBytes(outer);
      && |pre| + FrameLen(f) + n <= |b|
      && b[..|pre| + FrameLen(f)] == pre + Header(f.name.Some?, f.id, Mask24(FrameLen(f) + n)) + Rest(f)
    ensures outer == [] && |b| >= 4 && RawLen(b) == 0
  {
    hide FrameLen, Rest, Header, RawLen, Mask24, Chunked, Aligned, OpenBytes;
    Outgrown(|b|, outer, f, n);
    NoFrames();
    MaskZero();
    assert [] + Header(f.name.Some?, f.id, 0) == Header(f.name.Some?, f.id, 0);
    LengthLost(b, f);
  }

  /** The writes of blobmsg_new and blobmsg_add_field into a fresh attribute. */
  function MsgFields(d: seq<byte>, name: seq<byte>, data: seq<byte>): seq<byte>
    requires |name| < 65536 && 4 + HdrLen(|name|) + |data| <= |d|
  {
    var d1 := d[0 := d[0] % 128 + 128];
    Overwrite(Overwrite(d1, 4, NameHdr(Some(name))), 4 + HdrLen(|name|), data)
  }

  lemma MsgBytes(d: seq<byte>, id: int, name: seq<byte>, data: seq<byte>)
    requires |name| < 65536 && NewAt(d, id, HdrLen(|name|) + |data|)
    ensures var t, n := Leaf(id, Some(name), data), HdrLen(|name|) + |data|;
            && Fits(t) && EncLen(t) == Pad4(4 + n) <= |d| && Enc(t) <= MsgFields(d, name, data)
  {
    hide Zeros, Pad4, NameHdr, Len24, HdrLen, Overwrite;
    NameReads(Some(name), []);
    var t, h, n := Leaf(id, Some(name), data), HdrLen(|name|), HdrLen(|name|) + |data|;
    var p := Pad4(4 + n);
    assert Enc(t) == Header(true, id, 4 + n) + (NameHdr(Some(name)) + data) + Zeros(p - 4 - n);
    var d1 := d[0 := d[0] % 128 + 128];
    assert d1[..4] == Header(true, id, 4 + n) by { assert d[..4] == [d[0]] + d[1..4] && d[0] == d[..4][0] == id; }
    assert d1[4 + n..p] == d[4 + n..p];
    ThreeParts(d1, 4, NameHdr(Some(name)), data, p);
  }

  lemma ThreeParts(d: seq<byte>, k: nat, a: seq<byte>, b: seq<byte>, p: nat)
    requires k + |a| + |b| <= p <= |d|
    ensures var r := Overwrite(Overwrite(d, k, a), k + |a|, b);
            r[..p] == d[..k] + (a + b) + d[k + |a| + |b|..p]
  {
    var r := Overwrite(Overwrite(d, k, a), k + |a|, b);
    forall i | 0 <= i < p ensures r[i] == (d[..k] + (a + b) + d[k + |a| + |b|..p])[i] {}
  }

  /** A container with a name and no children yet is a frame. */
  lemma MsgFrame(id: int, name: seq<byte>)
    requires 0 <= id < 128 && |name| < 65536
    ensures var f := Frame(id, Some(name), []);
            && GoodFrame(f) && FrameLen(f) == 4 + HdrLen(|name|) == EncLen(Leaf(id, Some(name), []))
            && FrameBytes(f, 0) == Enc(Leaf(id, Some(name), []))
  {
    hide NameHdr, Header;
    var f, h := Frame(id, Some(name), []), Header(true, id, 4 + HdrLen(|name|));
    FrameSize(f);
    assert FrameBytes(f, 0) == h + (NameHdr(Some(name)) + []);
    assert Zeros(0) == [];
  }

  lemma OverwriteTail(b: seq<byte>, e: nat, at: nat, bs: seq<byte>)
    requires e + at + |bs| <= |b|
    ensures Overwrite(b, e + at, bs)[..e] == b[..e] && Overwrite(b, e + at, bs)[e..] == Overwrite(b[e..], at, bs)
  {
  }

  /** A child completed right after its parent's bytes extends the parent. */
  lemma Extend(b: seq<byte>, pre: seq<byte>, f: Frame, t: Blob)
    requires GoodFrame(f) && Fits(t) && FrameLen(f) + EncLen(t) <= LEN_MASK && |pre| + FrameLen(f) <= |b|
    requires b[..|pre| + FrameLen(f)] == pre + Header(f.name.Some?, f.id, FrameLen(f) + EncLen(t)) + Rest(f)
    requires Enc(t) <= b[|pre| + FrameLen(f)..]
    ensures GoodFrame(AddKid(f, t)) && FrameLen(AddKid(f, t)) <= LEN_MASK && pre + FrameBytes(AddKid(f, t), 0) <= b
  {
    hide FrameLen, EncLen, Rest, Header, Enc;
    KidBytes(f, t);
    var e, h := |pre| + FrameLen(f), Header(f.name.Some?, f.id, FrameLen(f) + EncLen(t));
    assert b == b[..e] + b[e..];
    assert pre + (h + (Rest(f) + Enc(t))) == (pre + h + Rest(f)) + Enc(t);
  }

  class BlobBuffer {
    var base: int       // buf->buf, an address that realloc may change
    var buf: seq<byte>  // the bytes there; buflen is their number
    var head: int       // buf->head, the address of the innermost open attribute

    ghost var outer: seq<Frame>  // the open containers around the innermost one
    ghost var inner: Frame

    /** The cookie that blob_nest_start hands out for the innermost of the frames fs + [f]. */
    static ghost function Cookie(fs: seq<Frame>): int
      requires Open(fs)
    {
      |OpenBytes(fs)| + BLOB_COOKIE
    }

    ghost predicate Valid()
      reads this
    {
      && base > 0 && Chunked(|buf|)
      && Open(outer) && GoodFrame(inner) && FrameLen(inner) <= LEN_MASK
      && OpenBytes(outer) + FrameBytes(inner, 0) <= buf
      && head == base + |OpenBytes(outer)|
    }

    /** blob_next(buf->head), as an offset: where the next attribute goes. */
    ghost function End(): int
      requires Valid()
      reads this
    {
      |OpenBytes(outer)| + FrameLen(inner)
    }

    constructor ()
      ensures buf == [] && base == NULL && head == NULL
    {
      base, buf, head := NULL, [], NULL;
      outer, inner := [], Frame(0, None, []);
    }

    /** After blob_new: a header for `payload` bytes has been appended, with its padding, and
        the stored length of the innermost open attribute counts it, modulo 2^24. */
    ghost predicate Appended(id: nat, payload: nat, attr: int)
      requires Open(outer) && GoodFrame(inner)
      reads this
    {
      var pre := OpenBytes(outer);
      var e, padded := |pre| + FrameLen(inner), Pad4(4 + payload);
      && base > 0 && Chunked(|buf|) && head == base + |pre| && attr == base + e
      && e <= |buf| && NewAt(buf[e..], id % 128, payload)
      && buf[..e] == pre + Header(inner.name.Some?, inner.id, Mask24(FrameLen(inner) + padded)) + Rest(inner)
    }

    /** blob_buffer_grow: realloc may move the buffer. */
    method BufferGrow(minlen: nat)
      modifies `base, `buf
      ensures base > 0 && buf == old(buf) + Zeros((minlen / 256 + 1) * 256)
    {
      var moved: int :| moved > 0;
      base := moved;
      buf := buf + Zeros((minlen / 256 + 1) * 256);
    }

    /** blob_buf_grow: head is re-based by its offset. */
    method BufGrow(required: nat) returns (ok: bool)
      modifies `base, `buf, `head
      ensures ok <==> |old(buf)| + required <= LEN_MASK
      ensures !ok ==> base == old(base) && buf == old(buf) && head == old(head)
      ensures ok ==> base > 0 && buf == old(buf) + Zeros((required / 256 + 1) * 256)
                     && head - base == old(head) - old(base)
    {
      var offset := head - base;
      if |buf| + required > LEN_MASK {
        return false;
      }
      BufferGrow(required);
      head := base + offset;
      ok := true;
    }

    /** blob_set_raw_len at an offset. */
    method SetRawLen(at: int, len: nat)
      requires 0 <= at && at + 4 <= |buf|
      modifies `buf
      ensures buf == Overwrite(old(buf), at + 1, Len24(Mask24(len)))
    {
      buf := Overwrite(buf, at + 1, Len24(Mask24(len)));
    }

    /** blob_add: header and padding of a new attribute; the test for growth ignores the
        padding, which still fits because offsets are multiples of 4 and buflen of 256. */
    method Add(pos: int, id: nat, payload: nat) returns (attr: int)
      requires base >= 0 && (base == NULL ==> buf == []) && pos >= base && Chunked(|buf|)
      requires Aligned(pos - base) && (pos - base == 0 ==> payload == 0)
      modifies `base, `buf, `head
      ensures var off := pos - old(base);
              && (attr == NULL <==> off + 4 + payload > |old(buf)| && off + 4 + payload > LEN_MASK)
              && (attr == NULL ==> base == old(base) && buf == old(buf) && head == old(head))
      ensures attr != NULL ==>
              var off := pos - old(base);
              && base > 0 && attr == base + off && head - base == old(head) - old(base)
              && Chunked(|buf|) && |old(buf)| <= |buf| && off <= |buf|
              && (off <= |old(buf)| ==> buf[..off] == old(buf)[..off])
              && NewAt(buf[off..], id % 128, payload)
    {
      hide Pad4, Header, Aligned, Chunked, Mask24, NewAt;
      ChunkedMax(|buf|);
      var off := pos - base;
      var required := off + 4 + payload - |buf|;
      if required > 0 {
        var ok := BufGrow(required);
        if !ok {
          return NULL;
        }
        GrowStep(|old(buf)|, required);
        attr := base + off;
      } else {
        attr := pos;
      }
      PadFits(off, 4 + payload, |buf|);
      ChunkedMax(|buf|);
      AlignedNonzero(off);
      Init(off, id % 128, payload);
    }

    /** blob_init and blob_fill_pad of a new attribute at an offset. */
    method Init(off: nat, id: int, payload: nat)
      requires 0 <= id < 128 && 4 + payload <= LEN_MASK && off + Pad4(4 + payload) <= |buf|
      modifies `buf
      ensures |buf| == |old(buf)| && buf[..off] == old(buf)[..off] && NewAt(buf[off..], id, payload)
    {
      hide Pad4, Header, Zeros;
      var len := Mask24(4 + payload);
      var padded := Pad4(len);
      buf := Overwrite(buf, off, Header(false, id, len));
      assert buf[off..][..4] == Header(false, id, len);
      if padded > len {
        buf := Overwrite(buf, off + len, Zeros(padded - len));
        assert buf[off..][len..padded] == Zeros(padded - len);
      } else {
        assert buf[off..][len..padded] == [] == Zeros(0);
      }
      assert buf[off..][..4] == Header(false, id, len);
    }

    /** blob_new: the new attribute is counted in the innermost open one. */
    method New(id: nat, payload: nat) returns (attr: int)
      requires Valid()
      modifies `base, `buf, `head
      ensures attr == NULL <==> old(End()) + 4 + payload > |old(buf)| && old(End()) + 4 + payload > LEN_MASK
      ensures attr == NULL ==> Valid() && base == old(base) && buf == old(buf)
      ensures attr != NULL ==> Appended(id, payload, attr) && |old(buf)| <= |buf|
    {
      hide FrameLen, Rest, Pad4, Header, OpenBytes, RawLen, Aligned, Chunked, Mask24, Len24, NewAt, Overwrite;
      ghost var pre, e := OpenBytes(outer), End();
      OpenSize(outer);
      FrameSize(inner);
      SumAligned(|pre|, FrameLen(inner));
      FrameLenMin(inner);
      assert buf[..e] == pre + FrameBytes(inner, 0);
      HeadReads(buf, pre, inner, 0);
      var next := head + Pad4(RawLen(buf[head - base..]));
      ghost var b0 := buf;
      attr := Add(next, id, payload);
      if attr == NULL {
        return;
      }
      assert pre + FrameBytes(inner, 0) <= buf by { assert buf[..e] == b0[..e]; }
      HeadReads(buf, pre, inner, 0);
      NewReads(buf[attr - base..], id % 128, payload);
      ghost var n := FrameLen(inner) + Pad4(4 + payload);
      CountNew(buf, pre, inner, Mask24(n));
      SetRawLen(head - base, Pad4(RawLen(buf[head - base..])) + Pad4(RawLen(buf[attr - base..])));
    }

    /** What a successful append of t owes, under the one condition it depends on: that the
        innermost open attribute's length still fits its 24 bits. */
    ghost predicate Grew(t: Blob, f: Frame)
      reads this
    {
      FrameLen(f) + EncLen(t) <= LEN_MASK ==> Valid() && inner == AddKid(f, t)
    }

    /** blob_put */
    method Put(id: nat, data: seq<byte>) returns (attr: int)
      requires Valid()
      modifies `base, `buf, `head, `inner
      ensures attr == NULL <==> old(End()) + 4 + |data| > |old(buf)| && old(End()) + 4 + |data| > LEN_MASK
      ensures attr == NULL ==> Valid() && buf == old(buf) && inner == old(inner)
      ensures attr != NULL ==> attr == base + old(End()) && Grew(Leaf(id % 128, None, data), old(inner))
      ensures attr != NULL && old(FrameLen(inner)) + EncLen(Leaf(id % 128, None, data)) > LEN_MASK ==> Truncated()
    {
      hide FrameLen, EncLen, Rest, Header, RawLen, Pad4, OpenBytes, Enc, NewAt, Overwrite, Chunked, Mask24, Aligned;
      ghost var t := Leaf(id % 128, None, data);
      attr := CopyIn(id, data);
      if attr != NULL {
        Commit(t, attr);
      }
    }

    /** The bytes that blob_put writes. */
    method CopyIn(id: nat, data: seq<byte>) returns (attr: int)
      requires Valid()
      modifies `base, `buf, `head
      ensures attr == NULL <==> old(End()) + 4 + |data| > |old(buf)| && old(End()) + 4 + |data| > LEN_MASK
      ensures attr == NULL ==> Valid() && buf == old(buf)
      ensures attr != NULL ==> Written(Leaf(id % 128, None, data), attr)
    {
      hide FrameLen, EncLen, Rest, Header, RawLen, Pad4, OpenBytes, Enc, NewAt, Overwrite, Chunked, Mask24, Aligned;
      ghost var e := End();
      attr := New(id, |data|);
      if attr == NULL {
        return;
      }
      FrameSize(inner);
      LeafBytes(buf[e..], id % 128, data);
      OverwriteTail(buf, e, 4, data);
      buf := Overwrite(buf, attr - base + 4, data);
    }

    /** The outermost attribute has exactly outgrown its length field, which reads zero. */
    ghost predicate Truncated()
      reads this
    {
      outer == [] && |buf| >= 4 && RawLen(buf) == 0
    }

    /** What an append means for the tree being built. */
    ghost method Commit(t: Blob, attr: int)
      requires Open(outer) && GoodFrame(inner) && Written(t, attr)
      modifies `inner
      ensures Grew(t, old(inner))
      ensures old(FrameLen(inner)) + EncLen(t) > LEN_MASK ==> Truncated()
    {
      hide FrameLen, EncLen, Rest, Header, RawLen, OpenBytes, Enc, Chunked, Mask24, Aligned;
      FrameSize(inner);
      if FrameLen(inner) + EncLen(t) <= LEN_MASK {
        Extend(buf, OpenBytes(outer), inner, t);
        inner := AddKid(inner, t);
      } else {
        EncAligned(t);
        Overflowed(buf, outer, inner, EncLen(t));
      }
    }

    /** The writes of blobmsg_new behind blob_new: extended bit, name length, name and padding. */
    method NameFields(off: nat, name: seq<byte>) returns (data: nat)
      requires off + 4 + HdrLen(|name|) <= |buf|
      modifies `buf
      ensures |buf| == |old(buf)| && data == off + 4 + HdrLen(|name| % 65536)
      ensures |name| < 65536 ==>
                buf == Overwrite(old(buf)[off := old(buf)[off] % 128 + 128], off + 4, NameHdr(Some(name)))
      ensures |name| >= 65536 ==> Garbled(buf, off, name) && buf[..off] == old(buf)[..off]
    {
      hide Overwrite, HdrLen, NameHdr, Garbled;
      NameRoom(|name|);
      var n := |name| % 65536;
      buf := buf[off := buf[off] % 128 + 128];
      ghost var b := buf;
      buf := Overwrite(buf, off + 4, [n / 256, n % 256] + name + [0]);
      data := off + 4 + HdrLen(n);
      if off + 6 + |name| < data {
        buf := Overwrite(buf, off + 6 + |name|, Zeros(data - (off + 6 + |name|)));
        NameShort(b, off + 4, name);
      } else {
        NameLong(b, off, name);
      }
    }

    /** blobmsg_new with its data copied in: header with the extended bit, name, data. A name of
        65536 bytes or more is garbled. */
    method MsgPut(id: nat, name: seq<byte>, data: seq<byte>) returns (attr: int)
      requires Valid()
      modifies `base, `buf, `head
      ensures var n := HdrLen(|name|) + |data|;
              attr == NULL <==> old(End()) + 4 + n > |old(buf)| && old(End()) + 4 + n > LEN_MASK
      ensures attr == NULL ==> Valid() && buf == old(buf)
      ensures attr != NULL && |name| < 65536 ==> Written(Leaf(id % 128, Some(name), data), attr)
      ensures attr != NULL ==>
                base > 0 && attr == base + old(End()) && head - base == old(head) - old(base) && |buf| >= old(End())
      ensures attr != NULL && |name| >= 65536 ==> Garbled(buf, old(End()), name)
    {
      hide FrameLen, EncLen, Rest, Header, RawLen, Pad4, HdrLen, OpenBytes, Enc, NewAt, Overwrite, Chunked, Mask24,
           MsgFields, NameHdr, Aligned, Garbled;
      ghost var e := End();
      attr := New(id, HdrLen(|name|) + |data|);
      if attr == NULL {
        return;
      }
      FrameSize(inner);
      FrameLenMin(inner);
      NewRoom(buf[e..], id % 128, HdrLen(|name|) + |data|);
      var off := attr - base;
      if |name| < 65536 {
        MsgBytes(buf[e..], id % 128, name, data);
      }
      NameAndData(off, name, data);
    }

    /** Name and data are written into a new attribute. */
    method NameAndData(off: nat, name: seq<byte>, data: seq<byte>)
      requires off + 4 + HdrLen(|name|) + |data| <= |buf|
      modifies `buf
      ensures |buf| == |old(buf)|
      ensures |name| < 65536 ==> buf[..off] == old(buf)[..off] && buf[off..] == MsgFields(old(buf)[off..], name, data)
      ensures |name| >= 65536 ==> Garbled(buf, off, name)
    {
      hide HdrLen, Overwrite, MsgFields, NameHdr, Garbled;
      if |name| < 65536 { MsgFieldsTail(buf, off, name, data); }
      DataRoom(|name|);
      var d := NameFields(off, name);
      ghost var b := buf;
      buf := Overwrite(buf, d, data);
      if |name| >= 65536 { GarbledStays(b, off, name, d, data); }
    }

    /** After an append: t stands at the end, and the innermost open attribute counts it. */
    ghost predicate Written(t: Blob, attr: int)
      requires Open(outer) && GoodFrame(inner)
      reads this
    {
      var pre, e := OpenBytes(outer), |OpenBytes(outer)| + FrameLen(inner);
      && Fits(t) && base > 0 && Chunked(|buf|) && head == base + |pre| && attr == base + e && e + EncLen(t) <= |buf|
      && buf[..e] == pre + Header(inner.name.Some?, inner.id, Mask24(FrameLen(inner) + EncLen(t))) + Rest(inner)
      && Enc(t) <= buf[e..]
    }

    /** blobmsg_add_field */
    method AddField(id: nat, name: seq<byte>, data: seq<byte>) returns (r: int)
      requires Valid()
      modifies `base, `buf, `head, `inner
      ensures r == -1 || r == 0
      ensures var n := HdrLen(|name|) + |data|;
              r == -1 <==> old(End()) + 4 + n > |old(buf)| && old(End()) + 4 + n > LEN_MASK
      ensures r == -1 ==> Valid() && buf == old(buf) && inner == old(inner)
      ensures r == 0 && |name| < 65536 ==> Grew(Leaf(id % 128, Some(name), data), old(inner))
      ensures var more := EncLen(Leaf(id % 128, Some(name), data));
              r == 0 && |name| < 65536 && old(FrameLen(inner)) + more > LEN_MASK ==> Truncated()
      ensures r == 0 && |name| >= 65536 ==> Garbled(buf, old(End()), name)
    {
      hide FrameLen, EncLen, Rest, Header, RawLen, Pad4, HdrLen, OpenBytes, Enc, NewAt, Overwrite, Chunked, Mask24;
      ghost var t := Leaf(id % 128, Some(name), data);
      var attr := MsgPut(id, name, data);
      if attr == NULL {
        return -1;
      }
      if |name| < 65536 {
        Commit(t, attr);
      }
      r := 0;
    }

    /** blob_buf_init: an empty outermost attribute, reusing the buffer if there is one. */
    method BufInit(id: nat) returns (r: int)
      requires base >= 0 && (base == NULL ==> buf == []) && Chunked(|buf|)
      modifies this
      ensures r == 0 && Valid() && outer == [] && inner == Frame(id % 128, None, [])
    {
      hide Pad4, NewAt, Chunked, Aligned;
      ChunkedMax(|buf|);
      ZeroAligned();
      head := base;
      var attr := Add(base, id, 0);
      outer, inner := [], Frame(id % 128, None, []);
      PlainFrame(buf[0..], id % 128);
      NoFrames();
      r := 0;
    }

    /** The container f has been started at the end and is now the innermost. */
    ghost method Push(f: Frame)
      requires base > 0 && Chunked(|buf|) && Open(outer) && GoodFrame(inner) && FrameLen(inner) + 4 <= LEN_MASK
      requires GoodFrame(f) && FrameLen(f) <= LEN_MASK && head == base + |OpenBytes(outer)| + FrameLen(inner)
               && head - base <= |buf|
      requires buf[..head - base] ==
                 OpenBytes(outer) + Header(inner.name.Some?, inner.id, FrameLen(inner) + 4) + Rest(inner)
      requires FrameBytes(f, 0) <= buf[head - base..]
      modifies `outer, `inner
      ensures Valid() && outer == old(outer) + [old(inner)] && inner == f
    {
      hide FrameLen, Rest, Header, OpenBytes, Chunked;
      Nested(buf, outer, inner, f);
      outer, inner := outer + [inner], f;
    }

    /** blob_nest_start: the cookie is the offset of the container being left open.  When
        the new header does not fit, head is left NULL. */
    method NestStart(id: nat) returns (cookie: int)
      requires Valid()
      modifies this
      ensures cookie == NULL <==> old(End()) + 4 > |old(buf)| && old(End()) + 4 > LEN_MASK
      ensures cookie == NULL ==> head == NULL && buf == old(buf)
      ensures cookie != NULL && old(FrameLen(inner)) + 4 <= LEN_MASK ==>
                Valid() && outer == old(outer) + [old(inner)] && inner == Frame(id % 128, None, [])
                && cookie == Cookie(old(outer))
      ensures cookie != NULL && old(FrameLen(inner)) + 4 > LEN_MASK ==> Truncated()
    {
      hide FrameLen, Rest, Header, Pad4, OpenBytes, NewAt, Chunked, Mask24;
      ghost var e := End();
      var offset := head - base + BLOB_COOKIE;
      var attr := New(id, 0);
      head := attr;
      if head == NULL {
        return NULL;
      }
      FrameSize(inner);
      PlainFrame(buf[e..], id % 128);
      if FrameLen(inner) + 4 <= LEN_MASK {
        Push(Frame(id % 128, None, []));
      } else {
        StartRoom(buf[e..], id % 128);
        Overflowed(buf, outer, inner, 4);
      }
      cookie := offset;
    }

    /** blobmsg_open_nested: on failure nothing has changed. The length of the container around it
        is right even if it had overflowed for a moment. */
    method OpenNested(name: seq<byte>, isArray: bool) returns (cookie: int)
      requires Valid()
      modifies this
      ensures var n := HdrLen(|name|);
              cookie == NULL <==> old(End()) + 4 + n > |old(buf)| && old(End()) + 4 + n > LEN_MASK
      ensures cookie == NULL ==> Valid() && buf == old(buf) && outer == old(outer) && inner == old(inner)
      ensures cookie != NULL && |name| < 65536 ==>
                && Valid() && outer == old(outer) + [old(inner)] && cookie == Cookie(old(outer))
                && inner == Frame(if isArray then TYPE_ARRAY else TYPE_TABLE, Some(name), [])
      ensures cookie != NULL && |name| >= 65536 ==> Garbled(buf, old(End()), name)
    {
      hide FrameLen, FrameBytes, Rest, Header, Pad4, HdrLen, OpenBytes, NewAt, Chunked, Mask24, Enc, EncLen,
           Overwrite, Len24, RawLen, Aligned, Fits, Garbled;
      ghost var e := End();
      OpenSize(outer);
      FrameSize(inner);
      FrameLenMin(inner);
      var id := if isArray then TYPE_ARRAY else TYPE_TABLE;
      var offset := head - base + BLOB_COOKIE;
      var attr := MsgPut(id, name, []);
      if attr == NULL {
        return NULL;
      }
      ghost var b := buf;
      var counted := Pad4(RawLen(buf[head - base..]));
      SetRawLen(head - base, counted + HdrMod(|name|) - HdrLen(|name|));
      head := attr;
      if |name| < 65536 {
        assert id % 128 == id;
        OpenRecount(b, outer, inner, id, name, counted);
        Push(Frame(id, Some(name), []));
      } else {
        GarbledBehind(b, e, name, offset - BLOB_COOKIE + 1, Len24(Mask24(counted + HdrMod(|name|) - HdrLen(|name|))));
      }
      cookie := offset;
    }

    /** blob_nest_end (and blobmsg_close_table / _array) */
    method NestEnd(cookie: int)
      requires Valid() && outer != [] && cookie == Cookie(outer[..|outer| - 1])
      modifies this
      ensures var up := old(outer)[|old(outer)| - 1];
              var t := Nest(old(inner).id, old(inner).name, old(inner).kids);
              && Fits(t) && EncLen(t) == old(FrameLen(inner))
              && outer == old(outer)[..|old(outer)| - 1] && Grew(t, up)
              && (FrameLen(up) + EncLen(t) > LEN_MASK ==> Truncated())
    {
      hide FrameLen, FrameBytes, Rest, Header, Pad4, OpenBytes, Chunked, Mask24, Enc, EncLen, Overwrite, Len24, RawLen,
           Aligned, HdrLen, Garbled;
      ghost var rest, up := outer[..|outer| - 1], outer[|outer| - 1];
      ghost var pre := OpenBytes(rest);
      ghost var t := Nest(inner.id, inner.name, inner.kids);
      Innermost(buf, outer, inner);
      ghost var n := Mask24(FrameLen(up) + FrameLen(inner));
      CountAgain(buf, pre, up, FrameLen(up) + 4, n);
      var attr := cookie - BLOB_COOKIE;
      SetRawLen(attr, Pad4(RawLen(buf[attr..])) + (RawLen(buf[head - base..]) - 4));
      head := base + attr;
      outer := rest;
      if FrameLen(up) + EncLen(t) <= LEN_MASK {
        Extend(buf, pre, up, t);
        inner := AddKid(up, t);
      } else {
        EncSize(t);
        Overflowed(buf, rest, up, FrameLen(inner));
      }
    }

    /** With every container closed, the buffer is the encoding of the tree that was built,
        and reading it returns that tree. */
    lemma Complete(nested: int -> bool)
      requires Valid() && outer == []
      ensures var t := Nest(inner.id, inner.name, inner.kids);
              && Fits(t) && |buf| >= 4 && RawLen(buf) == |Enc(t)| && Enc(t) <= buf
              && (Typed(nested, t) ==> Decode(nested, buf) == t)
    {
      hide Enc, EncLen, FrameLen, Decode, RawLen;
      var t := Nest(inner.id, inner.name, inner.kids);
      NoFrames();
      NestBytes(inner);
      assert [] + FrameBytes(inner, 0) == FrameBytes(inner, 0);
      HeadReads(buf, [], inner, 0);
      EncSize(t);
      assert buf[0..] == buf && buf == Enc(t) + buf[|Enc(t)|..];
      if Typed(nested, t) { DecodeEnc(nested, t, buf[|Enc(t)|..]); }
    }
  }

  /** The boundary is reached: a payload of 0xfffff7 bytes put into a fresh buffer is
      accepted, and the outermost length becomes zero. */
  method PutAtLimit(data: seq<byte>) returns (b: BlobBuffer, attr: int)
    requires |data| == 0xfffff7
    ensures attr != NULL && b.Truncated()
  {
    b := new BlobBuffer();
    var _ := b.BufInit(0);
    assert b.End() == 4 by { NoFrames(); }
    assert EncLen(Leaf(1, None, data)) == 0xfffffc;
    attr := b.Put(1, data);
  }

  lemma NameRoom(n: nat)
    ensures n + 3 <= HdrLen(n) && n % 65536 + 3 <= HdrLen(n % 65536)
    ensures n >= 65536 ==> HdrLen(n % 65536) <= n
  {
  }

  lemma DataRoom(n: nat)
    ensures n + 3 <= HdrLen(n) && HdrLen(n % 65536) <= HdrLen(n) && (n < 65536 ==> n % 65536 == n)
  {
  }

  lemma NewRoom(d: seq<byte>, id: int, payload: nat)
    requires NewAt(d, id, payload)
    ensures 4 + payload <= |d|
  {
  }

  /** The header of a name that is not too long, in two writes */
  lemma NameShort(b: seq<byte>, at: nat, name: seq<byte>)
    requires at + HdrLen(|name|) <= |b| && HdrLen(|name| % 65536) > 2 + |name|
    ensures |name| < 65536
    ensures Overwrite(Overwrite(b, at, [|name| / 256, |name| % 256] + name + [0]), at + 2 + |name|,
                      Zeros(HdrLen(|name|) - 2 - |name|))
      == Overwrite(b, at, NameHdr(Some(name)))
  {
    hide HdrLen, Zeros;
    NameRoom(|name|);
    var z := Zeros(HdrLen(|name|) - 2 - |name|);
    var h := [|name| / 256, |name| % 256] + name;
    var a, c := Overwrite(Overwrite(b, at, h + [0]), at + 2 + |name|, z), Overwrite(b, at, h + z);
    assert NameHdr(Some(name)) == h + z;
    forall i | 0 <= i < |b| ensures a[i] == c[i] {}
  }

  lemma NameLong(b: seq<byte>, off: nat, name: seq<byte>)
    requires off + 7 + |name| <= |b| && b[off] >= 128 && HdrLen(|name| % 65536) <= 2 + |name|
    ensures |name| >= 65536
            && Garbled(Overwrite(b, off + 4, [|name| % 65536 / 256, |name| % 65536 % 256] + name + [0]), off, name)
    ensures Overwrite(b, off + 4, [|name| % 65536 / 256, |name| % 65536 % 256] + name + [0])[..off] == b[..off]
  {
    hide HdrLen;
    NameRoom(|name|);
    var n := |name| % 65536;
    var c := Overwrite(b, off + 4, [n / 256, n % 256] + name + [0]);
    forall i | 0 <= i < n + 1 ensures c[off + 6..off + 7 + n][i] == name[i] {}
  }

  lemma GarbledStays(b: seq<byte>, off: nat, name: seq<byte>, d: nat, data: seq<byte>)
    requires Garbled(b, off, name) && d == off + 4 + HdrLen(|name| % 65536) && d + |data| <= |b|
    ensures Garbled(Overwrite(b, d, data), off, name)
  {
    NameRoom(|name|);
    var n, c := |name| % 65536, Overwrite(b, d, data);
    assert c[off + 6..off + 7 + n] == b[off + 6..off + 7 + n];
  }

  lemma GarbledBehind(b: seq<byte>, off: nat, name: seq<byte>, at: nat, bs: seq<byte>)
    requires Garbled(b, off, name) && at + |bs| <= off
    ensures Garbled(Overwrite(b, at, bs), off, name)
  {
    var n, c := |name| % 65536, Overwrite(b, at, bs);
    assert c[off + 6..off + 7 + n] == b[off + 6..off + 7 + n];
  }

  /** What opening a named container does to the length of the one around it */
  lemma Recount(n: nat, h: nat)
    requires Aligned(n) && Aligned(h) && 4 <= h && n <= LEN_MASK && n + h <= LEN_MASK + 1
    ensures Mask24(Pad4(Mask24(n + h)) + (LEN_MASK + 1) - h) == n && 0 <= Mask24(n + h) <= LEN_MASK
  {
  }

  /** A multiple of 2^24 not below the length of a name header */
  function HdrMod(n: nat): (m: nat)
    ensures m >= HdrLen(n)
  {
    (HdrLen(n) / (LEN_MASK + 1) + 1) * (LEN_MASK + 1)
  }

  /** What blobmsg_open_nested does to the lengths, when the attribute has been written */
  lemma OpenRecount(b: seq<byte>, outer: seq<Frame>, f: Frame, id: int, name: seq<byte>, counted: nat)
    requires Open(outer) && GoodFrame(f) && FrameLen(f) <= LEN_MASK && 0 <= id < 128 && |name| < 65536 && Chunked(|b|)
    requires var t, pre := Leaf(id, Some(name), []), OpenBytes(outer);
      && Fits(t) && |pre| + FrameLen(f) + EncLen(t) <= |b| && Enc(t) <= b[|pre| + FrameLen(f)..]
      && b[..|pre| + FrameLen(f)] == pre + Header(f.name.Some?, f.id, Mask24(FrameLen(f) + EncLen(t))) + Rest(f)
      && counted == Pad4(RawLen(b[|pre|..]))
    ensures var g, pre := Frame(id, Some(name), []), OpenBytes(outer);
      var b', e :=
        Overwrite(b, |pre| + 1, Len24(Mask24(counted + HdrMod(|name|) - HdrLen(|name|)))), |pre| + FrameLen(f);
      && FrameLen(f) + 4 <= LEN_MASK && GoodFrame(g) && FrameLen(g) <= LEN_MASK
      && b'[..e] == pre + Header(f.name.Some?, f.id, FrameLen(f) + 4) + Rest(f) && FrameBytes(g, 0) <= b'[e..]
  {
    hide FrameLen, Rest, Header, Pad4, HdrLen, OpenBytes, Chunked, Mask24, Enc, EncLen, Overwrite, Len24, RawLen,
         Aligned;
    var pre, h := OpenBytes(outer), HdrLen(|name|);
    FrameSize(f);
    MsgFrame(id, name);
    HdrAligned(|name|);
    var n := FrameLen(f) + 4;
    Fours(FrameLen(f), h);
    if n + h > LEN_MASK { Outgrown(|b|, outer, f, 4 + h); }
    HdrModIs(|name|);
    Recount(n, h);
    HeaderAt(b, pre, f, Mask24(n + h));
    CountAgain(b, pre, f, Mask24(n + h), n);
  }

  lemma Fours(a: int, h: int)
    requires Aligned(a) && Aligned(h)
    ensures Aligned(a + 4) && Aligned(4 + h)
  {
  }

  lemma HdrModIs(n: nat)
    requires n < 65536
    ensures HdrMod(n) == LEN_MASK + 1
  {
  }

  lemma StartRoom(d: seq<byte>, id: int)
    requires NewAt(d, id, 0)
    ensures 4 <= |d| && Aligned(4) && Pad4(4) == 4
  {
  }

  lemma MaskZero()
    ensures Mask24(LEN_MASK + 1) == 0
  {
  }

  lemma HdrAligned(n: nat)
    ensures Aligned(HdrLen(n)) && HdrLen(n) >= 4
  {
  }

  lemma PlainFrame(d: seq<byte>, id: int)
    requires NewAt(d, id, 0)
    ensures var f := Frame(id, None, []);
            GoodFrame(f) && FrameLen(f) == 4 == Pad4(4) <= |d| && FrameBytes(f, 0) <= d
  {
    hide Header;
    var f := Frame(id, None, []);
    assert FrameBytes(f, 0) == Header(false, id, 4) + ([] + []);
  }

  /** A frame started right after an open one, which counts just its header. */
  lemma Nested(b: seq<byte>, outer: seq<Frame>, f: Frame, g: Frame)
    requires Open(outer) && GoodFrame(f) && FrameLen(f) + 4 <= LEN_MASK && GoodFrame(g) && FrameLen(g) <= LEN_MASK
    requires var pre, e := OpenBytes(outer), |OpenBytes(outer)| + FrameLen(f);
             e <= |b| && b[..e] == pre + Header(f.name.Some?, f.id, FrameLen(f) + 4) + Rest(f)
             && FrameBytes(g, 0) <= b[e..]
    ensures Open(outer + [f]) && |OpenBytes(outer + [f])| == |OpenBytes(outer)| + FrameLen(f)
    ensures OpenBytes(outer + [f]) + FrameBytes(g, 0) <= b
  {
    hide FrameLen, Rest, Header;
    FrameSize(f);
    var fs, pre, e := outer + [f], OpenBytes(outer), |OpenBytes(outer)| + FrameLen(f);
    assert fs[..|fs| - 1] == outer && fs[|fs| - 1] == f;
    assert OpenBytes(fs) == pre + FrameBytes(f, 4);
    assert b == b[..e] + b[e..];
    assert pre + Header(f.name.Some?, f.id, FrameLen(f) + 4) + Rest(f) == pre + FrameBytes(f, 4);
  }

  /** What blob_nest_end reads */
  lemma Innermost(b: seq<byte>, outer: seq<Frame>, f: Frame)
    requires Open(outer) && outer != [] && GoodFrame(f) && FrameLen(f) <= LEN_MASK
             && OpenBytes(outer) + FrameBytes(f, 0) <= b
    ensures var rest, up, t := outer[..|outer| - 1], outer[|outer| - 1], Nest(f.id, f.name, f.kids);
            var pre, e := OpenBytes(rest), |OpenBytes(outer)|;
            && Open(rest) && GoodFrame(up) && Fits(t) && EncLen(t) == FrameLen(f) && e == |pre| + FrameLen(up)
            && 4 <= FrameLen(f) && 0 <= FrameLen(up) <= LEN_MASK - 4
            && |pre| + 4 <= |b| && e + FrameLen(f) <= |b| && e + 4 <= |b|
            && b[..e] == pre + Header(up.name.Some?, up.id, FrameLen(up) + 4) + Rest(up) && Enc(t) <= b[e..]
            && RawLen(b[e..]) == FrameLen(f) && Aligned(FrameLen(f))
            && Pad4(RawLen(b[|pre|..])) == FrameLen(up) + 4
  {
    hide FrameLen, Rest, Header, Pad4, OpenBytes, Enc, EncLen, RawLen, Aligned;
    var rest, up := outer[..|outer| - 1], outer[|outer| - 1];
    Unnest(b, outer, f);
    HeadReads(b, OpenBytes(outer), f, 0);
    HeadReads(b, OpenBytes(rest), up, 4);
    FrameSize(up);
    FrameSize(f);
    FrameLenMin(f);
    SumAligned(FrameLen(up), 4);
  }

  /** The innermost frame, complete, is the encoding of a container at the end of its parent. */
  lemma Unnest(b: seq<byte>, outer: seq<Frame>, f: Frame)
    requires Open(outer) && outer != [] && GoodFrame(f) && FrameLen(f) <= LEN_MASK
             && OpenBytes(outer) + FrameBytes(f, 0) <= b
    ensures var rest, up, t := outer[..|outer| - 1], outer[|outer| - 1], Nest(f.id, f.name, f.kids);
            && Open(rest) && |OpenBytes(outer)| == |OpenBytes(rest)| + FrameLen(up) <= |b|
            && OpenBytes(rest) + FrameBytes(up, 4) <= b
            && Fits(t) && EncLen(t) == FrameLen(f) && Enc(t) <= b[|OpenBytes(outer)|..]
  {
    hide FrameLen, Rest, Header, Enc, EncLen;
    var rest, up, t := outer[..|outer| - 1], outer[|outer| - 1], Nest(f.id, f.name, f.kids);
    FrameSize(up);
    FrameSize(f);
    NestBytes(f);
    assert OpenBytes(outer) == OpenBytes(rest) + FrameBytes(up, 4);
    Suffix(b, OpenBytes(outer), FrameBytes(f, 0));
  }

  lemma Suffix(b: seq<byte>, x: seq<byte>, y: seq<byte>)
    requires x + y <= b
    ensures y <= b[|x|..]
  {
  }

  lemma NestBytes(f: Frame)
    requires GoodFrame(f) && FrameLen(f) <= LEN_MASK
    ensures var t := Nest(f.id, f.name, f.kids);
            Fits(t) && EncLen(t) == FrameLen(f) && Enc(t) == FrameBytes(f, 0)
  {
    hide Header, EncAll, AllLen, Pad4, NameHdr;
    var t := Nest(f.id, f.name, f.kids);
    FrameSize(f);
    assert BodyLen(t) == FrameLen(f) - 4;
    assert Zeros(0) == [];
    assert FrameBytes(f, 0) + [] == FrameBytes(f, 0);
  }

  lemma HeaderAt(b: seq<byte>, pre: seq<byte>, f: Frame, len: int)
    requires GoodFrame(f) && 0 <= len <= LEN_MASK && |pre| + FrameLen(f) <= |b|
    requires b[..|pre| + FrameLen(f)] == pre + Header(f.name.Some?, f.id, len) + Rest(f)
    ensures |pre| + 4 <= |b| && RawLen(b[|pre|..]) == len
  {
    hide RawLen, Rest, Header;
    FrameSize(f);
    var h, e := Header(f.name.Some?, f.id, len), |pre| + FrameLen(f);
    assert b == b[..e] + b[e..];
    assert b[|pre|..] == h + (Rest(f) + b[e..]);
    HeaderReads(f.name.Some?, f.id, len, Rest(f) + b[e..]);
  }

  /** Rewriting the stored length of an open attribute whose stored length is `len`. */
  lemma CountAgain(b: seq<byte>, pre: seq<byte>, f: Frame, len: int, n: int)
    requires GoodFrame(f) && 0 <= len <= LEN_MASK && 0 <= n <= LEN_MASK && |pre| + FrameLen(f) <= |b|
    requires b[..|pre| + FrameLen(f)] == pre + Header(f.name.Some?, f.id, len) + Rest(f)
    ensures |pre| + 4 <= |b|
    ensures var b', e := Overwrite(b, |pre| + 1, Len24(n)), |pre| + FrameLen(f);
            b'[..e] == pre + Header(f.name.Some?, f.id, n) + Rest(f) && b'[e..] == b[e..]
  {
    hide Rest, Header, Len24, Overwrite;
    FrameSize(f);
    var e := |pre| + FrameLen(f);
    assert b == b[..e] + b[e..];
    assert b == pre + Header(f.name.Some?, f.id, len) + (Rest(f) + b[e..]);
    Relength(pre, f.name.Some?, f.id, len, Rest(f) + b[e..], n);
    var b' := pre + Header(f.name.Some?, f.id, n) + (Rest(f) + b[e..]);
    assert b'[..e] == pre + Header(f.name.Some?, f.id, n) + Rest(f) && b'[e..] == b[e..];
  }

  /** The three writes, made at an offset, amount to MsgFields of the tail. */
  lemma MsgFieldsTail(b: seq<byte>, e: nat, name: seq<byte>, data: seq<byte>)
    requires |name| < 65536 && e + 4 + HdrLen(|name|) + |data| <= |b|
    ensures |NameHdr(Some(name))| == HdrLen(|name|)
    ensures var b1 := b[e := b[e] % 128 + 128];
            var b2 := Overwrite(b1, e + 4, NameHdr(Some(name)));
            var b3 := Overwrite(b2, e + 4 + HdrLen(|name|), data);
            b3[..e] == b[..e] && b3[e..] == MsgFields(b[e..], name, data)
  {
    hide NameHdr, HdrLen, Overwrite;
    NameReads(Some(name), []);
    var b1 := b[e := b[e] % 128 + 128];
    var b2 := Overwrite(b1, e + 4, NameHdr(Some(name)));
    assert b1[..e] == b[..e] && b1[e..] == b[e..][0 := b[e..][0] % 128 + 128];
    OverwriteTail(b1, e, 4, NameHdr(Some(name)));
    OverwriteTail(b2, e, 4 + HdrLen(|name|), data);
  }

  lemma {:induction false} NoFrames()
    ensures OpenBytes([]) == []
  {
  }
}