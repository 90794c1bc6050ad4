/** Whole messages: any well-bracketed sequence of additions to a buffer. */
module BlobBuild {
  import opened Basics
  import opened BlobFormat
  import opened BlobBuf

  /** What the functions of blob.c and blobmsg.c can build: a named container is a table or an
      array. */
  ghost predicate Buildable(t: Blob) {
    && 0 <= t.id < 128 && GoodName(t.name)
    && (t.Nest? ==> (t.name.Some? ==> t.id == TYPE_TABLE || t.id == TYPE_ARRAY) && AllBuildable(t.kids))
  }

  ghost predicate AllBuildable(ts: seq<Blob>) {
    forall i :: 0 <= i < |ts| ==> Buildable(ts[i])
  }

  lemma {:induction false} PartLen(ts: seq<Blob>, i: nat)
    requires i < |ts|
    ensures EncLen(ts[i]) <= AllLen(ts)
  {
    hide EncLen;
    if i > 0 { PartLen(ts[1..], i - 1); }
  }

  lemma {:induction false} FitsBySize(t: Blob)
    requires Buildable(t) && EncLen(t) <= LEN_MASK
    ensures Fits(t)
    decreases t
  {
    if t.Nest? {
      forall i | 0 <= i < |t.kids| ensures Fits(t.kids[i]) {
        PartLen(t.kids, i);
        FitsBySize(t.kids[i]);
      }
    }
  }

  /** A finished container is as long as it was while it was open. */
  lemma {:induction false} NestLen(t: Blob)
    requires t.Nest? && Fits(t)
    ensures EncLen(t) == 4 + NameLen(t.name) + AllLen(t.kids) == FrameLen(Frame(t.id, t.name, t.kids))
  {
    FrameSize(Frame(t.id, t.name, t.kids));
  }

  lemma {:induction false} PushLen(fs: seq<Frame>, f: Frame)
    requires Open(fs + [f])
    ensures Open(fs) && |OpenBytes(fs + [f])| == |OpenBytes(fs)| + FrameLen(f)
  {
    hide FrameLen;
    assert (fs + [f])[..|fs|] == fs && (fs + [f])[|fs|] == f;
    assert forall i :: 0 <= i < |fs| ==> fs[i] == (fs + [f])[i];
    FrameSize(f);
  }

  lemma {:induction false} KidLen(f: Frame, t: Blob)
    requires GoodFrame(f) && Fits(t)
    ensures FrameLen(AddKid(f, t)) == FrameLen(f) + EncLen(t)
  {
    hide FrameLen;
    KidBytes(f, t);
  }

  /** Adds any tree that fits what is left of 2^24 - 1 bytes. */
  method Build(b: BlobBuffer, t: Blob)
    requires b.Valid() && Buildable(t) && b.End() + EncLen(t) <= LEN_MASK
    modifies b
    ensures b.Valid() && b.outer == old(b.outer) && b.inner == AddKid(old(b.inner), t)
            && b.End() == old(b.End()) + EncLen(t)
    decreases t, 1
  {
    hide EncLen, FrameLen, OpenBytes, Rest, Header, FrameBytes, Chunked, Fits;
    FitsBySize(t);
    KidLen(b.inner, t);
    LeafLen(t);
    assert t.id % 128 == t.id;
    match t
    case Leaf(id, name, data) =>
      if name == None {
        var attr := b.Put(id, data);
      } else {
        var r := b.AddField(id, name.value, data);
      }
    case Nest(id, name, kids) =>
      var cookie := Start(b, id, name);
      BuildAll(b, kids);
      assert [] + kids == kids;
      assert b.outer[..|b.outer| - 1] == old(b.outer);
      b.NestEnd(cookie);
  }

  /** Opens a container. */
  method Start(b: BlobBuffer, id: nat, name: Option<seq<byte>>) returns (cookie: int)
    requires b.Valid() && id < 128 && GoodName(name) && b.End() + 4 + NameLen(name) <= LEN_MASK
    requires name.Some? ==> id == TYPE_TABLE || id == TYPE_ARRAY
    modifies b
    ensures b.Valid() && b.outer == old(b.outer) + [old(b.inner)] && b.inner == Frame(id, name, [])
    ensures cookie == BlobBuffer.Cookie(old(b.outer)) && b.End() == old(b.End()) + 4 + NameLen(name)
  {
    hide OpenBytes, Rest, Header, FrameBytes, Chunked;
    if name == None {
      cookie := b.NestStart(id);
    } else {
      cookie := b.OpenNested(name.value, id == TYPE_ARRAY);
    }
    PushLen(old(b.outer), old(b.inner));
  }

  method BuildAll(b: BlobBuffer, ts: seq<Blob>)
    requires b.Valid() && AllBuildable(ts) && b.End() + AllLen(ts) <= LEN_MASK
    modifies b
    ensures b.Valid() && b.outer == old(b.outer) && b.End() == old(b.End()) + AllLen(ts)
    ensures b.inner == old(b.inner).(kids := old(b.inner).kids + ts)
    decreases ts, 0
  {
    hide EncLen, FrameLen, OpenBytes, Rest, Header, FrameBytes, Chunked, Fits;
    if ts != [] {
      Build(b, ts[0]);
      BuildAll(b, ts[1..]);
      assert old(b.inner).kids + [ts[0]] + ts[1..] == old(b.inner).kids + ts;
    } else {
      assert old(b.inner).kids + [] == old(b.inner).kids;
    }
  }

  lemma {:induction false} LeafLen(t: Blob)
    requires Fits(t)
    ensures t.Leaf? ==> 4 + NameLen(t.name) + |t.data| <= EncLen(t)
    ensures t.Nest? ==> EncLen(t) == 4 + NameLen(t.name) + AllLen(t.kids)
  {
    if t.Nest? { NestLen(t); }
  }

  /** A message built in a new buffer is the encoding of its tree, and reading it gives back the
      tree, with every id, name and payload. */
  method Message(id: nat, ts: seq<Blob>, nested: int -> bool) returns (b: BlobBuffer)
    requires id < 128 && AllBuildable(ts) && 4 + AllLen(ts) <= LEN_MASK
    ensures var t := Nest(id, None, ts); Fits(t) && Enc(t) <= b.buf && RawLen(b.buf) == |Enc(t)|
    ensures Typed(nested, Nest(id, None, ts)) ==> Decode(nested, b.buf) == Nest(id, None, ts)
  {
    hide EncLen, Enc, Decode, RawLen, Typed, Rest, Header, FrameBytes, Fits;
    b := new BlobBuffer();
    var r := b.BufInit(id);
    NoFrames();
    BuildAll(b, ts);
    assert [] + ts == ts;
    b.Complete(nested);
  }
}
