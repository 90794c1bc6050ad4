/** Builder and parser together: what blobmsg_parse makes of a message that was built. */
module BlobMessage {
  import opened Basics
  import opened BlobFormat
  import opened BlobParse
  import BlobBuf
  import BlobBuild

  /** Where attributes that follow each other start */
  ghost function Offsets(ts: seq<Blob>, pos: nat): (ps: seq<nat>)
    ensures |ps| == |ts|
  {
    if ts == [] then [] else [pos] + Offsets(ts[1..], pos + EncLen(ts[0]))
  }

  lemma {:induction false} OffsetAt(ts: seq<Blob>, pos: nat, k: nat)
    requires k < |ts|
    ensures Offsets(ts, pos)[k] == pos + AllLen(ts[..k])
  {
    hide EncLen;
    if k > 0 {
      OffsetAt(ts[1..], pos + EncLen(ts[0]), k - 1);
      assert ts[..k][1..] == ts[1..][..k - 1];
    }
  }

  /** The type of an attribute exists, and its data are as the type demands. */
  ghost predicate Sane(t: Blob)
    requires Fits(t)
  {
    MsgData(t.id, Content(t))
  }

  /** One attribute of a message as the parser meets it */
  lemma {:induction false} EncAt(b: seq<byte>, pos: nat, t: Blob)
    requires Fits(t) && pos <= |b| && Enc(t) <= b[pos..]
    ensures 4 <= EncLen(t) && pos + EncLen(t) <= |b| && Padded(b, pos) == EncLen(t)
    ensures Id(b[pos..]) == t.id && IsExtended(b[pos..]) == t.name.Some?
    ensures var raw := RawLen(b[pos..]);
            && 4 <= raw <= EncLen(t)
            && var body := b[pos..][4..raw];
               BodyName(t.name.Some?, body) == t.name && BodyData(t.name.Some?, body) == Content(t)
  {
    hide RawLen, Id, IsExtended, Enc, Content, BodyLen, BodyName, BodyData;
    var rest := b[pos..][|Enc(t)|..];
    assert b[pos..] == Enc(t) + rest;
    EncReads(t, rest);
    NameReads(t.name, Content(t));
  }

  /** It passes blobmsg_check_attr_len exactly if it is sane. */
  lemma {:induction false} SoundAt(b: seq<byte>, pos: nat, t: Blob, rem: nat)
    requires Fits(t) && pos + rem <= |b| && Enc(t) <= b[pos..] && EncLen(t) <= rem
    ensures Sound(b, pos, false, rem) <==> Sane(t)
  {
    hide RawLen, Id, IsExtended, Enc, EncLen, Content, BodyData, MsgData;
    EncAt(b, pos, t);
    if Sane(t) { SaneId(t.id, Content(t)); }
    if t.name.Some? {
      Terminated(b, pos, t);
    }
  }

  lemma SaneId(id: int, d: seq<byte>)
    requires MsgData(id, d)
    ensures 0 <= id <= TYPE_LAST
  {
  }

  /** The zero behind the name */
  lemma {:induction false} Terminated(b: seq<byte>, pos: nat, t: Blob)
    requires Fits(t) && t.name.Some? && pos <= |b| && Enc(t) <= b[pos..]
    ensures var raw, n := RawLen(b[pos..]), |t.name.value|; 7 + n <= raw <= |b| - pos && b[pos..][4..raw][2 + n] == 0
  {
    hide RawLen, Enc, EncLen, Content, BodyLen;
    EncAt(b, pos, t);
    Wire(t);
    var rest := b[pos..][|Enc(t)|..];
    assert b[pos..] == Enc(t) + rest;
    EncReads(t, rest);
    EncParts(t);
    NameReads(t.name, Content(t));
    var n := |t.name.value|;
    assert b[pos..][6 + n] == Enc(t)[6 + n] == 0;
  }

  /** The parser visits exactly the attributes that were built, and checks each of them. */
  lemma {:induction false} VisitsEnc(b: seq<byte>, pos: nat, ts: seq<Blob>)
    requires AllFit(ts) && pos <= |b| && EncAll(ts) <= b[pos..]
    ensures pos + AllLen(ts) <= |b| && Visits(b, pos, AllLen(ts)) == Offsets(ts, pos)
    ensures AllSound(b, pos, AllLen(ts)) <==> forall i :: 0 <= i < |ts| ==> Sane(ts[i])
    decreases ts
  {
    hide RawLen, Sound, Enc, EncLen, Padded, Sane;
    if ts != [] {
      var t, rest := ts[0], ts[1..];
      FirstOf(b, pos, ts);
      EncAt(b, pos, t);
      SoundAt(b, pos, t, AllLen(ts));
      VisitsEnc(b, pos + EncLen(t), rest);
      WalkNext(b, pos, AllLen(ts));
      assert forall i :: 0 <= i < |rest| ==> rest[i] == ts[i + 1];
      assert (forall i :: 0 <= i < |ts| ==> Sane(ts[i])) <==> Sane(t) && forall i :: 0 <= i < |rest| ==> Sane(rest[i]);
    }
  }

  lemma {:induction false} FirstOf(b: seq<byte>, pos: nat, ts: seq<Blob>)
    requires AllFit(ts) && ts != [] && pos <= |b| && EncAll(ts) <= b[pos..]
    ensures AllFit(ts[1..]) && AllLen(ts) == EncLen(ts[0]) + AllLen(ts[1..]) && pos + AllLen(ts) <= |b|
    ensures Enc(ts[0]) <= b[pos..] && EncAll(ts[1..]) <= b[pos + EncLen(ts[0])..]
  {
    hide Enc, EncLen;
    EncSize(ts[0]);
    EncAllSize(ts[1..]);
    var k := EncLen(ts[0]);
    assert b[pos..][k..] == b[pos + k..];
    assert EncAll(ts) == Enc(ts[0]) + EncAll(ts[1..]);
    assert b[pos..][..k] == EncAll(ts)[..k];
    assert b[pos + k..][..|EncAll(ts[1..])|] == EncAll(ts)[k..];
  }

  /** A policy entry asks for the attribute: its whole name, which has to be shorter than 256 bytes,
      and its type; type 0 is any type, and type 9 any integer. */
  ghost predicate Wanted(t: Blob, p: Policy) {
    && t.name.Some? && t.name == p.name && |t.name.value| < 256
    && (p.typ == 0 || p.typ == t.id || (p.typ == 9 && 4 <= t.id <= 7))
  }

  /** slot is where the first wanted attribute starts, or NONE. */
  ghost predicate FirstWanted(ts: seq<Blob>, p: Policy, slot: int) {
    if slot == NONE then
      forall k :: 0 <= k < |ts| ==> !Wanted(ts[k], p)
    else
      exists k :: 0 <= k < |ts| && Wanted(ts[k], p) && slot == AllLen(ts[..k])
                  && forall j :: 0 <= j < k ==> !Wanted(ts[j], p)
  }

  ghost predicate GoodPolicy(p: Policy) {
    p.name.Some? ==> forall i :: 0 <= i < |p.name.value| ==> p.name.value[i] != 0
  }

  lemma {:induction false} WantedAt(b: seq<byte>, pos: nat, t: Blob, p: Policy)
    requires Fits(t) && pos <= |b| && Enc(t) <= b[pos..] && Sane(t) && GoodPolicy(p)
    ensures Candidate(b, pos, p) <==> Wanted(t, p)
  {
    hide RawLen, Id, IsExtended, Enc, EncLen, Content, Sound, Takes, MsgData, BodyName, BodyData;
    EncAt(b, pos, t);
    SoundAt(b, pos, t, EncLen(t));
    if p.name.None? {
      NoName(b, pos, p);
    } else if t.name.Some? {
      TakesByName(b, pos, EncLen(t), p);
    }
  }

  lemma NoName(b: seq<byte>, pos: nat, p: Policy)
    requires p.name.None?
    ensures !Candidate(b, pos, p)
  {
  }

  /** Attribute number k of a message */
  lemma {:induction false} KthOf(b: seq<byte>, pos: nat, ts: seq<Blob>, k: nat)
    requires AllFit(ts) && k < |ts| && pos <= |b| && EncAll(ts) <= b[pos..]
    ensures Fits(ts[k]) && Offsets(ts, pos)[k] <= |b| && Enc(ts[k]) <= b[Offsets(ts, pos)[k]..]
    decreases ts
  {
    hide Enc, EncLen, Fits;
    FirstOf(b, pos, ts);
    if k > 0 { KthOf(b, pos + EncLen(ts[0]), ts[1..], k - 1); }
  }

  lemma {:induction false} FirstTakenIs(b: seq<byte>, ts: seq<Blob>, p: Policy, slot: int)
    requires AllFit(ts) && EncAll(ts) <= b && GoodPolicy(p) && forall i :: 0 <= i < |ts| ==> Sane(ts[i])
    requires FirstTaken(b, Offsets(ts, 0), p, slot)
    ensures FirstWanted(ts, p, slot)
  {
    hide Enc, EncLen, EncAll, Sane, Candidate, Wanted, Fits, GoodPolicy, Offsets;
    var ps := Offsets(ts, 0);
    forall k | 0 <= k < |ts| ensures ps[k] == AllLen(ts[..k]) && (Candidate(b, ps[k], p) <==> Wanted(ts[k], p)) {
      assert b[0..] == b;
      OffsetAt(ts, 0, k);
      KthOf(b, 0, ts, k);
      WantedAt(b, ps[k], ts[k], p);
    }
  }

  /** A message that is built and parsed: blobmsg_parse accepts it exactly if there are attributes
      and all of them are sane, and then every policy entry gets the first one that it asks for. */
  method Parsed(id: nat, ts: seq<Blob>, policy: seq<Policy>)
      returns (b: seq<byte>, r: int, tb: seq<int>)
    requires id < 128 && BlobBuild.AllBuildable(ts) && 4 + AllLen(ts) <= LEN_MASK
    requires forall i :: 0 <= i < |policy| ==> GoodPolicy(policy[i])
    ensures AllFit(ts) && Fits(Nest(id, None, ts)) && Enc(Nest(id, None, ts)) <= b && |tb| == |policy|
    ensures r == 0 <==> ts != [] && forall i :: 0 <= i < |ts| ==> Sane(ts[i])
    ensures r == -22 <==> ts == []
    ensures r == 0 || r == -1 || r == -22
    ensures r == 0 ==> forall i :: 0 <= i < |policy| ==> FirstWanted(ts, policy[i], tb[i])
  {
    hide Enc, EncLen, RawLen, Sane, Fits, AllSound, Visits, FirstTaken, FirstWanted, GoodPolicy, Decode;
    var buffer := BlobBuild.Message(id, ts, _ => false);
    EncSize(Nest(id, None, ts));
    AtLeast(Nest(id, None, ts));
    b := buffer.buf;
    Inside(id, ts, b);
    var data := b[4..RawLen(b)];
    VisitsEnc(data, 0, ts);
    r, tb := MsgParse(policy, data, |data|);
    if r == 0 {
      forall i | 0 <= i < |policy| ensures FirstWanted(ts, policy[i], tb[i]) {
        FirstTakenIs(data, ts, policy[i], tb[i]);
      }
    }
  }

  /** blob_data of a message */
  lemma {:induction false} Inside(id: nat, ts: seq<Blob>, b: seq<byte>)
    requires Fits(Nest(id, None, ts)) && 4 + AllLen(ts) <= LEN_MASK
    requires Enc(Nest(id, None, ts)) <= b && |b| >= 4 && RawLen(b) == |Enc(Nest(id, None, ts))|
    ensures AllFit(ts) && RawLen(b) == 4 + AllLen(ts) <= |b| && b[4..RawLen(b)] == EncAll(ts)
    ensures b[4..RawLen(b)][0..] == EncAll(ts)
    ensures AllLen(ts) == 0 <==> ts == []
  {
    hide Enc, EncLen, RawLen;
    var t := Nest(id, None, ts);
    var rest := b[|Enc(t)|..];
    assert b == Enc(t) + rest;
    EncReads(t, rest);
    EncAllSize(ts);
    EncSize(t);
    BlobBuild.NestLen(t);
    assert NameHdr(None) + EncAll(ts) == EncAll(ts);
    if ts != [] { AtLeast(ts[0]); }
  }

  lemma AtLeast(t: Blob)
    ensures EncLen(t) >= 4
  {
    hide BodyLen;
  }

  // ----- two messages byte by byte -----

  lemma PlainBytes()
    ensures var t := Leaf(1, None, [7]);
            Fits(t) && EncLen(t) == 8 && Enc(t) == [1, 0, 0, 5, 7, 0, 0, 0]
  {
    var t := Leaf(1, None, [7]);
    EncSize(t);
    Wire(t);
  }

  lemma NamedBytes()
    ensures var t := Leaf(5, Some([97]), [0, 0, 0, 42]);
            Fits(t) && EncLen(t) == 12 && Enc(t) == [133, 0, 0, 12, 0, 1, 97, 0, 0, 0, 0, 42]
  {
    var t := Leaf(5, Some([97]), [0, 0, 0, 42]);
    EncSize(t);
    Wire(t);
    var b := Enc(t);
    assert b[6..6 + |t.name.value|] == [b[6]];
    assert b[8..8 + |t.data|] == [b[8], b[9], b[10], b[11]];
  }

  /** A message with one attribute */
  lemma {:induction false} OnlyKid(t: Blob)
    requires Fits(t) && EncLen(t) == |Enc(t)| < 256 - 4
    ensures Fits(Nest(0, None, [t])) && AllLen([t]) == EncLen(t)
    ensures Enc(Nest(0, None, [t])) == [0, 0, 0, 4 + |Enc(t)|] + Enc(t)
  {
    hide Enc, EncLen;
    var m := Nest(0, None, [t]);
    assert [t][1..] == [] && EncAll([t]) == Enc(t) + EncAll([]);
    EncAllSize([t]);
    EncSize(m);
    BlobBuild.NestLen(m);
    Wire(m);
    var e, d := Enc(m), Enc(t);
    assert Content(m) == EncAll([t]) == d;
    assert e[4..4 + |d|] == d && |e| == 4 + |d|;
    assert e == e[..4] + e[4..];
    assert e[..4] == [e[0], e[1], e[2], e[3]];
  }

  /** blob_put of one byte, and what blob_parse_untrusted finds */
  method PlainMessage() returns (b: seq<byte>, found: nat, data: seq<int>)
    ensures [0, 0, 0, 12, 1, 0, 0, 5, 7, 0, 0, 0] <= b
    ensures found == 1 && data == [NONE, 4]
  {
    hide Enc, EncLen, Fits, Decode, RawLen;
    PlainBytes();
    OnlyKid(Leaf(1, None, [7]));
    var buffer := BlobBuild.Message(0, [Leaf(1, None, [7])], _ => false);
    b := buffer.buf;
    assert b[..12] == [0, 0, 0, 12, 1, 0, 0, 5, 7, 0, 0, 0];
    found, data := ParseUntrusted(b, 12, [NONE, NONE], None, 2);
    PlainReads(b, data);
  }

  lemma PlainReads(b: seq<byte>, data: seq<int>)
    requires [0, 0, 0, 12, 1, 0, 0, 5, 7, 0, 0, 0] <= b
    ensures RawLen(b) == 12 && Visits(b, 4, 8) == [4]
    ensures |data| == 2 && (forall id :: 0 <= id < 2 ==> LastAccepted(b, [4], None, 2, id, data[id])) ==>
              data == [NONE, 4] && Filled(data) == 1
  {
    var ps := [4];
    assert b[4..][..4] == b[4..8];
    assert Accepts(b, ps[0], None, 2) && Id(b[4..]) == 1;
    if |data| == 2 && forall id :: 0 <= id < 2 ==> LastAccepted(b, [4], None, 2, id, data[id]) {
      assert LastAccepted(b, ps, None, 2, 0, data[0]) && LastAccepted(b, ps, None, 2, 1, data[1]);
      assert data == [NONE, 4] && data[1..] == [4] && data[1..][1..] == [];
    }
  }

  /** blobmsg_add_u32 of 42 under the name "a", and what blobmsg_parse finds for a policy that asks
      for an integer of that name, one that asks for a string, and one for another name */
  method NamedMessage() returns (b: seq<byte>, r: int, tb: seq<int>)
    ensures [0, 0, 0, 16, 133, 0, 0, 12, 0, 1, 97, 0, 0, 0, 0, 42] <= b
    ensures r == 0 && tb == [0, NONE, NONE]
  {
    hide Enc, EncLen, Fits, Decode, RawLen;
    var t := Leaf(5, Some([97]), [0, 0, 0, 42]);
    NamedBytes();
    OnlyKid(t);
    b, r, tb := Parsed(0, [t], [Policy(Some([97]), 5), Policy(Some([97]), 3), Policy(Some([98]), 0)]);
  }
}
