/** The parsers of blob.c and blobmsg.c over bytes that nobody vouches for.  Positions are
    offsets into the bytes; that every read is in bounds is part of what is verified. */
module BlobParse {
  import opened Basics
  import opened BlobFormat

  const NONE: int := -1

  // enum of blob.h, as far as blob_check_type distinguishes
  const STRING: int := 3
  const INT8: int := 4
  const INT64: int := 7
  const LAST: int := 9

  datatype Info = Info(typ: nat, minlen: nat, maxlen: nat, validate: Option<seq<byte> -> bool>)

  /** blob_type_minlen */
  function MinLen(t: nat): nat {
    match t case 3 => 1 case 4 => 1 case 5 => 2 case 6 => 4 case 7 => 8 case 8 => 8 case _ => 0
  }

  /** The data that an attribute of a blob type may have: in the order of the enum of blob.h,
      unspecified, nested and binary data, strings, integers of one, two, four and eight bytes, and
      a double. */
  ghost predicate TypeData(t: nat, d: seq<byte>) {
    match t
    case 0 | 1 | 2 => true
    case 3 => d != [] && d[|d| - 1] == 0
    case 4 => |d| == 1
    case 5 => |d| == 2
    case 6 => |d| == 4
    case 7 => |d| == 8
    case 8 => |d| >= 8
    case _ => false
  }

  /** blob_check_type */
  predicate CheckType(d: seq<byte>, t: nat)
    ensures CheckType(d, t) <==> TypeData(t, d)
  {
    && t < LAST
    && (if INT8 <= t <= INT64 then |d| == MinLen(t) else |d| >= MinLen(t))
    && (t == STRING ==> d[|d| - 1] == 0)
  }

  function Padded(b: seq<byte>, pos: nat): nat
    requires pos + 4 <= |b|
  {
    Pad4(RawLen(b[pos..]))
  }

  /** The loop guard shared by the iteration macros. */
  predicate More(b: seq<byte>, pos: nat, rem: nat) {
    rem >= 4 && pos + rem <= |b| && 4 <= Padded(b, pos) <= rem
  }

  /** The positions the macros visit. */
  function Visits(b: seq<byte>, pos: nat, rem: nat): seq<nat>
    decreases rem
  {
    if More(b, pos, rem) then [pos] + Visits(b, pos + Padded(b, pos), rem - Padded(b, pos)) else []
  }

  /** blob_parse_attr accepts the attribute at pos into slot Id. */
  ghost predicate Accepts(b: seq<byte>, pos: nat, info: Option<seq<Info>>, max: nat) {
    && pos + 4 <= |b| && Id(b[pos..]) < max
    && var len := RawLen(b[pos..]);
    && 4 <= len && pos + len <= |b|
    && (info.Some? ==>
          Id(b[pos..]) < |info.value| &&
          var i := info.value[Id(b[pos..])];
          && (i.typ < LAST ==> TypeData(i.typ, b[pos + 4..pos + len]))
          && (i.minlen > 0 ==> len >= i.minlen) && (i.maxlen > 0 ==> len <= i.maxlen)
          && (i.validate.Some? ==> i.validate.value(b[pos..pos + len])))
  }

  /** slot is the last of the positions ps that is accepted for id, or NONE. */
  ghost predicate LastAccepted(b: seq<byte>, ps: seq<nat>, info: Option<seq<Info>>, max: nat, id: nat, slot: int) {
    if slot == NONE then
      forall k :: 0 <= k < |ps| && Accepts(b, ps[k], info, max) ==> Id(b[ps[k]..]) != id
    else
      exists k :: 0 <= k < |ps| && ps[k] == slot && Accepts(b, ps[k], info, max) && Id(b[ps[k]..]) == id
        && forall j :: k < j < |ps| && Accepts(b, ps[j], info, max) ==> Id(b[ps[j]..]) != id
  }

  function Filled(data: seq<int>): nat {
    if data == [] then 0 else (if data[0] != NONE then 1 else 0) + Filled(data[1..])
  }

  lemma {:induction false} FillSlot(data: seq<int>, i: nat, v: int)
    requires i < |data| && v != NONE
    ensures Filled(data[i := v]) == Filled(data) + if data[i] == NONE then 1 else 0
  {
    if i == 0 {
      assert data[i := v][1..] == data[1..];
    } else {
      assert data[i := v][1..] == data[1..][i - 1 := v];
      FillSlot(data[1..], i - 1, v);
    }
  }

  lemma {:induction false} VisitsInside(b: seq<byte>, pos: nat, rem: nat, k: nat)
    requires k < |Visits(b, pos, rem)|
    ensures var p := Visits(b, pos, rem)[k];
            pos <= p && p + 4 <= |b| && p + Padded(b, p) <= pos + rem <= |b|
    decreases rem
  {
    if k > 0 { VisitsInside(b, pos + Padded(b, pos), rem - Padded(b, pos), k - 1); }
  }

  /** Adding one more visited position to what the slots know. */
  lemma Step(b: seq<byte>, ps: seq<nat>, p: nat, info: Option<seq<Info>>, max: nat, id: nat, slot: int)
    requires LastAccepted(b, ps, info, max, id, slot)
    ensures Accepts(b, p, info, max) && Id(b[p..]) == id ==> LastAccepted(b, ps + [p], info, max, id, p)
    ensures !(Accepts(b, p, info, max) && Id(b[p..]) == id) ==> LastAccepted(b, ps + [p], info, max, id, slot)
  {
    var qs := ps + [p];
    assert forall k :: 0 <= k < |ps| ==> qs[k] == ps[k];
    if Accepts(b, p, info, max) && Id(b[p..]) == id {
      assert qs[|ps|] == p;
    } else if slot != NONE {
      var k :| 0 <= k < |ps| && ps[k] == slot && Accepts(b, ps[k], info, max) && Id(b[ps[k]..]) == id
        && forall j :: k < j < |ps| && Accepts(b, ps[j], info, max) ==> Id(b[ps[j]..]) != id;
      assert qs[k] == slot;
      assert forall j :: k < j < |qs| && Accepts(b, qs[j], info, max) ==> Id(b[qs[j]..]) != id;
    }
  }

  lemma NothingYet(b: seq<byte>, info: Option<seq<Info>>, max: nat, id: nat)
    ensures LastAccepted(b, [], info, max, id, NONE)
  {
  }

  /** What the attribute at pos does to the slots, and to their number */
  ghost predicate Slotted(b: seq<byte>, pos: nat, was: seq<int>, info: Option<seq<Info>>, max: nat,
                          found: int, now: seq<int>)
    requires |was| == max
  {
    if Accepts(b, pos, info, max)
    then var id := Id(b[pos..]); now == was[id := pos] && found == if was[id] == NONE then 1 else 0
    else now == was && found == 0
  }

  lemma {:induction false} StepAll(b: seq<byte>, ps: seq<nat>, p: nat, was: seq<int>, info: Option<seq<Info>>,
                                   max: nat, found: int, now: seq<int>)
    requires |was| == max && Slotted(b, p, was, info, max, found, now)
    requires forall id :: 0 <= id < max ==> LastAccepted(b, ps, info, max, id, was[id])
    ensures |now| == max && Filled(now) == Filled(was) + found
    ensures forall id :: 0 <= id < max ==> LastAccepted(b, ps + [p], info, max, id, now[id])
  {
    hide LastAccepted, Filled, RawLen, Id, TypeData;
    if Accepts(b, p, info, max) { FillSlot(was, Id(b[p..]), p); }
    forall id | 0 <= id < max ensures LastAccepted(b, ps + [p], info, max, id, now[id]) {
      Step(b, ps, p, info, max, id, was[id]);
    }
  }

  /** blob_parse_attr: an acceptable attribute goes to its slot, and is counted if that was free. */
  method ParseAttr(b: seq<byte>, pos: nat, rem: nat, was: seq<int>, info: Option<seq<Info>>, max: nat)
      returns (found: nat, data: seq<int>)
    requires pos + rem <= |b| && 4 <= rem && Padded(b, pos) <= rem && |was| == max
    requires info.Some? ==> |info.value| >= max
    ensures Slotted(b, pos, was, info, max, found, data)
  {
    hide CheckType, TypeData, RawLen, Id;
    found, data := 0, was;
    var id := Id(b[pos..]);
    if id >= max {
      return;
    }
    var len := RawLen(b[pos..]);
    if len > rem || len < 4 {
      return;
    }
    if info.Some? {
      var i := info.value[id];
      if i.typ < LAST {
        if !CheckType(b[pos + 4..pos + len], i.typ) { return; }
      }
      if i.minlen > 0 && len < i.minlen {
        return;
      }
      if i.maxlen > 0 && len > i.maxlen {
        return;
      }
      if i.validate.Some? && !i.validate.value(b[pos..pos + len]) {
        return;
      }
    }
    if data[id] == NONE {
      found := found + 1;
    }
    data := data[id := pos];
  }

  /** blob_parse_untrusted of an attribute at the front of b, which holds at least attrLen
      bytes: every slot ends up with the last acceptable attribute of its id, and the result
      counts the filled slots.  When the outer header is cut short or claims too much, the
      slots are left as they were. */
  method ParseUntrusted(b: seq<byte>, attrLen: nat, data0: seq<int>, info: Option<seq<Info>>, max: nat)
    returns (found: nat, data: seq<int>)
    requires attrLen <= |b| && |data0| == max && (info.Some? ==> |info.value| >= max)
    ensures |data| == max
    ensures attrLen < 4 || RawLen(b) > attrLen ==> found == 0 && data == data0
    ensures attrLen >= 4 && RawLen(b) <= attrLen ==>
              var ps := if RawLen(b) >= 4 then Visits(b, 4, RawLen(b) - 4) else [];
              && found == Filled(data)
              && forall id :: 0 <= id < max ==> LastAccepted(b, ps, info, max, id, data[id])
  {
    hide LastAccepted, Filled, Slotted, Pad4, RawLen, Id;
    found, data := 0, data0;
    if attrLen < 4 {
      return;
    }
    var len := RawLen(b);
    if attrLen < len {
      return;
    }
    data := seq(max, i => NONE);
    NoneFilled(max);
    forall id | 0 <= id < max ensures LastAccepted(b, [], info, max, id, data[id]) { NothingYet(b, info, max, id); }
    if len < 4 {
      return;
    }
    var pos: nat, rem: nat := 4, len - 4;
    ghost var all: seq<nat>, seen: seq<nat> := Visits(b, 4, len - 4), [];
    while rem >= 4 && rem < len && 4 <= Padded(b, pos) <= rem
      invariant 4 <= pos && pos + rem == len
      invariant all == seen + Visits(b, pos, rem)
      invariant |data| == max && found == Filled(data)
      invariant forall id :: 0 <= id < max ==> LastAccepted(b, seen, info, max, id, data[id])
      decreases rem
    {
      ghost var data1 := data;
      var more;
      more, data := ParseAttr(b, pos, rem, data, info, max);
      found := found + more;
      StepAll(b, seen, pos, data1, info, max, more, data);
      seen := seen + [pos];
      pos, rem := pos + Padded(b, pos), rem - Padded(b, pos);
    }
    assert Visits(b, pos, rem) == [];
    assert all == seen;
  }

  lemma {:induction false} NoneFilled(n: nat)
    ensures Filled(seq(n, i => NONE)) == 0
  {
    if n > 0 {
      assert seq(n, i => NONE)[1..] == seq(n - 1, i => NONE);
      NoneFilled(n - 1);
    }
  }

  // ----- blobmsg -----

  datatype Policy = Policy(name: Option<seq<byte>>, typ: nat)

  const TYPE_LAST: int := 8
  const CAST_INT64: int := 9

  /** blob_type of blobmsg.c: the blob type that checks each blobmsg type, 0 for containers. */
  function CheckedAs(id: int): nat {
    match id case 0 => 2 case 3 => 3 case 4 => 7 case 5 => 6 case 6 => 5 case 7 => 4 case 8 => 8 case _ => 0
  }

  /** The data that an attribute of a blobmsg type may have: in the order of the enum of blobmsg.h,
      unspecified data, arrays and tables, strings, integers of eight, four, two and one bytes, and
      a double. */
  ghost predicate MsgData(id: int, d: seq<byte>) {
    match id
    case 0 | 1 | 2 => true
    case 3 => d != [] && d[|d| - 1] == 0
    case 4 => |d| == 8
    case 5 => |d| == 4
    case 6 => |d| == 2
    case 7 => |d| == 1
    case 8 => |d| >= 8
    case _ => false
  }

  lemma CheckedMsg(id: int, d: seq<byte>)
    requires 0 <= id <= TYPE_LAST
    ensures CheckedAs(id) == 0 || CheckType(d, CheckedAs(id)) <==> MsgData(id, d)
  {
  }

  /** The C string that starts at the front of d. */
  function CString(d: seq<byte>): seq<byte> {
    if d == [] || d[0] == 0 then [] else [d[0]] + CString(d[1..])
  }

  /** blobmsg_check_attr_len: what it accepts has its name and data inside len. */
  method CheckAttrLen(b: seq<byte>, pos: nat, name: bool, len: nat) returns (ok: bool)
    requires pos + len <= |b|
    ensures ok == Sound(b, pos, name, len)
  {
    hide CheckType, TypeData, MsgData, CheckedAs, RawLen, Id, IsExtended;
    if len < 4 {
      return false;
    }
    var raw := RawLen(b[pos..]);
    if raw < 4 || raw > len {
      return false;
    }
    if !IsExtended(b[pos..]) {
      if name { return false; }
    } else {
      if raw - 4 < 2 { return false; }
      var namelen := (b[pos + 4] as int) * 256 + b[pos + 5] as int;
      if name && namelen == 0 { return false; }
      if raw - 4 < HdrLen(namelen) { return false; }
      if b[pos + 6 + namelen] != 0 { return false; }
    }
    var id := Id(b[pos..]);
    if id > TYPE_LAST {
      return false;
    }
    assert b[pos..][4..raw] == b[pos + 4..pos + raw];
    var skip := if IsExtended(b[pos..]) then HdrLen((b[pos + 4] as int) * 256 + b[pos + 5] as int) else 0;
    var data := b[pos + 4 + skip..pos + raw];
    assert b[pos + 4..pos + raw][skip..] == data;
    CheckedMsg(id, data);
    ok := CheckedAs(id) == 0 || CheckType(data, CheckedAs(id));
  }

  /** The attribute at pos lies within len bytes, its name (if it has one) is there and is
      NUL-terminated before its data, and its data are as its type demands. */
  ghost predicate Sound(b: seq<byte>, pos: nat, name: bool, len: nat)
    requires pos + len <= |b|
  {
    && 4 <= len && 4 <= RawLen(b[pos..]) <= len && Id(b[pos..]) <= TYPE_LAST
    && var body, ext := b[pos..][4..RawLen(b[pos..])], IsExtended(b[pos..]);
    && (name ==> ext && |body| >= 2 && (body[0] > 0 || body[1] > 0))
    && (ext ==> BodyName(ext, body).Some? && body[2 + |BodyName(ext, body).value|] == 0)
    && MsgData(Id(b[pos..]), BodyData(ext, body))
  }

  /** The type test of blobmsg_parse. */
  predicate TypeMatches(typ: nat, id: int) {
    if typ == CAST_INT64 then 4 <= id <= 7 else typ == 0 || typ == id
  }

  function NameLenAt(b: seq<byte>, pos: nat): nat
    requires pos + 6 <= |b|
  {
    (b[pos + 4] as int) * 256 + b[pos + 5] as int
  }

  /** blobmsg_parse takes the (extended, checked) attribute at pos for this policy entry: the
      stored lengths agree, one of them cut to eight bits, and so do the C strings. */
  predicate Takes(b: seq<byte>, pos: nat, p: Policy)
    requires pos + 6 <= |b|
  {
    && p.name.Some? && TypeMatches(p.typ, Id(b[pos..]))
    && NameLenAt(b, pos) == |p.name.value| % 256
    && CString(b[pos + 6..]) == p.name.value
  }

  ghost predicate Candidate(b: seq<byte>, pos: nat, p: Policy) {
    pos + 6 <= |b| && IsExtended(b[pos..]) && Takes(b, pos, p)
  }

  /** slot is the first of the positions that a policy entry takes, or NONE. */
  ghost predicate FirstTaken(b: seq<byte>, ps: seq<nat>, p: Policy, slot: int) {
    if slot == NONE then
      forall k :: 0 <= k < |ps| ==> !Candidate(b, ps[k], p)
    else
      exists k :: 0 <= k < |ps| && ps[k] == slot && Candidate(b, ps[k], p)
                  && forall j :: 0 <= j < k ==> !Candidate(b, ps[j], p)
  }

  lemma FirstStep(b: seq<byte>, ps: seq<nat>, q: nat, p: Policy, slot: int)
    requires FirstTaken(b, ps, p, slot)
    ensures FirstTaken(b, ps + [q], p, if slot == NONE && Candidate(b, q, p) then q else slot)
  {
    var qs := ps + [q];
    assert forall k :: 0 <= k < |ps| ==> qs[k] == ps[k];
    assert qs[|ps|] == q;
    if slot != NONE {
      var k :|
        0 <= k < |ps| && ps[k] == slot && Candidate(b, ps[k], p) && forall j :: 0 <= j < k ==> !Candidate(b, ps[j], p);
      assert qs[k] == slot;
    }
  }

  lemma NothingTaken(b: seq<byte>, p: Policy)
    ensures FirstTaken(b, [], p, NONE)
  {
  }

  lemma SoundName(b: seq<byte>, pos: nat, len: nat)
    requires pos + len <= |b| && Sound(b, pos, false, len) && IsExtended(b[pos..])
    ensures pos + 6 <= |b|
  {
  }

  /** The loop of blobmsg_parse over the policy: entries that are still free take the attribute. */
  method TakeAll(policy: seq<Policy>, b: seq<byte>, pos: nat, was: seq<int>) returns (tb: seq<int>)
    requires pos + 6 <= |b| && |was| == |policy|
    ensures |tb| == |policy|
    ensures forall j :: 0 <= j < |policy| ==> tb[j] == Taken(b, pos, policy[j], was[j])
  {
    tb := was;
    for i := 0 to |policy|
      invariant |tb| == |policy|
      invariant forall j :: i <= j < |policy| ==> tb[j] == was[j]
      invariant forall j :: 0 <= j < i ==> tb[j] == Taken(b, pos, policy[j], was[j])
    {
      if tb[i] == NONE && Takes(b, pos, policy[i]) {
        tb := tb[i := pos];
      }
    }
  }

  ghost function Taken(b: seq<byte>, pos: nat, p: Policy, slot: int): int
    requires pos + 6 <= |b|
  {
    if slot == NONE && Takes(b, pos, p) then pos else slot
  }

  /** blobmsg_parse over the first len bytes: 0 when every attribute passes the check, and
      then each entry of the table is the first attribute its policy takes. */
  method MsgParse(policy: seq<Policy>, b: seq<byte>, len: nat) returns (r: int, tb: seq<int>)
    requires len <= |b|
    ensures |tb| == |policy|
    ensures r == 0 ==> forall i :: 0 <= i < |policy| ==> FirstTaken(b, Visits(b, 0, len), policy[i], tb[i])
    ensures r == 0 <==> len > 0 && AllSound(b, 0, len)
    ensures r == -22 <==> len == 0
    ensures r == 0 || r == -1 || r == -22
  {
    hide FirstTaken, Sound, Pad4, RawLen, Id, Takes, Visits, AllSound, Candidate, Taken;
    WalkEnd(b, 0, len);
    tb := seq(|policy|, i => NONE);
    forall i | 0 <= i < |policy| ensures FirstTaken(b, [], policy[i], tb[i]) { NothingTaken(b, policy[i]); }
    if len == 0 {
      return -22, tb;
    }
    var pos: nat, rem: nat := 0, len;
    ghost var all: seq<nat>, seen: seq<nat> := Visits(b, 0, len), [];
    while rem >= 4 && 4 <= Padded(b, pos) <= rem
      invariant pos + rem == len && all == seen + Visits(b, pos, rem)
      invariant AllSound(b, 0, len) == AllSound(b, pos, rem)
      invariant |tb| == |policy| && forall i :: 0 <= i < |policy| ==> FirstTaken(b, seen, policy[i], tb[i])
      decreases rem
    {
      var ok := CheckAttrLen(b, pos, false, rem);
      WalkNext(b, pos, rem);
      if !ok {
        return -1, tb;
      }
      ghost var tb0 := tb;
      if IsExtended(b[pos..]) {
        SoundName(b, pos, rem);
        tb := TakeAll(policy, b, pos, tb);
      }
      TakenNext(policy, b, seen, pos, tb0, tb);
      seen := seen + [pos];
      pos, rem := pos + Padded(b, pos), rem - Padded(b, pos);
    }
    WalkEnd(b, pos, rem);
    assert all == seen;
    r := 0;
  }

  /** Every attribute the walk visits passes blobmsg_check_attr_len with what remains. */
  ghost predicate AllSound(b: seq<byte>, pos: nat, rem: nat)
    decreases rem
  {
    More(b, pos, rem) ==> Sound(b, pos, false, rem) && AllSound(b, pos + Padded(b, pos), rem - Padded(b, pos))
  }

  lemma {:induction false} WalkNext(b: seq<byte>, pos: nat, rem: nat)
    requires More(b, pos, rem)
    ensures Visits(b, pos, rem) == [pos] + Visits(b, pos + Padded(b, pos), rem - Padded(b, pos))
    ensures AllSound(b, pos, rem) <==>
              Sound(b, pos, false, rem) && AllSound(b, pos + Padded(b, pos), rem - Padded(b, pos))
  {
    hide Sound, Pad4, RawLen;
  }

  lemma {:induction false} WalkEnd(b: seq<byte>, pos: nat, rem: nat)
    ensures !More(b, pos, rem) ==> Visits(b, pos, rem) == [] && AllSound(b, pos, rem)
  {
    hide Sound, Pad4, RawLen;
  }

  lemma {:induction false} TakenNext(policy: seq<Policy>, b: seq<byte>, seen: seq<nat>, pos: nat, was: seq<int>,
                                     now: seq<int>)
    requires |was| == |policy| == |now| && pos + 4 <= |b|
    requires forall i :: 0 <= i < |policy| ==> FirstTaken(b, seen, policy[i], was[i])
    requires if IsExtended(b[pos..])
             then pos + 6 <= |b| && forall i :: 0 <= i < |policy| ==> now[i] == Taken(b, pos, policy[i], was[i])
             else now == was
    ensures forall i :: 0 <= i < |policy| ==> FirstTaken(b, seen + [pos], policy[i], now[i])
  {
    hide FirstTaken, Takes;
    forall i | 0 <= i < |policy| ensures FirstTaken(b, seen + [pos], policy[i], now[i]) {
      FirstStep(b, seen, pos, policy[i], was[i]);
    }
  }

  lemma {:induction false} CStringPrefix(d: seq<byte>, s: seq<byte>)
    requires |s| < |d| && d[|s|] == 0 && (forall i :: 0 <= i < |s| ==> s[i] != 0)
    ensures CString(d) == s <==> d[..|s|] == s
  {
    if s == [] {
    } else if d[0] == s[0] {
      CStringPrefix(d[1..], s[1..]);
      assert d[..|s|] == [d[0]] + d[1..][..|s| - 1] && s == [s[0]] + s[1..];
      assert CString(d) == [d[0]] + CString(d[1..]);
      if CString(d) == s { assert CString(d)[1..] == s[1..]; }
      if d[..|s|] == s { assert d[..|s|][1..] == s[1..]; }
    } else {
      assert d[..|s|][0] == d[0];
    }
  }

  /** For a policy name that is a C string, a checked attribute is taken exactly when the
      type fits, the name is the attribute's name, and it is shorter than 256 bytes: the
      eight-bit length makes longer policy names match nothing. */
  lemma {:induction false} TakesByName(b: seq<byte>, pos: nat, len: nat, p: Policy)
    requires pos + len <= |b| && Sound(b, pos, false, len) && IsExtended(b[pos..]) && p.name.Some?
    requires forall i :: 0 <= i < |p.name.value| ==> p.name.value[i] != 0
    ensures var body := b[pos..][4..RawLen(b[pos..])];
            Candidate(b, pos, p) <==>
              && BodyName(true, body) == p.name && |p.name.value| < 256
              && (p.typ == 0 || p.typ == Id(b[pos..]) || (p.typ == CAST_INT64 && 4 <= Id(b[pos..]) <= 7))
  {
    hide RawLen, Id, CString, MsgData;
    var raw, s := RawLen(b[pos..]), p.name.value;
    var body := b[pos..][4..raw];
    assert body == b[pos + 4..pos + raw];
    var n, d := NameLenAt(b, pos), b[pos + 6..];
    assert body[0] == b[pos + 4] && body[1] == b[pos + 5];
    assert BodyName(true, body) == Some(body[2..2 + n]);
    assert d[n] == b[pos + 6 + n] == body[2 + n] == 0;
    forall i | 0 <= i < n ensures body[2..2 + n][i] == d[i] {
      assert body[2 + i] == b[pos + 4 + (2 + i)] == d[i];
    }
    assert body[2..2 + n] == d[..n];
    CStringShort(d, n);
    if |s| == n {
      CStringPrefix(d, s);
    }
  }

  /** An attribute whose name was too long to be stored is rejected: the exact limit of names. */
  lemma {:induction false} GarbledRejected(b: seq<byte>, pos: nat, name: seq<byte>, named: bool, len: nat)
    requires pos + len <= |b| && Garbled(b, pos, name) && forall i :: 0 <= i < |name| ==> name[i] != 0
    ensures !Sound(b, pos, named, len)
  {
    hide RawLen, Id, MsgData;
    var n, raw := |name| % 65536, if pos + 4 <= |b| then RawLen(b[pos..]) else 0;
    assert b[pos + 6 + n] == b[pos + 6..pos + 7 + n][n] == name[n];
    if 4 <= len && 4 <= raw <= len {
      var body := b[pos..][4..raw];
      assert body == b[pos + 4..pos + raw];
      if BodyName(true, body).Some? {
        assert body[0] == b[pos + 4] && body[1] == b[pos + 5];
        assert |BodyName(true, body).value| == n;
        assert body[2 + n] == b[pos + 6 + n];
      }
    }
  }

  lemma {:induction false} CStringShort(d: seq<byte>, n: nat)
    requires n < |d| && d[n] == 0
    ensures |CString(d)| <= n
  {
    if d[0] != 0 { CStringShort(d[1..], n - 1); }
  }
}
