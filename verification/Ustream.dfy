/** ustream.c: a stream buffered in a chain of fixed-size chunks that are recycled and
    compacted. */
module Ustream {
  import opened Basics

  const NOWHERE: int := -1

  /** A buffer: its memory, and the offsets of the first and past the last byte of data. */
  datatype Buf = Buf(mem: seq<byte>, data: nat, tail: nat)

  ghost predicate GoodBuf(b: Buf) {
    b.data <= b.tail <= |b.mem| && |b.mem| > 0 && (b.data == b.tail ==> b.data == 0)
  }

  function Bytes(b: Buf): seq<byte>
    requires b.data <= b.tail <= |b.mem|
  {
    b.mem[b.data..b.tail]
  }

  ghost predicate AllGood(bs: seq<Buf>) { forall i :: 0 <= i < |bs| ==> GoodBuf(bs[i]) }

  /** The bytes buffered in a chain. */
  ghost function Contents(bs: seq<Buf>): seq<byte>
    requires AllGood(bs)
  {
    if bs == [] then [] else Bytes(bs[0]) + Contents(bs[1..])
  }

  lemma {:induction false} ContentsConcat(a: seq<Buf>, b: seq<Buf>)
    requires AllGood(a) && AllGood(b)
    ensures AllGood(a + b) && Contents(a + b) == Contents(a) + Contents(b)
  {
    forall i | 0 <= i < |a + b| ensures GoodBuf((a + b)[i]) {}
    if a == [] {
      assert a + b == b;
    } else {
      assert (a + b)[1..] == a[1..] + b;
      ContentsConcat(a[1..], b);
      assert Bytes(a[0]) + (Contents(a[1..]) + Contents(b)) == (Bytes(a[0]) + Contents(a[1..])) + Contents(b);
    }
  }

  lemma {:induction false} ContentsEmpty(bs: seq<Buf>)
    requires AllGood(bs) && forall i :: 0 <= i < |bs| ==> bs[i].data == bs[i].tail
    ensures Contents(bs) == []
  {
    if bs != [] { ContentsEmpty(bs[1..]); }
  }

  /** Around the last buffer with data: its bytes sit between what is before and nothing. */
  lemma {:induction false} ContentsAt(bs: seq<Buf>, k: int)
    requires AllGood(bs) && 0 <= k < |bs| && forall i :: k < i < |bs| ==> bs[i].data == bs[i].tail
    ensures AllGood(bs[..k]) && Contents(bs) == Contents(bs[..k]) + Bytes(bs[k])
  {
    var pre, post := bs[..k], bs[k + 1..];
    assert bs == pre + ([bs[k]] + post);
    ContentsConcat([bs[k]], post);
    ContentsConcat(pre, [bs[k]] + post);
    ContentsEmpty(post);
    assert Contents([bs[k]]) == Bytes(bs[k]) + [];
    assert Contents(pre) + (Bytes(bs[k]) + [] + []) == Contents(pre) + Bytes(bs[k]);
  }

  /** Bytes written behind the data of the last buffer with data end up at the end. */
  lemma {:induction false} ContentsGrow(bs: seq<Buf>, k: int, b: Buf, extra: seq<byte>)
    requires AllGood(bs) && 0 <= k < |bs| && forall i :: k < i < |bs| ==> bs[i].data == bs[i].tail
    requires GoodBuf(b) && Bytes(b) == Bytes(bs[k]) + extra
    ensures AllGood(bs[k := b]) && Contents(bs[k := b]) == Contents(bs) + extra
  {
    var now := bs[k := b];
    ContentsAt(bs, k);
    ContentsAt(now, k);
    assert now[..k] == bs[..k];
    assert Contents(bs[..k]) + (Bytes(bs[k]) + extra) == Contents(bs[..k]) + Bytes(bs[k]) + extra;
  }

  /** Dropping n bytes of the first buffer drops the first n bytes. */
  lemma {:induction false} ContentsShrink(bs: seq<Buf>, n: nat)
    requires AllGood(bs) && bs != [] && n < bs[0].tail - bs[0].data
    ensures AllGood(bs[0 := bs[0].(data := bs[0].data + n)])
    ensures n <= |Contents(bs)| && Contents(bs[0 := bs[0].(data := bs[0].data + n)]) == Contents(bs)[n..]
  {
    var now := bs[0 := bs[0].(data := bs[0].data + n)];
    assert now[1..] == bs[1..];
    assert Bytes(now[0]) == Bytes(bs[0])[n..];
    assert (Bytes(bs[0]) + Contents(bs[1..]))[n..] == Bytes(bs[0])[n..] + Contents(bs[1..]);
  }

  lemma {:induction false} ContentsHead(bs: seq<Buf>)
    requires AllGood(bs) && bs != []
    ensures var n := bs[0].tail - bs[0].data;
              n <= |Contents(bs)| && AllGood(bs[1..]) && Contents(bs)[n..] == Contents(bs[1..])
  {
  }

  /** Only the first buffer can be looked at to see whether there is any data. */
  lemma {:induction false} HeadHasData(bs: seq<Buf>, dataTail: int)
    requires AllGood(bs) && Tidy(bs, dataTail)
    ensures Contents(bs) != [] <==> bs != [] && bs[0].data < bs[0].tail
  {
    if bs != [] && bs[0].data == bs[0].tail { ContentsEmpty(bs); }
  }

  /** Data sits in the buffers up to data_tail, of which only data_tail can be empty; those
      after it are empty. */
  ghost predicate Tidy(bs: seq<Buf>, dataTail: int) {
    && (dataTail == NOWHERE <==> bs == []) && NOWHERE <= dataTail < |bs|
    && (forall i :: 0 <= i < dataTail ==> bs[i].data < bs[i].tail)
    && (forall i :: dataTail < i < |bs| ==> bs[i].data == bs[i].tail)
  }

  /** The memory behind the data of the buffers from position k on. */
  ghost function Room(bs: seq<Buf>, k: nat): seq<byte>
    requires AllGood(bs) && k <= |bs|
    decreases |bs| - k
  {
    if k == |bs| then [] else bs[k].mem[bs[k].tail..] + Room(bs, k + 1)
  }

  lemma {:induction false} RoomKept(a: seq<Buf>, b: seq<Buf>, k: nat)
    requires AllGood(a) && AllGood(b) && |a| == |b| && k <= |a| && forall i :: k <= i < |a| ==> a[i] == b[i]
    ensures Room(a, k) == Room(b, k)
    decreases |a| - k
  {
    if k < |a| { RoomKept(a, b, k + 1); }
  }

  function Filled(b: Buf, n: nat): Buf { b.(tail := b.tail + n) }

  function Take(b: Buf, n: nat): nat
    requires b.tail <= |b.mem|
  {
    if n < |b.mem| - b.tail then n else |b.mem| - b.tail
  }

  lemma {:induction false} FillContents(bs: seq<Buf>, k: nat, m: nat)
    requires AllGood(bs) && k < |bs| && m <= |bs[k].mem| - bs[k].tail
    requires forall i :: k < i < |bs| ==> bs[i].data == bs[i].tail
    ensures var now := bs[k := Filled(bs[k], m)];
      AllGood(now) && Contents(now) == Contents(bs) + bs[k].mem[bs[k].tail..][..m]
  {
    hide Contents;
    var b := Filled(bs[k], m);
    assert Bytes(b) == Bytes(bs[k]) + bs[k].mem[bs[k].tail..][..m];
    ContentsGrow(bs, k, b, bs[k].mem[bs[k].tail..][..m]);
  }

  /** Taking what buffer k has room for moves those bytes from the room to the contents. */
  lemma {:induction false} FillStep(bs: seq<Buf>, k: nat, n: nat)
    requires AllGood(bs) && k < |bs| && n <= |Room(bs, k)|
    requires forall i :: k < i < |bs| ==> bs[i].data == bs[i].tail
    ensures var m := Take(bs[k], n); var now := bs[k := Filled(bs[k], m)];
      && AllGood(now) && m <= n && n - m <= |Room(now, k + 1)| && (n - m > 0 ==> k + 1 < |bs|)
      && Contents(now) + Room(now, k + 1)[..n - m] == Contents(bs) + Room(bs, k)[..n]
  {
    hide Contents;
    var m := Take(bs[k], n);
    FillContents(bs, k, m);
    RoomKept(bs, bs[k := Filled(bs[k], m)], k + 1);
    SplitTake(Contents(bs), bs[k].mem[bs[k].tail..], Room(bs, k + 1), m, n);
  }

  lemma {:induction false} SplitTake(c: seq<byte>, here: seq<byte>, later: seq<byte>, m: nat, n: nat)
    requires m <= |here| && m <= n <= |here| + |later| && (n > m ==> m == |here|)
    ensures n - m <= |later| && c + (here + later)[..n] == c + here[..m] + later[..n - m]
  {
    assert (here + later)[..n] == here[..m] + later[..n - m];
  }

  /** struct ustream_buf_list: bufs is the chain from head to tail. */
  class BufList {
    var bufs: seq<Buf>
    var dataTail: int       // position of data_tail in the chain, or NOWHERE
    var dataBytes: int
    var buffers: int
    const minBuffers: int
    const maxBuffers: int
    const bufferLen: int

    /** What holds of the chain at all times, also while data_bytes is being brought up to
        date. */
    ghost predicate Shape()
      reads this
    {
      && bufferLen > 0 && AllGood(bufs) && Tidy(bufs, dataTail)
      && buffers == |bufs| && (maxBuffers > 0 ==> |bufs| <= maxBuffers)
    }

    ghost predicate Valid()
      reads this
    {
      Shape() && dataBytes == |Contents(bufs)|
    }

    /** The bytes the list holds, in the order they came in. */
    ghost function Data(): seq<byte>
      requires Shape()
      reads this
    {
      Contents(bufs)
    }

    constructor (minBuffers: int, maxBuffers: int, bufferLen: int)
      requires bufferLen > 0
      ensures Valid() && Data() == []
      ensures this.minBuffers == minBuffers && this.maxBuffers == maxBuffers && this.bufferLen == bufferLen
    {
      this.minBuffers, this.maxBuffers, this.bufferLen := minBuffers, maxBuffers, bufferLen;
      bufs, dataTail, dataBytes, buffers := [], NOWHERE, 0, 0;
    }

    /** ustream_can_alloc */
    predicate CanAlloc()
      reads this
    {
      maxBuffers <= 0 || buffers < maxBuffers
    }

    /** There is no room: all buffers are there and the last is filled up to its end. */
    ghost predicate NoRoom()
      requires Shape()
      reads this
    {
      maxBuffers > 0 && |bufs| == maxBuffers && dataTail == |bufs| - 1 && bufs[dataTail].tail == |bufs[dataTail].mem|
    }

    /** Nothing more fits even if its data is moved: the last is filled from its start. */
    ghost predicate Full()
      requires Shape()
      reads this
    {
      NoRoom() && bufs[dataTail].data == 0
    }

    /** ustream_add_buf of a new buffer */
    method AddBuf(buf: Buf)
      requires AllGood(bufs) && Tidy(bufs, dataTail) && GoodBuf(buf) && buf.data == buf.tail
      modifies `bufs, `dataTail, `buffers
      ensures AllGood(bufs) && Tidy(bufs, dataTail)
      ensures bufs == old(bufs) + [buf] && buffers == old(buffers) + 1
      ensures dataTail == if old(dataTail) == NOWHERE then 0 else old(dataTail)
      ensures Contents(bufs) == Contents(old(bufs))
    {
      buffers := buffers + 1;
      bufs := bufs + [buf];
      if dataTail == NOWHERE {
        dataTail := 0;
      }
      ContentsConcat(old(bufs), [buf]);
      ContentsEmpty([buf]);
      assert Contents(old(bufs)) + [] == Contents(old(bufs));
    }

    /** ustream_free_buf of the first buffer: it is dropped, or goes back empty to the end. */
    method FreeHead()
      requires Shape() && bufs != []
      modifies `bufs, `dataTail, `buffers
      ensures Shape()
      ensures AllGood(old(bufs)[1..]) && Contents(bufs) == Contents(old(bufs)[1..])
      ensures |old(bufs)| > 1 ==> bufs != [] && bufs[0] == old(bufs)[1]
      ensures if old(buffers) - 1 >= minBuffers then buffers == old(buffers) - 1 else buffers == old(buffers)
    {
      var buf := bufs[0];
      ghost var rest := bufs[1..];
      forall i | 0 <= i < |rest| ensures GoodBuf(rest[i]) { assert rest[i] == bufs[i + 1]; }
      bufs := bufs[1..];
      dataTail := if dataTail == 0 then (if bufs == [] then NOWHERE else 0) else dataTail - 1;
      buffers := buffers - 1;
      if buffers >= minBuffers {
        return;
      }
      AddBuf(Buf(buf.mem[0 := 0], 0, 0));
    }

    /** ustream_should_move: whether to shift the data of the buffer being filled. */
    predicate ShouldMove(len: int)
      requires 0 <= dataTail < |bufs|
      reads this
    {
      var buf := bufs[dataTail];
      var maxlen := |buf.mem|;
      if buf.data == 0 then false
      else if buf.data > maxlen / 2 then true
      else if buf.tail - buf.data < 32 && buf.data > maxlen / 4 then true
      else if dataTail != |bufs| - 1 || CanAlloc() then false
      else maxlen - buf.tail < len
    }

    /** The memmove of ustream_prepare_buf. */
    method MoveDown()
      requires Shape() && dataTail != NOWHERE
      modifies `bufs
      ensures Shape() && Contents(bufs) == Contents(old(bufs))
      ensures |bufs| == |old(bufs)| && bufs[dataTail].data == 0
      ensures |bufs[dataTail].mem| == |old(bufs)[dataTail].mem|
    {
      var buf := bufs[dataTail];
      var len := buf.tail - buf.data;
      var moved := Buf(buf.mem[buf.data..buf.tail] + buf.mem[len..], 0, len);
      assert Bytes(moved) == Bytes(buf) + [];
      ContentsGrow(bufs, dataTail, moved, []);
      assert Contents(bufs) + [] == Contents(bufs);
      bufs := bufs[dataTail := moved];
    }

    /** ustream_prepare_buf: afterwards data_tail has room, unless nothing more fits. */
    method PrepareBuf(len: int) returns (ok: bool)
      requires Valid()
      modifies `bufs, `dataTail, `buffers
      ensures Valid() && Data() == old(Data())
      ensures ok ==> dataTail != NOWHERE && bufs[dataTail].tail < |bufs[dataTail].mem|
      ensures ok <==> !NoRoom()
      ensures len > 0 ==> (ok <==> !Full())
    {
      hide Contents;
      if dataTail != NOWHERE {
        if ShouldMove(len) {
          MoveDown();
        }
        if bufs[dataTail].tail != |bufs[dataTail].mem| {
          return true;
        }
        if dataTail + 1 < |bufs| {
          dataTail := dataTail + 1;
          return true;
        }
      }
      if !CanAlloc() {
        return false;
      }
      AddBuf(Buf(seq(bufferLen, i => 0), 0, 0));
      dataTail := |bufs| - 1;
      return true;
    }

    /** The loop of ustream_consume, and of ustream_write_pending for the bytes written. */
    method Consume(len: int)
      requires Valid() && 0 <= len <= dataBytes
      modifies this
      ensures Valid() && Data() == old(Data())[len..]
    {
      hide Contents;
      var n := len;
      if n == 0 {
        return;
      }
      dataBytes := dataBytes - len;
      while n > 0
        invariant Shape() && 0 <= n <= |Contents(bufs)| && Contents(bufs)[n..] == old(Data())[len..]
        modifies `bufs, `dataTail, `buffers
      {
        HeadHasData(bufs, dataTail);
        var bufLen := bufs[0].tail - bufs[0].data;
        if n < bufLen {
          ContentsShrink(bufs, n);
          bufs := bufs[0 := bufs[0].(data := bufs[0].data + n)];
          break;
        }
        ContentsHead(bufs);
        FreeHead();
        n := n - bufLen;
      }
    }

    /** The data of the first buffer, and whether there is a next buffer. */
    method First() returns (head: seq<byte>, next: bool)
      requires Valid() && dataBytes != 0
      ensures head != [] && head <= Data() && (!next ==> head == Data())
    {
      HeadHasData(bufs, dataTail);
      head, next := Bytes(bufs[0]), |bufs| > 1;
    }

    /** Copying bytes behind the data of data_tail. */
    method Append(bytes: seq<byte>)
      requires Valid() && dataTail != NOWHERE && |bytes| <= |bufs[dataTail].mem| - bufs[dataTail].tail
      modifies `bufs, `dataBytes
      ensures Valid() && Data() == old(Data()) + bytes && dataTail == old(dataTail)
    {
      var buf := bufs[dataTail];
      var mem := buf.mem[..buf.tail] + bytes + buf.mem[buf.tail + |bytes|..];
      var now := Buf(mem, buf.data, buf.tail + |bytes|);
      assert Bytes(now) == Bytes(buf) + bytes;
      ContentsGrow(bufs, dataTail, now, bytes);
      bufs := bufs[dataTail := now];
      dataBytes := dataBytes + |bytes|;
    }

    /** Bytes put in memory behind the data, as read() does with what ustream_reserve gave. */
    method Store(bytes: seq<byte>)
      requires Valid() && dataTail != NOWHERE && |bytes| <= |bufs[dataTail].mem| - bufs[dataTail].tail
      modifies `bufs
      ensures Valid() && Data() == old(Data())
      ensures |bytes| <= |Room(bufs, dataTail)| && Room(bufs, dataTail)[..|bytes|] == bytes
    {
      var buf := bufs[dataTail];
      var now := buf.(mem := buf.mem[..buf.tail] + bytes + buf.mem[buf.tail + |bytes|..]);
      assert Bytes(now) == Bytes(buf) + [];
      ContentsGrow(bufs, dataTail, now, []);
      bufs := bufs[dataTail := now];
    }

    /** ustream_write_buffered: takes a prefix, all of it unless nothing more fits. */
    method WriteBuffered(data: seq<byte>) returns (wr: nat)
      requires Valid()
      modifies this
      ensures Valid() && wr <= |data| && Data() == old(Data()) + data[..wr]
      ensures wr < |data| ==> Full()
    {
      wr := 0;
      while wr < |data|
        invariant Valid() && wr <= |data| && Data() == old(Data()) + data[..wr]
      {
        var ok := PrepareBuf(|data| - wr);
        if !ok {
          break;
        }
        var maxlen := |bufs[dataTail].mem| - bufs[dataTail].tail;
        if maxlen > |data| - wr {
          maxlen := |data| - wr;
        }
        Append(data[wr..wr + maxlen]);
        assert data[..wr + maxlen] == data[..wr] + data[wr..wr + maxlen];
        wr := wr + maxlen;
      }
    }

    /** ustream_fill_read: the next len bytes of memory behind the data become data. */
    method FillRead(len: nat)
      requires Valid() && dataTail != NOWHERE && len <= |Room(bufs, dataTail)|
      modifies this
      ensures Valid() && Data() == old(Data()) + old(Room(bufs, dataTail))[..len]
    {
      hide Contents, Room;
      var n := len;
      var k := dataTail;
      dataBytes := dataBytes + len;
      while true
        invariant Shape() && 0 <= dataTail <= k < |bufs| && 0 <= n <= len && n <= |Room(bufs, k)|
        invariant k == dataTail || (k == dataTail + 1 && bufs[dataTail].tail == |bufs[dataTail].mem|)
        invariant Contents(bufs) + Room(bufs, k)[..n] == old(Data()) + old(Room(bufs, dataTail))[..len]
        decreases |bufs| - k
        modifies `bufs, `dataTail
      {
        FillStep(bufs, k, n);
        var maxlen := Take(bufs[k], n);
        bufs := bufs[k := Filled(bufs[k], maxlen)];
        n := n - maxlen;
        dataTail := k;
        k := k + 1;
        if n == 0 {
          assert Contents(bufs) + Room(bufs, k)[..0] == Contents(bufs);
          break;
        }
      }
    }
  }

  /** The implementation below a stream: its write callback takes any number of the bytes
      offered, or fails. */
  class Sink {
    ghost var sent: seq<byte>
    ghost var calls: nat     // how often it was called
    ghost var short: bool    // the last time it took less than all, or failed

    constructor ()
      ensures sent == []
    {
      sent, calls, short := [], 0, false;
    }

    method Write(data: seq<byte>) returns (n: int)
      modifies this
      ensures -1 <= n <= |data| && sent == old(sent) + data[..if n < 0 then 0 else n]
      ensures calls == old(calls) + 1 && short == (n < |data|)
    {
      n :| -1 <= n <= |data|;
      calls, short := calls + 1, n < |data|;
      sent := sent + data[..if n < 0 then 0 else n];
    }
  }

  lemma {:induction false} PrefixSplit(data: seq<byte>, n: nat, m: nat)
    requires n + m <= |data|
    ensures data[..n + m] == data[..n] + data[n..][..m]
  {
  }

  function Setting(value: int, default: int): int { if value == 0 then default else value }

  /** struct ustream, with the history of what went in and came out at its four ends. */
  class Stream {
    const r: BufList
    const w: BufList
    const sink: Sink
    var writeError: bool
    var eof: bool
    var stateChange: bool      // the state_change timer is armed
    var readBlockedFull: bool  // READ_BLOCKED_FULL
    var readBlockedUser: bool  // READ_BLOCKED_USER
    ghost var accepted: seq<byte>    // what callers of ustream_write were told was taken
    ghost var received: seq<byte>    // what ustream_fill_read brought in
    ghost var delivered: seq<byte>   // what was consumed

    /** Both directions are lossless queues, and a reader that is blocked for lack of room has
        something to consume. */
    ghost predicate Valid()
      reads this, r, w, sink
    {
      && r != w && r.Valid() && w.Valid()
      && sink.sent + w.Data() == accepted
      && delivered + r.Data() == received
      && (readBlockedFull ==> r.Data() != [])
    }

    /** ustream_init_defaults: a setting that is zero gets its default. */
    constructor (rMin: int, rMax: int, rLen: nat, wMin: int, wMax: int, wLen: nat)
      ensures Valid() && fresh(r) && fresh(w) && fresh(sink)
      ensures accepted == [] && received == [] && delivered == [] && sink.sent == []
      ensures !writeError && !eof && !stateChange && !readBlockedFull && !readBlockedUser
      ensures r.minBuffers == (if rMin == 0 then 1 else rMin) && w.minBuffers == (if wMin == 0 then 2 else wMin)
      ensures r.maxBuffers == (if rMax == 0 then 1 else rMax) && w.maxBuffers == (if wMax == 0 then -1 else wMax)
      ensures r.bufferLen == (if rLen == 0 then 4096 else rLen) && w.bufferLen == (if wLen == 0 then 256 else wLen)
    {
      r := new BufList(Setting(rMin, 1), Setting(rMax, 1), Setting(rLen, 4096));
      w := new BufList(Setting(wMin, 2), Setting(wMax, -1), Setting(wLen, 256));
      sink := new Sink();
      writeError, eof, stateChange, readBlockedFull, readBlockedUser := false, false, false, false, false;
      accepted, received, delivered := [], [], [];
    }

    /** ustream_write_error */
    method WriteError()
      modifies `writeError, `stateChange
      ensures writeError && stateChange == (old(stateChange) || !old(writeError))
    {
      if !writeError {
        stateChange := true;
      }
      writeError := true;
    }

    /** ustream_write: wr bytes are accepted, sent before or after all that was accepted so
        far and never lost; fewer than offered only if the write side is full. */
    method Write(data: seq<byte>) returns (wr: int)
      requires Valid()
      modifies `accepted, `writeError, `stateChange, w, sink
      ensures Valid() && -1 <= wr <= |data|
      ensures accepted == old(accepted) + data[..if wr < 0 then 0 else wr]
      ensures old(writeError) ==> wr == 0
      ensures writeError == (old(writeError) || wr < 0)
      ensures !writeError && wr < |data| ==> w.Full()
      ensures sink.calls == old(sink.calls) + if !old(writeError) && old(w.Data()) == [] then 1 else 0
      ensures stateChange == (old(stateChange) || wr < 0)
    {
      hide Contents, GoodBuf, Tidy, AllGood;
      wr := 0;
      if writeError {
        return;
      }
      var n := 0;
      if w.dataBytes == 0 {
        n := WriteDirect(data);
        if n == |data| || n < 0 {
          return n;
        }
      }
      var m := w.WriteBuffered(data[n..]);
      PrefixSplit(data, n, m);
      accepted := accepted + data[n..][..m];
      wr := n + m;
    }

    /** The part of ustream_write when nothing is buffered */
    method WriteDirect(data: seq<byte>) returns (n: int)
      requires Valid() && w.dataBytes == 0 && !writeError
      modifies `accepted, `writeError, `stateChange, sink
      ensures Valid() && -1 <= n <= |data| && accepted == old(accepted) + data[..if n < 0 then 0 else n]
      ensures writeError == (n < 0) && stateChange == (old(stateChange) || n < 0) && sink.calls == old(sink.calls) + 1
    {
      hide Contents, GoodBuf, Tidy, AllGood;
      assert w.Data() == [] && sink.sent + [] == sink.sent;
      n := sink.Write(data);
      assert n >= 0 ==> sink.sent + [] == accepted + data[..n];
      if n < 0 {
        WriteError();
      } else {
        accepted := accepted + data[..n];
      }
    }

    /** ustream_write_pending: sends on buffered data; true says nothing is left. */
    method WritePending() returns (done: bool)
      requires Valid()
      modifies `writeError, `stateChange, w, sink
      ensures Valid()
      ensures !old(writeError) ==> done == (w.Data() == [])
      ensures !old(writeError) && !done ==> sink.calls > old(sink.calls) && sink.short
      ensures old(writeError) ==> !done && sink.sent == old(sink.sent) && w.Data() == old(w.Data())
      ensures |old(sink.sent)| <= |sink.sent| && sink.sent[..|old(sink.sent)|] == old(sink.sent)
      ensures eof && done && |sink.sent| > |old(sink.sent)| ==> stateChange
    {
      hide Contents, GoodBuf, Tidy, AllGood;
      if writeError {
        return false;
      }
      var wr := 0;
      HeadHasData(w.bufs, w.dataTail);
      var buf := w.bufs != [];
      while buf && w.dataBytes != 0
        invariant Valid() && wr >= 0 && (w.dataBytes != 0 ==> buf) && sink.calls >= old(sink.calls)
        invariant |sink.sent| == |old(sink.sent)| + wr && sink.sent[..|old(sink.sent)|] == old(sink.sent)
        decreases w.dataBytes
      {
        var head, next := w.First();
        ghost var was := w.Data();
        ghost var before := sink.sent;
        var len := sink.Write(head);
        if len < 0 {
          WriteError();
          break;
        }
        if len == 0 {
          break;
        }
        wr := wr + len;
        w.Consume(len);
        assert head[..len] == was[..len];
        assert before + was == before + head[..len] + w.Data();
        if len < |head| {
          break;
        }
        buf := next;
      }
      if eof && wr != 0 && w.dataBytes == 0 {
        stateChange := true;
      }
      return w.dataBytes == 0;
    }

    /** ustream_reserve: room to read into, or the reader is blocked until data is consumed. */
    method Reserve(len: int) returns (maxlen: nat)
      requires Valid()
      modifies `readBlockedFull, r
      ensures Valid() && r.Data() == old(r.Data())
      ensures maxlen > 0 ==> r.dataTail != NOWHERE && maxlen == |r.bufs[r.dataTail].mem| - r.bufs[r.dataTail].tail
      ensures maxlen == 0 <==> r.NoRoom()
      ensures len > 0 ==> (maxlen == 0 <==> r.Full())
      ensures readBlockedFull == (old(readBlockedFull) || maxlen == 0)
    {
      var ok := r.PrepareBuf(len);
      if !ok {
        readBlockedFull := true;
        ContentsAt(r.bufs, r.dataTail);
        return 0;
      }
      return |r.bufs[r.dataTail].mem| - r.bufs[r.dataTail].tail;
    }

    /** Reading bytes into the reserved room, then ustream_fill_read. */
    method Receive(bytes: seq<byte>)
      requires Valid() && r.dataTail != NOWHERE
      requires |bytes| <= |r.bufs[r.dataTail].mem| - r.bufs[r.dataTail].tail
      modifies `received, r
      ensures Valid() && received == old(received) + bytes && r.Data() == old(r.Data()) + bytes
    {
      r.Store(bytes);
      r.FillRead(|bytes|);
      received := received + bytes;
    }

    /** ustream_consume */
    method Consume(len: nat)
      requires Valid() && len <= |r.Data()|
      modifies `delivered, `readBlockedFull, r
      ensures Valid() && r.Data() == old(r.Data())[len..]
      ensures delivered == old(delivered) + old(r.Data())[..len]
      ensures readBlockedFull == (old(readBlockedFull) && len == 0)
    {
      delivered := delivered + r.Data()[..len];
      r.Consume(len);
      if len != 0 {
        readBlockedFull := false;
      }
    }

    /** ustream_get_read_buf */
    method GetReadBuf() returns (chunk: seq<byte>)
      requires Valid()
      ensures chunk <= r.Data() && (chunk == [] ==> r.Data() == [])
    {
      HeadHasData(r.bufs, r.dataTail);
      if r.bufs == [] {
        return [];
      }
      return Bytes(r.bufs[0]);
    }

    /** ustream_read: the next bytes received and not yet delivered, as many as fit. */
    method Read(buflen: nat) returns (out: seq<byte>)
      requires Valid()
      modifies `delivered, `readBlockedFull, r
      ensures Valid() && delivered == old(delivered) + out
      ensures out + r.Data() == old(r.Data())
      ensures |out| <= buflen && (|out| < buflen ==> r.Data() == [])
    {
      hide Contents, GoodBuf, Tidy, AllGood, Bytes;
      out := [];
      while true
        invariant Valid() && |out| <= buflen && out + r.Data() == old(r.Data())
        invariant delivered == old(delivered) + out
        decreases buflen - |out|, |r.Data()|
      {
        var chunk := GetReadBuf();
        if chunk == [] {
          break;
        }
        var n := |chunk|;
        if n > buflen - |out| {
          n := buflen - |out|;
        }
        ghost var was := r.Data();
        assert chunk[..n] == was[..n];
        Consume(n);
        assert out + was == out + chunk[..n] + r.Data();
        out := out + chunk[..n];
        if |out| >= buflen {
          break;
        }
      }
    }
  }
}
