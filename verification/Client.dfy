/** libubus.c, libubus-io.c, libubus-req.c, libubus-obj.c: how a client receives messages while its
    handlers make synchronous requests, which receive messages in turn. The call stack, with the
    local variables that matter, is made explicit: each method is a step of the function whose
    frame is on top of it, and what user code on top of it does next is up to the caller. */
module Client {
  import opened Basics

  const BLOB_ATTR_SIZE := 4
  const UBUS_MSG_CHUNK_SIZE := 65536
  const UBUS_MSGBUF_REDUCTION_INTERVAL := 16

  /** A message; rawLen is the length of its data, and without an object id it has no handler. */
  datatype Msg = Msg(number: int, rawLen: nat, hasObjId: bool)

  /** Where ubus_handle_data is: before the pending messages, before receiving, behind
      ubus_process_msg, behind the loop, at its end. */
  datatype Pc = Top | Recv | After | End | Done

  datatype Frame =
    | HandleData(pc: Pc)
    | ProcessPending
    | Handler(msg: Msg, data: Ptr, own: bool)   // own: the data came from ctx->msgbuf
    | Callback                                  // data, status or monitor callback
    | Request                                   // the loop of ubus_complete_request
    | RequestTail                               // its complete callback
    | RequestDone

  /** A block of memory: its size, and the message whose data it holds */
  datatype Block = Block(size: nat, msg: Msg)

  // ----- the call stack -----

  /** The frames that ctx->stack_depth counts */
  predicate Counted(f: Frame) { f.Handler? || f.Request? }

  ghost function Depth(s: seq<Frame>): (n: nat) {
    if s == [] then 0 else Depth(s[..|s| - 1]) + if Counted(s[|s| - 1]) then 1 else 0
  }

  lemma {:induction false} DepthPush(s: seq<Frame>, f: Frame)
    ensures Depth(s + [f]) == Depth(s) + if Counted(f) then 1 else 0
  {
    assert (s + [f])[..|s|] == s;
  }

  lemma {:induction false} DepthCounts(s: seq<Frame>, i: nat)
    requires i < |s| && Counted(s[i])
    ensures Depth(s) > 0
  {
    if i < |s| - 1 { DepthCounts(s[..|s| - 1], i); }
  }

  lemma {:induction false} DepthMonotone(s: seq<Frame>, i: nat)
    requires i <= |s|
    ensures Depth(s[..i]) <= Depth(s)
  {
    if i < |s| {
      DepthMonotone(s[..|s| - 1], i);
      assert s[..|s| - 1][..i] == s[..i];
    } else {
      assert s[..i] == s;
    }
  }

  /** If something is counted, there is a lowest such frame. */
  lemma {:induction false} LowestCounted(s: seq<Frame>) returns (i: nat)
    requires Depth(s) > 0
    ensures i < |s| && Counted(s[i]) && Depth(s[..i]) == 0
  {
    var less := s[..|s| - 1];
    if Depth(less) > 0 {
      i := LowestCounted(less);
      assert less[..i] == s[..i];
    } else {
      i := |s| - 1;
    }
  }

  /** A frame that will see to pending messages before it returns, if nothing is counted below */
  ghost predicate Flushes(f: Frame, registered: bool) {
    (f.HandleData? && f.pc != Done) || f.ProcessPending? || ((f.Request? || f.RequestTail?) && !registered)
  }

  ghost predicate FlushAt(s: seq<Frame>, registered: bool, i: int) {
    0 <= i < |s| && Depth(s[..i]) == 0 && Flushes(s[i], registered)
  }

  ghost predicate FlushComing(s: seq<Frame>, registered: bool) { exists i :: FlushAt(s, registered, i) }

  /** There is at most one handler on the stack, called with nothing counted below it from a
      function that sees to pending messages afterwards. */
  ghost predicate OneAtATime(s: seq<Frame>, handler: Option<Frame>) {
    && (handler.Some? ==> handler.value.Handler? && handler.value in s)
    && (forall i :: 0 <= i < |s| && s[i].Handler? ==> handler == Some(s[i]) && FlushAt(s, true, i - 1))
  }

  ghost predicate StackOk(s: seq<Frame>, handler: Option<Frame>, depth: int) {
    OneAtATime(s, handler) && depth == Depth(s)
  }

  lemma {:induction false} FlushPush(s: seq<Frame>, registered: bool, f: Frame, i: int)
    requires FlushAt(s, registered, i)
    ensures FlushAt(s + [f], registered, i)
  {
    assert (s + [f])[..i] == s[..i];
  }

  /** Calling something other than a handler */
  lemma {:induction false} PushOk(s: seq<Frame>, handler: Option<Frame>, depth: int, f: Frame)
    requires StackOk(s, handler, depth) && !f.Handler?
    ensures StackOk(s + [f], handler, depth + if Counted(f) then 1 else 0)
  {
    hide Flushes;
    DepthPush(s, f);
    var now := s + [f];
    forall i | 0 <= i < |now| && now[i].Handler? ensures handler == Some(now[i]) && FlushAt(now, true, i - 1) {
      assert now[i] == s[i];
      FlushPush(s, true, f, i - 1);
    }
  }

  /** Moving on in a frame that is not counted */
  lemma {:induction false} MoveOk(s: seq<Frame>, handler: Option<Frame>, depth: int, f: Frame)
    requires StackOk(s, handler, depth) && s != [] && !s[|s| - 1].Handler? && !f.Handler?
    ensures var low := s[..|s| - 1];
      && StackOk(low + [f], handler, depth + (if Counted(f) then 1 else 0) - if Counted(s[|s| - 1]) then 1 else 0)
      && StackOk(low, handler, depth - if Counted(s[|s| - 1]) then 1 else 0)
  {
    hide Flushes;
    var low, n := s[..|s| - 1], |s| - 1;
    if handler.Some? {
      var k :| 0 <= k < |s| && s[k] == handler.value;
      assert low[k] == s[k];
    }
    forall i | 0 <= i < |low| && low[i].Handler? ensures handler == Some(low[i]) && FlushAt(low, true, i - 1) {
      assert low[i] == s[i];
      assert s[..i - 1] == low[..i - 1];
    }
    PushOk(low, handler, depth - (if Counted(s[n]) then 1 else 0), f);
  }

  /** Calling a handler */
  lemma {:induction false} HandlerOk(s: seq<Frame>, handler: Option<Frame>, f: Frame)
    requires StackOk(s, handler, 0) && f.Handler? && s != [] && Flushes(s[|s| - 1], true)
    ensures handler == None && StackOk(s + [f], Some(f), 1)
  {
    hide Flushes;
    DepthPush(s, f);
    if handler.Some? {
      var k :| 0 <= k < |s| && s[k] == handler.value;
      DepthCounts(s, k);
    }
    var now := s + [f];
    DepthMonotone(s, |s| - 1);
    assert now[..|s| - 1] == s[..|s| - 1];
    assert forall i :: 0 <= i < |s| ==> now[i] == s[i];
    assert now[|s|] == f;
  }

  /** A handler returns. */
  lemma {:induction false} ReturnOk(s: seq<Frame>, handler: Option<Frame>, depth: int)
    requires StackOk(s, handler, depth) && s != [] && s[|s| - 1].Handler?
    ensures depth == 1 && handler == Some(s[|s| - 1]) && StackOk(s[..|s| - 1], None, 0)
    ensures |s| > 1 && Flushes(s[|s| - 2], true)
  {
    var n := |s| - 1;
    var low := s[..n];
    assert FlushAt(s, true, n - 1);
    assert s[..n - 1] == low[..n - 1];
    assert Depth(low) == 0;
    forall i | 0 <= i < |low| ensures !low[i].Handler? {
      if low[i].Handler? { DepthCounts(low, i); }
    }
  }

  /** What is counted was called by something that will see to pending messages, unless that is
      left to the timer. */
  lemma {:induction false} CountedFlushes(s: seq<Frame>, handler: Option<Frame>, depth: int, registered: bool)
    requires StackOk(s, handler, depth) && depth > 0 && !registered
    ensures FlushComing(s, registered)
  {
    var i := LowestCounted(s);
    if s[i].Handler? {
      assert FlushAt(s, true, i - 1);
      assert FlushAt(s, registered, i - 1);
    } else {
      assert FlushAt(s, registered, i);
    }
  }

  /** What a frame on top adds to what is below it */
  lemma {:induction false} FlushTop(s: seq<Frame>, registered: bool, f: Frame)
    ensures FlushComing(s + [f], registered) <==>
              FlushComing(s, registered) || (Flushes(f, registered) && Depth(s) == 0)
  {
    hide Flushes;
    var now := s + [f];
    assert now[..|s|] == s;
    if FlushComing(s, registered) {
      var i :| FlushAt(s, registered, i);
      FlushPush(s, registered, f, i);
    } else if Flushes(f, registered) && Depth(s) == 0 {
      assert FlushAt(now, registered, |s|);
    }
    if FlushComing(now, registered) {
      var i :| FlushAt(now, registered, i);
      if i < |s| {
        assert now[..i] == s[..i];
        assert FlushAt(s, registered, i);
      }
    }
  }

  /** The same for the frame on top of a stack that is there */
  lemma {:induction false} FlushOfTop(s: seq<Frame>, registered: bool)
    requires s != []
    ensures var low := s[..|s| - 1];
      FlushComing(s, registered) <==>
        FlushComing(low, registered) || (Flushes(s[|s| - 1], registered) && Depth(low) == 0)
  {
    hide Flushes, FlushComing;
    FlushTop(s[..|s| - 1], registered, s[|s| - 1]);
    assert s == s[..|s| - 1] + [s[|s| - 1]];
  }

  /** Frames that only wait for ubus_process_pending_msg to return */
  predicate Waiting(f: Frame) { f == HandleData(Recv) || f == HandleData(Done) || f.RequestDone? }

  ghost predicate Shape(s: seq<Frame>) {
    forall i :: 0 <= i < |s| - 1 && Waiting(s[i]) ==> s[i + 1].ProcessPending?
  }

  // ----- memory -----

  ghost function Contents(pending: seq<Ptr>, mem: map<Ptr, Block>): (c: seq<Msg>)
    requires forall i :: 0 <= i < |pending| ==> pending[i] in mem
    ensures |c| == |pending| && forall i :: 0 <= i < |pending| ==> c[i] == mem[pending[i]].msg
  {
    seq(|pending|, i requires 0 <= i < |pending| => mem[pending[i]].msg)
  }

  /** Every block has exactly one owner: the receive buffer, a pending message or the handler;
      the handler's block still holds the handler's message. */
  ghost predicate Memory(handler: Option<Frame>, pending: seq<Ptr>, mem: map<Ptr, Block>, msgbuf: Ptr, dataLen: nat) {
    && NULL !in mem
    && (msgbuf != NULL ==> msgbuf in mem && mem[msgbuf].size == dataLen && msgbuf !in pending)
    && (msgbuf == NULL ==> handler.Some?)
    && NoDup(pending) && (forall i :: 0 <= i < |pending| ==> pending[i] in mem)
    && (handler.Some? ==> handler.value.Handler? && Holds(handler.value, pending, mem, msgbuf, dataLen))
    && (forall p :: p in mem ==> p == msgbuf || p in pending || (handler.Some? && handler.value.data == p))
  }

  ghost predicate Holds(f: Frame, pending: seq<Ptr>, mem: map<Ptr, Block>, msgbuf: Ptr, dataLen: nat)
    requires f.Handler?
  {
    && f.data in mem && f.data != msgbuf && f.data !in pending && mem[f.data].msg == f.msg
    && (msgbuf == NULL ==> f.own && mem[f.data].size == dataLen)
  }

  lemma {:induction false} MemoryReceive(handler: Option<Frame>, pending: seq<Ptr>, mem: map<Ptr, Block>, msgbuf: Ptr,
                                         dataLen: nat, p: Ptr, b: Block)
    requires Memory(handler, pending, mem, msgbuf, dataLen) && p != NULL && (p == msgbuf || p !in mem)
    ensures Memory(handler, pending, (mem - {msgbuf})[p := b], p, b.size)
    ensures Contents(pending, (mem - {msgbuf})[p := b]) == Contents(pending, mem)
  {
  }

  lemma {:induction false} MemoryQueue(handler: Option<Frame>, pending: seq<Ptr>, mem: map<Ptr, Block>, msgbuf: Ptr,
                                       dataLen: nat, p: Ptr, b: Block)
    requires Memory(handler, pending, mem, msgbuf, dataLen) && p != NULL && p !in mem
    ensures Memory(handler, pending + [p], mem[p := b], msgbuf, dataLen)
    ensures Contents(pending + [p], mem[p := b]) == Contents(pending, mem) + [b.msg]
  {
    var now := pending + [p];
    assert forall i :: 0 <= i < |pending| ==> pending[i] != p;
    forall x ensures x in now <==> x in pending || x == p {}
  }

  lemma {:induction false} MemoryOwn(pending: seq<Ptr>, mem: map<Ptr, Block>, msgbuf: Ptr, dataLen: nat)
    requires Memory(None, pending, mem, msgbuf, dataLen)
    ensures Memory(Some(Handler(mem[msgbuf].msg, msgbuf, true)), pending, mem, NULL, dataLen)
  {
  }

  lemma {:induction false} MemoryOwnReturn(f: Frame, pending: seq<Ptr>, mem: map<Ptr, Block>, msgbuf: Ptr, dataLen: nat)
    requires f.Handler? && f.own && Memory(Some(f), pending, mem, msgbuf, dataLen)
    ensures msgbuf == NULL ==> Memory(None, pending, mem, f.data, dataLen)
    ensures msgbuf != NULL ==>
              Memory(None, pending, mem - {f.data}, msgbuf, dataLen)
              && Contents(pending, mem - {f.data}) == Contents(pending, mem)
  {
  }

  lemma {:induction false} MemoryPending(pending: seq<Ptr>, mem: map<Ptr, Block>, msgbuf: Ptr, dataLen: nat)
    requires Memory(None, pending, mem, msgbuf, dataLen) && pending != []
    ensures Memory(Some(Handler(mem[pending[0]].msg, pending[0], false)), pending[1..], mem, msgbuf, dataLen)
    ensures Contents(pending, mem) == [mem[pending[0]].msg] + Contents(pending[1..], mem)
  {
    var rest := pending[1..];
    forall i, j | 0 <= i < j < |rest| ensures rest[i] != rest[j] { assert pending[i + 1] != pending[j + 1]; }
    forall x ensures x in rest <==> x in pending && x != pending[0] {
      if x in rest { var i :| 0 <= i < |rest| && rest[i] == x; assert pending[i + 1] != pending[0]; }
      if x in pending && x != pending[0] { var i :| 0 <= i < |pending| && pending[i] == x; assert rest[i - 1] == x; }
    }
  }

  lemma {:induction false} MemoryPendingReturn(f: Frame, pending: seq<Ptr>, mem: map<Ptr, Block>, msgbuf: Ptr,
                                               dataLen: nat)
    requires f.Handler? && !f.own && Memory(Some(f), pending, mem, msgbuf, dataLen)
    ensures Memory(None, pending, mem - {f.data}, msgbuf, dataLen)
            && Contents(pending, mem - {f.data}) == Contents(pending, mem)
  {
  }

  // ----- the context -----

  /** struct ubus_context */
  class Context {
    var stack: seq<Frame>
    var stackDepth: int
    var pending: seq<Ptr>
    var mem: map<Ptr, Block>
    var msgbuf: Ptr
    var dataLen: nat
    var reductionCounter: int
    var cancelPoll: bool
    var timerArmed: bool
    const registered: bool          // the socket is registered with uloop
    ghost var handler: Option<Frame>
    ghost var arrived: seq<Msg>     // messages for objects, as they came in
    ghost var handled: seq<Msg>     // those that were passed on, in that order
    ghost var swallowed: bool       // the timer fired where nothing could be passed on, and
                                    // nothing that will pass messages on has begun since

    ghost predicate Calls()
      reads this
    {
      StackOk(stack, handler, stackDepth) && Shape(stack)
    }

    /** A message waits without anything to see to it exactly if the timer was swallowed. */
    ghost predicate Attended()
      reads this
    {
      swallowed <==> pending != [] && !timerArmed && !FlushComing(stack, registered)
    }

    /** Behind ubus_process_pending_msg with nothing counted, no message is pending. */
    ghost predicate Settled()
      reads this
    {
      stack != [] && Waiting(stack[|stack| - 1]) && stackDepth == 0 ==> pending == []
    }

    ghost predicate Valid()
      reads this
    {
      && Calls() && Memory(handler, pending, mem, msgbuf, dataLen) && Attended() && Settled()
      && handled + Contents(pending, mem) == arrived
    }

    /** ubus_connect_ctx */
    constructor (registered: bool, p: Ptr)
      requires p != NULL
      ensures Valid() && stack == [] && pending == [] && arrived == [] && handled == [] && !swallowed
      ensures stackDepth == 0 && mem.Keys == {p} && msgbuf == p && this.registered == registered
    {
      stack, stackDepth, pending := [], 0, [];
      mem := map[p := Block(UBUS_MSG_CHUNK_SIZE, Msg(0, 0, false))];
      msgbuf, dataLen, reductionCounter := p, UBUS_MSG_CHUNK_SIZE, 0;
      cancelPoll, timerArmed := false, false;
      this.registered := registered;
      handler, arrived, handled, swallowed := None, [], [], false;
    }

    /** User code runs: no frame, or a handler or callback on top. */
    predicate UserCode()
      reads this
    {
      stack == [] || var f := stack[|stack| - 1]; f.Handler? || f.Callback? || f.RequestTail?
    }

    predicate On(f: Frame)
      reads this
    {
      stack != [] && stack[|stack| - 1] == f
    }

    /** A call of anything but a handler */
    method Push(f: Frame)
      requires Valid() && !f.Handler? && (stack != [] && Waiting(stack[|stack| - 1]) ==> f.ProcessPending?)
               && !Waiting(f)
      modifies `stack, `stackDepth, `swallowed
      ensures Valid() && stack == old(stack) + [f] && stackDepth == old(stackDepth) + if Counted(f) then 1 else 0
      ensures swallowed == (old(swallowed) && !(old(stackDepth) == 0 && Flushes(f, registered)))
    {
      hide Depth, OneAtATime, Memory, FlushComing, Flushes;
      PushOk(stack, handler, stackDepth, f);
      FlushTop(stack, registered, f);
      swallowed := swallowed && !(stackDepth == 0 && Flushes(f, registered));
      stack := stack + [f];
      if Counted(f) {
        stackDepth := stackDepth + 1;
      }
    }

    /** The frame on top, which is not counted, returns or goes on as f. */
    method Replace(f: Option<Frame>)
      requires Valid() && stack != [] && !stack[|stack| - 1].Handler? && !stack[|stack| - 1].Request?
      requires f.Some? ==> !Counted(f.value) && !stack[|stack| - 1].ProcessPending?
      requires f.Some? && Waiting(f.value) && stackDepth == 0 ==> pending == []
      requires f == None && stack[|stack| - 1].ProcessPending? && stackDepth == 0 ==> pending == []
      requires var top := stack[|stack| - 1];
        stackDepth > 0 || pending == [] || (Flushes(top, registered) <==> f.Some? && Flushes(f.value, registered))
      modifies `stack
      ensures Valid() && stack == old(stack)[..|old(stack)| - 1] + if f.Some? then [f.value] else []
    {
      hide Depth, OneAtATime, Memory, FlushComing, Flushes;
      ghost var low := stack[..|stack| - 1];
      var g := if f.Some? then f.value else Callback;
      MoveOk(stack, handler, stackDepth, g);
      DepthIs(low, stack);
      FlushOfTop(stack, registered);
      FlushTop(low, registered, g);
      stack := stack[..|stack| - 1];
      if f.Some? {
        stack := stack + [g];
      } else {
        assert low + [] == low;
      }
    }

    /** The frame on top calls ubus_process_pending_msg and goes on as next behind it. */
    method Flush(next: Frame)
      requires Valid() && stackDepth == 0 && stack != [] && !Counted(stack[|stack| - 1])
               && !stack[|stack| - 1].ProcessPending?
      requires !Counted(next) && Flushes(stack[|stack| - 1], registered)
      modifies `stack
      ensures Valid() && stack == old(stack)[..|old(stack)| - 1] + [next, ProcessPending]
    {
      hide Depth, OneAtATime, Memory, FlushComing, Flushes;
      ghost var low := stack[..|stack| - 1];
      MoveOk(stack, handler, stackDepth, next);
      DepthIs(low, stack);
      FlushOfTop(stack, registered);
      PushOk(low + [next], handler, stackDepth, ProcessPending);
      PendingFlushes(low + [next], registered);
      assert low + [next] + [ProcessPending] == low + [next, ProcessPending];
      stack := stack[..|stack| - 1] + [next, ProcessPending];
    }

    // ----- ubus_handle_data -----

    /** The socket is readable, or ubus_handle_event is called. */
    method HandleDataCall()
      requires Valid() && UserCode()
      modifies `stack, `stackDepth, `swallowed
      ensures Valid() && stack == old(stack) + [HandleData(Top)] && stackDepth == old(stackDepth)
    {
      Push(HandleData(Top));
    }

    /** ubus_poll_data */
    method PollData()
      requires Valid() && On(Request)
      modifies `stack, `stackDepth, `cancelPoll, `swallowed
      ensures Valid() && stack == old(stack) + [HandleData(Top)] && stackDepth == old(stackDepth) && !cancelPoll
    {
      cancelPoll := false;
      Push(HandleData(Top));
    }

    method HandleTop()
      requires Valid() && On(HandleData(Top))
      modifies `stack
      ensures Valid() && stack == old(stack)[..|old(stack)| - 1] +
                if stackDepth == 0 then [HandleData(Recv), ProcessPending] else [HandleData(Recv)]
    {
      hide FlushComing, Memory, OneAtATime, Depth;
      if stackDepth == 0 {
        Flush(HandleData(Recv));
      } else {
        Replace(Some(HandleData(Recv)));
      }
    }

    method HandleAfter(cancelling: bool)
      requires Valid() && On(HandleData(After))
      modifies `stack
      ensures Valid() && stack ==
                old(stack)[..|old(stack)| - 1] + [HandleData(if cancelling || cancelPoll then End else Top)]
    {
      hide FlushComing, Memory, OneAtATime, Depth;
      Replace(Some(HandleData(if cancelling || cancelPoll then End else Top)));
    }

    method HandleEnd()
      requires Valid() && On(HandleData(End))
      modifies `stack
      ensures Valid() && stack == old(stack)[..|old(stack)| - 1] +
                if stackDepth == 0 then [HandleData(Done), ProcessPending] else []
    {
      hide FlushComing, Memory, OneAtATime, Depth;
      if stackDepth == 0 {
        Flush(HandleData(Done));
      } else {
        Replace(None);
      }
    }

    /** ubus_handle_data returns; with nothing counted, all that arrived was passed on. */
    method HandleDone()
      requires Valid() && On(HandleData(Done))
      modifies `stack
      ensures Valid() && stack == old(stack)[..|old(stack)| - 1]
      ensures stackDepth == 0 ==> handled == arrived
    {
      hide FlushComing, Memory, OneAtATime, Depth;
      Replace(None);
      assert old(stack)[..|old(stack)| - 1] + [] == old(stack)[..|old(stack)| - 1];
      if stackDepth == 0 {
        assert pending == [] && handled + Contents(pending, mem) == handled;
      }
    }

    // ----- receiving -----

    /** alloc_msg_buf; p is what realloc returns. Afterwards the message fits. */
    method AllocMsgBuf(len: nat, p: Ptr)
      requires len > 0 && Memory(handler, pending, mem, msgbuf, dataLen) && p != NULL && (p == msgbuf || p !in mem)
      modifies `mem, `msgbuf, `dataLen, `reductionCounter
      ensures Memory(handler, pending, mem, msgbuf, dataLen) && msgbuf != NULL && dataLen >= len
      ensures Contents(pending, mem) == Contents(pending, old(mem))
      ensures handler.Some? ==> mem[handler.value.data] == old(mem)[handler.value.data]
      ensures forall x :: x in mem ==> x in old(mem) || x == p
    {
      var bufLen := if msgbuf == NULL then 0 else dataLen;
      var rem := len % UBUS_MSG_CHUNK_SIZE;
      var n := if rem > 0 then len + (UBUS_MSG_CHUNK_SIZE - rem) else len;
      if n < bufLen {
        reductionCounter := reductionCounter + 1;
        if reductionCounter > UBUS_MSGBUF_REDUCTION_INTERVAL {
          reductionCounter := 0;
          bufLen := 0;
        }
      }
      if n <= bufLen {
        return;
      }
      MemoryReceive(handler, pending, mem, msgbuf, dataLen, p, Block(n, Msg(0, 0, false)));
      mem := (mem - {msgbuf})[p := Block(n, Msg(0, 0, false))];
      msgbuf := p;
      dataLen := n;
    }

    /** get_next_msg, for a message that ubus_validate_hdr accepts: it is in the receive buffer,
        and the handler's data is as it was. */
    method GetNextMsg(m: Msg, p: Ptr)
      requires m.rawLen >= BLOB_ATTR_SIZE && Memory(handler, pending, mem, msgbuf, dataLen) && p != NULL
               && (p == msgbuf || p !in mem)
      modifies `mem, `msgbuf, `dataLen, `reductionCounter
      ensures Memory(handler, pending, mem, msgbuf, dataLen) && msgbuf != NULL && mem[msgbuf].msg == m
              && dataLen >= m.rawLen
      ensures Contents(pending, mem) == Contents(pending, old(mem))
      ensures handler.Some? ==> mem[handler.value.data] == old(mem)[handler.value.data]
      ensures forall x :: x in mem ==> x in old(mem) || x == p
    {
      AllocMsgBuf(m.rawLen, p);
      MemoryReceive(handler, pending, mem, msgbuf, dataLen, msgbuf, Block(dataLen, m));
      assert (mem - {msgbuf})[msgbuf := Block(dataLen, m)] == mem[msgbuf := Block(dataLen, m)];
      mem := mem[msgbuf := Block(dataLen, m)];
    }

    /** get_next_msg fails: nothing there, or the end of the connection. */
    method ReceiveNothing()
      requires Valid() && On(HandleData(Recv))
      modifies `stack
      ensures Valid() && stack == old(stack)[..|old(stack)| - 1] + [HandleData(End)]
    {
      hide FlushComing, Memory, OneAtATime, Depth;
      Replace(Some(HandleData(End)));
    }

    /** get_next_msg fails behind the header of m: the buffer may have been reallocated and holds
        part of the message, but it is not passed on; the handler's data is as it was. */
    method ReceiveCut(m: Msg, p: Ptr)
      requires Valid() && On(HandleData(Recv)) && m.rawLen >= BLOB_ATTR_SIZE && p != NULL && (p == msgbuf || p !in mem)
      modifies `stack, `mem, `msgbuf, `dataLen, `reductionCounter
      ensures Valid() && stack == old(stack)[..|old(stack)| - 1] + [HandleData(End)]
      ensures handler.Some? ==> handler.value.data in mem && mem[handler.value.data] == old(mem)[handler.value.data]
    {
      hide FlushComing, OneAtATime, Depth, Contents;
      GetNextMsg(m, p);
      Replace(Some(HandleData(End)));
    }

    /** A status, data or monitor message: a callback is called. */
    method ReceiveOther(m: Msg, p: Ptr)
      requires Valid() && On(HandleData(Recv)) && m.rawLen >= BLOB_ATTR_SIZE && p != NULL && (p == msgbuf || p !in mem)
      modifies `stack, `stackDepth, `mem, `msgbuf, `dataLen, `reductionCounter, `swallowed
      ensures Valid() && stack == old(stack)[..|old(stack)| - 1] + [HandleData(After), Callback]
      ensures handler.Some? ==> handler.value.data in mem && mem[handler.value.data] == old(mem)[handler.value.data]
      ensures stackDepth == old(stackDepth)
    {
      hide FlushComing, OneAtATime, Depth, Contents;
      GetNextMsg(m, p);
      Replace(Some(HandleData(After)));
      Push(Callback);
    }

    /** ubus_queue_msg; q is what calloc returns. */
    method QueueMsg(q: Ptr)
      requires Valid() && stackDepth > 0 && msgbuf != NULL && q != NULL && q !in mem
      modifies `pending, `mem, `timerArmed, `arrived, `swallowed
      ensures Valid() && timerArmed == (old(timerArmed) || registered)
      ensures arrived == old(arrived) + [mem[msgbuf].msg] && pending == old(pending) + [q]
              && mem == old(mem)[q := Block(old(mem)[msgbuf].msg.rawLen, old(mem)[msgbuf].msg)]
    {
      hide FlushComing, Depth, Contents, StackOk, NoDup;
      ghost var m := mem[msgbuf].msg;
      MemoryQueue(handler, pending, mem, msgbuf, dataLen, q, Block(m.rawLen, m));
      if !registered {
        CountedFlushes(stack, handler, stackDepth, registered);
      }
      mem := mem[q := Block(mem[msgbuf].msg.rawLen, mem[msgbuf].msg)];
      pending := pending + [q];
      if registered {
        timerArmed := true;
        swallowed := false;
      }
      arrived := arrived + [m];
      assert handled + (old(Contents(pending, mem)) + [m]) == handled + old(Contents(pending, mem)) + [m];
    }

    /** ubus_process_obj_msg up to the handler, for the message in the receive buffer. */
    method StartOwn()
      requires Valid() && stackDepth == 0 && pending == [] && msgbuf != NULL && On(HandleData(After))
      modifies `stack, `stackDepth, `msgbuf, `handler, `arrived, `handled
      ensures Valid() && handled == old(handled) + [mem[old(msgbuf)].msg]
              && arrived == old(arrived) + [mem[old(msgbuf)].msg]
      ensures var m := mem[old(msgbuf)].msg;
        if m.hasObjId then stack == old(stack) + [Handler(m, old(msgbuf), true)] && stackDepth == 1 && msgbuf == NULL
        else stack == old(stack) && stackDepth == 0 && msgbuf == old(msgbuf)
    {
      hide FlushComing, Depth, Contents, OneAtATime;
      var m := mem[msgbuf].msg;
      NothingPending(handled, pending, mem);
      arrived, handled := arrived + [m], handled + [m];
      NothingPending(handled, pending, mem);
      if !m.hasObjId {
        return;
      }
      var f := Handler(m, msgbuf, true);
      HandlerOk(stack, handler, f);
      MemoryOwn(pending, mem, msgbuf, dataLen);
      stack, stackDepth, msgbuf, handler := stack + [f], stackDepth + 1, NULL, Some(f);
    }

    /** A message for an object: it is passed on, or kept for later if a handler or a synchronous
        request is under way. */
    method ReceiveObject(m: Msg, p: Ptr, q: Ptr)
      requires Valid() && On(HandleData(Recv)) && m.rawLen >= BLOB_ATTR_SIZE && p != NULL && (p == msgbuf || p !in mem)
      requires q != NULL && q != p && q !in mem
      modifies this
      ensures Valid() && arrived == old(arrived) + [m]
      ensures handled == if old(stackDepth) == 0 then old(arrived) + [m] else old(handled)
      ensures old(handler).Some? ==>
                handler == old(handler) && handler.value.data in mem
                && mem[handler.value.data] == old(mem)[handler.value.data]
      ensures old(stackDepth) == 0 && m.hasObjId ==> handler.Some? && handler.value.msg == m && On(handler.value)
      ensures old(stackDepth) != 0 ==>
                stack == old(stack)[..|old(stack)| - 1] + [HandleData(After)] && stackDepth == old(stackDepth)
      ensures old(stackDepth) != 0 ==> pending == old(pending) + [q] && timerArmed == (old(timerArmed) || registered)
      ensures (forall x :: x in mem ==> x in old(mem) || x == p || x == q) && cancelPoll == old(cancelPoll)
    {
      hide FlushComing, OneAtATime, Depth, Contents;
      GetNextMsg(m, p);
      Replace(Some(HandleData(After)));
      if stackDepth != 0 {
        QueueMsg(q);
      } else {
        NothingPending(handled, pending, mem);
        NoHandler(stack, handler);
        StartOwn();
      }
    }

    /** A handler returns: its data is freed or goes back to being the receive buffer. */
    method HandlerReturn()
      requires Valid() && stack != [] && stack[|stack| - 1].Handler?
      modifies `stack, `stackDepth, `mem, `msgbuf, `handler
      ensures Valid() && stack == old(stack)[..|old(stack)| - 1] && stackDepth == 0 && handler == None && msgbuf != NULL
    {
      hide Depth, Contents, OneAtATime;
      var f := stack[|stack| - 1];
      ReturnOk(stack, handler, stackDepth);
      FlushOfTop(stack, registered);
      if f.own {
        MemoryOwnReturn(f, pending, mem, msgbuf, dataLen);
        if msgbuf != NULL {
          mem := mem - {f.data};
        } else {
          msgbuf := f.data;
        }
      } else {
        MemoryPendingReturn(f, pending, mem, msgbuf, dataLen);
        mem := mem - {f.data};
      }
      stack, stackDepth, handler := stack[..|stack| - 1], stackDepth - 1, None;
    }

    /** A callback returns. */
    method CallbackReturn()
      requires Valid() && On(Callback)
      modifies `stack
      ensures Valid() && stack == old(stack)[..|old(stack)| - 1]
    {
      hide FlushComing, Memory, OneAtATime, Depth;
      Replace(None);
      assert old(stack)[..|old(stack)| - 1] + [] == old(stack)[..|old(stack)| - 1];
    }

    // ----- ubus_process_pending_msg -----

    /** A round of its loop: it returns if nothing is pending or something is counted; otherwise
        the oldest pending message is passed on. */
    method PendingStep()
      requires Valid() && On(ProcessPending)
      modifies `stack, `stackDepth, `pending, `mem, `handler, `handled
      ensures Valid()
      ensures old(pending) == [] || old(stackDepth) > 0 ==>
                stack == old(stack)[..|old(stack)| - 1] && pending == old(pending) && handled == old(handled)
                && stackDepth == old(stackDepth)
      ensures old(pending) != [] && old(stackDepth) == 0 ==>
                pending == old(pending)[1..] && |handled| == |old(handled)| + 1
      ensures old(pending) != [] && old(stackDepth) == 0 && handled[|handled| - 1].hasObjId ==>
                handler.Some? && handler.value.msg == handled[|handled| - 1] && On(handler.value)
    {
      hide FlushComing, OneAtATime, Depth, Contents;
      if pending == [] || stackDepth != 0 {
        DepthNonNegative(stack, handler, stackDepth);
        Replace(None);
        assert old(stack)[..|old(stack)| - 1] + [] == old(stack)[..|old(stack)| - 1];
        return;
      }
      NoHandler(stack, handler);
      TopFlushes(stack, handler, registered);
      MemoryPending(pending, mem, msgbuf, dataLen);
      var p := pending[0];
      var m := mem[p].msg;
      var f := Handler(m, p, false);
      assert handled + ([m] + Contents(pending[1..], mem)) == (handled + [m]) + Contents(pending[1..], mem);
      handled := handled + [m];
      if m.hasObjId {
        HandlerOk(stack, handler, f);
        FlushTop(stack, registered, f);
        pending := pending[1..];
        stack, stackDepth, handler := stack + [f], stackDepth + 1, Some(f);
      } else {
        MemoryPendingReturn(f, pending[1..], mem, msgbuf, dataLen);
        pending := pending[1..];
        mem := mem - {p};
      }
    }

    /** The timer for pending messages fires. */
    method PendingTimer()
      requires Valid() && UserCode() && timerArmed
      modifies `stack, `stackDepth, `timerArmed, `swallowed
      ensures Valid() && stack == old(stack) + [ProcessPending] && !timerArmed && stackDepth == old(stackDepth)
      ensures swallowed <==> pending != [] && !FlushComing(stack, registered)
      ensures swallowed ==> registered && exists i :: LowestRequest(old(stack), i)
    {
      hide OneAtATime, Depth, Contents, Memory, FlushComing;
      DepthNonNegative(stack, handler, stackDepth);
      Push(ProcessPending);
      timerArmed := false;
      swallowed := pending != [] && !FlushComing(stack, registered);
      OnlyInRequest(old(stack), handler, stackDepth, registered);
    }

    // ----- ubus_complete_request -----

    method RequestBegin()
      requires Valid() && UserCode()
      modifies `stack, `stackDepth, `swallowed
      ensures Valid() && stack == old(stack) + [Request] && stackDepth == old(stackDepth) + 1
    {
      Push(Request);
    }

    /** The loop ends; the complete callback is called. */
    method RequestEnd()
      requires Valid() && On(Request)
      modifies `stack, `stackDepth, `cancelPoll
      ensures Valid() && stack == old(stack)[..|old(stack)| - 1] + [RequestTail] && stackDepth == old(stackDepth) - 1
      ensures cancelPoll == (old(cancelPoll) || stackDepth > 0)
    {
      hide OneAtATime, Memory, Contents, FlushComing, Depth;
      DepthNonNegative(stack, handler, stackDepth);
      MoveOk(stack, handler, stackDepth, RequestTail);
      FlushOfTop(stack, registered);
      FlushTop(stack[..|stack| - 1], registered, RequestTail);
      stack := stack[..|stack| - 1] + [RequestTail];
      stackDepth := stackDepth - 1;
      if stackDepth != 0 {
        cancelPoll := true;
      }
      DepthNonNegative(stack, handler, stackDepth);
    }

    /** Behind the complete callback: without uloop, pending messages are passed on here. */
    method RequestFinish()
      requires Valid() && On(RequestTail)
      modifies `stack
      ensures Valid()
      ensures stack == old(stack)[..|old(stack)| - 1] +
                if stackDepth == 0 && !registered then [RequestDone, ProcessPending] else []
    {
      hide OneAtATime, Memory, Contents, FlushComing, Depth;
      DepthNonNegative(stack, handler, stackDepth);
      if stackDepth == 0 && !registered {
        Flush(RequestDone);
      } else {
        Replace(None);
      }
    }

    /** ubus_complete_request returns. */
    method RequestReturn()
      requires Valid() && On(RequestDone)
      modifies `stack
      ensures Valid() && stack == old(stack)[..|old(stack)| - 1]
      ensures stackDepth == 0 ==> handled == arrived
    {
      hide FlushComing, Memory, OneAtATime, Depth;
      Replace(None);
      assert old(stack)[..|old(stack)| - 1] + [] == old(stack)[..|old(stack)| - 1];
      if stackDepth == 0 {
        NothingPending(handled, pending, mem);
      }
    }

    /** In every state: what was passed on is what arrived first, in the order of arrival, once
        each; the rest is pending. At most one handler runs, and its data is its own message's.
        Something will pass on what is pending, a call under way or the timer, exactly unless
        the timer was swallowed. */
    lemma {:induction false} Guarantees()
      requires Valid()
      ensures handled <= arrived && arrived[|handled|..] == Contents(pending, mem)
      ensures forall i, j :: 0 <= i < j < |stack| ==> !(stack[i].Handler? && stack[j].Handler?)
      ensures forall i :: 0 <= i < |stack| && stack[i].Handler? ==>
                stack[i].data in mem && mem[stack[i].data].msg == stack[i].msg && stack[i].data != msgbuf
      ensures swallowed <==> handled != arrived && !timerArmed && !FlushComing(stack, registered)
      ensures stack == [] ==> (handled == arrived || timerArmed || swallowed)
    {
      hide Depth;
      forall i, j | 0 <= i < j < |stack| ensures !(stack[i].Handler? && stack[j].Handler?) {
        if stack[i].Handler? {
          NoSecondHandler(stack, handler, stackDepth, i, j);
        }
      }
      if pending == [] {
        NothingPending(handled, pending, mem);
      }
    }
  }

  lemma {:induction false} NoSecondHandler(s: seq<Frame>, handler: Option<Frame>, depth: int, i: nat, j: nat)
    requires StackOk(s, handler, depth) && i < j < |s| && s[i].Handler?
    ensures !s[j].Handler?
  {
    if i < j - 1 {
      DepthCounts(s[..j - 1], i);
    }
  }

  lemma {:induction false} DepthNonNegative(s: seq<Frame>, handler: Option<Frame>, depth: int)
    requires StackOk(s, handler, depth)
    ensures depth >= 0 && (s != [] && Counted(s[|s| - 1]) ==> depth > 0)
  {
  }

  /** A message for an object arrives during a synchronous request. */
  method QueueInRequest() returns (c: Context)
    ensures fresh(c) && c.Valid() && c.registered && c.stack == [Request, HandleData(After)] && c.stackDepth == 1
    ensures c.pending == [2] && c.timerArmed && !c.cancelPoll && forall x :: x in c.mem ==> x in {1, 2, 3}
  {
    hide Memory, StackOk, FlushComing, Contents, Shape, Context.Valid;
    c := new Context(true, 1);
    c.RequestBegin();
    assert c.stack == [Request];
    c.PollData();
    c.HandleTop();
    assert c.stack == [Request, HandleData(Recv)];
    c.ReceiveObject(Msg(1, 4, true), 3, 2);
  }

  /** The status of the request arrives, and its callback is called. */
  method CallbackInRequest(c: Context)
    requires c.Valid() && c.stack == [Request, HandleData(After)] && c.stackDepth == 1
    requires c.pending == [2] && c.timerArmed && !c.cancelPoll && forall x :: x in c.mem ==> x in {1, 2, 3}
    modifies c
    ensures c.Valid() && c.stack == [Request, HandleData(After), Callback] && c.stackDepth == 1
    ensures c.pending == [2] && c.timerArmed
  {
    hide Memory, StackOk, FlushComing, Contents, Shape, Context.Valid;
    c.HandleAfter(false);
    assert c.stack == [Request, HandleData(Top)];
    c.HandleTop();
    assert c.stack == [Request, HandleData(Recv)];
    c.ReceiveOther(Msg(2, 4, false), 4);
  }

  /** The callback runs the main loop. */
  method TimerInCallback(c: Context)
    requires c.Valid() && c.stack == [Request, HandleData(After), Callback] && c.stackDepth == 1
    requires c.pending == [2] && c.timerArmed
    modifies c
    ensures c.Valid() && c.stack == [Request, HandleData(After)] && c.stackDepth == 1 && c.pending == [2]
            && !c.timerArmed
  {
    hide Memory, StackOk, FlushComing, Contents, Shape, Context.Valid;
    c.PendingTimer();
    assert c.stack == [Request, HandleData(After), Callback, ProcessPending];
    c.PendingStep();
    assert c.stack == [Request, HandleData(After), Callback];
    c.CallbackReturn();
  }

  /** The exception is real: if a callback inside a synchronous request runs the main loop, the
      timer may fire there, and then nothing is left to pass the message on. */
  method TimerSwallowed() returns (c: Context)
    ensures fresh(c) && c.Valid() && c.registered && c.stack == [] && c.pending != [] && !c.timerArmed && c.swallowed
  {
    hide Memory, StackOk, FlushComing, Contents, Shape, Context.Valid;
    c := QueueInRequest();
    CallbackInRequest(c);
    TimerInCallback(c);
    c.HandleAfter(true);
    assert c.stack == [Request, HandleData(End)];
    c.HandleEnd();
    assert c.stack == [Request];
    c.RequestEnd();
    c.RequestFinish();
    Resting(c);
  }

  lemma {:induction false} Resting(c: Context)
    requires c.Valid() && c.stack == []
    ensures c.swallowed <==> c.pending != [] && !c.timerArmed
  {
  }

  lemma {:induction false} NothingPending(handled: seq<Msg>, pending: seq<Ptr>, mem: map<Ptr, Block>)
    requires pending == []
    ensures handled + Contents(pending, mem) == handled
  {
  }

  lemma {:induction false} NoHandler(s: seq<Frame>, handler: Option<Frame>)
    requires StackOk(s, handler, 0)
    ensures handler == None
  {
    if handler.Some? {
      var k :| 0 <= k < |s| && s[k] == handler.value;
      DepthCounts(s, k);
    }
  }

  /** The lowest frame that is counted is a synchronous request. */
  ghost predicate LowestRequest(s: seq<Frame>, i: int) { 0 <= i < |s| && s[i].Request? && Depth(s[..i]) == 0 }

  /** The timer is swallowed only in a registered context and in a synchronous request that was
      not made by a handler. */
  lemma {:induction false} OnlyInRequest(s: seq<Frame>, handler: Option<Frame>, depth: int, registered: bool)
    requires StackOk(s, handler, depth)
    ensures FlushComing(s + [ProcessPending], registered) || (registered && exists i :: LowestRequest(s, i))
  {
    hide FlushComing;
    FlushTop(s, registered, ProcessPending);
    if depth > 0 {
      if !registered {
        CountedFlushes(s, handler, depth, registered);
      } else {
        var i := LowestCounted(s);
        if s[i].Handler? {
          HandlerFlushes(s, handler, i, registered);
        } else {
          assert LowestRequest(s, i);
        }
      }
    }
  }

  lemma {:induction false} HandlerFlushes(s: seq<Frame>, handler: Option<Frame>, i: nat, registered: bool)
    requires OneAtATime(s, handler) && i < |s| && s[i].Handler?
    ensures FlushComing(s, registered)
  {
    assert FlushAt(s, true, i - 1);
    assert FlushAt(s, registered, i - 1);
  }

  lemma {:induction false} TopFlushes(s: seq<Frame>, handler: Option<Frame>, registered: bool)
    requires StackOk(s, handler, 0) && s != [] && s[|s| - 1].ProcessPending?
    ensures FlushComing(s, registered)
  {
    hide FlushComing;
    DepthMonotone(s, |s| - 1);
    FlushOfTop(s, registered);
  }

  lemma {:induction false} PendingFlushes(s: seq<Frame>, registered: bool)
    requires Depth(s) == 0
    ensures FlushComing(s + [ProcessPending], registered)
  {
    hide FlushComing;
    FlushTop(s, registered, ProcessPending);
  }

  lemma {:induction false} DepthIs(low: seq<Frame>, s: seq<Frame>)
    requires s != [] && low == s[..|s| - 1] && !Counted(s[|s| - 1])
    ensures Depth(low) == Depth(s)
  {
  }
}
