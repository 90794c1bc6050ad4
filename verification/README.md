# Verified models of libubox and ubus

Dafny models of the OpenWrt data-structure library `libubox` and of the message bus `ubus`, with proofs of
the invariants and laws these programs live by. Each module follows one source file or component; state that
the source updates in place is a class, and each of its methods is proved against a specification.

- `Basics`: optional values, bytes, lists without repetition.
- `Lists`: the circular doubly linked list of `list.h`. List heads are named by pointers and the link fields of
  all heads are two maps, so that a field write is a map update. `Ring` says what a well-formed list is.
- `AvlShape`, `AvlOrder`, `Avl`, `AvlRuns`: the AVL tree threaded with a list. The node table is a map from pointers to
  cells with parent, left, right and the stored balance. `AvlShape` relates it to an abstract tree seen from any
  of its nodes (a subtree and the context around it), so that the climbing loops can be followed; `AvlOrder` is
  about the threaded list, its runs of equal keys and their leaders; `Avl` is the code. The invariant
  `AvlTree.Valid` says that child and parent links agree, every stored balance is the exact height difference
  and lies in {-1, 0, 1}, the list is well linked and sorted, leaders are exactly the firsts of their runs and
  exactly the nodes of the tree in order, and `count` is the length of the list. `AvlRuns` is about whole
  sequences of insertions and deletions.
- `BlobFormat`, `BlobBuf`, `BlobBuild`, `BlobParse`, `BlobMessage`: the tagged binary format, its builder, whole
  messages built with it, its parsers, and what the parsers make of a message that was built. The builder keeps
  absolute addresses, which every reallocation changes.
- `SafeList`: the list that may be changed while it is being iterated over.
- `Ustream`: a stream buffered in a chain of recycled chunks, with both directions as lossless queues.
- `Timers`: the timer queue of `uloop.c`, ordered by a truncating comparison.
- `Runqueue`: the task scheduler. Its pending tasks are a `SafeList`, so that cancelling them all is the iteration
  that the source makes.
- `Md5Rounds`, `Md5`, `Md5Known`: the digest of RFC 1321, streamed, and two of the RFC's own examples.
- `Base64`: the encoding of section 4 of RFC 4648.
- `Patterns`, `Acl`, `Events`: scans of sorted patterns that stop early; access control and event delivery in
  the daemon.
- `Broker`: the daemon's tables of objects, types, paths, clients and subscriptions, together with the event
  patterns of `Events`.
- `Client`: how a client receives messages while its handlers make synchronous requests.
- `JsonScript`: the script interpreter.

Where callbacks may call back into the library (`SafeList`, `Timers`, `Runqueue`, `Client`), the source function
is split into the steps before and after the callback, and each step is a method that preserves the invariant.
Since the invariant holds before every step and no step assumes more, the results hold for every interleaving of
steps, that is, for every behaviour of the callbacks and every nesting of calls.

Results that a reader of the code might not expect:

- A payload can be accepted although the length field of the enclosing attribute overflows its 24 bits: the
  growth test of `blob_add` compares only what exceeds the present buffer (`BlobBuf.PutAtLimit`). `Put` and
  `AddField` keep the buffer right exactly while the enclosing length fits.
- A policy name of 256 bytes or more matches nothing in `blobmsg_parse`, because its length is kept in eight
  bits (`BlobParse.TakesByName`).
- `uloop_timeout_set` carries microseconds over only above one million, so a time with exactly one million
  microseconds occurs; the comparison does not mind.
- A name of 65536 bytes or more is accepted by the builder, which stores its length modulo 65536; the attribute is
  then rejected by `blobmsg_check_attr_len` (`BlobParse.GarbledRejected`). Shorter names are always stored right.
- After `runqueue_kill` a task can be left that could run and that nothing starts (`Runqueue.KillStrands`). This
  happens exactly to tasks added while the kill cancels the pending tasks, where that iteration has already passed:
  at the front, or at either end when it is about to end; and if the queue is not stopped, has room, and no
  completion or start loop is under way around the kill (`Runqueue.Queue.KillEnd`, `Runqueue.Queue.StuckExactly`).
- A queued message can be left without anything to pass it on (`Client.TimerSwallowed`). This happens exactly if
  the timer fires where no call under way will pass messages on, which takes a registered context and a callback
  inside a synchronous request that was not made by a handler, and lasts until the timer is armed again or a
  function that passes messages on is called (`Client.Context.PendingTimer`, `Client.Context.Guarantees`).
- `not(and(xs))` and `or(not xs)` always have the same value, but report the same errors exactly if no operand
  that is reached is something other than an array (`JsonScript.DeMorganReports`).
- What `handle_expr` returns for an unknown expression is ignored, and the value is always the error -1, although
  the header file gives that callback a result; the model follows the code.

## Model

| member | source | states |
|---|---|---|
| `Lists.LinkTable.AddBetween` | libubox/list.h:102-111 | inserting between neighbours of a well-formed ring gives the ring of the sequence with the entry inserted there, and touches no other link |
| `Lists.LinkTable.AddAfter` | libubox/list.h:158-162 | list_add puts the entry right behind the given one |
| `Lists.LinkTable.AddBefore` | libubox/list.h:164-168 | list_add_tail puts the entry right before the given one |
| `Lists.LinkTable.Del` | libubox/list.h:88-100 | deleting gives the ring of the sequence without the entry, whose own links become null |
| `Lists.RingInsert` | libubox/list.h:102-111 | the four link writes of _list_add turn a ring into the ring of the longer sequence, in both link directions |
| `Lists.RingRemove` | libubox/list.h:88-93 | the two link writes of _list_del turn a ring into the ring of the shorter sequence |
| `Avl.AvlTree.constructor` | libubox/avl.c:91-100 | an initialized tree is empty and satisfies the invariant |
| `Avl.AvlTree.Insert` | libubox/avl.c:219-299 | keeps the whole invariant; refuses exactly if duplicates are off and the key is present, leaving all as it was; otherwise the list gains exactly the new node, behind all keys not greater |
| `Avl.AvlTree.InsertDup` | libubox/avl.c:245-256 | a duplicate goes behind the last node of its run and does not lead |
| `Avl.AvlTree.InsertLeader` | libubox/avl.c:258-299 | a new leader is attached on the side its balance and comparison select, at the position where its key splits the list, although the branches do not look at the free side |
| `Avl.AvlTree.Delete` | libubox/avl.c:306-351 | keeps the whole invariant; the list loses exactly the node, the next node of its run leads if it led |
| `Avl.AvlTree.ReplaceLeader` | libubox/avl.c:311-338 | the next duplicate takes the deleted leader's place in the tree, all else in order |
| `Avl.AvlTree.DeleteWorker` | libubox/avl.c:593-730 | unlinking a node with no, one or two children leaves an AVL tree with exact balances whose in-order sequence lacks just that node |
| `Avl.AvlTree.DeleteInner` | libubox/avl.c:704-730 | the smallest node of the right subtree replaces a node with two children |
| `Avl.AvlTree.UnlinkLeaf` | libubox/avl.c:600-663 | removing a leaf and rebalancing from its parent |
| `Avl.AvlTree.UnlinkChain` | libubox/avl.c:665-702 | a single child takes the node's place and the tree is rebalanced from there |
| `Avl.AvlTree.PostInsert` | libubox/avl.c:442-488 | after a subtree grew by a level, climbing ends in an AVL tree with exact balances and the same in-order sequence |
| `Avl.AvlTree.PostDelete` | libubox/avl.c:511-571 | after a subtree shrank by a level, climbing ends in an AVL tree with exact balances and the same in-order sequence |
| `Avl.AvlTree.RotateRight` | libubox/avl.c:378-408 | which cells a right rotation writes, and with which balances |
| `Avl.AvlTree.RotateLeft` | libubox/avl.c:410-440 | which cells a left rotation writes, and with which balances |
| `AvlShape.RotateRightRep` | libubox/avl.c:378-408 | a rotated node table represents the rotated tree in its context |
| `AvlShape.RotateRightBalance` | libubox/avl.c:386-408 | the balance formulas of a right rotation are the exact height differences of the rotated tree, for any heights |
| `AvlShape.RotateLeftBalance` | libubox/avl.c:418-440 | the balance formulas of a left rotation are the exact height differences of the rotated tree, for any heights |
| `AvlShape.RotatedInOrder` | libubox/avl.c:378-440 | single and double rotations keep the in-order sequence |
| `Avl.AvlTree.LocalMin` | libubox/avl.c:573-581 | finds the leftmost node of a subtree |
| `Avl.AvlTree.FindRec` | libubox/avl.c:353-376 | ends at the node with the key, or at one that has no child on the side where the key belongs, with everything before it smaller and everything behind it greater |
| `Avl.AvlTree.Find` | libubox/avl.c:114-128 | returns null exactly if no node has the key, otherwise the leader of its run |
| `Avl.AvlTree.FindLessEqual` | libubox/avl.c:137-169 | returns the last node of the list with a key not greater, or null if there is none |
| `Avl.AvlTree.FindGreaterEqual` | libubox/avl.c:178-210 | returns the first node of the list with a key not smaller, or null if there is none |
| `AvlShape.AvlSize` | libubox/avl.c:353-376 | a tree of height h has at least Fib(h + 2) - 1 leaders, which bounds the descent |
| `AvlOrder.InsertRuns` | libubox/avl.c:240-299 | inserting a key behind those not greater keeps the list sorted and leaders the firsts of their runs |
| `AvlOrder.RemoveRuns` | libubox/avl.c:306-351 | removing a node, and promoting the next of its run if it led, keeps the list sorted and leaders the firsts of their runs |
| `AvlRuns.Replay` | libubox/avl.c:219-351 | after any sequence of insertions and deletions from an empty tree the invariant holds and the list is what the operations say, one after the other |
| `AvlRuns.PositionIs` | libubox/avl.c:219-299 | the position of an insertion is determined by the keys alone |
| `BlobBuf.BlobBuffer.BufGrow` | libubox/blob.c:56-68 | fails exactly if the limit would be exceeded; head keeps its offset wherever the buffer moves |
| `BlobBuf.BlobBuffer.Add` | libubox/blob.c:70-88 | although the growth test omits padding, header, payload and padding lie inside the buffer, what was there stays, and failure changes nothing |
| `BlobBuf.BlobBuffer.New` | libubox/blob.c:131-142 | the new attribute stands at the end and the open attribute counts it |
| `BlobBuf.BlobBuffer.Put` | libubox/blob.c:160-172 | the tree being built gains a leaf with exactly these bytes, exactly while the enclosing length fits its field; else that length reads zero |
| `BlobBuf.BlobBuffer.AddField` | libubox/blobmsg.c:376-391 | the tree being built gains a named leaf, under the same condition, for names of fewer than 65536 bytes; a longer name is garbled |
| `BlobBuf.BlobBuffer.MsgPut` | libubox/blobmsg.c:226-256 | the bytes of a named attribute with the extended bit are those of its encoding; a name of 65536 bytes or more is garbled |
| `BlobBuf.BlobBuffer.BufInit` | libubox/blob.c:90-101 | starts an empty tree, in a fresh or a used buffer |
| `BlobBuf.BlobBuffer.NestStart` | libubox/blob.c:174-182 | opens a container; the cookie denotes the one left open; if the length of that one overflows it is the outermost and reads zero |
| `BlobBuf.BlobBuffer.OpenNested` | libubox/blobmsg.c:265-283 | opens a named table or array, counted as if its header were plain, also where the count overflowed in between; on failure nothing changed |
| `BlobBuf.BlobBuffer.NestEnd` | libubox/blob.c:184-190 | the late length fix-up makes the finished container the next child of the one its cookie denotes, after any reallocation in between; if the length overflows that one is the outermost and reads zero |
| `BlobBuf.BlobBuffer.Complete` | libubox/blob.h:251-256 | when all containers are closed the buffer begins with the recursive encoding of the tree, its length field says so, and reading gives back the tree with ids, names and exact payloads |
| `BlobBuild.Build` | libubox/blob.c:160-190 | the bracketed calls for any tree that fits the length mask add exactly that tree, and none of them fails |
| `BlobBuild.Message` | libubox/blob.h:251-256 | a message built from any trees whose padded total fits the mask is their encoding, whose bytes `BlobFormat.Wire` states, and reading it gives them back |
| `BlobBuf.PutAtLimit` | libubox/blob.c:70-88 | a put that is accepted and makes the outer length read zero |
| `BlobFormat.HeaderReads` | libubox/blob.h:83-123 | id, extended bit and length read back from a header as they were written |
| `BlobFormat.WordReads` | libubox/blob.h:83-103 | the first four bytes, the most significant first, are extended bit, seven bits of id and 24 bits of length |
| `BlobFormat.Wire` | libubox/blob.h:46-55 | every byte of an encoded attribute by position and value: header word and name length in network byte order, name, terminating zero, aligned data, padding |
| `BlobFormat.NameReads` | libubox/blobmsg.h:78-106 | a name header reads back as the name, with the data right behind it |
| `BlobFormat.EncReads` | libubox/blob.h:83-123 | the accessors on an encoded attribute, whatever follows it |
| `BlobFormat.DecodeEnc` | libubox/blob.h:251-256 | decoding the encoding of any tree gives the tree, whatever follows it |
| `BlobFormat.WalkEnc` | libubox/blob.h:251-256 | iterating over encoded attributes visits exactly those, in order |
| `BlobParse.ParseUntrusted` | libubox/blob.c:223-292 | for any bytes: ends, reads only inside the declared length, each slot has the last attribute of its id that passes the policy with its type, lengths and validate callback, and the result counts the filled slots |
| `BlobParse.ParseAttr` | libubox/blob.c:223-267 | an attribute is accepted exactly if its id is known, it lies in what remains, and its data are as its type, length limits and callback demand; then it fills its slot and is counted if that was free |
| `BlobParse.VisitsInside` | libubox/blob.h:258-263 | every attribute the iteration visits lies inside the bytes given |
| `BlobParse.CheckAttrLen` | libubox/blobmsg.c:58-85 | accepts exactly if name and data lie inside the length, the name is terminated and the data have the length, or the zero at the end, that the type demands |
| `BlobParse.CheckType` | libubox/blob.c:192-221 | integers of types 4 to 7 have exactly 1, 2, 4 and 8 bytes, a double at least 8, a string ends in a zero, other known types any data |
| `BlobParse.CheckedMsg` | libubox/blobmsg.c:18-26 | types 4 to 7 of blobmsg are integers of 8, 4, 2 and 1 bytes, 8 a double, 3 a string; the others take any data |
| `BlobParse.MsgParse` | libubox/blobmsg.c:166-223 | succeeds exactly if every attribute is sound, and then each entry is the first attribute its policy takes |
| `BlobParse.TakesByName` | libubox/blobmsg.c:166-223 | a policy takes an attribute exactly if type and whole name agree and the name has fewer than 256 bytes |
| `BlobParse.GarbledRejected` | libubox/blobmsg.c:33-56 | an attribute built with a name of 65536 bytes or more does not pass the check |
| `BlobMessage.Parsed` | libubox/blobmsg.c:166-223 | a message that was built is accepted exactly if it has attributes and the data of each are as its type demands; then each policy entry gets the first attribute with its name and type |
| `BlobMessage.VisitsEnc` | libubox/blob.h:251-256 | the parser visits exactly the attributes that were built, and checks each of them |
| `BlobMessage.SoundAt` | libubox/blobmsg.c:58-85 | an encoded attribute passes the check exactly if its data are as its type demands |
| `BlobMessage.PlainMessage` | libubox/blob.c:269-292 | twelve literal bytes: a message of one plain attribute as it is built, and found again |
| `BlobMessage.NamedMessage` | libubox/blobmsg.c:166-223 | sixteen literal bytes: a message of one named integer as it is built, and what three policies get |
| `SafeList.SafeList.SetIterator` | libubox/safe_list.c:27-44 | the iterator hangs in the chain of the successor, all chains stay well linked |
| `SafeList.SafeList.DelIterator` | libubox/safe_list.c:46-52 | the iterator leaves its chain, all chains stay well linked |
| `SafeList.SafeList.Begin` | libubox/safe_list.c:70-72 | an iteration starts at the first entry while others may be running |
| `SafeList.SafeList.Advance` | libubox/safe_list.c:73 | the next visited entry is in the list now; every running iteration stays faithful |
| `SafeList.SafeList.Finish` | libubox/safe_list.c:79-80 | an iteration that ran to the end visited every entry that was there throughout, once and in order |
| `SafeList.SafeList.Add` | libubox/safe_list.c:83-93 | adding at either end keeps every running iteration faithful |
| `SafeList.SafeList.Del` | libubox/safe_list.c:95-121 | deleting keeps every running iteration faithful: those about to visit the entry will visit its successor |
| `SafeList.DeleteStory` | libubox/safe_list.c:95-121 | what an iteration visited and will visit, among the entries that stay, is unchanged by a deletion |
| `SafeList.AdvanceStory` | libubox/safe_list.c:73 | advancing moves one entry from ahead to visited |
| `SafeList.RehangAll` | libubox/safe_list.c:106-120 | the chain of a deleted entry joins that of its successor, and every iterator is in the chain of the entry it will visit |
| `Ustream.BufList.FreeHead` | libubox/ustream.c:174-193 | dropping or recycling the first buffer leaves the contents of the others |
| `Ustream.BufList.PrepareBuf` | libubox/ustream.c:250-284 | compaction and allocation keep the contents; fails exactly if all buffers exist and the one being filled is full |
| `Ustream.BufList.Consume` | libubox/ustream.c:214-240 | drops exactly the first bytes, over any number of buffers |
| `Ustream.BufList.FillRead` | libubox/ustream.c:301-326 | the bytes that were read into the room behind the data become data, over any number of buffers |
| `Ustream.BufList.WriteBuffered` | libubox/ustream.c:413-438 | appends a prefix of the data; a shorter one only if nothing more fits |
| `Ustream.Stream.Write` | libubox/ustream.c:440-463 | bytes handed to the implementation followed by those buffered are all accepted bytes, in order, whatever part of them the implementation takes |
| `Ustream.Stream.WritePending` | libubox/ustream.c:372-411 | hands on buffered bytes in order; returns true exactly if none are left |
| `Ustream.Stream.Reserve` | libubox/ustream.c:286-299 | gives room exactly if there is some, for a positive length exactly if the list is not full, and blocks the reader otherwise; a blocked reader has data to consume |
| `Ustream.Stream.Receive` | libubox/ustream.c:301-326 | received bytes are queued behind those not delivered yet |
| `Ustream.Stream.Read` | libubox/ustream.c:345-363 | delivers the oldest bytes, as many as fit or there are |
| `Ustream.ContentsGrow` | libubox/ustream.c:424-434 | bytes written behind the data of the last buffer in use come last |
| `Timers.TvDiffBounds` | libubox/uloop.c:263-268 | the difference is off by less than a millisecond, too small or too large depending on which has more microseconds |
| `Timers.NotTransitive` | libubox/uloop.c:263-268 | the comparison it induces is not transitive |
| `Timers.TimerQueue.Add` | libubox/uloop.c:270-289 | refuses exactly a pending timer; the queue stays sorted to within a millisecond |
| `Timers.TimerQueue.Set` | libubox/uloop.c:300-318 | the timer is due exactly that many milliseconds from now, for negative numbers too |
| `Timers.TimerQueue.Cancel` | libubox/uloop.c:320-329 | removes exactly a pending timer, the others keep their order |
| `Timers.TimerQueue.Remaining` | libubox/uloop.c:351-361 | the remaining time to within a millisecond |
| `Timers.TimerQueue.GetNextTimeout` | libubox/uloop.c:508-527 | how long to sleep so that no timer is missed by two milliseconds |
| `Timers.TimerQueue.ProcessNext` | libubox/uloop.c:529-548 | a timer fires less than a millisecond early; after a completed pass none is overdue by a millisecond |
| `Timers.InsertNearly` | libubox/uloop.c:278-286 | insertion before the first timer that is a whole millisecond later keeps the queue sorted to within a millisecond |
| `Timers.FirstSuffices` | libubox/uloop.c:538-543 | if the first timer is not due, none is overdue by a millisecond |
| `Runqueue.Queue.Add` | libubox/runqueue.c:148-179 | the task joins exactly one list with its flags set, and the start timer is armed |
| `Runqueue.Queue.StartRound` | libubox/runqueue.c:42-70 | starts the first pending task exactly if the queue is not stopped and has no limit or fewer active tasks than it; a loop ends only where that fails; the limit holds if no task was added as running; emptiness is noticed exactly then |
| `Runqueue.Queue.EmptyFires` | libubox/runqueue.c:23-29 | the empty callback is only called when both lists are empty |
| `Runqueue.Queue.CompleteBegin` | libubox/runqueue.c:216-233 | the task leaves its list with all its flags and its timer cleared, and the count of running tasks stays right |
| `Runqueue.Queue.CompleteEnd` | libubox/runqueue.c:234-235 | the start timer is armed again unless the queue is empty |
| `Runqueue.Queue.Cancel` | libubox/runqueue.c:120-135 | a pending task completes, a running one is marked, others are left alone |
| `Runqueue.Queue.TaskTimeout` | libubox/runqueue.c:137-146 | only timers of running tasks fire; a cancelled task is killed |
| `Runqueue.Queue.Resume` | libubox/runqueue.c:210-214 | arms the start timer unless the queue is empty |
| `Runqueue.Queue.CancelBegin` | libubox/runqueue.c:97-100 | the iteration over the pending tasks starts by completing the first; other iterations keep track of what they passed |
| `Runqueue.Queue.CancelNext` | libubox/runqueue.c:82-100 | the iteration completes the task it is about to visit; at its end exactly the tasks added where it had passed are pending, whatever callbacks did |
| `Runqueue.TrackAdd` | libubox/safe_list.c:83-93 | a task is added where an iteration has passed exactly if it is added at the front or the iteration is about to end |
| `Runqueue.TrackDel` | libubox/safe_list.c:95-121 | a deletion takes the task, and nothing else, from what an iteration has passed |
| `Runqueue.Queue.KillEnd` | libubox/runqueue.c:108-118 | the tasks left behind are exactly those added where the cancellation had passed, if the queue is not stopped, has room and no call is under way around the kill; none are pending if none was added during the kill |
| `Runqueue.Queue.StuckExactly` | libubox/runqueue.c:73-80 | in every state of a queue that is not stopped, has no limit or fewer active tasks than it, and has no call under way: nothing will start a pending task exactly if a kill left it behind |
| `Runqueue.Queue.KillAll` | libubox/runqueue.c:108-118 | with callbacks that leave the queue alone, killing ends with both lists empty and leaves nothing behind |
| `Runqueue.KillStrands` | libubox/runqueue.c:108-118 | runs in which killing leaves a task behind, added at the front or at the end |
| `Md5Rounds.FormsF` | libubox/md5.c:66 | the optimized F is that of section 3.4 of RFC 1321 |
| `Md5Rounds.FormsG` | libubox/md5.c:67 | the optimized G is that of section 3.4 of RFC 1321 |
| `Md5Rounds.StepFIs` | libubox/md5.c:75-78 | the step macro computes what section 3.4 says for an operation |
| `Md5Rounds.Round1` | libubox/md5.c:126-142 | the first sixteen unrolled steps are operations 1 to 16 with their words, shifts and constants |
| `Md5Rounds.Round2` | libubox/md5.c:144-160 | the same for operations 17 to 32 |
| `Md5Rounds.Round3` | libubox/md5.c:162-178 | the same for operations 33 to 48, with both forms of H |
| `Md5Rounds.Round4` | libubox/md5.c:180-196 | the same for operations 49 to 64 |
| `Md5.Context.Body` | libubox/md5.c:104-212 | compresses every block in turn into the registers |
| `Md5.Counting` | libubox/md5.c:230-233 | lo and hi together are the byte count modulo 2^61, with the carry taken where the low part wraps |
| `Md5.Context.Hash` | libubox/md5.c:225-257 | the context represents the message so far: registers from its whole blocks, buffer with the rest, counters with its length |
| `Md5.PadSplit` | libubox/md5.c:264-287 | padding after sections 3.1 and 3.2 is the rest of the message with one or two more blocks |
| `Md5.Context.End` | libubox/md5.c:259-309 | returns the digest of the message after RFC 1321, the registers in order with low-order bytes first, and clears the context |
| `Md5.Md5Sum` | libubox/md5.c:311-336 | for any way to cut a message into chunks the result is the digest of the message |
| `Md5.DigestGives` | libubox/md5.c:291-306 | the digest is the four registers in their order, each with its low-order byte first |
| `Md5Known.Empty` | libubox/md5.c:214-309 | the digest of the empty message is the one of appendix A.5 of RFC 1321 |
| `Md5Known.Abc` | libubox/md5.c:214-309 | the digest of "abc" is the one of appendix A.5 of RFC 1321 |
| `Base64.Encode` | libubox/base64.c:139-195 | succeeds exactly if 4 * ceil(n / 3) is less than the target's size, and then writes the encoding and a zero |
| `Base64.Decode` | libubox/base64.c:203-334 | succeeds exactly if the text without whitespace is the encoding of bytes that fit the target, and then writes those bytes |
| `Base64.Take` | libubox/base64.c:228-274 | one character of the alphabet takes the decoder one state on, or nothing that begins so fits the target |
| `Base64.Finish` | libubox/base64.c:282-318 | padding is accepted exactly if it completes an encoding with no bits left over |
| `Base64.EncInjective` | libubox/base64.c:139-195 | different bytes have different encodings |
| `Base64.Alphabet` | libubox/base64.c:72-73 | each of the 64 values has the character of table 1 of RFC 4648 |
| `Base64.GroupBits` | libubox/base64.c:150-170 | four groups of six bits are the 24 bits of three bytes, in order |
| `Base64.Vectors` | libubox/base64.c:139-195 | the encodings of "f", "fo", "foo" and "foobar" are those of section 10 of RFC 4648 |
| `Base64.Stripped` | libubox/base64.c:217-219 | exactly blanks, tabs, newlines, vertical tabs, form feeds and carriage returns are skipped |
| `Base64.RoundTrip` | libubox/base64.c:203-334 | an encoding is decodable exactly into targets of at least the size of the bytes, and to those bytes only |
| `Patterns.StrMatchLen` | ubus/ubus_common.h:22-29 | tells equality and the number of characters in common |
| `Patterns.PastMatches` | ubus/ubusd_event.c:152-164 | once a sorted key has less in common with the string than an earlier one, no later key is equal to it or a prefix of it |
| `Patterns.LeqIs` | libubox/avl-cmp.c:25-29 | strings are ordered by the first character in which they differ, a prefix before what it begins |
| `Acl.Check` | ubus/ubusd_acl.c:89-167 | allows exactly what some entry of the whole, unsorted list allows |
| `Acl.MatchCred` | ubus/ubusd_acl.c:74-84 | an entry is for its user or for its group |
| `Acl.ReplyAdd` | ubus/ubusd_acl.c:480-529 | reports exactly the matching entries with private data, in order |
| `Events.EventTable.SendEvent` | ubus/ubusd_event.c:140-183 | sends exactly the expected messages, or nothing without permission |
| `Events.EventTable.ScanPatterns` | ubus/ubusd_event.c:157-177 | the scan with its early exit sends what a scan of all patterns would |
| `Events.EventTable.SendEventMsg` | ubus/ubusd_event.c:111-138 | an object is sent an event at most once, and never its own client's |
| `Events.ReceiversAre` | ubus/ubusd_event.c:111-183 | the receivers are exactly the objects of other clients with a matching pattern, each once |
| `Events.EventTable.constructor` | ubus/ubusd_event.c:266-272 | an initialized table has no patterns and satisfies the invariant |
| `Events.EventTable.AllocEventPattern` | ubus/ubusd_event.c:56-109 | the status for every request; on success the pattern is in the sorted tree and on its object's list, with the star that the byte before an empty pattern may give it |
| `Events.StemIs` | ubus/ubusd_event.c:86-91 | exactly a star at the end of a pattern is taken off and makes it match all that begins so |
| `Events.EventTable.CleanupObject` | ubus/ubusd_event.c:36-43 | exactly the object's patterns are gone from tree and list |
| `Broker.Tables.Subscribe` | ubus/ubusd_obj.c:172-188 | the subscription is on both lists; the owner is told exactly about the first |
| `Broker.Tables.Unsubscribe` | ubus/ubusd_obj.c:190-200 | the subscription is off both lists; the owner is told exactly about the last |
| `Broker.Tables.CreateObject` | ubus/ubusd_obj.c:129-170 | succeeds exactly if publishing is allowed and the path is free; otherwise objects, types, paths and clients are as they were |
| `Broker.Tables.CreateUntitled` | ubus/ubusd_obj.c:103-141 | the reference dance around a new object leaves each type counting its objects |
| `Broker.Tables.FreeObject` | ubus/ubusd_obj.c:202-225 | exactly the object, the subscriptions from and to it and its event patterns are gone, all tables agree, its subscribers are told, and the event about it is not sent to it |
| `Broker.Tables.RemoveEvents` | ubus/ubusd_obj.c:213-216 | the patterns go before the removal is announced, so the announcement does not go to the object |
| `Broker.Tables.PatternsLive` | ubus/ubusd_obj.c:202-225 | in every state every event pattern names an object that is there |
| `Broker.Tables.constructor` | ubus/ubusd_obj.c:227-235 | the initial tables satisfy the invariant |
| `Broker.RemoveTyped` | ubus/ubusd_obj.c:21-35 | dropping a reference removes a type exactly with its last object |
| `Broker.Tables.RemoveObject` | ubus/ubusd_proto.c:116-141 | the status for every request; only the owner can remove an object; the reply names the type exactly if it goes with the object |
| `Broker.Tables.AddWatch` | ubus/ubusd_proto.c:439-469 | the status for every request; a subscription is added exactly on success |
| `Broker.Tables.RemoveWatch` | ubus/ubusd_proto.c:471-497 | one subscription to the target ends, exactly if there is one |
| `Broker.Tables.FreeClient` | ubus/ubusd_proto.c:600-613 | exactly the client's objects, the subscriptions from and to them and their event patterns are gone, and nothing refers to them |
| `Broker.Tables.AllocEventPattern` | ubus/ubusd_event.c:56-109 | registering a pattern keeps all tables in agreement |
| `Broker.Tables.ForwardEvent` | ubus/ubusd_event.c:209-229 | the status for every request; an event goes to the owners of live objects of other clients only |
| `Client.Context.ReceiveObject` | ubus/libubus.c:92-118 | a message for an object is passed on at once exactly if nothing is under way, else queued; a running handler's data is untouched |
| `Client.Context.QueueMsg` | ubus/libubus.c:76-90 | the queued copy is the message, behind all queued before |
| `Client.Context.PendingStep` | ubus/libubus.c:120-134 | passes on the oldest queued message, and none while something is under way |
| `Client.Context.PendingTimer` | ubus/libubus.c:120-134 | the timer is swallowed exactly if messages are queued and no call under way will pass them on |
| `Client.OnlyInRequest` | ubus/libubus.c:120-127 | that takes a registered context and a synchronous request not made by a handler |
| `Client.Context.AllocMsgBuf` | ubus/libubus-io.c:240-269 | afterwards the message fits; the handler's data and queued messages are untouched |
| `Client.Context.GetNextMsg` | ubus/libubus-io.c:271-310 | the message is in the receive buffer, which is never a running handler's |
| `Client.Context.ReceiveCut` | ubus/libubus-io.c:296-307 | a message that is cut short is not passed on, and the handler's data is untouched |
| `Client.Context.HandleDone` | ubus/libubus-io.c:312-333 | when ubus_handle_data returns at the bottom, everything that arrived was passed on |
| `Client.Context.StartOwn` | ubus/libubus-obj.c:115-150 | the receive buffer is handed over to the handler |
| `Client.Context.HandlerReturn` | ubus/libubus-obj.c:150-158 | the handler's buffer is freed or becomes the receive buffer again; every block has exactly one owner |
| `Client.Context.RequestEnd` | ubus/libubus-req.c:172-174 | an outer poll is cancelled when a nested request ends |
| `Client.Context.RequestFinish` | ubus/libubus-req.c:179-186 | without uloop, queued messages are passed on when the outermost request ends |
| `Client.Context.Guarantees` | ubus/libubus.c:92-134 | in every reachable state: passed on is a prefix of arrived and the rest is queued in order; at most one handler runs and its data is its own message's; something will pass on what is queued exactly unless the timer was swallowed |
| `Client.TimerSwallowed` | ubus/libubus-req.c:183-184 | a run after which a queued message has nothing to pass it on |
| `JsonScript.EvalString` | libubox/json_script.c:427-495 | the loop computes the text with references replaced, or finds one unclosed |
| `JsonScript.EvalDoubled` | libubox/json_script.c:427-495 | text with every percent sign doubled evaluates to itself |
| `JsonScript.EvalVariable` | libubox/json_script.c:458-488 | a name between percent signs stands for the value of the variable, and for nothing if there is none |
| `JsonScript.EvalOpen` | libubox/json_script.c:445-495 | text without percent signs stands for itself; with a single one there is an error |
| `JsonScript.EqAnswers` | libubox/json_script.c:231-274 | "eq" and "regex" are true exactly if the variable is set and equal to, or matched by, the text or one of the texts |
| `JsonScript.EqOdd` | libubox/json_script.c:248-265 | an element that is not text is reported exactly if none before it fits |
| `JsonScript.HasAnswers` | libubox/json_script.c:276-304 | "has" is true exactly if the variable, or one of them, is set |
| `JsonScript.HasOdd` | libubox/json_script.c:289-303 | an element that is not text is reported exactly if no variable before it is set |
| `JsonScript.IsDirAnswers` | libubox/json_script.c:353-375 | "isdir" asks about the path with its variables filled in |
| `JsonScript.MissingAnswers` | libubox/json_script.c:237-239 | an expression without its arguments is an error that is not reported |
| `JsonScript.UnknownAnswers` | libubox/json_script.c:406-425 | an unknown expression goes to the callback and is an error |
| `JsonScript.AndOrAnswers` | libubox/json_script.c:306-336 | "and" is true exactly if all operands are, "or" false exactly if all are; otherwise the first that is not decides |
| `JsonScript.DeMorgan` | libubox/json_script.c:306-351 | not(and(xs)) is or(not xs), errors included |
| `JsonScript.DeMorganReports` | libubox/json_script.c:306-351 | the two forms report the same exactly if no operand that is reached is something other than an array |
| `JsonScript.Run` | libubox/json_script.c:75-92 | a run ends for any files, including circles; each file is entered at most once in it |
| `JsonScript.EnteredOnce` | libubox/json_script.c:75-92 | the files entered in a run are different, and were not entered before in it |
| `JsonScript.IfBranches` | libubox/json_script.c:133-161 | a true condition runs exactly the first branch, a false one exactly the second if there is one, an error none; what the condition reports comes before |
| `JsonScript.CaseSelects` | libubox/json_script.c:163-183 | "case" runs exactly the first entry named like the value of the variable |
| `JsonScript.CaseSkips` | libubox/json_script.c:163-183 | without a value or an entry for it "case" does nothing |
| `JsonScript.CommandRuns` | libubox/json_script.c:514-571 | any other command goes to the callback with its arguments filled in, or an unclosed reference in one of them is reported |
| `JsonScript.ParseFirst` | libubox/blobmsg.c:137-163 | elements before the first of the type wanted next are skipped |
| `JsonScript.NotABlock` | libubox/json_script.c:581-584 | anything but an array in the place of a block is reported |
| `JsonScript.NotEnteredAgain` | libubox/json_script.c:80-85 | a file that was entered in the run is only reported |
| `JsonScript.BlockGoesOn` | libubox/json_script.c:586-604 | behind commands that neither return nor abort a block goes on in the state they leave, errors or not |
| `JsonScript.DeadCode` | libubox/json_script.c:586-604 | what follows a return in a block has no effect |
| `JsonScript.ReturnLeavesAll` | libubox/json_script.c:573-605 | a return reached anywhere inside nested blocks, if branches and case entries ends the whole script: what stands behind it on any level has no effect |
| `JsonScript.ReturnStays` | libubox/json_script.c:185-205 | a script without a return of its own does not return, whatever it includes |
| `JsonScript.IncludeGoesOn` | libubox/json_script.c:190-205 | behind an include the including block goes on |
| `JsonScript.ChainGoesOn` | libubox/json_script.c:87-91 | a return in one script of a file does not keep the next from running |
| `JsonScript.ScriptsInTurn` | libubox/json_script.c:87-91 | the scripts of a file run one after the other, each in the state left by those before it |

## Left out

- Sockets, polling back ends, signals, processes and file descriptors: environment steps or not modelled.
- Allocation failure: allocation always succeeds; where `realloc` and `calloc` put things is arbitrary.
- The comparator of an AVL tree has to be a total order; `avl_blobcmp` and the one of libubus-acl are not.
- Integer widths, except where they matter: the 24-bit lengths and 8-bit name lengths of blobs, the 32-bit words and counters of MD5, bytes. Event and invoke counters, `file->seq` and timer values are unbounded.
- The string buffer functions of blobmsg, its typed accessors and printf functions: they add easy members.
- ustream: zero-termination of string data, notification callbacks, the freeing of buffers after a write error, and the printf functions.
- uloop: file descriptors and processes.
- runqueue: the process tasks; a cancelled or killed task's callbacks are steps of their own.
- ubusd: the transmit queue and queued lookups, monitors, loading of access control files, the contents of replies other than the type of a removed object, and the choice of ids, which are given as unused ones.
- Client: the bookkeeping of requests, the data passed to data callbacks (which is the receive buffer itself), and reconnecting.
- JsonScript: variables are looked up by a function and files are a finite map; an expression that is an empty array counts as one of unexpected type.
- kvlist, vlist, jshn, blobmsg_json, uci and the other programs of the repository.
