# libuv and simple_uv: verified models

Dafny models of the logic at the core of simple_uv and of the libuv 1.10 it
carries, with proofs of what that logic is for. `dafny verify dfyconfig.toml`
checks everything.

| file | models |
|---|---|
| RbShape, RbHeight, RbMemory, RbTree | the red-black tree macros of tree.h: shapes and contexts as values, their height, their layout in memory, the macros on linked nodes |
| SplayShape, SplayTree, SplayCost | the top-down splay macros of tree.h, in the same three layers, and their amortised cost |
| HeapShape, Heap | the pointer-linked complete binary heap of heap-inl.h |
| Inet4, Inet6, Inet6RoundTrip, Inet6Grammar, InetDigits | the address printer and parser of inet.c, their round trip, and the texts the parser accepts |
| ThreadPool, ThreadPoolSteps, ThreadPoolRuns, ThreadPoolOrder, ThreadPoolServes | threadpool.c as a state machine over critical sections: the actions and the invariant, its preservation, what holds in every interleaving, in which order requests are taken and reported, and that each can be |
| MsgFraming | length-prefixed messages over a byte stream, UVMsgFraming.cpp |
| Queue, LoopWatcher | the lists of queue.h and the handle passes of loop-watcher.c |
| Async, AsyncRuns | the cross-thread wakeups of async.c as a state machine over atomic operations, and what holds over whole runs |
| FdRemap | the descriptor remapping of a spawned child, process.c |
| Socks5, Socks5Verdicts | the incremental SOCKS5 parser s5.c, what it makes of what a client sends, and of any bytes |
| CircularBuffer | the ring buffer of PodCircularBuffer.h |
| Relay | the relay phase of the SOCKS proxy, client.c |
| ThreadMsg, Registry, Inbox | simple_uv's message lists, its replicated thread registry, and the two joined for one thread |
| PowerOfTwo, WatcherTable | the watcher table of core.c and the part of uv__io_poll that relies on it |
| Sequences | what several modules need about sequences |

Code that changes objects in place is a class with those fields here, and its
loops are loops; the protocols between threads are state machines whose
actions are the critical sections or atomic operations of the source. Memory
is related to values by snapshots: a map from every node to its link fields.
The mirrored halves of the tree macros are one text with a direction
parameter, `d`, false for left.

What the proofs brought to light about the code:

- RB_REMOVE_COLOR never dereferences a null sibling, and the test
  `child == heap->min` in heap_remove never holds, because cutting the last
  node off has cleared heap->min already.
- In inet_ntop6 the seven-word alternative of the embedded-IPv4 test is never
  decisive: a seven-word run covers the words it is asked for.
- A SOCKS5 greeting without methods, or an empty user name, password or host
  name, makes the parser consume one byte too many; everything else that is well
  formed decodes. A BIND request is a bad command to the parser, so what client.c
  does about one is never reached.
- If a relay session is killed while a write has succeeded or failed and its
  callback has not run, libuv later reports that result, not UV_ECANCELED, and
  the assertion in conn_write_done fails; in every other case all four close
  callbacks come. They leave the session dead, except that a connect which fails
  at once after a name lookup starts the teardown one stage too early, so that
  the session is never freed. The second do_kill in do_proxy is never reached.
- Registering a second thread under a type that is taken leaves the copies with
  the first one exactly until the type is unregistered. A thread that exits
  unregisters its type, whoever has it, and empties its copy, but not its
  messages: registered again, it believes a registration left there, be it wrong
  by now.
- After a read error with part of a message pending, uv_stream_msg_read has
  released the buffer and still counts the bytes; the stream cannot be read on.
- With descriptor INT_MAX - 1, which the assertions of uv__io_start allow, the
  size computed by maybe_resize wraps to zero slots.
- The descriptor on which a child reports errors survives the remapping
  exactly if no slot with a source, and no standard slot, has its number. An
  unused slot of the child that was closed ends as /dev/null exactly if it is
  among the k lowest unused descriptors from 3 on, where k is the number of
  standard slots without a source if 0, 1 and 2 were open.
- SPLAY_REMOVE returns its argument even when the node it unlinks is another
  one with the same key.

## Model

| member | source | states |
|---|---|---|
| RbTree.Tree.Insert | src/libuv/include/tree.h:597-626 | keeps the whole invariant (parent links consistent, keys in order, no red node with a red child, equal black height, black root); a key that is present is returned and nothing at all changes, otherwise the node set grows by exactly the new node |
| RbTree.Tree.Remove | src/libuv/include/tree.h:530-595 | keeps the whole invariant and takes exactly the given node out of the node set; that node is returned |
| RbTree.Tree.Find | src/libuv/include/tree.h:628-644 | finds the node with the key, or no node of the tree has it |
| RbTree.Tree.Search | src/libuv/include/tree.h:601-614 | the search loop ends at the node with the key or at the one empty link where the key belongs, with all smaller keys before it and all greater ones after it |
| RbTree.Tree.RotateAt | src/libuv/include/tree.h:342-380 | the pointer writes of both rotations have exactly the effect on memory of re-linking the three nodes, parent links and root included |
| RbTree.Tree.Turn | src/libuv/include/tree.h:342-380 | a rotation anywhere in the tree turns one shape of linked nodes into the other and leaves the rest of the tree as it was |
| RbMemory.FocusRotate | src/libuv/include/tree.h:342-380 | the memory effect of a rotation, for every context and every pair of subtrees, including empty ones and the root |
| RbShape.TurnInOrder | src/libuv/include/tree.h:342-380 | a rotation does not change the order of the nodes |
| RbTree.Tree.InsertColour | src/libuv/include/tree.h:407-449 | the repair loop terminates, ends with a balanced tree and never changes the order of the nodes |
| RbTree.Tree.PushRedUp | src/libuv/include/tree.h:415-420 | the red-uncle case recolours exactly parent, uncle and grandparent |
| RbTree.Tree.FixRedParent | src/libuv/include/tree.h:411-447 | one pass of the insertion loop, with left and right halves as one: it either ends balanced or moves the red node two levels up with the order of the nodes unchanged |
| RbTree.Tree.RemoveColour | src/libuv/include/tree.h:451-528 | from a tree one black node short above the given, possibly null, child, the loop terminates in a balanced tree with the same order |
| RbTree.Tree.FixShort | src/libuv/include/tree.h:456-525 | one pass of the removal loop: the sibling it dereferences is never null, and it either ends balanced or moves the shortage up |
| RbTree.Tree.TurnRedSibling | src/libuv/include/tree.h:460-464 | the red-sibling case makes the sibling the grandparent and keeps the shortage where it was |
| RbTree.Tree.TurnNearNephew | src/libuv/include/tree.h:473-482 | the black-far-nephew case gives the node a black sibling with a red far child |
| RbTree.Tree.TurnFarNephew | src/libuv/include/tree.h:483-489 | the red-far-nephew case ends with a balanced tree and the same order |
| RbTree.Tree.PaintSibling | src/libuv/include/tree.h:465-471 | the two-black-nephews case moves the shortage to the parent, or ends it if the parent was red |
| RbShape.NearNephew | src/libuv/include/tree.h:473-482 | the rotation of the near nephew keeps black heights and order |
| RbShape.FarNephew | src/libuv/include/tree.h:483-489 | after the rotation with the far nephew every path has its black node back |
| RbTree.Tree.Splice | src/libuv/include/tree.h:578-590 | the lines that put a child in the place of a node with at most one child, for every position of the node |
| RbTree.Tree.Successor | src/libuv/include/tree.h:540-544 | the walk reaches the leftmost node of the right subtree, and where it stands in the tree |
| RbTree.Tree.Supplant | src/libuv/include/tree.h:559-570 | the successor takes over place, children, parent and colour of the removed node |
| RbTree.Tree.RemoveDeep | src/libuv/include/tree.h:539-576 | removal of a node with two children, including the successor that is the node's own right child |
| RbShape.SuccessorOrder | src/libuv/include/tree.h:539-576 | with the successor moved, the order of the nodes is the old one without the removed node |
| RbShape.InsertSpot | src/libuv/include/tree.h:603-620 | a new node at the spot the search found keeps the keys sorted and is the only change to the sequence |
| RbShape.PlugColoured | src/libuv/include/tree.h:53-58 | a subtree of the right black height and root colour makes the whole tree obey the colour rules |
| RbHeight.HeightBound | src/libuv/include/tree.h:60-61 | the height of a balanced tree of n nodes is at most 2 log (n + 1) |
| SplayTree.Tree.Splay | src/libuv/include/tree.h:209-242 | terminates, keeps nodes and order, and parts the tree at the key: smaller keys left of the root, greater ones right, so a node with the key can only be the root; the shape is the one the turns make, and their number is counted |
| SplayTree.Tree.Descend | src/libuv/include/tree.h:218-239 | one turn of the loop rotates exactly if the search goes on in the same direction, then links; it keeps the order of left tree, middle tree and right tree together, and gets closer to the key |
| SplayTree.Tree.Rotate | src/libuv/include/tree.h:87-98 | the rotation in the middle tree, in the memory that also holds the two partial trees |
| SplayTree.Tree.Link | src/libuv/include/tree.h:100-110 | the root and one subtree move into the partial tree at the node whose free link is passed |
| SplayTree.Tree.Join | src/libuv/include/tree.h:112-117 | the four assembling writes put the three trees together, also when a partial tree is empty and its end is the header |
| SplayShape.AssembleInOrder | src/libuv/include/tree.h:112-117 | assembling keeps the order of the nodes |
| SplayShape.LinkInOrder | src/libuv/include/tree.h:100-110 | linking keeps the order of the nodes |
| SplayShape.RotateInOrder | src/libuv/include/tree.h:87-98 | rotating keeps the order of the nodes |
| SplayShape.LayoutAssemble | src/libuv/include/tree.h:112-117 | the memory effect of the four writes, for all partial trees |
| SplayTree.PartedFind | src/libuv/include/tree.h:160-162 | a node with the key is the root once the tree is parted at the key |
| SplayTree.Tree.Find | src/libuv/include/tree.h:127-137 | returns the node with the key, at the root, or none has it; order and nodes stay |
| SplayTree.Tree.FindAll | src/libuv/include/tree.h:127-137 | any sequence of look-ups answers each correctly, and the turns of all of them are within the bound |
| SplayTree.Tree.Accesses | src/libuv/include/tree.h:49-52 | any m look-ups and insertions take at most 4 m log (n + 1) turns in all, besides the potential there was at the beginning, which for an empty tree is none; n is the number of nodes in the end |
| SplayCost.PlacePays | src/libuv/include/tree.h:173-186 | an insertion above the root adds at most log (n + 2) to the potential |
| SplayTree.Tree.Insert | src/libuv/include/tree.h:164-186 | returns the node that has the key already, changing only the shape, or makes the new node the root and adds exactly it |
| SplayTree.Tree.Remove | src/libuv/include/tree.h:188-207 | takes out exactly the node with the key, if there is one; what is returned is the argument, not the removed node |
| SplayTree.Tree.SplayMinMax | src/libuv/include/tree.h:244-278 | brings the least or greatest node to the root and keeps the order, by the same turns |
| SplayCost.SplayPays | src/libuv/include/tree.h:209-242 | two to the number of turns, times the product of all subtree sizes after a splay, is at most that product before times (n + 1) cubed: an amortised 3 log (n + 1) turns |
| SplayCost.RunBound | src/libuv/include/tree.h:49-52 | any m splays of any tree of n nodes take at most (n + 3 m) log (n + 1) turns in all, whatever is looked for |
| SplayCost.Affords | src/libuv/include/tree.h:209-242 | from any node on: the turns below and the potential of the two parts are paid by the potential of the subtree and twice the logarithm of its size |
| SplayCost.Owes | src/libuv/include/tree.h:209-242 | where the search turns after one level, the turn not yet paid for is saved below |
| SplayTree.Tree.MinMax | src/libuv/include/tree.h:153-158 | the first or last node in order, or null |
| SplayTree.Tree.Next | src/libuv/include/tree.h:139-151 | the node after the given one in order, or null after the last |
| SplayTree.Tree.Each | src/libuv/include/tree.h:292-295 | visits every node exactly once, in order |
| MinHeap.Heap.Insert | src/libuv/src/heap-inl.h:106-148 | keeps the tree complete, heap ordered and parent links consistent; the nodes are the old ones and the new one |
| MinHeap.Heap.Remove | src/libuv/src/heap-inl.h:150-237 | keeps the same for any node of the heap; exactly that node is gone; an empty heap is left alone |
| MinHeap.Heap.RemoveNode | src/libuv/src/heap-inl.h:160-237 | removal from a heap that is not empty, in all cases: the last node, the root, a node whose replacement goes down or up |
| MinHeap.Heap.Dequeue | src/libuv/src/heap-inl.h:239-241 | removes exactly the root |
| MinHeap.Drain | src/libuv/src/heap-inl.h:239-241 | taking the minimum until the heap is empty gives all its nodes in key order |
| MinHeap.RootLeast | src/libuv/src/heap-inl.h:33-35 | no key of the heap is below the key of the root |
| MinHeap.Heap.NodeSwap | src/libuv/src/heap-inl.h:72-104 | the pointer writes trade two neighbours' places in level order, for every parent, sibling and child situation |
| HeapShape.SwapComplete | src/libuv/src/heap-inl.h:72-104 | the swapped memory is the complete tree with the two positions exchanged |
| MinHeap.PathTo | src/libuv/src/heap-inl.h:119-126 | the bits of the number are the path from the root |
| MinHeap.Heap.Slot | src/libuv/src/heap-inl.h:119-136 | the bit path of n ends at the link of the n-th position in level order |
| MinHeap.Heap.AppendLast | src/libuv/src/heap-inl.h:119-141 | the new node becomes the last of the complete tree |
| MinHeap.Heap.CutLast | src/libuv/src/heap-inl.h:163-187 | the walk finds the last node of the complete tree and unlinks it |
| MinHeap.Heap.SiftUp | src/libuv/src/heap-inl.h:143-147 | restores the order upwards, keeps the nodes and the complete shape |
| MinHeap.Heap.SiftDown | src/libuv/src/heap-inl.h:216-229 | restores the order below the node, which then may still be less than its parent |
| MinHeap.Heap.FillGap | src/libuv/src/heap-inl.h:189-236 | the cut-off node replaces the removed one and goes down, then up, to a place in order |
| MinHeap.Heap.Supplant | src/libuv/src/heap-inl.h:195-214 | the node takes the place of the removed one in all links |
| HeapShape.SiftUpStep | src/libuv/src/heap-inl.h:143-147 | one swap upwards moves the only disorder one level up |
| HeapShape.SiftDownStep | src/libuv/src/heap-inl.h:220-229 | one swap with the smaller child moves the only disorder one level down |
| Inet6RoundTrip.RoundTrip | src/libuv/src/inet.c:68-154 | for every 16 bytes, parsing the printed text gives the bytes back: plain, compressed and embedded-IPv4 forms |
| Inet6RoundTrip.PrintThenParse | src/libuv/src/inet.c:225-309 | the same for the two routines run one after the other on a 46-character buffer |
| Inet6.Ntop6 | src/libuv/src/inet.c:68-154 | writes the text for the leftmost longest run of at least two zero words and a NUL, or fails with UV_ENOSPC exactly if they do not fit and writes nothing; the local buffer suffices |
| Inet6.BestRun | src/libuv/src/inet.c:86-111 | finds the leftmost of the longest runs of zero words, or none if no run has two words |
| Inet6.Format | src/libuv/src/inet.c:113-146 | the text of the eight words with the run as `::` and the last two words dotted where an embedded address is recognised |
| Inet6.PrintWord | src/libuv/src/inet.c:116-140 | what one word contributes to the text |
| Inet6.SevenNeverDecides | src/libuv/src/inet.c:130-132 | the text is the same without the seven-word case of the test |
| Inet6.Pton6 | src/libuv/src/inet.c:225-309 | computes the scan function on every string, the language and values of which Inet6Grammar states |
| Inet6Grammar.Accepts6 | src/libuv/src/inet.c:225-309 | a text is accepted with address a if and only if it is a written with groups of one to four digits from the two tables, valued by their places there and stored high byte first, the last two groups perhaps dotted, and perhaps one `::` for the zeros of at least one group |
| Inet6Grammar.Sound | src/libuv/src/inet.c:239-282 | from every token on: what the loop accepts has that form |
| Inet6Grammar.Complete | src/libuv/src/inet.c:239-307 | from every token on: one side of the `::`, or the whole text without it, is accepted with the bytes it says |
| Inet6Grammar.CompleteOpen | src/libuv/src/inet.c:239-307 | the same for a text with its `::` still to come |
| Inet6Grammar.Printed | src/libuv/src/inet.c:68-154 | what is printed for an address is one of the texts that describe it |
| InetDigits.HexValueExact | src/libuv/src/inet.c:226-250 | a character is worth its place in xdigits_l, or else in xdigits_u, and nothing if it is in neither |
| InetDigits.CaseIgnored | src/libuv/src/inet.c:225-309 | a text is read as its copy with A to F in lower case |
| InetDigits.DottedExactly | src/libuv/src/inet.c:68-154 | only 0 to 9, a to f, colons and dots are printed; the last four bytes are dotted if and only if ten zero bytes and two bytes ff come first, or twelve zero bytes and then not two more |
| InetDigits.HexNumeral | src/libuv/src/inet.c:139 | words are printed in lower-case hexadecimal without leading zeros, and worth what is printed |
| InetDigits.DecNumeral | src/libuv/src/inet.c:53-65 | octets are printed in decimal without leading zeros, and worth what is printed |
| Inet6.Finish | src/libuv/src/inet.c:283-307 | the word left over, the `::` and the length check behind the loop |
| Inet6.Shift | src/libuv/src/inet.c:289-304 | the overlapping in-place move puts the bytes after `::` at the end and zeros between |
| Inet6RoundTrip.TextRun | src/libuv/src/inet.c:113-146 | the printed text of an address with a zero run is left words, `::` and right words |
| Inet6RoundTrip.PlainTrip | src/libuv/src/inet.c:225-309 | round trip without a zero run |
| Inet6RoundTrip.RunTrip | src/libuv/src/inet.c:225-309 | round trip with a zero run anywhere, also at either end |
| Inet4.Inverse4 | src/libuv/src/inet.c:186-222 | the parser accepts a string with result a exactly if the string is what the printer gives for a |
| Inet4.Accepts4 | src/libuv/src/inet.c:186-222 | an accepted string is the canonical text of its four bytes; a rejected one is the text of no address |
| Inet4.Pton4 | src/libuv/src/inet.c:186-222 | computes that, with UV_EINVAL for everything else |
| Inet4.Ntop4 | src/libuv/src/inet.c:53-65 | writes the canonical text, padded with NULs as strncpy does, or UV_ENOSPC exactly if it does not fit; its 16-byte buffer suffices |
| Inet4.ScanSound | src/libuv/src/inet.c:191-219 | what has been scanned so far is canonical text: no leading zeros, no octet above 255 |
| Inet4.ScanComplete | src/libuv/src/inet.c:53-65 | every printed address is accepted with the same bytes |
| ThreadPoolSteps.NextInv | src/libuv/src/threadpool.c:64-238 | every action of submitters, workers, canceller and loops keeps the invariant |
| ThreadPoolRuns.RunInv | src/libuv/src/threadpool.c:64-238 | the invariant holds after every interleaving of any number of threads and loops |
| ThreadPoolRuns.OnePlace | src/libuv/src/threadpool.c:64-238 | a submitted request is in exactly one place, and in no list twice |
| ThreadPoolRuns.CancelVerdict | src/libuv/src/threadpool.c:192-238 | in every interleaving done fires at most once; 0 from cancel means the work never runs and done gets UV_ECANCELED, UV_EBUSY means a worker has taken the request, and is bound to run it, and done gets 0 |
| ThreadPoolRuns.CancelOutcome | src/libuv/src/threadpool.c:195-206 | cancel succeeds on exactly the requests no worker has taken |
| ThreadPoolRuns.NeverAborts | src/libuv/src/threadpool.c:56-58 | a worker never takes a cancelled request, so the function that aborts never runs |
| ThreadPoolRuns.NoLostWakeup | src/libuv/src/threadpool.c:70-113 | while work is queued and some worker has not exited, some worker is awake; no worker exits before the work queued ahead of the exit message was taken |
| ThreadPoolRuns.ExitStep | src/libuv/src/threadpool.c:79-92 | once the exit message is posted some worker can always move, and gets closer to the end |
| ThreadPoolRuns.ExitChain | src/libuv/src/threadpool.c:117-127 | the workers alone, in some order, run to its end every queued request submitted before the exit message, if there is a worker, and then all exit, each signalling the next |
| ThreadPoolOrder.TakenInOrder | src/libuv/src/threadpool.c:64-113 | in every interleaving requests are taken in the order of submission: once a worker has taken b, an earlier a has been taken, or is being or has been cancelled |
| ThreadPoolOrder.ReportedInOrder | src/libuv/src/threadpool.c:94-103 | in every interleaving requests of one loop are reported in the order in which they were finished |
| ThreadPoolOrder.FiresOwn | src/libuv/src/threadpool.c:210-238 | a loop calls done only for requests submitted to it |
| ThreadPoolOrder.InLineNext | src/libuv/src/threadpool.c:64-238 | no action lets a later request past an earlier one in the shared queue |
| ThreadPoolOrder.BehindNext | src/libuv/src/threadpool.c:64-238 | no action lets a request past a finished one in the queues of a loop |
| ThreadPoolServes.Served | src/libuv/src/threadpool.c:64-238 | from every reachable state the workers and one loop alone can bring any request to its callback, unless it was submitted after the exit message or there is no worker |
| ThreadPoolServes.CanCall | src/libuv/src/threadpool.c:186-208 | a thread that is not in the middle of a cancel can submit any new request, and can cancel any request of its loop exactly until it has been reported |
| MsgFraming.Session | src/simple_uv/UVMsgFraming.cpp:45-186 | for any messages and any split of their bytes into reads within the offered windows, the delivered messages are always a prefix of the sent ones, and all of them once the bytes have arrived |
| MsgFraming.UvMsg.OnRead | src/simple_uv/UVMsgFraming.cpp:127-186 | delivers exactly the complete messages; the buffer holds exactly the undelivered rest, moved to its front, or is released if there is none; nothing read changes nothing; an error is reported and releases the buffer, after which the stream can be read on if and only if no part of a message was pending |
| MsgFraming.ErrorMidMessage | src/simple_uv/UVMsgFraming.cpp:141-146 | an error after the first byte of a message is reported, and the stream cannot be read on |
| MsgFraming.UvMsg.Receive | src/simple_uv/UVMsgFraming.cpp:127-186 | one read of any data in terms of the bytes pending before and after |
| MsgFraming.UvMsg.Deliver | src/simple_uv/UVMsgFraming.cpp:158-174 | the delivery loop passes on exactly the complete messages in front, in order |
| MsgFraming.UvMsg.MoveDown | src/simple_uv/UVMsgFraming.cpp:176-178 | the memmove of the rest to the front |
| MsgFraming.UvMsg.Alloc | src/simple_uv/UVMsgFraming.cpp:83-125 | a window is offered unless alloc_cb gives too little; it starts behind the filled bytes, is not empty, lies inside the allocation and, once the header is there, ends with the message; alloc_cb is asked for 64 K, or for exactly the message |
| MsgFraming.UvMsg.Realloc | src/simple_uv/UVMsgFraming.cpp:71-81 | a larger buffer with the same filled bytes, or the old one untouched |
| MsgFraming.MsgSend | src/simple_uv/UVMsgFraming.cpp:45-58 | rejects only empty messages; the two buffers are the frame, and the header is the length with the most significant byte first |
| MsgFraming.HeaderOrder | src/simple_uv/UVMsgFraming.cpp:92-94 | the first of the four header bytes weighs most, and makes the size negative from 128 on |
| MsgFraming.ParseAppend | src/simple_uv/UVMsgFraming.cpp:158-174 | parsing does not depend on how the stream is cut up |
| MsgFraming.ParseWire | src/simple_uv/UVMsgFraming.cpp:45-58 | parsing the framed messages gives the messages and leaves nothing |
| MsgFraming.Delivered | src/simple_uv/UVMsgFraming.cpp:127-186 | a prefix of the stream delivers a prefix of the messages |
| Queue.Add | src/libuv/src/queue.h:52-59 | concatenation, also when either list is empty |
| Queue.Split | src/libuv/src/queue.h:61-70 | cuts the list at a node, which starts the new list |
| Queue.Move | src/libuv/src/queue.h:72-81 | the whole list gets a new head and the old one is empty |
| Queue.InsertAt | src/libuv/src/queue.h:83-99 | a node is put first or last, and nothing outside the list changes |
| Queue.Remove | src/libuv/src/queue.h:101-106 | exactly the node is taken out, wherever it is, and nothing outside the list changes |
| Queue.Init | src/libuv/src/queue.h:45-50 | an empty list |
| Queue.Empty | src/libuv/src/queue.h:39-40 | true exactly for the empty list |
| Queue.Head | src/libuv/src/queue.h:42-43 | the first node |
| Queue.AddList | src/libuv/src/queue.h:52-59 | the four writes link the ring of both lists |
| Queue.SplitList | src/libuv/src/queue.h:61-70 | the six writes give two rings |
| Queue.InsertList | src/libuv/src/queue.h:83-99 | the four writes link the node in |
| Queue.RemoveList | src/libuv/src/queue.h:101-106 | the two writes close the ring |
| LoopWatcher.Loop.Run | src/libuv/src/unix/loop-watcher.c:47-60 | a pass terminates, for all starts and stops the callbacks make; it calls the handles and leaves the list the sequence function of a pass says; active flags and lists agree throughout, and an active handle has a callback |
| LoopWatcher.PassExact | src/libuv/src/unix/loop-watcher.c:52-59 | a handle active at the start is called exactly if no callback stops it before its turn |
| LoopWatcher.PassOnce | src/libuv/src/unix/loop-watcher.c:52-59 | no handle is called twice, and none that a callback starts |
| LoopWatcher.PassAll | src/libuv/src/unix/loop-watcher.c:51-59 | without stops all are called, in order |
| LoopWatcher.PassKeeps | src/libuv/src/unix/loop-watcher.c:47-60 | a pass without starts and stops leaves the list in its order |
| LoopWatcher.Loop.Init | src/libuv/src/unix/loop-watcher.c:26-30 | a new handle is inactive and in no list, at any point of a pass |
| LoopWatcher.Loop.DoStart | src/libuv/src/unix/loop-watcher.c:32-39 | an inactive handle comes between the list head and what was first, and is active; 0 if active already, -EINVAL without a callback |
| LoopWatcher.Loop.StartThenRun | src/libuv/src/unix/loop-watcher.c:32-60 | handles started one after the other are called by the next pass in the reverse order of their starts |
| LoopWatcher.LastStartedFirst | src/libuv/src/unix/loop-watcher.c:32-60 | the same before handles that were active already, and in the passes after it |
| LoopWatcher.Loop.DoStop | src/libuv/src/unix/loop-watcher.c:41-46 | out of whichever list holds it, and inactive |
| LoopWatcher.StopKeepsOrder | src/libuv/src/unix/loop-watcher.c:41-46 | a stopped handle leaves its place in either list, and the others stay in order |
| LoopWatcher.Loop.Take | src/libuv/src/unix/loop-watcher.c:53-57 | the first waiting handle moves to the end of the loop's list; it is active and has a callback |
| LoopWatcher.Loop.Detach | src/libuv/src/unix/loop-watcher.c:51 | every active handle waits in the local list |
| Async.NextInv | src/libuv/src/unix/async.c:42-178 | every step of senders and loop keeps the invariant |
| Async.RunInv | src/libuv/src/unix/async.c:42-178 | it holds in every reachable state, for an eventfd and for a pipe |
| AsyncRuns.OpenExactly | src/libuv/src/unix/async.c:42-75 | a handle is in the loop's lists exactly from uv_async_init to uv_close, and has the callback it was given |
| AsyncRuns.CanSend | src/libuv/src/unix/async.c:60-69 | a thread outside uv_async_send can send to every handle in use, and one inside can always go on |
| AsyncRuns.CanOpenAndClose | src/libuv/src/unix/async.c:42-75 | a handle can be opened once, and closed exactly while it is in use |
| AsyncRuns.NoLostWakeup | src/libuv/src/unix/async.c:60-144 | in every run, when the loop waits and no sender of a pending handle in use is between its swap and its write, the descriptor is readable |
| AsyncRuns.Coalescing | src/libuv/src/unix/async.c:60-100 | callbacks and winning swaps match one to one, up to the one still pending; the assertion after the read loop holds |
| Async.SendDecided | src/libuv/src/unix/async.c:60-69 | whichever way a send ends, the handle was pending at the step that decided it |
| Async.ServedInPass | src/libuv/src/unix/async.c:78-100 | from any state of the invariant: an open, pending handle is served before the next pass is over |
| AsyncRuns.PassServes | src/libuv/src/unix/async.c:78-100 | in every run a handle in use that is pending gets its callback before the next pass is over, whatever other threads do |
| AsyncRuns.ServedAlone | src/libuv/src/unix/async.c:78-144 | wherever the loop thread is, it alone serves a pending handle whose senders have written, calls its callback once and gets back to waiting |
| AsyncRuns.LoopStep | src/libuv/src/unix/async.c:78-144 | the loop always has a next step: it reads the descriptor empty, then makes a pass, then waits |
| AsyncRuns.FirstPass | src/libuv/src/unix/async.c:53-91 | the first pass visits the handles in the order in which they were opened, without those closed |
| AsyncRuns.PassKeepsOrder | src/libuv/src/unix/async.c:85-91 | a pass in which nothing is opened or closed visits every handle once, in order, and leaves the list as it was |
| AsyncRuns.WritesCounted | src/libuv/src/unix/async.c:147-173 | between reads the descriptor holds one unit for each write, up to its capacity |
| AsyncRuns.NoCallAfterClose | src/libuv/src/unix/async.c:72-100 | no callback comes after a handle has been closed, not even for a wakeup already under way |
| Async.PassEnds | src/libuv/src/unix/async.c:85-99 | a pass visits no more handles than it found |
| FdRemap.ChildInit | src/libuv/src/unix/process.c:289-347 | for every source assignment, swaps and cycles included, slot i ends as the file its source was, without close-on-exec; standard slots without a source as /dev/null, other unused slots as they were or, exactly under the condition of UnusedSlot, as /dev/null; beyond the slots exactly the sources and the parent's ends are closed, and no copy is left; failure only when the table is full |
| FdRemap.DupLow | src/libuv/src/unix/process.c:293-302 | after the first loop the sources below their slot are copies beyond the slots, of the same files, and nothing else has changed |
| FdRemap.DupedReady | src/libuv/src/unix/process.c:289-302 | then every source is negative or at least its own slot |
| FdRemap.MapSlots | src/libuv/src/unix/process.c:304-340 | the second loop gives every slot its file: no source is overwritten or closed before it is used |
| FdRemap.NullStep | src/libuv/src/unix/process.c:308-322 | /dev/null never lands on a slot that is done |
| FdRemap.NullLands | src/libuv/src/unix/process.c:308-328 | one opening of /dev/null takes the next of the descriptors that were unused at the start |
| FdRemap.CloseSources | src/libuv/src/unix/process.c:342-347 | the third loop closes exactly the sources beyond the slots |
| FdRemap.Compose | src/libuv/src/unix/process.c:289-347 | the three loops together |
| FdRemap.Survives | src/libuv/src/unix/process.c:281-332 | a descriptor no slot names, such as the one errors are reported through, survives exactly if no slot with a source, and no standard slot, has its number |
| FdRemap.ErrorPipeLost | src/libuv/src/unix/process.c:281-332 | with standard descriptors, six descriptors of the loop and the pipe ends 9 and 10 open, and an eleventh slot that is used, the end that errors are written to becomes that slot's file |
| FdRemap.UnusedSlot | src/libuv/src/unix/process.c:304-340 | an unused slot from 3 on that was closed ends as /dev/null if and only if it is among the first k unused descriptors from 3 on; with the standard descriptors open, k is the number of standard slots without a source |
| FdRemap.NullLeft | src/libuv/src/unix/process.c:304-340 | with the same descriptors open, twelve slots and no source for slot 0, the unused slot 11 ends as /dev/null |
| Socks5.ChunkIndependent | src/libuv/samples/socks5-proxy/s5.c:53-239 | consuming a and then parsing b is parsing a and b together, whether or not the first call had enough |
| Socks5.Parser.Run | src/libuv/samples/socks5-proxy/s5.c:53-239 | the byte loop on the fields and buffers is the parse function, which the verdicts of Socks5Verdicts describe on any bytes; every store is inside its 257 bytes |
| Socks5.Parser.Feed | src/libuv/samples/socks5-proxy/s5.c:64-231 | one byte on the fields is one step of that function |
| Socks5.Next | src/libuv/samples/socks5-proxy/s5.c:64-231 | the counters stay within the fields for every byte in every state |
| Socks5.RequestRoundTrip | src/libuv/samples/socks5-proxy/s5.c:148-224 | an encoded request decodes to its command, address and port, consuming exactly its bytes, if and only if the address is not an empty host name |
| Socks5.EmptyHost | src/libuv/samples/socks5-proxy/s5.c:198-224 | after a request with an empty host name the byte behind it is consumed, and the port is read one byte late |
| Socks5.LoginRoundTrip | src/libuv/samples/socks5-proxy/s5.c:104-146 | user name and password arrive as sent, consuming exactly their bytes, if and only if neither is empty |
| Socks5.EmptyName | src/libuv/samples/socks5-proxy/s5.c:112-127 | an empty user name consumes the length of the password, and the next byte is taken for that length |
| Socks5.EmptyPassword | src/libuv/samples/socks5-proxy/s5.c:129-146 | after a login with an empty password the byte behind it is consumed |
| Socks5.GreetingRoundTrip | src/libuv/samples/socks5-proxy/s5.c:68-102 | the offered methods are noted exactly, consuming exactly the greeting, if and only if some method is offered |
| Socks5.EmptyGreeting | src/libuv/samples/socks5-proxy/s5.c:68-102 | after a greeting without methods the byte behind it is consumed |
| Socks5Verdicts.GreetingVerdict | src/libuv/samples/socks5-proxy/s5.c:68-102 | on any bytes: bad version exactly if the first is not 5; otherwise the parser waits for exactly the greeting, or has noted exactly its methods and consumed exactly it, or one byte more if it has no methods |
| Socks5Verdicts.GreetingOnly | src/libuv/samples/socks5-proxy/s5.c:68-102 | the choice of a method is announced if and only if the bytes begin with a greeting, and one byte more if it is without methods |
| Socks5Verdicts.LoginVerdict | src/libuv/samples/socks5-proxy/s5.c:104-146 | on any bytes: bad version exactly if the first is not 1; otherwise the parser waits for exactly the login, or has read both strings and consumed exactly them, one byte for an empty one |
| Socks5Verdicts.RequestVerdict | src/libuv/samples/socks5-proxy/s5.c:148-224 | on any bytes: bad version, command or address type exactly at a first byte other than 5, a second other than 1 and 3, a fourth other than 1, 3 and 4; otherwise the parser waits for exactly the request, or has read command, address and port and consumed exactly it, one byte for an empty host name |
| Socks5Verdicts.DeadVerdict | src/libuv/samples/socks5-proxy/s5.c:226-227 | behind a request all bytes are consumed without effect |
| Socks5.Parser.SelectAuth | src/libuv/samples/socks5-proxy/s5.c:245-261 | the state for the chosen method, or -EINVAL and no change |
| CircularBuffer.Buffer.Write | src/simple_uv/PodCircularBuffer.h:70-148 | accepts min(count, room), appends exactly those elements, and everything accepted is what was given out and what is still held |
| CircularBuffer.Buffer.Read | src/simple_uv/PodCircularBuffer.h:153-219 | gives min(count, size) elements from the front and keeps the rest; what has been read is a prefix of what was accepted |
| CircularBuffer.Buffer.WriteEmpty | src/simple_uv/PodCircularBuffer.h:78-95 | the case of equal positions |
| CircularBuffer.Buffer.WriteWrap | src/simple_uv/PodCircularBuffer.h:96-121 | the case of data before the write position |
| CircularBuffer.Buffer.WriteGap | src/simple_uv/PodCircularBuffer.h:122-147 | the case of room between the positions |
| CircularBuffer.Buffer.ReadFull | src/simple_uv/PodCircularBuffer.h:161-179 | the case of equal positions |
| CircularBuffer.Buffer.ReadRun | src/simple_uv/PodCircularBuffer.h:180-193 | the case of data in one piece |
| CircularBuffer.Buffer.ReadWrap | src/simple_uv/PodCircularBuffer.h:194-218 | the case of data past the end |
| CircularBuffer.Buffer.FlagsExact | src/simple_uv/PodCircularBuffer.h:28-33 | the flags tell equal positions apart: full exactly at capacity, empty exactly at size 0, but for a buffer of capacity 0 |
| CircularBuffer.Buffer.Size | src/simple_uv/PodCircularBuffer.h:44-54 | the number of elements held |
| CircularBuffer.Buffer.Clear | src/simple_uv/PodCircularBuffer.h:34-39 | nothing is held |
| Relay.Client.ReadDone | src/libuv/samples/socks5-proxy/client.c:663-676 | between callbacks each direction is (reader busy, writer stopped) or (reader stopped, writer busy), so what was read is handed to the writer before the buffer is used again; a read error starts the teardown |
| Relay.Client.WriteDone | src/libuv/samples/socks5-proxy/client.c:707-719 | the same after a write, successful or failed; once the session is closed, the assertion holds exactly for a write that was still queued at the close |
| Relay.Client.Transmit | src/libuv/src/unix/stream.c:827-907 | what leaves straight from the shared buffer keeps the bytes out a prefix of the bytes in; the request is completed with the last byte |
| Relay.Client.FailWrite | src/libuv/src/unix/stream.c:847-858 | a failed write completes the request with its error and leaves the relay as it is until the callback |
| Relay.Client.TimerExpire | src/libuv/samples/socks5-proxy/client.c:585-592 | a timeout starts the teardown |
| Relay.Client.CloseDone | src/libuv/samples/socks5-proxy/client.c:732-737 | each close callback moves the state on by one |
| Relay.Client.TearDown | src/libuv/samples/socks5-proxy/client.c:520-544 | in every order of the callbacks after a kill all four close callbacks come if and only if no write had succeeded or failed with its callback still to run; the fourth makes the session dead, unless it was killed in s_req_lookup |
| Relay.EndOfUpstream | src/libuv/samples/socks5-proxy/client.c:707-715 | a byte from the client, then the end of the upstream's connection: the assertion in conn_write_done fails if the write of the byte has succeeded or failed in between, and holds if it is still queued |
| Relay.Session | src/libuv/samples/socks5-proxy/client.c:485-576 | any sequence of reads, errors, timeouts, transmissions, failing writes and their callbacks is followed event by event: what each side has sent is the data of the reads that could happen, each side has got a prefix of what the other has sent, and while the session lives the rest is in the one write to it; it dies with all close callbacks if and only if no write is completed without its callback at the kill |
| Relay.Client.Do | src/libuv/samples/socks5-proxy/client.c:508-719 | one event does to both directions what the outline of the session says |
| Relay.Client.PassedOver | src/libuv/samples/socks5-proxy/client.c:508-719 | an event that the outline does not let happen is one that cannot happen |
| Relay.Client.Next | src/libuv/samples/socks5-proxy/client.c:508-518 | the step function of the relay phase |
| Relay.Client.Cycle | src/libuv/samples/socks5-proxy/client.c:546-576 | one direction: forwards what has arrived, or reads again once it has been written |
| Relay.Client.DoKill | src/libuv/samples/socks5-proxy/client.c:520-539 | closes the four handles, from any state before the teardown; changes nothing in a session that is being torn down |
| Relay.Client.ConnectFailed | src/libuv/samples/socks5-proxy/client.c:420-424 | a connect that fails at once starts the teardown, after a name lookup from s_almost_dead_0, which is one stage too early |
| Relay.ConnectAfterLookup | src/libuv/samples/socks5-proxy/client.c:520-544 | a session in s_req_lookup whose connect fails at once: four close callbacks leave it in s_almost_dead_4 |
| Relay.Client.Start | src/libuv/samples/socks5-proxy/client.c:485-505 | both directions begin reading, or the session ends if the reply failed |
| Registry.Mng.RegistThread | src/simple_uv/UVThreadMng.cpp:25-48 | beyond where they differed before, the copies differ from the manager's map at most in the type, if another thread had it, and in what the newcomer's copy had wrong, because the handler's insert does not overwrite; if all agreed before, they agree after it exactly if neither is the case, or if no other thread is left and the newcomer had the type right |
| Registry.Mng.UnRegistThread | src/simple_uv/UVThreadMng.cpp:50-67 | whatever the copies had wrong about the type is put right, and nothing else is disturbed; if they differed in no other type, they agree with the manager |
| Registry.Mng.OnInit | src/simple_uv/UVThread.cpp:38-43 | registers the thread under its own type; a type that was wrong stays wrong, and a taken one is wrong |
| Registry.Mng.OnExit | src/simple_uv/UVThread.cpp:45-56 | unregisters the type, whoever has it, and empties the thread's copy; the thread will know nothing if and only if every registration that is waiting is followed by the removal of its type |
| Registry.ReplayKeys | src/simple_uv/UVThread.cpp:24-37 | which types a thread will know once it has handled its messages: those registered there and not removed after that, and its own that are not removed |
| Registry.Forgotten | src/simple_uv/UVThread.cpp:45-56 | after the copy is emptied the thread will know nothing if and only if no registration is left in its messages |
| Registry.Mng.Run | src/simple_uv/UVThreadMng.cpp:25-67 | after any run of registrations, removals, exits, handled and posted messages the manager's map is the one the run says, and some copy differs from it, once the messages are handled, in exactly the types that were taken when registered and not unregistered since; so all agree if and only if there is none; threads may register again after exiting with nothing waiting |
| Registry.Mng.Do | src/simple_uv/UVThreadMng.cpp:25-67 | one action of such a run |
| Registry.Conflict | src/simple_uv/UVThreadMng.cpp:36-47 | two threads registered under one type: a copy differs from the manager's map, in that type only |
| Registry.Return | src/simple_uv/UVThread.cpp:24-56 | a thread exits with another's registration waiting, the other exits, the first registers again: its copy has the other's type, which the manager's map has not |
| Registry.Mng.Introduce | src/simple_uv/UVThreadMng.cpp:27-34 | the newcomer is told of every registered thread and keeps the entries it had |
| Registry.Mng.Announce | src/simple_uv/UVThreadMng.cpp:40-47 | all registered threads get the message once per entry, and telling one twice does no harm |
| Registry.Thread.HandleNext | src/simple_uv/UVThread.cpp:24-37 | handling the next message does not change what the thread will know in the end |
| Registry.Thread.Drain | src/simple_uv/UVThread.cpp:24-37 | a drained thread's map is what its messages say |
| Registry.Thread.PushBackMsg | src/simple_uv/ThreadMsgBase.cpp:15-30 | a pushed message is handled last |
| Registry.Thread.SendUvMessage | src/simple_uv/UVThread.h:127-140 | fails exactly for a type the thread does not know, and disturbs no copy |
| ThreadMsg.MsgList.PushBack | src/simple_uv/ThreadMsgBase.cpp:15-30 | appends to the circular list |
| ThreadMsg.MsgList.Dispatch | src/simple_uv/ThreadMsgBase.cpp:46-60 | handles the messages waiting at the detach exactly once, in order, deletes every node without reading it again, and keeps all that is pushed meanwhile, in order |
| Inbox.Endpoint.Dispatch | src/simple_uv/ThreadMsgBase.cpp:32-62 | one turn over the linked list: the thread has handled exactly what was waiting, in order, and what arrived meanwhile waits, in order |
| Inbox.Endpoint.Push | src/simple_uv/ThreadMsgBase.cpp:15-30 | the list and the registry's queue of a thread stay the same |
| PowerOfTwo.NextPowerOfTwoExact | src/libuv/src/unix/core.c:762-771 | the least power of two not below the argument; 0 exactly for 0 and above 2^31 |
| PowerOfTwo.Smear | src/libuv/src/unix/core.c:763-769 | or-ing in a shifted copy doubles the run of ones at the top |
| WatcherTable.TableSizeExact | src/libuv/src/unix/core.c:773-805 | the new table has room for the descriptors and the two trailing slots if and only if the descriptor is not INT_MAX - 1, for which it has no slot at all; otherwise it is a power of two and at most doubles |
| WatcherTable.Loop.MaybeResize | src/libuv/src/unix/core.c:773-805 | all entries and the two trailing slots survive, new entries are empty, the count is unchanged, and the table grows to the computed size exactly if it is too small |
| WatcherTable.Loop.Start | src/libuv/src/unix/core.c:825-855 | keeps the invariant: nfds counts the entries, wanted events and table entry go together, untold changes are queued; nfds grows exactly for the first events |
| WatcherTable.Loop.StopWatching | src/libuv/src/unix/core.c:858-887 | keeps it; nfds shrinks exactly with the last events; the assertions hold |
| WatcherTable.Loop.IdleQueue | src/libuv/src/unix/linux-core.c:199-202 | with nfds 0 the queue is empty, as the poll asserts |
| WatcherTable.Loop.Tell | src/libuv/src/unix/linux-core.c:204-237 | a queued watcher passes the assertions; epoll answers EEXIST or ENOENT only where the loop goes on, so no such answer makes it abort |
| WatcherTable.Loop.Poll | src/libuv/src/unix/linux-core.c:199-237 | before the wait epoll watches for every watcher exactly the events it wants |
| WatcherTable.Loop.Lookup | src/libuv/src/unix/linux-core.c:327-348 | a reported descriptor is inside the table and finds its watcher, or is taken out of epoll if nobody wants it |
| WatcherTable.Loop.Add | src/libuv/src/unix/core.c:808-823 | a new watcher on its own descriptor disturbs nothing |

## Left out

- RB_NFIND, RB_NEXT, RB_PREV, RB_MINMAX and the foreach macros: walks that read the tree only.
- SplayTree.Tree.Accesses: look-ups and insertions; the turns of removals, and of the walks of SPLAY_NEXT, are not counted in. The cost of the red-black operations is bounded by the height only.
- RbTree.Tree.Insert: the argument's own link fields are taken as scratch space; RB_AUGMENT is empty in the source and has no counterpart.
- MinHeap.Heap.Insert: keys are integers and the comparison function is `<`; the path is an unbounded number, so the heap is limited to what the source's 32 bits address by a precondition.
- uv_inet_ntop and uv_inet_pton themselves: the choice of the family and the copying of the part before `%`.
- Inet4.Ntop4: snprintf is the decimal printer it is used as; a failing snprintf is not modelled.
- The start of the thread pool by uv_once and UV_THREADPOOL_SIZE, and joining and freeing in cleanup.
- ThreadPoolRuns.NoLostWakeup: says that an awake worker exists, not that the operating system schedules it; uv_async_send towards the loop is the model of async.c, not joined to this one.
- ThreadPool and Async are steps on a state value, not objects, because threads interleave; the mutexes appear as the extent of a step, and memory ordering is sequential.
- Cancelling from another thread, or once done has been called.
- MsgFraming.Session: messages longer than INT_MAX - 4 bytes, streams with other headers; reuse of a stream after a read error with part of a message pending; alloc_cb may return any buffer or none, free_cb is not called on anything.
- AsyncRuns.PassServes: liveness is relative to the loop going round; close by uv_close during a send is modelled, a send on a closed handle is not.
- LoopWatcher.Loop.DoStart: the count of active handles, references and the closing flag are not modelled; the QUEUE inside a handle and the handle around it are one object.
- O_NONBLOCK, setsid, chdir, credentials and exec around FdRemap.ChildInit; descriptors named by the parent are open, and the parent's ends of its pipes are not also sources.
- FdRemap.ChildInit: what the parent reads from the error descriptor after a failure; a failed child is the result false.
- Session states of the proxy before s_proxy_start, name lookup and connect; logging; the SOCKS replies.
- Relay.Client.TearDown: counts the callbacks of the four handles and of the writes; a name lookup still pending at the kill would add one, and uv_cancel for it is not modelled.
- Relay.Client.TimerExpire: conn_timer_expire takes a status and checks that it is 0, while uv_timer_cb in libuv's include/uv.h passes none; the check is not modelled.
- Relay.Client.WriteDone: assertions are taken as enabled, so a failed one ends the model; what a build without them does is not modelled.
- Registry.Mng.Run: a thread that exits with messages waiting does not register again in a run; that is covered call by call in OnInit and OnExit. Posting stands for SendUvMessage, which is proved by itself. A thread's queue is a sequence there; Inbox joins it to the linked list for one thread, not for all threads of a manager at once.
- Registry.Mng.OnExit: CUVThread calls OnInit but never OnExit, which is there for derived classes; unregistering and emptying the copy are one step here.
- Registry.Mng.RegistThread: registration is one atomic step here, while the source reads the map outside its lock; the thread objects' life time and the outer endless loop of DispatchThreadMsg are not modelled.
- ThreadMsg.MsgList.Dispatch: the look at the tail outside the lock and the sleep before it.
- WatcherTable.Loop.Start: one watcher per descriptor and a descriptor below INT_MAX - 1; allocation does not fail; the event ports branch of the source is not modelled.
- WatcherTable.Loop.Tell: epoll_ctl can answer success, EEXIST and ENOENT here; EPERM, ENOMEM and ENOSPC, for which the source aborts, are not modelled.
- WatcherTable.Loop.Poll: the wait itself, the timeout arithmetic, signal watchers and callbacks.
- CircularBuffer.Buffer.Write: elements are values that copy as memory does; a negative capacity is excluded.
- Int64 and Int32 packing in net_base.h, the PacketSync parser, the message templates, logging, and everything that only calls the operating system.
