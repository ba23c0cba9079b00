# A verified model of torch-ipc

torch-ipc gives Torch programs ways to work in parallel: an MPI-style AllReduce tree over
sockets, channels and work queues between threads, a background task pool, and transfers of
tensors between processes. This project models the parts whose correctness only shows over whole
runs or over unbounded inputs, and proves what they are for.

## How it is organised

**The tree** (`lua/Tree.lua`, `lua/SlurmTree.lua`).
`Network` models any number of sequential processes joined by FIFO links; a run is any
interleaving. Its theorem `OneRunIsEnough` says that if one schedule ends in a state where nobody
can move, then every run ends, after as many steps and in the same state (`AlwaysEnds`).
`AllReduce`, `Handshake` and `Scatter` write the Lua code as such processes; `AllReduceRun`,
`AllReduceDown`, `AllReduceRound`, `Descent` and `HandshakeRun` exhibit one schedule; `AllReduceProof`,
`HandshakeProof` and `Scatter` state the results for all of them. `Topology` and `SlurmLayout` determine the links that the generators emit; `OrderedTree` has what the protocols
need of a tree (subtrees are intervals of node numbers), and proves it of the trees that are built.
`WalkTable` is the walk that pairs the leaves sent with the leaves received. Nodes are numbered
from 0 in the model and from 1 in the code.

**Bytes and values** (`src/ringbuffer.c`, `src/serialize.c`, `src/channel.c`, `src/cliser.c`).
`RingBuffer.Ring` is the wrap-around array, refining a bounded byte queue. `Serialize` has the
encoding as a printer and a parser with a round-trip theorem; `Acceptance` says, from the value
alone, what is accepted, with which code the rest is refused and how long an encoding is; `SaveLoad`
has the imperative saver and loader, proved against them on the ring. `Growth` is the save/roll back/grow/retry loop.
`Channel.Queue` is the channel's state under its mutex; `ChannelRuns` is the state machine of all
threads, with sleeping and woken readers. `Framing` sends values as length-prefixed messages
over a stream that is cut arbitrarily; `Refusal` says what a refused message does to the next one.

**Work queues and tasks** (`src/workqueue.c`, `lua/BackgroundTaskPool.lua`).
`Registry` is the doubly linked list of named queues with its handles. `TaskPool` breaks the
owner's and the workers' code into steps at every queue operation; `TaskPoolProof` has the
results over all interleavings.

**Tensors** (`src/generic/cliser.c`).
`Strides` defines the row-major order and the coalescing loop, `TensorTransfer` the header, the
recursive walks and the transfer. `Staging` is the double-buffered CUDA pipeline with copies that
run at any time. `RemotePtrs` is the cache of opened memory handles.

`Wrappers`, `Arithmetic`, `Sequences` and `Bytes` are shared helpers.

## What the code does not do

Some properties one would expect are false of the code. The model follows the code, and states
exactly when the property holds:

- The links of a tree of base b > 2 reach every node only if there are at most 2b nodes
  (`Topology.WideTreeSpans`).
- The Slurm layout links only nodes that exist exactly if the last host is full
  (`SlurmLayout.LinksExactWhenHostsFull`).
- A channel write signals at most once, so a write of several items, or one whose later item is
  refused, can leave an item waiting beside a sleeping reader (`ChannelRuns.MultiWriteCanStrand`,
  `ChannelRuns.RefusedWriteCanStrand`). Whomever it wakes, a write that goes to its end does not do
  so exactly if at most one reader sleeps, or the pending and new items are at most one more than
  the woken readers (`ChannelRuns.WriteIsSafeIff`); a refused one exactly if nobody sleeps, or they
  are no more than the woken readers (`ChannelRuns.RefusalIsSafeIff`).
- A message that is refused stays in the sender's ring as far as it got, and so in front of all
  later ones. Those are received all the same exactly if the refused value was itself of an
  unsupported type; after a table that holds such a value or userdata every later frame is
  malformed (`Refusal.SendAfterRefusal`, `Refusal.RefusedTable`), and after a message that was too
  long nothing can be sent (`Refusal.SendAfterOverflow`).
- A task that fails with nil or false has its failure lost (`TaskPoolProof.GetResultGivesOwn`,
  `TaskPoolProof.FalsyFailureIsLost`).
- The owner of a task pool can wait for ever: a task that could not be written, or whose result
  could not be, is counted all the same (`TaskPoolProof.RefusedTaskHangs`), and with
  closeOnLastTask a task that is added after the last result was taken has no worker left
  (`TaskPoolProof.LateTaskHangs`). While a worker is left, the first getResult of a task can end
  exactly if that task was not lost, whatever else was (`TaskPoolProof.FirstWaitEndsIff`), and
  waiting for all tasks exactly if none was (`TaskPoolProof.WaitForAllEndsIff`).

## Model

| member | source | states |
|---|---|---|
| `Network.Diamond` | src/cliser.c:533-565 | Steps of two processes joined by FIFO streams commute: either order leads to the same state. |
| `Network.EveryRunReachesTheSameEnd` | src/cliser.c:533-565 | If one schedule reaches a state where nobody can move, every run from the same start can be continued to it, in exactly the steps that are missing, and is stuck nowhere else. |
| `Network.OneRunIsEnough` | src/cliser.c:533-565 | Then every run ends: none is longer, and all end in that state after the same number of steps. |
| `Topology.PairsEmits` | lua/Tree.lua:4-22 | The recursive generator, at every depth and in every block it recurses into, emits for node x exactly the link its digits in the base call for, inside the block and nowhere else. |
| `Topology.LinksOfEveryBase` | lua/Tree.lua:4-22 | For every base, number of nodes and covering depth: node x connects once, to the node its digits give, if its lowest non-zero digit allows, and otherwise not at all. |
| `Topology.LinksFromAnywhere` | lua/Tree.lua:4-22 | The same from any start index: the links are those from 0, moved. |
| `Topology.BinaryParent` | lua/Tree.lua:4-22 | For base 2 every node but the root is linked, and its parent is itself with the lowest set bit cleared. |
| `Topology.BinaryTreeSpans` | lua/Tree.lua:4-27 | For base 2 and every depth that covers the nodes, each node but the first is emitted exactly once as `from`, the first never, and the links form a tree rooted at the first. |
| `Topology.WideTreeSpans` | lua/Tree.lua:4-27 | For a base b > 2 the links span exactly when there are at most 2b nodes; node number 2b (from 0) is the first without a parent. |
| `OrderedTree.ChildrenTile` | src/cliser.c:449-463 | In a tree whose subtrees are intervals, the subtrees of a node's children, in ascending order, tile the interval after the node. |
| `OrderedTree.BinaryIsContiguous` | lua/Tree.lua:4-22 | The binary tree's subtrees are intervals of node numbers, nested or apart. |
| `OrderedTree.WideIsContiguous` | lua/Tree.lua:4-22 | So are those of a wider base b with at most 2b nodes. |
| `AllReduceRound.RunRound` | lua/Tree.lua:167-222 | One schedule of one round takes every node from having its contribution to having the merged total, with all links empty again. |
| `AllReduceDown.DownFrom` | lua/Tree.lua:200-215 | One schedule of the way down takes every node from waiting for the root's total to having passed it on. |
| `AllReduceProof.TotalIsRoundValue` | lua/Tree.lua:167-222 | What reduces at the root in round r, child after child, is at every leaf i the left fold of `reduce`, in node order, over the leaves i that the nodes bring, for every associative reduce. |
| `AllReduceProof.ContributionIsBrought` | lua/Tree.lua:167-181 | Leaf i that a node brings to round r is that of its plain call number r; in its first round with `zero` and a value of its own, zero(leaf, i + 1) of that value; otherwise zero(leaf, i + 1) of what the round before left. |
| `AllReduceProof.EvenRoundLeaf` | lua/Tree.lua:167-222 | When everybody makes as many calls, leaf i of round r is ((x1 reduce x2) reduce x3) ... over the leaves i that the n nodes passed to call r. |
| `AllReduceProof.TotalCounts` | lua/Tree.lua:167-222 | The count that reaches the root is the number of nodes that are done. |
| `AllReduceProof.EvenAllReduce` | lua/Tree.lua:167-231 | When all nodes make equally many calls, every run ends, and has returned to every node, call by call, the leaf-by-leaf reduction in node order and the number of nodes; every node holds the last one. |
| `AllReduceProof.OneAllReduce` | lua/Tree.lua:167-231 | On every tree whose subtrees are intervals, every run of one allReduce ends with every node holding and being handed, at every leaf, x1 reduced with x2 up to xn in node order, for every associative reduce. |
| `AllReduceProof.BinaryAllReduce` | lua/Tree.lua:167-231 | The same on the base-2 tree, for every number of nodes. |
| `AllReduceProof.WideAllReduce` | lua/Tree.lua:167-231 | The same on the tree of a wider base, as far as it spans. |
| `AllReduceProof.UnevenAllReduce` | lua/Tree.lua:167-231 | When node i makes k_i plain calls and then one with `zero`, every run ends, after exactly max(k) + 1 rounds of everybody; round r gives each plain caller, at every leaf, the fold in node order of the plain leaves of the nodes with calls left and of zero(leaf, position) for the finished ones, and the number of nodes with calls left. |
| `Scatter.ScatterCompletes` | lua/Tree.lua:234-254 | Every run of scatter ends, and leaves every node with the root's table and nothing in flight. |
| `HandshakeFacts.TableSays` | lua/Tree.lua:52-61 | The table built from the links tells every node its parent, and every parent how many children to expect. |
| `HandshakeFacts.ServedInOrder` | src/cliser.c:449-463 | Whatever order clients connected in, those a node keeps are visited in ascending order of id, and are its children. |
| `HandshakeProof.HandshakeCompletes` | lua/Tree.lua:29-148 | Whatever orders servers accept, ask and answer their clients in, every run of the connect/order/start protocol ends, and ends with each node connected to exactly its parent, each parent holding exactly its children with id equal to node index, and every node started. |
| `HandshakeProof.BinaryLinksDraw` | lua/Tree.lua:4-61 | The base-2 links, put into the table, draw exactly the binary tree. |
| `HandshakeProof.WideLinksDraw` | lua/Tree.lua:4-61 | The links of a wider base, up to 2b nodes, draw two groups of b nodes, the second led by node number b. |
| `HandshakeProof.BinaryHandshakeCompletes` | lua/Tree.lua:29-148 | The same for the links that the base-2 generator emits. |
| `HandshakeProof.WideHandshakeCompletes` | lua/Tree.lua:29-148 | The same for a wider base, as far as its links reach every node. |
| `SlurmLayout.ComposeIsContiguous` | lua/SlurmTree.lua:56-69 | A tree of hosts over trees of tasks keeps subtrees contiguous in node order. |
| `SlurmLayout.SlurmLinksDraw` | lua/SlurmTree.lua:36-69 | When all hosts are full the two-level links draw exactly that tree, rooted at the first node. |
| `SlurmLayout.SlurmHandshakeCompletes` | lua/SlurmTree.lua:36-69 | So every run of the handshake over these links ends with that tree established. |
| `SlurmLayout.LinksExactWhenHostsFull` | lua/SlurmTree.lua:56-69 | The layout links only existing nodes exactly if the number of nodes is a multiple of the tasks per host. |
| `SlurmLayout.LastHostHalfEmpty` | lua/SlurmTree.lua:56-69 | Three nodes with two tasks to a host: a fourth node is told to connect to the third. |
| `SlurmLayout.LayoutCrossings` | lua/SlurmTree.lua:56-69 | Exactly hosts - 1 links of the composed tree cross hosts. |
| `SlurmLayout.LayoutCrossesLeast` | lua/SlurmTree.lua:56-69 | No spanning tree of the same nodes has fewer links across hosts. |
| `WalkTable.SortForgetsOrder` | lua/utils.lua:3-8 | Whatever order the keys come in, they are sorted into the same one. |
| `WalkTable.LeafAt` | lua/utils.lua:9-19 | The i-th leaf visited is the one at the i-th path of the walk. |
| `WalkTable.WalksPair` | lua/utils.lua:2-20 | Two nodes with tables of the same shape walk the same paths. |
| `WalkTable.Walk` | lua/utils.lua:2-20 | Whatever the function does and whatever order the keys are found in, it is called with the leaves in key order, the table keeps its shape, and the i-th reply replaces the i-th leaf unless it is nil. |
| `WalkTable.RepliesLand` | lua/utils.lua:9-19 | After a walk, the i-th path holds the i-th reply. |
| `WalkTable.ReceivedIsSent` | lua/Tree.lua:194-204 | A node that receives a leaf for each of its own, from a node that sends each of its leaves, ends up with that node's table. |
| `RingBuffer.RollBackUndoesWrites` | src/ringbuffer.c:90-98 | Popping the write position undoes any number of writes since the push, whether or not they fitted. |
| `RingBuffer.PiecesAreTheWhole` | src/ringbuffer.c:43-64 | Writing in pieces is writing the whole, cut where the room ends. |
| `RingBuffer.StoredExtends` | src/ringbuffer.c:43-64 | Bytes stored around the end of the buffer follow the readable ones and leave those untouched. |
| `RingBuffer.Ring.constructor` | src/ringbuffer.c:5-15 | A new ring is an empty queue of the given capacity. |
| `RingBuffer.Ring.Write` | src/ringbuffer.c:43-64 | Appends exactly the prefix that fits, returns its length, and keeps the pushed mark usable. |
| `RingBuffer.Ring.Claim` | src/ringbuffer.c:43-64 | Without input, only moves the cursors, by as many bytes as there is room for. |
| `RingBuffer.Ring.Read` | src/ringbuffer.c:66-84 | Takes the oldest bytes, at most as many as there are, across the end of the buffer. |
| `RingBuffer.Ring.GrowBy` | src/ringbuffer.c:22-34 | The contents stay, the capacity grows, the marks are cleared. |
| `RingBuffer.Ring.PushWritePos` | src/ringbuffer.c:90-93 | Remembers how many bytes there are. |
| `RingBuffer.Ring.PopWritePos` | src/ringbuffer.c:95-98 | Restores the queue of the push if nothing but writes happened since. |
| `RingBuffer.Ring.ResetReadPos` | src/ringbuffer.c:100-102 | The read position goes to the front. |
| `Serialize.TakesBody` | src/serialize.c:30-59 | A function body cut into chunks in any way comes back whole, whether the loader stops at its last byte or reads through to the marker. |
| `Serialize.EntriesRoundTrip` | src/serialize.c:67-386 | The same round trip for the entries of a table or of upvalues, up to the nil that ends them. |
| `Serialize.RoundTrip` | src/serialize.c:67-386 | For every finite value and any trailing bytes, parsing what was saved gives the same value back (equal contents, entry by entry, function bodies by their bytes) and leaves exactly the trailing bytes. |
| `Serialize.NormIsSame` | src/serialize.c:260-386 | What a load makes of a value is that value: the same booleans, words, strings, names, pointers and metatable names, entries pairwise in order, and functions of equal body, _ENV position and upvalues. |
| `Serialize.SameIsEqual` | src/serialize.c:260-386 | Without a function in it, that means an equal value. |
| `Acceptance.SaveAcceptsIff` | src/serialize.c:67-258 | In process and out of it, with upvalues and without, a save is accepted exactly if the value holds nothing without an encoding, no userdata that is nameless or cannot be retained, and out of process no userdata; otherwise the code is that of the first such part, keys before values. |
| `Acceptance.EmitSize` | src/serialize.c:67-258 | The length of an accepted encoding, from the value alone: 9 + n for a string of n bytes, 8 bytes for every 8192 of a function body, and so on. |
| `Acceptance.FirstByteIsType` | src/serialize.c:67-258 | An encoding begins with the Lua type of the value, with 127 for integers and -7 for userdata that names its own metatable. |
| `Acceptance.SavedIsLoaded` | src/serialize.c:67-386 | All of it for every accepted value: it is saved, in that many bytes, and loads as the same value, an equal one if there is no function in it. |
| `SaveLoad.Follows` | src/serialize.c:67-258 | Two saves in a row write, fit and fail as their concatenation does. |
| `SaveLoad.WriteChunks` | src/serialize.c:30-41 | The writer's loop stores the chunks of a piece, as far as they fit. |
| `SaveLoad.Save` | src/serialize.c:67-258 | Saving on a ring writes the encoding's prefix that fits and returns out-of-memory exactly when it does not fit; otherwise it succeeds exactly for the values that are accepted, and returns the code of the first refused part for the others. |
| `SaveLoad.SaveEntries` | src/serialize.c:67-258 | The same for the loop over a table's entries. |
| `SaveLoad.LoadBody` | src/serialize.c:43-59 | The reader takes exactly the chunks of one function body. |
| `SaveLoad.Load` | src/serialize.c:260-386 | From a well-formed stream on the ring, takes exactly one value. |
| `SaveLoad.LoadEntries` | src/serialize.c:260-386 | The same for the loop over a table's entries. |
| `Growth.RoundsIsCeilDiv` | src/channel.c:150-167 | Growing by the increment until there is room takes the missing bytes divided by the increment, rounded up. |
| `Growth.NeverNoMem` | src/serialize.c:67-258 | A value's own refusal is never the code that makes the ring grow. |
| `Growth.TrySave` | src/channel.c:150-167 | Push, save and pop: one encoding more, or the old contents. |
| `Growth.AppendValue` | src/channel.c:150-167 | The retry loop ends for every increment > 0 after exactly ceil(max(0, length - free) / increment) growths, with exactly one encoding after the untouched old contents if the value is accepted, and with the old contents and the code of its first refused part otherwise. |
| `Growth.GrowUntilSaved` | src/workqueue.c:184-208 | The loop itself, as the work queue has it too, with or without upvalues. |
| `Growth.GrowLoop` | src/workqueue.c:184-208 | The same from the first lack of room on. |
| `Channel.EncodingsAppend` | src/channel.c:150-167 | The ring of pending items grows at its end by one encoding. |
| `Channel.Queue.constructor` | src/channel.c:42-54 | A new channel is open and empty. |
| `Channel.Queue.Close` | src/channel.c:56-69 | Closes, keeps the items, drains if there are none, and broadcasts the first time only. |
| `Channel.Queue.TryRead` | src/channel.c:89-129 | Gives the oldest pending value, the same that was written, and CLOSED or OPEN; drains a closed channel with its last item; with nothing pending it answers DRAINED exactly if the channel is closed, and otherwise OPEN or waits. |
| `Channel.Queue.AppendItem` | src/channel.c:150-167 | One value that is accepted is appended to the pending ones; any other is refused without a trace. |
| `Channel.Queue.Write` | src/channel.c:134-172 | A closed channel takes nothing and answers DRAINED if it has no items and CLOSED if it has some. An open one answers OPEN and signals for every list of accepted values, and has all of them at its end; otherwise it takes those before the first refused one, whose code it returns, and does not signal. The ring's bytes stay the concatenated encodings of exactly the pending values. |
| `ChannelRuns.ChannelIsFifo` | src/channel.c:56-172 | In every run, accepted values are delivered values followed by pending ones; drained is closed and empty; nobody sleeps on a closed channel. |
| `ChannelRuns.StatusSays` | src/channel.c:56-172 | At every moment of every run the status is OPEN exactly if nobody has closed the channel, CLOSED exactly if somebody has and something accepted is undelivered, and DRAINED exactly if somebody has and everything was delivered. |
| `ChannelRuns.StatusOnlyAdvances` | src/channel.c:56-172 | The status only moves from OPEN to CLOSED to DRAINED, and nothing is accepted once it left OPEN. |
| `ChannelRuns.NobodySleepsAfterClose` | src/channel.c:56-129 | After any close, no reader is asleep, ever again. |
| `ChannelRuns.SleepersAreAttended` | src/channel.c:89-172 | Over every interleaving of single-item writes, while a reader sleeps the pending items are no more than the woken readers yet to run. |
| `ChannelRuns.WriteIsSafeIff` | src/channel.c:134-172 | A write that goes to its end leaves sleepers attended, whichever readers its signal wakes, exactly if before it at most one reader sleeps, or pending and new items are at most one more than the woken readers. |
| `ChannelRuns.RefusalIsSafeIff` | src/channel.c:159-165 | A write that is refused on the way does so exactly if before it nobody sleeps, or pending and accepted items are no more than the woken readers. |
| `ChannelRuns.SafeWritesAttend` | src/channel.c:56-172 | Over every run whose writes meet these conditions when they are made, sleepers are attended throughout. |
| `ChannelRuns.UnsafeRunStrands` | src/channel.c:134-172 | Every run that comes to a write that does not can go on with an item stranded. |
| `ChannelRuns.MultiWriteCanStrand` | src/channel.c:168-168 | A run in which an item waits beside a sleeping reader. |
| `ChannelRuns.RefusedWriteCanStrand` | src/channel.c:159-165 | A run in which a write whose second item is refused leaves its first item beside a sleeping reader, with nobody woken. |
| `Framing.SockSend` | src/cliser.c:533-548 | However the calls cut it, everything is sent in order, or 0 is returned after a prefix, which happens exactly if a call failed. |
| `Framing.SockRecv` | src/cliser.c:550-565 | However the stream is cut, the next len bytes land at the front of the buffer and nothing else is touched, unless a call failed. |
| `Framing.SendMsg` | src/cliser.c:581-595 | Sends the frame of all that the ring then holds and restores the ring, unless a call failed; a message that is not accepted or for which there is no room sends nothing and is not rolled back. |
| `Framing.RecvMsg` | src/cliser.c:597-618 | Takes one frame and loads from its body, wherever the write cursor was left, unless a call failed; a disconnect mark, an oversized length and a lack of room are reported. |
| `Framing.FrameArrives` | src/cliser.c:581-618 | The frame of any accepted value of at most 16384 bytes, in front of any further bytes, is received as the value that was sent, and used up exactly. |
| `Framing.Connection.constructor` | src/cliser.c:348-349 | A new connection has nothing pending and empty rings. |
| `Framing.Connection.Send` | src/cliser.c:581-595 | Every accepted value of at most 16384 bytes joins the pending messages at the end, unless a call on the socket failed. |
| `Framing.Connection.Recv` | src/cliser.c:597-618 | The oldest pending message is received as the value that was sent, and the ring is empty again, unless a call on the socket failed. |
| `Framing.Connection.Converse` | src/cliser.c:533-618 | For every list of messages that fit, every fragmentation and every interleaving of sends and receives: unless a call on the socket failed, all values arrive, in order and as they were sent, and the receive ring is empty after each. |
| `Refusal.RefusedKinds` | src/serialize.c:67-258 | A message that is not accepted out of process wrote nothing exactly if the value itself is what is refused; otherwise it is a table. |
| `Refusal.RefusedThenValue` | src/serialize.c:260-386 | What a refused value wrote, followed by any whole value, parses as that value if nothing was written, and is malformed otherwise. |
| `Refusal.SendAfterRefusal` | src/cliser.c:581-595 | A refused message and then any list of others: as long as there is room and the socket does not fail, each goes out in one frame with what the refused one wrote; they are received exactly if the refused value itself was what is refused, and otherwise every frame is malformed. |
| `Refusal.SendAfterOverflow` | src/cliser.c:581-595 | After a message that is too long, none of any list of others can be sent. |
| `Refusal.RefusedTable` | src/cliser.c:581-595 | Such a message: a table with an unsupported value in it. |
| `Strides.RowMajorAt` | src/generic/cliser.c:226-258 | The nested loops visit the k-th element k-th: its offset is k's mixed-radix digits weighed by the strides. |
| `Strides.ContiguousIsRange` | src/generic/cliser.c:281-286 | A contiguous tensor's elements in row-major order lie one after the other. |
| `Strides.ContiguousIffRange` | src/generic/cliser.c:281-286 | A tensor with elements is contiguous exactly if they lie one after the other in row-major order. |
| `Strides.Coalesce` | src/generic/cliser.c:290-295 | The loop finds the longest packed run of trailing dimensions; it coalesces all of them only if the tensor is contiguous. |
| `TensorTransfer.WriteContiguous` | src/generic/cliser.c:193-195 | However the socket takes it, the given range is sent in order; the call fails exactly if the byte count is not below 2^31. |
| `TensorTransfer.ReadContiguous` | src/generic/cliser.c:197-199 | The next elements of the stream are stored to the given range; the call fails exactly if the byte count is not below 2^31. |
| `TensorTransfer.RawResult` | src/cliser.c:567-579 | The size_t count assigned to an int passes the two tests exactly if it is below 2^31. |
| `TensorTransfer.WriteRcsv` | src/generic/cliser.c:226-241 | The recursive walk over coalesced dimensions sends exactly the row-major elements. |
| `TensorTransfer.ReadRcsv` | src/generic/cliser.c:243-258 | The recursive walk stores the stream's elements at exactly the row-major offsets, one after the other. |
| `TensorTransfer.CheckHeader` | src/generic/cliser.c:315-322 | The checks pass exactly if flags and all dimensions match; a mismatch is the first one in the order of the checks. |
| `TensorTransfer.HeaderMatchesIffSame` | src/generic/cliser.c:273-322 | A sender's header passes exactly if sizes, strides, element size and fast path agree. |
| `TensorTransfer.TensorWrite` | src/generic/cliser.c:260-301 | Sends the header and then the row-major elements of every accepted tensor; of one with elements, exactly if no single transfer reaches 2^31 bytes; refuses others after the header; never answers "unreachable". |
| `TensorTransfer.WriteStrided` | src/generic/cliser.c:287-299 | Refuses exactly tensors of rank below 2 or with a last stride other than 1; "unreachable" would mean the tensor is contiguous. |
| `TensorTransfer.TensorRead` | src/generic/cliser.c:303-342 | With a matching header, stores the elements at the row-major offsets, unless a single transfer reaches 2^31 bytes; otherwise reports and leaves the storage alone; never answers "unreachable". |
| `TensorTransfer.ReadStrided` | src/generic/cliser.c:328-340 | The receiving side of the same. |
| `TensorTransfer.TransferCopies` | src/generic/cliser.c:226-258 | After a transfer the receiver agrees with the sender at every element, even where strides overlap. |
| `TensorTransfer.TransferKeepsOthers` | src/generic/cliser.c:243-258 | And keeps everything that is not an element. |
| `TensorTransfer.Transfer` | src/generic/cliser.c:260-342 | Both together for a send and a receive of two tensors of the same kind, which succeed exactly for accepted tensors without a transfer of 2^31 bytes or more. |
| `Staging.SettleIdleHalf` | src/generic/cliser.c:71-96 | What the host does to a half that no copy uses commutes with all pending copies. |
| `Staging.ScribbleIsOverwritten` | src/generic/cliser.c:78-79 | Whatever a running copy's destination holds meanwhile is gone once it is done. |
| `Staging.Gpu.Synchronize` | src/generic/cliser.c:76-76 | Waiting for the event completes every copy issued before it was recorded, and changes nothing else about the outcome. |
| `Staging.Gpu.ReadHalf` | src/generic/cliser.c:83-83 | The host reads a half only while no copy uses it. |
| `Staging.Gpu.FillHalf` | src/generic/cliser.c:171-171 | The host fills a half only while no copy uses it. |
| `Staging.SendTurn` | src/generic/cliser.c:73-89 | One turn keeps: the last block is or will be in the other half, everything before it was sent. |
| `Staging.WriteContiguous` | src/generic/cliser.c:71-96 | Whenever copies run, the elements go out in order, each once, for every count. |
| `Staging.ReceiveTurn` | src/generic/cliser.c:162-175 | One turn keeps: the last block is in the other half untouched, everything before it is or will be on the device. |
| `Staging.ReadContiguous` | src/generic/cliser.c:156-182 | Whenever copies run, the device ends up with the elements received and is unchanged elsewhere. |
| `RemotePtrs.HasOverlapIffShared` | src/generic/cliser.c:101-109 | The four comparisons find every shared element, and for ranges that are not empty nothing else. |
| `RemotePtrs.ScanKeepsOrder` | src/generic/cliser.c:119-134 | Survivors of the scan keep their order. |
| `RemotePtrs.ScanDropsStale` | src/generic/cliser.c:119-134 | A scan that does not find the handle has dropped every overlapping entry of its socket. |
| `RemotePtrs.ScanKeepsIff` | src/generic/cliser.c:119-134 | An entry stays exactly if it is of another socket or overlaps nothing announced, or the scan came to the announced handle at it or before it. |
| `RemotePtrs.ReceiveKeepsInv` | src/generic/cliser.c:118-147 | Every receive keeps handles distinct and one socket's ranges disjoint, and ends with the received handle cached. |
| `RemotePtrs.ReceiveIs` | src/generic/cliser.c:118-147 | What a receive leaves: exactly those entries, in order, and the new one at the end exactly if its handle was not cached. |
| `RemotePtrs.ReceiveEvicts` | src/generic/cliser.c:118-147 | Entries of other sockets stay, and one that goes shares an element with what was announced. |
| `RemotePtrs.EveryRunKeepsInv` | src/generic/cliser.c:118-147 | The same over every sequence of receives. |
| `RemotePtrs.Cache.Scan` | src/generic/cliser.c:118-134 | The loop with its evictions computes the scan, closes exactly the evicted handles, and finds the handle if it is there. |
| `RemotePtrs.Cache.Receive` | src/generic/cliser.c:118-147 | The slot used carries the received handle, which is open; no handle is opened twice. |
| `TaskPool.StepConserves` | lua/BackgroundTaskPool.lua:20-107 | Every step of owner or worker keeps each task in exactly one place. |
| `TaskPoolProof.TasksAreConserved` | lua/BackgroundTaskPool.lua:20-107 | Over all interleavings numTasks is queued plus in flight plus answered and unread plus numResults plus lost; no task is in two places; a lost task keeps the counts apart for good. |
| `TaskPoolProof.GetResultGivesOwn` | lua/BackgroundTaskPool.lua:45-107 | Every getResult in every run is about the task it was asked for, or with no id the last one added. The first one since that task's addTask returns or raises the task's own outcome, and gives nothing exactly for a failure with nil or false; any later one gives nothing. Of the stored results it removes that task's and no other. |
| `TaskPoolProof.TakenIffBefore` | lua/BackgroundTaskPool.lua:97-107 | A task counts as taken exactly if a getResult about it came to its end after its addTask. |
| `TaskPoolProof.OwnerServesItsCall` | lua/BackgroundTaskPool.lua:45-107 | Whatever the owner is doing is for its last call: the id a getResult is about is the one it was called with. |
| `TaskPoolProof.IsDoneTells` | lua/BackgroundTaskPool.lua:40-63 | Every isDone says yes exactly if every task was answered and read, or the task it was asked for was, its result was not taken, and is not a failure with nil or false. |
| `TaskPoolProof.AddTaskNumbers` | lua/BackgroundTaskPool.lua:66-76 | Every addTask whose task could be written returns a number that no task had before, and leaves one task under it, in the queue. |
| `TaskPoolProof.FalsyFailureIsLost` | lua/BackgroundTaskPool.lua:45-107 | A run in which a task that failed with nil or false has its getResult give nothing. |
| `TaskPoolProof.ShutdownIsClean` | lua/BackgroundTaskPool.lua:88-95 | At the join every worker has ended on one of poolSize nils, and both queues are empty. |
| `TaskPoolProof.OwnerIsServed` | lua/BackgroundTaskPool.lua:45-95 | Unless a task was lost or the pool was shut down, whenever the owner waits some worker can go on, and whichever does leaves less work. |
| `TaskPoolProof.FirstWaitEndsIff` | lua/BackgroundTaskPool.lua:45-107 | While a worker is left, the wait of the first getResult of a task that does not fail with nil or false can end exactly if the task was not lost, whatever became of the others. |
| `TaskPoolProof.WaitForAllEndsIff` | lua/BackgroundTaskPool.lua:45-107 | While a worker is left, a wait for all tasks can end exactly if none was lost. |
| `TaskPoolProof.DoomedForEver` | lua/BackgroundTaskPool.lua:45-63 | However things go on, a blocking wait for a lost task, for all tasks when one is lost, or for one already read without a result then, never ends. |
| `TaskPoolProof.ComingIsServedIff` | lua/BackgroundTaskPool.lua:20-63 | While the owner waits for a task that is neither lost nor read, somebody can move exactly if a worker is left. |
| `TaskPoolProof.ServableCanEnd` | lua/BackgroundTaskPool.lua:20-63 | The steps of the workers that are left, and the owner's reading of their answers, lead to the end of every wait that does not depend on a lost task. |
| `TaskPoolProof.JoinedAreEnded` | lua/BackgroundTaskPool.lua:88-95 | After a shutdown all workers stay ended, whatever the owner does. |
| `TaskPoolProof.RefusedTaskHangs` | lua/BackgroundTaskPool.lua:66-76 | A run in which a task that could not be written leaves the owner waiting with nobody able to move. |
| `TaskPoolProof.LateTaskHangs` | lua/BackgroundTaskPool.lua:66-107 | A run in which a task is added after the last result shut the pool down, and the owner waits for it with nobody able to move. |
| `Registry.Registry.Insert` | src/workqueue.c:55-63 | A named queue goes to the front, with all links in both directions right; others are not listed. |
| `Registry.Registry.Remove` | src/workqueue.c:65-77 | The queue leaves, its neighbours see each other, the rest keep their order. |
| `Registry.Registry.Find` | src/workqueue.c:79-90 | Finds the queue of that name if there is one, and counts one more reference on it alone. |
| `Registry.Registry.NameIsHeld` | src/workqueue.c:79-146 | A name is listed exactly if a handle is open on a queue of that name. |
| `Registry.Registry.Open` | src/workqueue.c:113-146 | Keeps the list well formed with distinct names and every refcount equal to the open handles; the caller is the creator exactly if no handle on that name was open. |
| `Registry.Registry.Close` | src/workqueue.c:249-266 | Keeps the same; the queue is freed with its last handle and only then; a closed handle is an error. |

## Left out

- Serialize.RoundTrip: values are finite trees (no cycles), numbers and pointers are opaque words, and a function body comes back as one piece; Lua's dump and load are parameters of the model.
- SaveLoad.Save: a closure whose upvalues were not asked for and C functions raise a Lua error in the middle of a save; they are excluded by `Saveable`.
- SaveLoad.Load: nested load errors are ignored by the code, so only well-formed streams are claimed.
- Growth.AppendValue: reference counts of userdata, which are raised again when a containing table is saved again after growing.
- Channel.Queue.Write: the item count is unbounded, not 32 bits wide.
- Refusal.SendAfterRefusal: what the code loads from a malformed message, since it ignores errors inside a value.
- Framing.RecvMsg: waits until a whole message is on its way; a call that moves zero bytes does not occur, since the code takes it for progress.
- Topology.BinaryTreeSpans: any covering depth is allowed; the floating-point logarithm that computes it is not modelled.
- HandshakeProof.HandshakeCompletes: nodes know their own index; numbering nodes that come without one is not modelled.
- AllReduceProof.UnevenAllReduce: tables have the same number of leaves on every node; tensors are opaque leaves, and the temporary tensor is not modelled.
- WalkTable.Walk: a table reached by two keys is walked as two tables; tables are values, so updates in place are not seen through an alias.
- TensorTransfer.TensorRead: the receiver reads a header of its own rank, so sender and receiver of different rank are not claimed to notice; elements are opaque, not bytes.
- Strides.ContiguousIffRange: isContiguous and nElement are Torch's and not part of this repository; their usual definition is assumed.
- Staging.WriteContiguous: CUDA is an ordered queue of copies and one event; errors of CUDA calls are not modelled.
- Registry.Registry.Open: handles that travel inside messages, and the extra references they take on unnamed queues.
- TaskPoolProof.FirstWaitEndsIff: the end of a wait is one that can be reached; that a worker that can move eventually does is assumed.
- TaskPool.StepConserves: a refused task is one whose save returns an error code. A closure with upvalues raises a Lua error inside the save instead (src/serialize.c:220), with the question queue's mutex still locked (src/workqueue.c:185-203), after which no worker can fetch anything.
- workqueue_drain, which does not count questions already taken by workers.
- Sockets, select, timeouts, address lookup, recvAsync, net statistics, tags and recvAny.
- The fast path's memory handles beyond the cache, and GPU numbering.
- Maps, marshalled values, shared tables, mutexes and barriers, processes and file locks, which are clients of the same ring and serializer or plumbing.
