# Verified cores of the toolbox

The repository is a box of independent C libraries. This project models the ones with the most
intricate logic as Dafny programs and proves what they are for. Code that rewrites fields, arrays
or globals in place is modelled by classes and loops; their contracts tie them to pure
definitions, and the lemmas are about those definitions.

| part | files | main results |
|---|---|---|
| Red-black tree (`rb_tree/sys-tree.h`) | `RbTree`, `RbHeap`, `RbRun` | insert and remove keep every invariant on the linked nodes; any history leaves the exact key set in a tree no higher than 2 lg (n + 1) |
| Splay tree (same header) | `Splay`, `SplayHeap`, `SplayCost`, `SplayRun` | the top-down loop keeps the order and brings the key, or a neighbour of it, to the root; insert and remove are exact; m operations with n insertions take at most m (12 lg (n + 1) + 4) rounds of the loop |
| MD5 (`misclib/md5.c`) | `Md5Block`, `Md5`, `Md5Stream`, `Md5Vectors` | any chunking gives the digest of RFC 1321, sections 3.1 to 3.5; two digests of its test suite worked out |
| Buffer ring (`buffer_cache/buffer_cache.c`) | `Ring`, `RingProof`, `RingCache` | conservation, first-in-first-out contents and no lost wakeup in every run with any number of threads; the code's methods are the steps of those runs |
| Block streaming (`streamio_v2`) | `StreamParams`, `StreamServer`, `StreamClient` | every packet carries the right bytes; what a client reads over a lossy network is the file |
| Configuration interpreter (`sys_conf`) | `ConfLang`, `ConfMachine`, `ConfProof`, `ConfRead`, `ConfRun` | the one-pass flag machine equals a structured evaluator, faults included |
| RC4 (`misclib/rc4encrypt.c`) | `Rc4` | unrolled loops equal the byte-wise cipher; pieces and round trips; the table stays a permutation; keystream and key setup worked out |
| Cron (`cron/cronjob.c`) | `CronMask`, `CronLine`, `CronGrammar`, `CronJob` | exactly which strings the parser accepts; it sets exactly the denoted bits; the matcher lists exactly the fitting lines, newest first |
| Outline drawing (`rmosdlib/rmimage256.c`) | `Border` | the in-place pass equals a pure dilation, with the exact condition |

`Options`, `Decimals`, `Sides`, `SeqLemmas` and `ModArith` hold shared helpers.

## How the code is read

- Mirrored left and right branches of the tree macros are one branch indexed by a side. The
  comparison function is comparison of integer keys. `RB_AUGMENT` is empty, as in the header.
- A tree's linked nodes are described by a ghost tree, and a place in it by a focus and the path
  above it. `Head.Valid` says that left, right, parent and colour fields spell out a tree that is
  a red-black search tree.
- MD5 words are 32-bit vectors, bytes are read low-order first, and the counter words wrap at
  2^32. `len & ~63` and `len & 63` are written with `%`. The additive constants and the
  rotation are shared by the code's and the RFC's round function; `Md5Vectors` and
  `Md5Block.RotateTurns` fix them.
- The ring's critical sections are atomic steps. Since marking ready and releasing do not name a
  slot, they apply to the oldest slot handed out. A signal wakes one or more waiting threads,
  threads may wake up spuriously, and an awakened thread may find its buffer taken.
  `bc_top_reset` takes no lock in the code; here it is one step. The fields of the top cursor
  are never initialised by the code, so they start out arbitrary and a top request needs an
  earlier reset.
- `read` may return fewer bytes than asked for. The position that `fullread` is given is always 0
  in the code, so near the end of a file it asks for more than is left and stops at a read of 0.
- `yyparse` is represented by the sequence of user actions in reduction order.

## Where the code does not do what it is meant to

- The else-if action of the grammar reads the value of `(` instead of the identifier after it
  (`sys_conf/parser.y:186-198`). The lexer gives `(` no value, so it carries that of the last
  token before it that has one, which lies in the skipped first branch. That text has already
  been freed by its own action, and the else-if frees it a second time; after an empty string it
  is a null pointer, which `strcasecmp` is given as soon as the store has an entry. Both are
  faults in the model. Only the strings of a skipped list are still there to be looked up.
  `ConfLang.BranchExact` says exactly when the right branch is taken all the same,
  `ConfLang.FaultExact` when the process faults, `ConfLang.ChoicesExact` carries this to whole
  programs, and `ConfLang.ElifCounterexamples` gives three programs that go wrong.
- Printing an empty string passes a null pointer to `strlen` (`sys_conf/parser.y:226-234`): the
  process faults instead of printing nothing. `ConfLang.BodyExact` says exactly when,
  `ConfLang.ChoicesExact` joins this with the else-if for whole programs, and
  `ConfLang.PrintCounterexample` is the program `print "";`.
- A cron step `*/n` tests the index into the line, not the bit number, before it sets a bit of a
  short word (`cron/cronjob.c:149`). `CronLine.StepExact` and `CronJob.LineDue` give the exact
  condition, `CronJob.NeverRuns` a line that should run every midnight and never does. A step of
  0 divides by zero: `CronLine.LineVerdict` says exactly when, `CronLine.ZeroLine` gives a line.
- The carry test of the MD5 counter compares a 32-bit sum with a length of machine size;
  `Md5.CarryExact` gives the exact condition for one update, `Md5.CallExact` for one call, and
  `Md5.HugeCall` and `Md5Stream.HugeSum` show that 2^33 bytes in one call are counted as 2^32.
- `stiov2_set_parameter` lets through one channel that has no storage (`StreamParams.ChannelGap`)
  and then writes past its arrays.
- Outlining in the foreground's own colour can flood the picture (`Border.Floods`); the exact
  condition is in `Border.SweepIsOutline`. Pixels are read as signed characters, so a foreground
  palette index from 128 up gets no outline; `Border.PaletteExact` says over palette indices
  exactly when the code draws what is meant, `Border.HighMissed` gives a picture.

## Model

| member | source | states |
|---|---|---|
| RbHeap.Head.Insert | rb_tree/sys-tree.h:576-604 | from any valid linked tree: either the node with an equal key is returned and nothing changes, the fields of the given element included, or no such node existed and afterwards the tree is valid and its elements in order are the old ones plus the new one; search steps and repair rounds are at most twice the height, which is at most 2 lg (n + 1) |
| RbHeap.Head.InsertColor | rb_tree/sys-tree.h:388-430 | the fix-up loop ends after at most as many rounds as there are nodes above, with a tree that is red-black and has the same elements in order |
| RbHeap.Head.InsertRound | rb_tree/sys-tree.h:392-428 | every round keeps the loop's invariant and the order, and moves the focus up; a red parent always has a grandparent |
| RbHeap.Head.LinkLeaf | rb_tree/sys-tree.h:593-601 | the new element hangs as a red leaf at the place the search arrived at, all other links as before |
| RbHeap.Head.Rotate | rb_tree/sys-tree.h:335-371 | on the linked nodes a rotation in either direction yields the rotated tree at the same place, parent links included |
| RbHeap.Head.RecolorUp | rb_tree/sys-tree.h:397-400 | parent and uncle black, grandparent red, nothing else changed |
| RbHeap.Head.RotateUp | rb_tree/sys-tree.h:409-410 | recolouring and rotation put the parent over the grandparent |
| RbHeap.Head.Remove | rb_tree/sys-tree.h:508-573 | removing any node of a valid tree leaves a valid tree whose elements in order are the old ones without exactly that node; steps to the successor and repair rounds are at most twice the height, which is at most 2 lg (n + 1) |
| RbHeap.Head.Splice | rb_tree/sys-tree.h:517-556 | with two children, the successor is unlinked and stands in the node's place with its links and colour; child, parent and colour describe the hole it left |
| RbHeap.Head.Unlink | rb_tree/sys-tree.h:557-568 | with at most one child, the child takes the node's place |
| RbHeap.Head.Leftmost | rb_tree/sys-tree.h:519-521 | following left links arrives at the least element of the subtree |
| RbHeap.Head.RemoveColor | rb_tree/sys-tree.h:432-506 | the fix-up loop ends, after at most one round more than there are nodes above, and restores a red-black tree with the same elements in order |
| RbHeap.Head.RemoveRound | rb_tree/sys-tree.h:436-502 | every sibling case keeps the loop's invariant and the order, and makes progress; the sibling is never missing |
| RbHeap.Head.Settle | rb_tree/sys-tree.h:453-468 | a black sibling with a red child ends the repair with a red-black tree |
| RbHeap.Head.Find | rb_tree/sys-tree.h:607-622 | finds the node with the key or proves it absent, in a number s of steps with 2^s <= (n + 1)^2 |
| RbHeap.Head.Next | rb_tree/sys-tree.h:624-643 | the result follows the node immediately in order, or the node is the last |
| RbHeap.Head.MinMax | rb_tree/sys-tree.h:645-658 | the first or last element in order, null for an empty tree |
| RbHeap.Head.Foreach | rb_tree/sys-tree.h:670-673 | the loop macro visits every element exactly once, in order |
| RbTree.PlugRedBlack | rb_tree/sys-tree.h:46-54 | a tree is red-black exactly when focus and surroundings satisfy their shares of the conditions |
| RbTree.RedParentHasParent | rb_tree/sys-tree.h:392-394 | in the insert loop a red parent has a black parent of its own |
| RbTree.InsertRecolor | rb_tree/sys-tree.h:396-401 | recolouring under a red uncle keeps the invariant at the grandparent and the order |
| RbTree.InsertStraighten | rb_tree/sys-tree.h:403-408 | rotating an inner child outwards keeps the invariant and the order |
| RbTree.InsertRotate | rb_tree/sys-tree.h:409-410 | the final rotation keeps the invariant and the order, now below a black node |
| RbTree.InsertDone | rb_tree/sys-tree.h:429-429 | painting the root black completes a red-black tree |
| RbTree.SiblingExists | rb_tree/sys-tree.h:438-443 | a focus that is one black node short has a sibling, and a red one has black children |
| RbTree.RemoveRedSibling | rb_tree/sys-tree.h:440-444 | a red sibling is exchanged for a black one, keeping invariant and order |
| RbTree.RemoveBlackNephews | rb_tree/sys-tree.h:445-451 | a sibling with black children turns red and the deficit moves up |
| RbTree.RemoveNearNephew | rb_tree/sys-tree.h:453-461 | a red near nephew becomes the sibling, with a red far child |
| RbTree.RemoveFarNephew | rb_tree/sys-tree.h:462-466 | the rotation over a red far nephew restores a red-black tree |
| RbTree.RemoveDone | rb_tree/sys-tree.h:504-505 | painting the last focus black completes a red-black tree |
| RbTree.SpliceDone | rb_tree/sys-tree.h:517-556 | putting the successor in the node's place removes exactly the node from the order and leaves at most one black node missing, where the successor was |
| RbTree.HeightBound | rb_tree/sys-tree.h:46-54 | a red-black tree of n elements and height h satisfies 2^h <= (n + 1)^2 |
| RbTree.SpliceDeep | rb_tree/sys-tree.h:519-523 | the way to the successor and from there to the root is at most twice the height |
| RbRun.Run | rb_tree/sys-tree.h:46-54 | after any sequence of insertions and removals from empty: valid, exactly the resulting key set, height at most 2 lg (n + 1) |
| RbRun.Apply | rb_tree/sys-tree.h:53-54 | one insertion or removal by key changes the key set exactly and takes at most three times the height in steps |
| RbRun.KeysDel | rb_tree/sys-tree.h:508-573 | taking an element out of a sorted sequence takes exactly its key out of the key set |
| SplayHeap.Head.Splay | rb_tree/sys-tree.h:202-271 | on every non-empty search tree the loop ends, the order is unchanged, and the root splits the rest around what was looked for; result and number of rounds are those of the recursive definition, and are paid for by potential and logarithm |
| SplayHeap.Head.Round | rb_tree/sys-tree.h:211-233 | one turn of the loop keeps the order of left spine, middle and right spine and shrinks the middle, or stops where nothing lies between root and key; it is one step of the recursive definition |
| SplayHeap.Head.Rotate | rb_tree/sys-tree.h:81-91 | the rotation at the root, on the links |
| SplayHeap.Head.Link | rb_tree/sys-tree.h:93-103 | the root moves with its outer subtree to the end of a spine |
| SplayHeap.Head.Assemble | rb_tree/sys-tree.h:105-110 | spines and middle become one tree |
| SplayHeap.Head.Find | rb_tree/sys-tree.h:120-130 | the node with the key or null if none has it; the order is unchanged; rounds plus twice the change of potential are at most 6 lg (n + 1) + 2 |
| SplayHeap.Head.Insert | rb_tree/sys-tree.h:157-179 | exact insertion, or the equal node and the same elements with the given element untouched; amortised rounds at most 8 lg (n + 1) + 2 with n elements afterwards |
| SplayHeap.Head.Remove | rb_tree/sys-tree.h:181-200 | exact deletion of the element that compares equal, or null and the same elements; amortised rounds at most 12 lg (n + 1) + 4 |
| SplayHeap.Head.MinMax | rb_tree/sys-tree.h:240-283 | the first or last element, with the order unchanged, for the same cost as a search |
| Splay.SplitNearest | rb_tree/sys-tree.h:153-155 | after a splay the key is at the root if present, otherwise no element lies strictly between the root and the key |
| Splay.AssembledOrder | rb_tree/sys-tree.h:105-110 | assembling keeps the order |
| Splay.AssembledSplit | rb_tree/sys-tree.h:211-234 | when the loop stops, everything left of the root is below the key and everything right of it above |
| Splay.LinkBeyond | rb_tree/sys-tree.h:221-231 | whatever is linked away lies beyond the key |
| Splay.RotateOrder | rb_tree/sys-tree.h:81-91 | a rotation keeps the order |
| SplayHeap.NoneAbove | rb_tree/sys-tree.h:192-195 | splaying the left subtree again leaves its root without a right child |
| SplayHeap.InsertOrder | rb_tree/sys-tree.h:165-177 | the split root gives a sorted order with exactly one more element |
| SplayCost.Access | rb_tree/sys-tree.h:202-235 | rounds of the splay loop plus twice the change of potential (the sum of the whole logarithms of all subtree sizes) are at most six logarithms of the size, plus two |
| SplayCost.ZigZigCost | rb_tree/sys-tree.h:216-221 | a rotation with a link is paid for by the drop in potential, with one round to spare |
| SplayCost.ZigZagCost | rb_tree/sys-tree.h:211-231 | two links in opposite directions are paid for together |
| SplayCost.ZigBound | rb_tree/sys-tree.h:221-221 | a single link leaves one round to the step that follows it |
| SplayCost.WrapLink | rb_tree/sys-tree.h:93-110 | linking to a spine and assembling later is the same as wrapping the result of the rest |
| SplayCost.JoinPaid | rb_tree/sys-tree.h:186-197 | the two splays of a removal and the attaching of the right subtree |
| SplayRun.Run | rb_tree/sys-tree.h:41-44 | the balance theorem: from the empty tree, m operations of which n are insertions take at most m (12 lg (n + 1) + 4) rounds, and leave exactly the resulting key set |
| Md5Block.CompressAgrees | misclib/md5.c:94-221 | the code's 64 operations on a block are those of RFC 1321, section 3.4 |
| Md5Block.MixersAgree | misclib/md5.c:94-97 | the shortened round functions compute the RFC's bits |
| Md5Block.RoundsAgree | misclib/md5.c:133-209 | the literal word indices and shifts of all four rounds follow the RFC's rules |
| Md5Block.RotateTurns | misclib/md5.c:131-131 | the rotation by each of the sixteen amounts in use is the left turn of `Md5Block.TurnedBits` |
| Md5Block.TurnedBits | misclib/md5.c:131-131 | turning left by d moves the low-order bits up by d and brings the top d bits in at the bottom |
| Md5Block.JoinValue | misclib/md5.c:102-102 | the value of a word read from four bytes |
| Md5Block.JoinSplit | misclib/md5.c:102-102 | a word read from four bytes has them as its bytes, low-order byte first |
| Md5Vectors.InitialBytes | misclib/md5.c:11-19 | the initial registers are the bytes of section 3.3 of RFC 1321 |
| Md5Vectors.AbcDigest | misclib/md5.c:94-221 | the digest of abc is 900150983cd24fb0d6963f7d28e17f72 |
| Md5Vectors.EightyDigest | misclib/md5.c:94-221 | the digest of the eighty digits, a message of two blocks, is 57edf4a22be3c955ac49da2e2107b67a |
| Md5Vectors.SumOfAbc | misclib/md5.c:21-56 | what md5sum stores for abc, byte by byte |
| Md5Stream.Blocks | misclib/md5.c:114-221 | the block loop folds the compression function over the blocks |
| Md5Stream.Context.constructor | misclib/md5.c:11-19 | an initialised context stands for the empty message |
| Md5Stream.Context.ProcessBytes | misclib/md5.c:59-91 | for every length a size can have: the context stands for what was fed before followed by the new bytes, registers being the fold of the processed blocks and at most 64 bytes staged; the counter becomes the stated one, a right one stays right if and only if it can take the call, and below 2^64 bytes in all the flag says exactly whether it is right |
| Md5Stream.Context.TopUp | misclib/md5.c:61-79 | staged bytes are completed and flushed without losing, repeating or miscounting any |
| Md5Stream.Context.Absorb | misclib/md5.c:81-90 | whole blocks go straight to the registers, the rest is staged; a right count stays right exactly under the carry condition |
| Md5Stream.Context.ProcessBlock | misclib/md5.c:99-221 | registers fold over the data, the counter goes up by its length |
| Md5Stream.Context.Finish | misclib/md5.c:30-47 | the digest of everything fed, padded with the count the counter holds; the RFC's digest if the count is right; below 2^64 bytes the flag says exactly whether it is |
| Md5Stream.PaddingRight | misclib/md5.c:37-42 | with a right count what is appended is the RFC's padding |
| Md5Stream.PaddingFits | misclib/md5.c:37-44 | padding and length field always fit the 128-byte buffer and end on a block boundary |
| Md5Stream.Md5Sum | misclib/md5.c:49-56 | for every length a size can have the digest of the message padded with the stated count; below 2^33 bytes, the bound of `Md5.SumFits`, that is the digest of RFC 1321 |
| Md5Stream.DigestChunks | misclib/md5.c:11-91 | for every list of chunks the digest of their concatenation padded with the count; below 2^64 bytes in all the count is right if and only if the counter can take the chunks, and then, as for all chunks below 2^32 bytes, the digest is the RFC's |
| Md5Stream.HugeSum | misclib/md5.c:110-112 | a message of 2^33 bytes in one call gets the length field of one of 2^32 bytes |
| Md5.FoldConcat | misclib/md5.c:114-215 | folding over two runs of blocks is folding over both |
| Md5.CarryExact | misclib/md5.c:110-112 | the two-word counter stays right exactly when the length is below 2^32 or the low word overflows at most once |
| Md5.CallExact | misclib/md5.c:59-91 | after any number of bytes, a call keeps the count right if and only if the bytes it processes straight from the input pass the carry test |
| Md5.BehindNext | misclib/md5.c:110-112 | below 2^64 bytes in all a wrong counter is too small and stays so: lost carries do not come back |
| Md5.SmallCallsFit | misclib/md5.c:59-91 | calls below 2^32 bytes fit in any sequence |
| Md5.SumFits | misclib/md5.c:49-56 | a message in one call fits if and only if it has fewer than 2^33 bytes |
| Md5.HugeCall | misclib/md5.c:110-112 | 2^33 bytes in one call on a fresh context are counted as 2^32 |
| Md5.LengthFieldRight | misclib/md5.c:40-42 | the two stored words are the length in bits, modulo 2^64, low-order byte first |
| RingProof.StepKeeps | buffer_cache/buffer_cache.c:16-115 | every critical section keeps the ring's invariant |
| RingProof.Conservation | buffer_cache/buffer_cache.c:16-115 | in every reachable state free, held by producers, ready and held by consumers add up to the number of buffers and are consecutive arcs between the cursors; consumers got exactly what producers marked ready, in order; held buffers are neither shared nor overwritten |
| RingProof.NobodyForgotten | buffer_cache/buffer_cache.c:22-24 | no reachable state has an available buffer and a waiting thread without an awakened one |
| RingProof.WaitersKeep | buffer_cache/buffer_cache.c:61-87 | while a thread waits, no more buffers are available than threads awakened, whatever wakes up spuriously or steals |
| RingProof.NoDeadlock | buffer_cache/buffer_cache.c:16-115 | if producers and consumers all wait, every buffer is in somebody's hands |
| RingProof.TopReadsReadyInOrder | buffer_cache/buffer_cache.c:171-192 | after a top reset, as long as no consumer takes a buffer, top requests hand out the ready contents in order, from slots that are neither being filled nor held by a consumer |
| RingCache.BufferCache.ProducerTryRequest | buffer_cache/buffer_cache.c:38-59 | a step of the state machine that keeps its invariant; the slot handed out was in nobody's hands and not ready, and NULL comes exactly when no buffer is free |
| RingCache.BufferCache.ProducerAttempt | buffer_cache/buffer_cache.c:16-36 | each evaluation of the blocking request's loop is a step; the thread gets a spare slot or is among those waiting |
| RingCache.BufferCache.ConsumerAttempt | buffer_cache/buffer_cache.c:70-87 | the same for consumers, with the oldest contents |
| RingCache.BufferCache.ConsumerTryRequest | buffer_cache/buffer_cache.c:89-105 | a step of the state machine; the slot handed out was in nobody's hands and holds the oldest contents marked ready and not yet consumed, and NULL comes exactly when none is ready |
| RingCache.BufferCache.ProducerReady | buffer_cache/buffer_cache.c:61-68 | a step of the state machine; what the buffer longest held by a producer contains is now last in the sequence that consumers will receive |
| RingCache.BufferCache.ConsumerRelease | buffer_cache/buffer_cache.c:107-115 | a step of the state machine; the buffer longest held by a consumer is afterwards held by nobody |
| RingCache.BufferCache.TopTryRequest | buffer_cache/buffer_cache.c:171-187 | a step of the state machine; as long as no consumer has taken a buffer since the reset, the slot is in nobody's hands and continues the ready contents in order, and NULL comes exactly when all of them were handed out |
| RingCache.BufferCache.TopReset | buffer_cache/buffer_cache.c:189-192 | a step of the state machine; the top cursor stands on the oldest contents marked ready, if there are any, and nothing has been handed out through it |
| RingCache.BufferCache.Flush | buffer_cache/buffer_cache.c:117-121 | while no consumer holds a buffer and nobody interferes: everything marked ready has been consumed in order and its buffers are free, nothing else changes |
| RingCache.Drive | buffer_cache/buffer_cache.c:16-192 | every interleaving of the methods, wake-ups and writes to held buffers is a run of the state machine from the object's state |
| StreamParams.Server.SetParameter | streamio_v2/server.c:154-201 | for every channel number: accepts exactly when not started, channel and sizes are in order, and then that channel alone gets the derived parameters; writes out of bounds exactly for channel 4 with sizes in order |
| StreamParams.Tiling | streamio_v2/server.c:172-191 | accepted parameters: packets follow one another without gap or overlap, none is empty, together they make up the network block, and those the disk buffer |
| StreamParams.LargestBlock | streamio_v2/server.c:187-191 | the largest network block is cut into 23 packets, the last of 1110 bytes |
| StreamParams.SizesAtEdges | streamio_v2/server.c:167-185 | sizes at the edges of what is accepted |
| StreamParams.EveryByteOnce | streamio_v2/client_entry.c:206-214 | every byte of a network block is in exactly one packet |
| StreamParams.InsideDisk | streamio_v2/client_entry.c:206-217 | every packet is cut from inside the disk buffer |
| StreamParams.ChannelGap | streamio_v2/server.c:162-165 | the one channel that passes the test without having storage |
| StreamParams.TotalExact | streamio_v2/client.c:335-337 | block numbers below the total are exactly those with a byte of the file |
| StreamServer.Channel.FullRead | streamio_v2/client_entry.c:48-64 | short reads add up to the rest of the file or a full buffer, with the file's bytes |
| StreamServer.Channel.LoadBlock | streamio_v2/client_entry.c:180-196 | the buffer holds the wanted disk block; skipping the seek on sequential access agrees with seeking, also after a short last block and past the end |
| StreamServer.Channel.OpenFile | streamio_v2/client_entry.c:66-148 | the channel serves the new file from the start, or nothing |
| StreamServer.Channel.Fetch | streamio_v2/client_entry.c:150-217 | exactly the packets asked for, each once and by rising index, each with the file's bytes at its place; an error when nothing is open |
| StreamServer.AskedExact | streamio_v2/client_entry.c:203-204 | the indices gone through are those set in the map, in rising order |
| StreamServer.PacketGenuine | streamio_v2/client_entry.c:203-217 | packet i of network block n carries the bytes at n * netbuf + i * payload wherever those are inside the file |
| StreamServer.BlockPosition | streamio_v2/client_entry.c:180-181 | disk block and entry locate the network block |
| StreamServer.Serve | streamio_v2/client_entry.c:66-217 | for every sequence of opens and fetches, each fetch is answered from the file open at that time |
| StreamClient.Client.Request | streamio_v2/client/internal.c:166-192 | the packets that lie inside the file are requested, and their number is the count of set map entries |
| StreamClient.WantedExact | streamio_v2/client/internal.c:177-187 | the packets asked for are exactly those with a byte of the file |
| StreamClient.Client.Receive | streamio_v2/client.c:181-202 | whatever reply to the current request arrives, the counter stays the number of missing packets and every packet not missing is in its place |
| StreamClient.Client.Exchange | streamio_v2/client/internal.c:63-143 | loss, repetition and reordering in every round of resending keep that; afterwards exactly the packets that arrived in no round are missing, so the request is complete if and only if each asked for arrived at least once |
| StreamClient.Client.FetchBlock | streamio_v2/client/internal.c:166-201 | the block is complete if and only if every packet of it inside the file arrived |
| StreamClient.Client.Complete | streamio_v2/client.c:181-202 | with no packet missing the buffer starts with the block's bytes |
| StreamClient.Client.Read | streamio_v2/client.c:407-441 | the caller gets the next bytes of the file, at most as many as asked for and all of those unless the buffer is empty then, and -1 exactly at the end; the call succeeds exactly when there were bytes left, the end was reached, or all packets of the block arrived |
| StreamClient.StoreKeeps | streamio_v2/client.c:185-195 | storing a packet disturbs no other |
| StreamClient.ReadFile | streamio_v2/client.c:407-441 | server, network and client together: reading until -1 gives the whole file, and the end is reached when every packet of a block arrives in one round or another of its read |
| ConfProof.ProgramOk | sys_conf/y.tab.c:1398-1682 | for every program whose switches have distinct labels the flag machine does to store, output and process exactly what a structured evaluator does, with else-if reading, freeing and faulting as it does |
| ConfProof.ProgramMeant | sys_conf/y.tab.c:1398-1682 | the same with the language's meaning, which never faults, where each else-if reads a live text that decides like the name that is meant and the meant run gets to no print of an empty string |
| ConfProof.IfElifElseOk | sys_conf/y.tab.c:1440-1496 | first true branch of if / else-if / else, with the value the else-if reads, or a fault |
| ConfProof.SwitchOk | sys_conf/y.tab.c:1398-1438 | matching case with fall-through to the next break; default when nothing matched or by fall-through |
| ConfProof.SeekOk | sys_conf/y.tab.c:1422-1437 | before a label matches, groups are skipped |
| ConfProof.RunOk | sys_conf/y.tab.c:1422-1437 | from the matching label on, groups run until a break |
| ConfProof.IntsPopped | sys_conf/y.tab.c:1596-1669 | numbers pushed in reduction order are popped in source order, the last 64 of them |
| ConfProof.StrsPopped | sys_conf/y.tab.c:1618-1682 | the same for strings |
| ConfProof.SkippedList | sys_conf/y.tab.c:1596-1682 | a list in a branch not taken leaves store and stack alone |
| ConfLang.BranchExact | sys_conf/y.tab.c:1462-1481 | the else-if action takes the branch that is meant if and only if the first condition holds, or the value read can be looked up without a fault and decides like the name that is meant |
| ConfLang.CodedIsMeant | sys_conf/y.tab.c:1462-1481 | where all else-ifs of a program agree and its meant run prints no empty string, the actions do what the language means and do not fault |
| ConfLang.FaultExact | sys_conf/y.tab.c:1462-1481 | over a store with an entry the else-if faults if and only if it is reached and the first branch does not end with a list of strings whose last one is not empty |
| ConfLang.ChoicesExact | sys_conf/y.tab.c:1462-1545 | a whole run takes the branches that are meant and does not fault if and only if each of its else-ifs agrees and the meant run gets to no print of an empty string |
| ConfLang.BodyExact | sys_conf/y.tab.c:1504-1545 | the actions of simple statements fault if and only if they get to a print of an empty string, and otherwise do what is meant |
| ConfLang.StatementExact | sys_conf/y.tab.c:1398-1545 | the same for every statement whose else-if, if it has one, agrees |
| ConfLang.RunTaken | sys_conf/y.tab.c:1422-1438 | falling through the groups of a switch is executing their bodies up to the next break |
| ConfLang.PrintCounterexample | sys_conf/y.tab.c:1504-1545 | printing an empty string is meant to print an empty text, and faults |
| ConfLang.ElifCounterexamples | sys_conf/y.tab.c:1462-1481 | three first branches with which the second branch, though meant, is not taken: a freed text, a null pointer, a text that happens to be looked up |
| ConfRun.Conf.Find | sys_conf/sys_conf.c:341-350 | finds the entry whose key is equal up to case, if there is one |
| ConfRun.Conf.GetInteger | sys_conf/sys_conf.c:60-65 | the entry's number, or -1 |
| ConfRun.Conf.LookupToken | sys_conf/sys_conf.c:341-350 | a freed text faults, a null pointer faults as soon as there is an entry, a live text is looked up |
| ConfRun.Conf.AddString | sys_conf/sys_conf.c:245-289 | the store maps the key to the text and all other keys as before; no key twice |
| ConfRun.Conf.AddValue | sys_conf/sys_conf.c:225-327 | the same for numbers, flags and lists |
| ConfRun.Interpreter.Do | sys_conf/y.tab.c:1398-1682 | each user action on the globals is a step of the machine; what the assignments make readable is in `ConfRead` |
| ConfRun.Interpreter.PopAllInts | sys_conf/y.tab.c:1606-1613 | the popping loop empties the stack in pop order |
| ConfRun.Interpreter.PushElem | sys_conf/y.tab.c:113-129 | one more element, unless there are 64 |
| ConfRun.Configure | sys_conf/sys_conf.c:201-207 | a preset variable and then any program: the globals end up, or the process faults, as the structured evaluator says |
| ConfRead.FlagReads | sys_conf/sys_conf.c:291-305 | after on one reads 1 and after off 0, under every spelling of the key; all other keys read as before |
| ConfRead.NumberReads | sys_conf/sys_conf.c:225-243 | after a number in decimal one reads that number |
| ConfRead.TextReads | sys_conf/sys_conf.c:245-289 | after a text one reads the text, and -1 as number |
| ConfRead.ListReads | sys_conf/sys_conf.c:307-327 | after a list one reads its last 64 elements and their number |
| ConfRead.IfReads | sys_conf/y.tab.c:1440-1454 | an if runs its branch after on or a positive number, not after off, 0 or a text, nor when the variable is not set |
| ConfRead.LowerExact | sys_conf/sys_conf.c:345-345 | keys are the same entry if and only if they differ in letter case only |
| ConfRead.AtoiDecimal | sys_conf/sys_conf.c:237-237 | the decimal spelling of every number is read as that number |
| ConfRead.StoredExact | sys_conf/sys_conf.c:266-280 | a text is stored as it is, without quotes if it comes in quotes, and empty quotes as nothing |
| ConfRead.StripExact | sys_conf/sys_conf.c:330-339 | taking off the quotes keeps up to 4094 characters |
| ConfRead.PlainText | sys_conf/y.tab.c:1515-1536 | a text without a backslash prints as it is |
| ConfRead.EscapedText | sys_conf/y.tab.c:1518-1532 | each escape prints its character, and any other is dropped with its backslash |
| ConfRun.UnescapeInPlace | sys_conf/y.tab.c:1515-1537 | the loop that shortens the text where it stands leaves the unescaped text |
| ConfRun.Conf.GetString | sys_conf/sys_conf.c:53-58 | the entry's text, or nothing |
| ConfRun.Conf.GetIntList | sys_conf/sys_conf.c:67-80 | the entry's list and its length, or none and 0 |
| ConfRun.Conf.GetStrList | sys_conf/sys_conf.c:82-95 | the same for strings |
| Rc4.Key.SetKey | misclib/rc4encrypt.c:89-109 | the table after key setup is the one of the plain schedule, which uses the key bytes round and round; it is a permutation |
| Rc4.Key.Process | misclib/rc4encrypt.c:33-77 | eight at a time plus tail equals the byte-wise cipher for every length, in place or not; the state has advanced by that many bytes and is still sound; bytes past the end are untouched; `Rc4.SecondByte`, `Rc4.OrderedBytes` and `Rc4.KnownText` say what the cipher produces |
| Rc4.Key.Loop | misclib/rc4encrypt.c:16-22 | one macro step is one step of the cipher |
| Rc4.Key.Mix | misclib/rc4encrypt.c:26-31 | one macro step is one round of key setup |
| Rc4.AfterKeeps | misclib/rc4encrypt.c:16-22 | the table is a permutation of 0..255 after any number of bytes |
| Rc4.MixedPermutation | misclib/rc4encrypt.c:97-108 | and in every round of key setup |
| Rc4.AfterInjective | misclib/rc4encrypt.c:16-22 | states that agree after n steps agreed before |
| Rc4.CryptConcat | misclib/rc4encrypt.c:33-77 | processing a and then b is processing both at once |
| Rc4.CryptTwice | misclib/rc4encrypt.c:33-77 | a second pass from the same state restores the input |
| Rc4.PiecesRestore | misclib/rc4encrypt.c:33-77 | sender and receiver may cut the stream at different places |
| Rc4.Exchange | misclib/rc4encrypt.c:33-109 | two keys set up alike: encrypt into a buffer, decrypt in place, and the plain text is back |
| Rc4.SecondByte | misclib/rc4encrypt.c:16-22 | for every table with 0 at place 2 and not 2 at place 1 the second key byte is 0 |
| Rc4.FirstByte | misclib/rc4encrypt.c:16-22 | the first key byte of every table is read where the two exchanged entries add up |
| Rc4.OrderedBytes | misclib/rc4encrypt.c:16-22 | from the table in order the key bytes are 2, 5, 7, 13 |
| Rc4.OrderKeyRounds | misclib/rc4encrypt.c:97-108 | the key that leaves the table in order through all 256 rounds |
| Rc4.KnownText | misclib/rc4encrypt.c:33-109 | key setup and cipher together on two bytes |
| Rc4.FirstRound | misclib/rc4encrypt.c:26-31 | for every key the first round exchanges entry 0 and the entry named by the key's first byte, and nothing else |
| Rc4.KeyRounds | misclib/rc4encrypt.c:26-31 | the table after five rounds under a key of three bytes |
| CronLine.LineParsed | cron/cronjob.c:17-178 | every well-formed line is accepted, with the masks of its five fields and the command text |
| CronLine.FieldBits | cron/cronjob.c:80-162 | a bit is set exactly when star, list or step denotes it; minutes have bits 0 to 62; a step loses all short-word bits when its closing blank has index 32 or more |
| CronLine.StepExact | cron/cronjob.c:142-156 | a short-word mask is right for all values if and only if a step closes before index 32 |
| CronLine.ZeroStep | cron/cronjob.c:142-148 | wherever a field may start, a step of zero divides by zero at its closing blank |
| CronLine.LineVerdict | cron/cronjob.c:17-178 | for every line of five well-shaped fields: it is parsed with the masks of its fields if no step is zero, and divides by zero if and only if some step is |
| CronLine.ZeroLine | cron/cronjob.c:142-148 | a concrete line that divides by zero |
| CronGrammar.ScanExact | cron/cronjob.c:17-178 | for every string: parsed if and only if it is blanks, five fields each closed by blanks, and a command, with the masks of those fields; a division by zero if and only if a step of zero comes after fewer than five good fields; rejected otherwise |
| CronGrammar.HaltDivides | cron/cronjob.c:142-148 | whatever follows a step of zero, the parser has divided by then |
| CronGrammar.StrayStart | cron/cronjob.c:69-78 | a string that begins with anything but a star or a digit, such as a comment, is rejected |
| CronGrammar.OnlyDigitsCount | cron/cronjob.c:110-124 | characters other than digits inside a list element do not change its number |
| CronGrammar.ValueDecimal | cron/cronjob.c:117-118 | the decimal spelling of a number is read as that number |
| CronLine.StepBits | cron/cronjob.c:147-154 | the bits the step loop sets are the multiples |
| CronLine.NumbersBits | cron/cronjob.c:95-125 | the bits of a list are its numbers |
| CronJob.Cron.Parse | cron/cronjob.c:17-178 | on every string the parser ends with the verdict of the character-wise scanner, the step back before the command included; `CronGrammar.ScanExact` says which verdict that is |
| CronJob.Cron.StepMasks | cron/cronjob.c:144-154 | the shifting loop computes the step masks |
| CronJob.Cron.Add | cron/cronjob.c:189-208 | a string that is a line becomes the first entry, a rejected one leaves the table unchanged, and a division by zero returns nothing, each exactly as `CronGrammar.ScanExact` says |
| CronJob.Cron.CheckNext | cron/cronjob.c:210-244 | the next due command, leaving exactly the later ones, or NULL when there is none |
| CronJob.Cron.CheckFirst | cron/cronjob.c:246-259 | the first due command of the table at the given time |
| CronJob.Cron.Enumerate | cron/cronjob.c:210-259 | first and next until NULL list exactly the due commands, once each, in table order |
| CronJob.LineDue | cron/cronjob.c:219-240 | a line is due exactly when all five fields contain the time and no step after the minutes closes past index 31 |
| CronJob.NeverRuns | cron/cronjob.c:149-149 | a line that fits every midnight and is due at no time |
| CronJob.NewYear | cron/cronjob.c:246-254 | a concrete line, with a tab in it, that is due exactly at midnight on the first of January |
| CronJob.Mondays | cron/cronjob.c:246-254 | a concrete line that is due exactly on Mondays |
| CronJob.Schedule | cron/cronjob.c:189-259 | lines added to an empty table: the commands listed for a time are those of the fitting lines, newest first |
| Border.Image.Border | rmosdlib/rmimage256.c:259-308 | all accesses stay inside the image; every pixel ends as one scan in place determines; that is the pure outline exactly under the stated condition |
| Border.Image.Touches | rmosdlib/rmimage256.c:284-305 | the two inner loops find out whether a foreground pixel lies within distance bw |
| Border.RowMajor | rmosdlib/rmimage256.c:277-297 | pixels lie row after row |
| Border.WindowCorners | rmosdlib/rmimage256.c:270-275 | three windows and the pixels in them |
| Border.SweepIsOutline | rmosdlib/rmimage256.c:277-307 | the scan in place is the L1 dilation if and only if the colours differ as stored, or no outline pixel reaches a later open pixel that the foreground does not |
| Border.DistinctColours | rmosdlib/rmimage256.c:277-307 | with different colours, a pixel of the clipped window that has neither becomes the outline colour exactly when a foreground pixel of the old image is near, and every other pixel is unchanged |
| Border.Floods | rmosdlib/rmimage256.c:277-307 | a row of three that floods when both colours are the same |
| Border.HighForeground | rmosdlib/rmimage256.c:264-264 | a foreground colour of 128 or more changes nothing; `Border.PaletteExact` says when that is wrong |
| Border.PaletteExact | rmosdlib/rmimage256.c:264-307 | over palette indices 0 to 255 the code draws the outline that is meant if and only if the foreground is below 128 and the outline has another colour or does not spill, or there is nothing to draw |
| Border.HighMissed | rmosdlib/rmimage256.c:281-299 | a row of two in which index 200 should be outlined and is not |

## Left out

- StreamParams.Server.SetParameter: does not say what the write past the arrays destroys.
- StreamClient.ReadFile: reaching the end needs a network that delivers every packet at some time; the code itself repeats requests without bound.
- Border.Image.Border: does not model the header and palette bytes before the pixels.
- Overflow of `int` arithmetic (cron numbers, file positions, a cipher call of 2^34 bytes) is not modelled.
- MD5: cryptographic strength and big-endian hosts.
- RC4: cryptographic strength, key length zero, and input and output buffers that overlap partly.
- Buffer ring: `bc_cleanup`, `bc_setbuffer` and `bc_dispose`, which are for use when nobody holds or awaits a buffer, and failing allocation.
- Streaming: sockets, checksums, server discovery, pacing, time-outs, reopening after an error and failing reads; replies to an earlier fetch that arrive late, which the client cannot tell from current ones; negative block numbers.
- Configuration: the generated parser and scanner tables, the special-rule tags, memory that is lost but not misused, and switches in which one label stands in two groups.
- Splay tree: `SPLAY_NEXT`.
- Cron: `cronjob_list` and failing allocation.
- Image library: fonts, lines, rectangles, bitmaps and palette conversion.
- The MAC address text parser of `mactable`, which would add only a smaller parser of the same kind as cron's.
- `xlist`, `pqueue`, `x_object`, `autofree` and `rbmcast`, which repeat easier forms of the ring or are unfinished.
- Everything that talks to databases, SNMP, audio and video hardware, serial lines and terminals.
