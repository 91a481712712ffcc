# RemoveWin-Tree, modelled and proved in Dafny

RemoveWin-Tree is Redis 4.0.8 extended with replicated data types whose conflicts
are resolved in favour of removal. This project models the parts of it that carry
state across calls, replicas or restarts, and proves what they keep:

| part | modules |
|---|---|
| remove-win headers, the replicated priority queue, the network of replicas | `VectorClock`, `RemoveWin`, `RemoveWinSystem` |
| the remove-win tree | `RwTree`, `RwTreeShape`, `RwTreeRivals`, `RwTreeMoves`, `RwTreeContent`, `RwTreeDeaths`, `RwTreeReplica` |
| cluster epochs, votes and elections | `ClusterEpochs`, `ClusterProtocol`, `ClusterStaleAck` |
| cluster slots, bitmaps, master and slave links, failure reports, node removal | `SlotBitmap`, `ClusterConfig`, `ClusterSteps`, `ClusterRuns`, `ClusterClaims`, `ClusterState` |
| the append-only file: text, loading, replay, rewrite, the background rewrite protocol | `AofCodec`, `AofReplay`, `AofRewrite`, `AofServer`, `AofBuffers` |
| bit counting, bit search and `BITFIELD` | `Popcount`, `Words`, `Bitpos`, `Bitfield`, `BitfieldOps`, `BitfieldCommand` |
| CRC-64 and `DUMP` payloads | `Crc64Table`, `Crc64`, `Crc64Bursts`, `DumpPayload` |
| the index from slots to keys | `SlotIndex` |

Pure rules are functions. Code that updates structures in place is a class or a
method with loops whose `ensures` equates the new state with such a function, and
the lemmas are about the function. Protocols are state machines: a datatype of
steps, the guard of each step, the function it applies, and theorems about every
sequence of steps from the start.

## Main results

- Replicas of a remove-win element that received the same operations, in any two
  orders, are equal (`RemoveWinSystem.ReplicasConverge`); no causal delivery is
  needed, because every effect first applies the removes its clock carries. The
  element exists exactly when some delivered insertion knew every remove the
  replica has heard of (`RemoveWinSystem.RemoveWins`).
- A master votes once per epoch and an epoch has one winner, in every run in which
  no acknowledgement is counted between two attempts
  (`ClusterProtocol.OneVotePerEpoch`, `ClusterProtocol.PromptRunsAreSafe`).
- Every step of the model of a node's cluster view, but two, keeps its slot table,
  bitmaps, slot counters, links, failure reports and open slots consistent
  (`ClusterRuns.StepInv`), and removing a node leaves no reference to it
  (`ClusterConfig.DeleteNodeOk`). The steps are: handshakes that start, complete or
  time out; headers of PING, PONG and MEET; UPDATE packets; a won election; failure
  reports added and dropped; and the commands REPLICATE, FORGET, ADDSLOTS, DELSLOTS,
  FLUSHSLOTS and SETSLOT. Reports expire inside these steps and have no step of
  their own, and a header that only raises an epoch is left to `ClusterProtocol`.
- Slot claims converge to the claimant of greatest epoch whatever their order
  (`ClusterClaims.ClaimsConverge`).
- File and buffer of the append-only file always replay to the dataset, through
  partial writes, failed truncations and background rewrites that fail or succeed
  at any point (`AofServer.FileAndBufferAreTheDataset`, `AofServer.RewriteIsSafe`),
  and a crash loses only whole commands from the end
  (`AofServer.CrashRecoversPrefix`).
- The word-at-a-time bit routines and the table-driven CRC compute what their
  one-bit-at-a-time definitions say (`Popcount.RedisPopcount`,
  `Bitpos.RedisBitpos`, `Crc64.RunCrc64`).
- A change of a message within 64 adjacent bits always changes its sum
  (`Crc64Bursts.BurstShows`), and an accepted `DUMP` payload is rejected after any
  such change, in the value, in the footer or across both
  (`DumpPayload.AnyBurstIsRejected`).
- Replicas of the tree that survive the same commands agree on which nodes exist
  (`RwTree.HeadersConverge`), and all survive when each insertion comes before the
  moves of its node (`RwTreeDeaths.OrderlyRunsConverge`).

## Where the code does not do what it seems to promise

Each of these is modelled as the code is, with the exact condition.

- **Late votes.** A slave that gives up an attempt resets its vote counter but
  keeps the epoch of the attempt until it asks again, so an acknowledgement that
  arrives in between is counted for the next attempt (cluster.c:2002-2014 and
  2837-3002). Safety holds as long as the late acknowledgements stay below the
  margin of two quorums over the electorate (`ClusterProtocol.OneWinnerPerEpoch`).
  The condition is exact: every nonempty set of voters has a run with two winners of
  one epoch whose late acknowledgements sum to that margin
  (`ClusterStaleAck.StaleAcksBreakSafety`).
- **A null master.** `clusterUpdateSlotsConfigWith` compares the owner of a slot
  with `curmaster`, which is null for a slave whose master is unknown; an
  unassigned slot then matches and the null pointer is read.
  `ClusterRuns.DiesIff` says exactly when, `ClusterRuns.DeathIsReachable` gives a
  run, and `ClusterRuns.CarefulRunsLive` shows that an operator who does not
  replicate a node still in handshake, and gives slots to masters only, never meets
  it.
- **Slots for slaves.** `CLUSTER ADDSLOTS` does not ask whether this node is a master,
  nor `CLUSTER SETSLOT NODE` whether the new owner is. These are the only steps that
  break an invariant, that only masters own slots, and they do so exactly when the
  node that gets the slot is not a master (`ClusterRuns.StepInv`,
  `ClusterRuns.AssignInvIff`, `ClusterRuns.BindInvIff`). A slave with a slot then
  passes all tests of `CLUSTER REPLICATE` and runs into an assertion
  (`ClusterRuns.SlaveWithSlotFails`).
- **Equal epochs.** Two claims leave the same table in either order exactly when
  they do not tie for a slot (`ClusterClaims.TwoClaimsCommuteIff`).
- **`BITFIELD SET` with `OVERFLOW SAT`.** A signed field of n < 64 bits saturates at
  the wrong end exactly when the value is below 2^(n-1) - 2^63; at 64 bits no value
  is out of range (`BitfieldOps.SignedSetExact`). An unsigned field takes its maximum
  for every negative value (`BitfieldOps.UnsignedSetExact`).
- **Signed fields of 64 bits.** Sign extension and wrap shift an all-ones word by the
  whole width, which C leaves undefined. Where the result is zero they are right;
  where the machine takes the count modulo 64 the mask is all ones, every negative
  field reads as -1 and a wrapped result is -1 or 0. Both are modelled
  (`BitfieldOps.WrapExactIff`, `BitfieldOps.IncrBySigned`,
  `BitfieldOps.SetSigned`), with the exact condition on field, argument and policy
  under which the replies are right all the same.
- **Scores without insertion.** An element is in the visible sorted set without
  existing exactly when an increment carries the join of all clocks and no
  insertion does (`RemoveWin.VisibleIff`), which an increment that overtakes its
  insertion brings about (`RemoveWinSystem.VisibleWithoutInsertion`).
- **Tree moves that kill.** A move of a node whose insertion has not arrived makes a
  node without `uid`, and a move that takes place adds that null pointer to a set of
  children (t_rwtree.c:79 and 590). A sequence of deliveries kills the server exactly
  when some move takes place before any insertion of its node
  (`RwTreeDeaths.RunDiesIff`); three replicas are enough
  (`RwTreeDeaths.DeathIsReachable`). What is proved of sequences of deliveries is
  proved of those the server survives.
- **Tree moves.** Moves issued by different replicas from one state converge, one
  move each (`RwTreeMoves.RivalsConverge`). If one of them moves the node twice,
  the causal orders of delivery agree on the parent only under the condition of
  `RwTreeMoves.SecondMoveAgreesIff`. Two crossed moves make a cycle in every
  order, and the membership climb from it never ends (`RwTreeMoves.CrossedMoves`).
- **Tree names.** A value change that is causally ready always takes effect, so
  concurrent changes leave the name delivered last, and replicas agree on it
  exactly when their last deliveries do (`RwTreeContent.NamesAgreeIff`).
- **Tree insertions.** The effect of an insertion sets the parent before it looks at
  the header. Two insertions of one node leave the parent of the one delivered
  later, although the headers agree (`RwTreeContent.ConcurrentInsertsAgreeIff`). An
  insertion delivered before the removal it has seen makes a node that exists and
  hangs nowhere (`RwTreeContent.EarlyInsertIsLost`) until a move of it is delivered
  that is concurrent with its earlier moves or the next after them
  (`RwTreeContent.LostNodeIsFound`).
- **CRC-64.** The comment in crc64.c lists an all-ones input mask; the code starts
  from the value it is given, which is 0 for payloads, and the model follows the
  code.

## Assumptions

- Integers that count (epochs, clocks, offsets, sizes) do not wrap. Where the source
  relies on a width, as in `BITFIELD`, the width is explicit, and the signed
  overflow of the range check is taken as two's complement. Scores of the
  replicated queue are reals, and scores in the append-only file are their text.
- Elections: a fixed set of voters, as many as the quorum is computed from; nodes
  do not restart; packets and requests may be lost, repeated and reordered, an
  acknowledgement is delivered at most once. A request goes to the nodes in the
  asker's table.
- Node pointers are names. Packets do not come from a node still in handshake.
- Append-only file: `argc` fits an `int` and lengths a `long`; the log has no RDB
  preamble and no transactions; keys that are present at a fork have not expired;
  `SELECT` is never fed as a command of its own.
- Words are 64 bits and loaded little end first. Fields have the widths the command
  accepts: unsigned to 63 bits, signed to 64. What a shift by the whole width gives
  is a parameter.
- The hash of a key is a parameter, and the radix tree of the slot index is a set
  of byte strings in byte order.
- Tree identifiers are numbers in the order of their text, which begins with a digit.
  The text of an absent parent sorts below all of them, and the text `none` of a
  node taken out of the tree above all.

## Model

| member | source | states |
|---|---|---|
| `VectorClock.JoinIsLeast` | redis-4.0.8/src/vector_clock.c:89-96 | The update is a join: it is below a clock exactly when both arguments are |
| `VectorClock.UpdateVC` | redis-4.0.8/src/vector_clock.c:89-96 | The in-place loop leaves the join, and leaves clocks of different sizes alone |
| `VectorClock.EqualVC` | redis-4.0.8/src/vector_clock.c:31-39 | Equality of size and every component |
| `VectorClock.RemoveCheck` | redis-4.0.8/src/RWFramework.h:94-100 | True exactly when the stamp is not below the local clock |
| `RemoveWin.RwElement.constructor` | redis-4.0.8/src/t_rzset.c:40-48 | A new element has no owner, a zero clock, no score |
| `RemoveWin.RwElement.Remove` | redis-4.0.8/src/t_rzset.c:85-98 | Clears owner, scores and visible entry when the stamp is ahead, and joins the clock |
| `RemoveWin.RwElement.EffectAdd` | redis-4.0.8/src/t_rzset.c:128-159 | The effect of an insertion, as the function the convergence theorems are about |
| `RemoveWin.RwElement.EffectIncrBy` | redis-4.0.8/src/t_rzset.c:191-221 | The effect of an increment, as that function |
| `RemoveWin.RwElement.EffectRem` | redis-4.0.8/src/t_rzset.c:248-269 | The effect of a removal, as that function |
| `RemoveWin.ApplyIsLiftThenAct` | redis-4.0.8/src/RWFramework.h:83-100 | Every effect is: raise the clock, dropping content if it moves, then act only if the clock is the operation's own |
| `RemoveWin.Commute` | redis-4.0.8/src/RWFramework.h:61-100 | Any two operations commute on any element |
| `RemoveWin.OrderIrrelevant` | redis-4.0.8/src/RWFramework.h:61-100 | Any two orders of the same operations give the same element, score included |
| `RemoveWin.RunDescribed` | redis-4.0.8/src/t_rzset.c:85-270 | Closed form after any sequence: clock is the join, owner the greatest inserting id under it, scores the insertion and the sum of increments under it |
| `RemoveWin.SetDeterminesHeader` | redis-4.0.8/src/RWFramework.h:61-100 | Clock, owner and innate score depend only on the set of operations, duplicates and order aside |
| `RemoveWin.ExistsIff` | redis-4.0.8/src/RWFramework.h:75-76 | Existence exactly when some insertion carries the join of all clocks; such an insertion is above every operation |
| `RemoveWin.VisibleIff` | redis-4.0.8/src/t_rzset.c:191-221 | When being visible and existing agree, both directions |
| `RemoveWinSystem.NextInv` | redis-4.0.8/src/RWFramework.h:130-137 | Every prepare or delivery keeps: elements are replays of what was delivered, clocks count exactly the removes known, own removes are known, inserts are kept |
| `RemoveWinSystem.RunsKeepInv` | redis-4.0.8/src/RWFramework.h:130-137 | The same for every run of every number of replicas |
| `RemoveWinSystem.ReplicasConverge` | redis-4.0.8/src/t_rzset.c:100-270 | Strong eventual consistency in every run |
| `RemoveWinSystem.RemoveWins` | redis-4.0.8/src/t_rzset.c:100-270 | In every run an element exists at a replica exactly when a delivered insertion knew all removes the replica has heard of |
| `RemoveWinSystem.VisibleWithoutInsertion` | redis-4.0.8/src/t_rzset.c:191-221 | For any number of replicas, a run in which an increment overtakes its insertion and is visible where the element does not exist |
| `RwTree.MirrorEffect` | redis-4.0.8/src/t_rwtree.c:329-603 | What each tree command does to the header of any node is the remove-win element under the listed removes and insertions |
| `RwTree.RunMirrors` | redis-4.0.8/src/t_rwtree.c:329-603 | The same over any sequence of commands the server survives |
| `RwTree.HeadersConverge` | redis-4.0.8/src/t_rwtree.c:329-603 | Trees that received the same commands in any two orders, and survived them, agree on which nodes exist, on owners and clocks |
| `RwTreeDeaths.KnownIff` | redis-4.0.8/src/t_rwtree.c:355-390 | After deliveries that are survived a node has its uid exactly when it had it at the start or an insertion of it was delivered |
| `RwTreeDeaths.RunDiesIff` | redis-4.0.8/src/t_rwtree.c:554-600 | A sequence of deliveries dies exactly when some move takes place before any insertion of its node |
| `RwTreeDeaths.OrderlyRunsLive` | redis-4.0.8/src/t_rwtree.c:554-600 | Orders that bring an insertion of a node before its moves survive |
| `RwTreeDeaths.OrderlyRunsConverge` | redis-4.0.8/src/t_rwtree.c:329-603 | Any two such orders of the same commands survive and agree on every header |
| `RwTreeDeaths.FirstContact` | redis-4.0.8/src/t_rwtree.c:554-600 | A move that is the first a replica hears of a node kills it exactly when it is its issuer's first move of the node, with no other move seen |
| `RwTreeDeaths.DeathIsReachable` | redis-4.0.8/src/t_rwtree.c:521-603 | An insertion and a move that pass every check of their prepare phases; in order they are survived, the move alone is not |
| `RwTreeShape.AcyclicIff` | redis-4.0.8/src/t_rwtree.c:554-600 | Hanging src below dst keeps the parent links acyclic exactly when dst is not below src |
| `RwTreeShape.MoveKeepsAcyclicIff` | redis-4.0.8/src/t_rwtree.c:554-600 | Any delivered move that is survived keeps the tree acyclic exactly when it does not land or its target is not below the moved node once the removals it brings are applied |
| `RwTreeShape.OwnMoveKeepsAcyclic` | redis-4.0.8/src/t_rwtree.c:521-603 | The subtree check of the prepare phase is enough at the issuing replica |
| `RwTreeShape.UnderIsCollected` | redis-4.0.8/src/t_rwtree.c:129-160 | Everything below a node is found by the walk over children |
| `RwTreeShape.OwnInsertKeepsAcyclic` | redis-4.0.8/src/t_rwtree.c:329-391 | The membership checks of an insertion are enough at the issuing replica |
| `RwTreeShape.RemoveKeepsAcyclic` | redis-4.0.8/src/t_rwtree.c:96-110 | A removal never makes a cycle |
| `RwTreeShape.EffectKeepsListed` | redis-4.0.8/src/t_rwtree.c:329-603 | Every existing node with a parent stays in that parent's set of children |
| `RwTreeShape.RunKeepsListed` | redis-4.0.8/src/t_rwtree.c:329-603 | The same over any sequence of commands the server survives |
| `RwTreeShape.IsTreeMember` | redis-4.0.8/src/t_rwtree.c:111-127 | On an acyclic tree the climb ends and finds exactly the nodes below the root |
| `RwTreeShape.CycleNeverStops` | redis-4.0.8/src/t_rwtree.c:111-127 | From a node on a cycle that avoids the root the climb goes on for ever |
| `RwTreeMoves.EffectIsGo` | redis-4.0.8/src/t_rwtree.c:554-600 | A move of an up-to-date node touches one place only, by a rule on parent and clock alone that lets a concurrent move take a node taken out of the tree, and no header |
| `RwTreeMoves.RivalsMeet` | redis-4.0.8/src/t_rwtree.c:554-600 | After moves by distinct replicas from one state the parent is the least target and the clock counts exactly those replicas |
| `RwTreeMoves.RivalsConverge` | redis-4.0.8/src/t_rwtree.c:554-600 | Any order of such moves gives the same parent |
| `RwTreeMoves.SecondMoveAgreesIff` | redis-4.0.8/src/t_rwtree.c:554-600 | With a second move by one replica, the causal orders agree exactly when the first target is not the least |
| `RwTreeMoves.SecondMoveDiverges` | redis-4.0.8/src/t_rwtree.c:554-600 | Three moves on which two causal orders end with different parents |
| `RwTreeMoves.NextLands` | redis-4.0.8/src/t_rwtree.c:554-600 | A move that is the next of an up-to-date node is survived and hangs the node under its target |
| `RwTreeMoves.CrossedMoves` | redis-4.0.8/src/t_rwtree.c:521-603 | Two nodes moved below each other concurrently form a cycle that is never left |
| `RwTreeContent.EffectIsSet` | redis-4.0.8/src/t_rwtree.c:486-515 | A value change of an up-to-date node touches one name and its clock, no header and no parent |
| `RwTreeContent.LastDeliveredNames` | redis-4.0.8/src/t_rwtree.c:486-515 | Under causal delivery the name is that of the last change delivered |
| `RwTreeContent.RivalsAreCausal` | redis-4.0.8/src/t_rwtree.c:486-515 | Changes by distinct replicas from one state are causally ready in every order, and the clock counts exactly those replicas |
| `RwTreeContent.NamesAgreeIff` | redis-4.0.8/src/t_rwtree.c:486-515 | Two orders of such changes agree on the name exactly when they end with the same name |
| `RwTreeContent.TwoNames` | redis-4.0.8/src/t_rwtree.c:486-515 | Two concurrent changes always leave the one delivered second |
| `RwTreeContent.InsertParent` | redis-4.0.8/src/t_rwtree.c:355-390 | An insertion sets the parent exactly when it brings no news of a removal, owner or not; otherwise it leaves the text none |
| `RwTreeContent.ConcurrentInsertsAgreeIff` | redis-4.0.8/src/t_rwtree.c:355-390 | Two insertions of a node agree on the header in both orders, and on the parent exactly when it is the same |
| `RwTreeContent.EarlyInsertIsLost` | redis-4.0.8/src/t_rwtree.c:355-428 | An insertion delivered before a removal it has seen exists with the same header as in the other order, but is no member |
| `RwTreeContent.LostNodeIsFound` | redis-4.0.8/src/t_rwtree.c:554-600 | A node that exists and hangs nowhere is hung by a move exactly when the move is concurrent or the next one |
| `RwTreeContent.OwnInsertIsVisible` | redis-4.0.8/src/t_rwtree.c:329-391 | At its own replica an insertion is a member at once, listed under its parent and named |
| `RwTreeContent.OwnDeleteIsGone` | redis-4.0.8/src/t_rwtree.c:397-429 | At its own replica a deleted node is no member at once, and off its parent's list |
| `RwTreeReplica.CausallyReady` | redis-4.0.8/src/vector_clock.c:41-53 | Next operation of its sender and nothing else missing |
| `RwTreeReplica.CheckCurrency` | redis-4.0.8/src/t_rwtree.c:431-446 | Neither clock is below the other |
| `RwTreeReplica.CurrentCompare` | redis-4.0.8/src/t_rwtree.c:448-460 | The sign of the lexicographic order, zero only for equal clocks |
| `RwTreeReplica.Replica.Remove` | redis-4.0.8/src/t_rwtree.c:96-110 | Header, name and links after a removal |
| `RwTreeReplica.Replica.EffectInsert` | redis-4.0.8/src/t_rwtree.c:355-390 | The whole tree after an insertion, as the function of the theorems |
| `RwTreeReplica.Replica.EffectDelete` | redis-4.0.8/src/t_rwtree.c:415-428 | The whole tree after a deletion, as that function |
| `RwTreeReplica.Replica.EffectRename` | redis-4.0.8/src/t_rwtree.c:486-515 | The whole tree after a value change, as that function |
| `RwTreeReplica.Replica.EffectMove` | redis-4.0.8/src/t_rwtree.c:554-600 | Dies exactly on a node without uid that the move takes; otherwise the whole tree after it, as that function |
| `ClusterEpochs.NewEpochIsUnique` | redis-4.0.8/src/cluster.c:993-1073 | An epoch taken without agreement is above every epoch the node knows |
| `ClusterEpochs.ClusterNode.constructor` | redis-4.0.8/src/cluster.c:675-703 | All epochs zero, one known node, no election |
| `ClusterEpochs.ClusterNode.ProcessHeader` | redis-4.0.8/src/cluster.c:1671-1682 | Raises the current epoch and the sender's, for known senders only |
| `ClusterEpochs.ClusterNode.ProcessUpdate` | redis-4.0.8/src/cluster.c:2027-2043 | Raises the reported node's epoch, for known nodes and newer epochs only |
| `ClusterEpochs.ClusterNode.SendFailoverAuthIfNeeded` | redis-4.0.8/src/cluster.c:2599-2699 | Votes exactly when all refusal tests pass, the slot scan included, and then changes only the last vote |
| `ClusterEpochs.ClusterNode.ProcessAuthAck` | redis-4.0.8/src/cluster.c:2002-2014 | Counts exactly the acknowledgements of voters not older than the attempt |
| `ClusterEpochs.ClusterNode.GetMaxEpoch` | redis-4.0.8/src/cluster.c:949-962 | The greatest epoch known, attained by the node or an entry of its table |
| `ClusterEpochs.ClusterNode.BumpConfigEpochWithoutConsensus` | redis-4.0.8/src/cluster.c:993-1010 | Takes a new epoch unless it already holds the unique greatest |
| `ClusterEpochs.ClusterNode.HandleConfigEpochCollision` | redis-4.0.8/src/cluster.c:1058-1073 | Of two colliding masters only the one with the smaller name moves |
| `ClusterEpochs.ClusterNode.HandleSlaveFailover` | redis-4.0.8/src/cluster.c:2837-3002 | Retry, ask or take over, with the state each leaves; wins exactly at the quorum |
| `ClusterProtocol.NextEpochsBounded` | redis-4.0.8/src/cluster.c:1671-1682 | No step lets a node or packet hold a config, vote or attempt epoch above its current epoch |
| `ClusterProtocol.NextElectionOk` | redis-4.0.8/src/cluster.c:2599-2699 | No step breaks: one vote per voter and epoch, counters are votes of the attempt plus late ones, winners had a quorum |
| `ClusterProtocol.RunsOk` | redis-4.0.8/src/cluster.c:2599-3002 | Both in every reachable state |
| `ClusterProtocol.OneVotePerEpoch` | redis-4.0.8/src/cluster.c:2599-2699 | In every run a master votes at most once per epoch |
| `ClusterProtocol.OneWinnerPerEpoch` | redis-4.0.8/src/cluster.c:2837-3002 | In every run two winners of an epoch are the same node unless their late acknowledgements reach the margin of two quorums over the electorate |
| `ClusterProtocol.NextNoneStale` | redis-4.0.8/src/cluster.c:2002-2014 | A step introduces a late vote exactly when it counts an acknowledgement between two attempts |
| `ClusterProtocol.PromptRunsAreSafe` | redis-4.0.8/src/cluster.c:2837-3002 | Without such steps an epoch has one winner, whatever is lost, repeated or reordered |
| `ClusterStaleAck.StaleAcksBreakSafety` | redis-4.0.8/src/cluster.c:2002-2014 | For every nonempty set of voters, a run with two winners of one epoch whose late acknowledgements sum to exactly the margin |
| `SlotBitmap.SetBitEffect` | redis-4.0.8/src/cluster.c:3504-3522 | Setting and clearing a bit changes that bit and no other |
| `SlotBitmap.PopulationSet` | redis-4.0.8/src/cluster.c:3542-3564 | The number of set bits grows by one exactly when the bit was clear |
| `SlotBitmap.PopulationClear` | redis-4.0.8/src/cluster.c:3567-3572 | It falls by one exactly when the bit was set |
| `ClusterConfig.ClearSlotOk` | redis-4.0.8/src/cluster.c:3593-3600 | Table, bitmaps and counters stay consistent and the assertion in the code cannot fire |
| `ClusterConfig.TakeSlotOk` | redis-4.0.8/src/cluster.c:3583-3588 | Table, bitmaps and counters stay consistent |
| `ClusterConfig.ScanAllOk` | redis-4.0.8/src/cluster.c:1511-1599 | A pass over all slots keeps every invariant and gives each slot exactly its move |
| `ClusterConfig.AsMasterOk` | redis-4.0.8/src/cluster.c:1484-1498 | Promotion keeps every invariant and the slot table |
| `ClusterConfig.FollowOk` | redis-4.0.8/src/cluster.c:3805-3821 | Changing master keeps lists of slaves and master pointers inverse to each other |
| `ClusterConfig.ReleaseOk` | redis-4.0.8/src/cluster.c:3604-3614 | A node left without slots; nobody else's slots move |
| `ClusterConfig.AddReportOk` | redis-4.0.8/src/cluster.c:715-738 | One report per reporter, refreshed or added, the others kept |
| `ClusterConfig.RecentOk` | redis-4.0.8/src/cluster.c:745-759 | Exactly the reports young enough remain |
| `ClusterConfig.DropReportOk` | redis-4.0.8/src/cluster.c:772-790 | Exactly the reporter's entry goes |
| `ClusterConfig.DeleteNodeOk` | redis-4.0.8/src/cluster.c:886-913 | Every invariant holds after a removal and nothing refers to the node: slots, open slots, links, reports |
| `ClusterSteps.SetMasterOk` | redis-4.0.8/src/cluster.c:3805-3821 | Demotion of this node keeps every invariant, the slots and everybody else's role |
| `ClusterSteps.ClaimsOk` | redis-4.0.8/src/cluster.c:1511-1599 | Every claimed slot goes to the claimant exactly when it is not being imported and is free or has an older owner |
| `ClusterSteps.UpdateSlotsOk` | redis-4.0.8/src/cluster.c:1511-1599 | Where it does not crash, a claim keeps every invariant and changes no role but this node's |
| `ClusterSteps.CleanClaimIsVoid` | redis-4.0.8/src/cluster.c:1876-1900 | Skipping a claim whose bitmap is already known is sound: processing it would change nothing |
| `ClusterSteps.FailoverExact` | redis-4.0.8/src/cluster.c:2799-2827 | A failover moves all slots of the old master, and only those, to this node |
| `ClusterSteps.AnnounceOk` | redis-4.0.8/src/cluster.c:1840-1874 | A header's role field keeps every invariant and settles the sender's role only |
| `ClusterRuns.StartOk` | redis-4.0.8/src/cluster.c:675-703 | A new cluster view satisfies every invariant |
| `ClusterRuns.StepInv` | redis-4.0.8/src/cluster.c:1610-2053 | Every step the node survives, of packets, membership, commands and gossip, keeps every invariant exactly when it gives slots to masters only |
| `ClusterRuns.Run` | redis-4.0.8/src/cluster.c:1610-2053 | Every view reached by steps that give slots to masters only satisfies every invariant |
| `ClusterRuns.AssignInvIff` | redis-4.0.8/src/cluster.c:4119-4166 | Adding a free slot keeps the invariants exactly on a master |
| `ClusterRuns.BindInvIff` | redis-4.0.8/src/cluster.c:4211-4258 | Handing a slot to a node, with the open slot closed on the way, keeps the invariants exactly when that node is a master |
| `ClusterRuns.SlaveWithSlotFails` | redis-4.0.8/src/cluster.c:4421-4457 | A slave given a slot passes every test of REPLICATE and owns a slot where the code asserts that it owns none |
| `ClusterRuns.CrashesIff` | redis-4.0.8/src/cluster.c:1511-1599 | The null pointer is read exactly by a slave without master that sees a free slot claimed |
| `ClusterRuns.DiesIff` | redis-4.0.8/src/cluster.c:1610-2053 | A step kills the node exactly under the stated guard on packet and view |
| `ClusterRuns.CarefulStep` | redis-4.0.8/src/cluster.c:4421-4457 | A careful step, one that neither replicates a node in handshake nor gives a slot to a slave, neither kills the node nor orphans it |
| `ClusterRuns.CarefulRunsLive` | redis-4.0.8/src/cluster.c:4421-4457 | No run of such steps dies |
| `ClusterRuns.DeathIsReachable` | redis-4.0.8/src/cluster.c:3256-3261 | A run that dies: replicate a node in handshake, lose it to the timeout, hear a claim |
| `ClusterClaims.RunClaimsSlots` | redis-4.0.8/src/cluster.c:1511-1599 | A run of claims, with demotions on the way, moves each slot independently by epochs alone |
| `ClusterClaims.SlotGoesToGreatest` | redis-4.0.8/src/cluster.c:1511-1599 | Each slot ends with its claimant of greatest epoch or stays with an owner no claimant beats |
| `ClusterClaims.ClaimsConverge` | redis-4.0.8/src/cluster.c:1511-1599 | Two sequences with the same claimants of distinct epochs, any order and repetition, give one table |
| `ClusterClaims.OwnerEpochNeverDrops` | redis-4.0.8/src/cluster.c:1511-1599 | A slot never goes to an owner of smaller epoch |
| `ClusterClaims.TwoClaimsCommuteIff` | redis-4.0.8/src/cluster.c:1511-1599 | Two claims commute exactly when they tie for no slot |
| `ClusterState.Cluster.DelSlot` | redis-4.0.8/src/cluster.c:3593-3600 | Fails exactly on a free slot; table, bitmap and counter updated together |
| `ClusterState.Cluster.AddSlot` | redis-4.0.8/src/cluster.c:3583-3588 | Fails exactly on a taken slot; table, bitmap and counter updated together |
| `ClusterState.Cluster.DelNodeSlots` | redis-4.0.8/src/cluster.c:3604-3614 | Returns the number of slots released, which is the node's whole counter |
| `ClusterState.Cluster.RemoveSlave` | redis-4.0.8/src/cluster.c:800-817 | Removes one entry by shifting the array; fails exactly when absent |
| `ClusterState.Cluster.AddSlave` | redis-4.0.8/src/cluster.c:819-831 | Appends; fails exactly when present |
| `ClusterState.Cluster.SetNodeAsMaster` | redis-4.0.8/src/cluster.c:1484-1498 | New view and invariants after a promotion |
| `ClusterState.Cluster.SetMyMaster` | redis-4.0.8/src/cluster.c:3805-3821 | New view and invariants after changing master |
| `ClusterState.Cluster.FailoverReplaceYourMaster` | redis-4.0.8/src/cluster.c:2799-2827 | The loop over all slots leaves the failover view, invariants kept |
| `ClusterState.Cluster.Rebind` | redis-4.0.8/src/cluster.c:1534-1571 | One pass: view, whether the old master lost a slot, and exactly which own slots with keys were lost |
| `ClusterState.Cluster.UpdateSlotsConfigWith` | redis-4.0.8/src/cluster.c:1511-1599 | Crashes exactly when the null pointer is read; otherwise view, demotion and slots to purge |
| `ClusterState.LostSlots` | redis-4.0.8/src/cluster.c:1552-1560 | The slots to purge are exactly those this node owned, lost and holds keys in |
| `ClusterState.Cluster.ProcessRole` | redis-4.0.8/src/cluster.c:1840-1874 | New view and invariants after a role announcement |
| `ClusterState.Cluster.AddFailureReport` | redis-4.0.8/src/cluster.c:715-738 | New list, and whether the reporter was new |
| `ClusterState.Cluster.CleanupFailureReports` | redis-4.0.8/src/cluster.c:745-759 | New list after expiry |
| `ClusterState.Cluster.DelFailureReport` | redis-4.0.8/src/cluster.c:772-790 | New list, and whether the reporter was there; expiry only then |
| `ClusterState.Cluster.FreeNode` | redis-4.0.8/src/cluster.c:842-864 | All slaves orphaned, the master's list updated, nothing else touched |
| `ClusterState.Cluster.DelNode` | redis-4.0.8/src/cluster.c:886-913 | The three passes leave a consistent view without the node |
| `AofCodec.ValueOfDigits` | redis-4.0.8/src/aof.c:480-503 | Printed lengths read back as themselves |
| `AofCodec.CatCommand` | redis-4.0.8/src/aof.c:480-503 | The loop appends exactly the printed command |
| `AofCodec.ReadPrinted` | redis-4.0.8/src/aof.c:726-762 | Reading a printed command followed by anything gives the command and leaves the rest |
| `AofCodec.ReadCut` | redis-4.0.8/src/aof.c:726-762 | Any proper prefix of a printed command is a short read, never a format error or another command |
| `AofCodec.LoadCut` | redis-4.0.8/src/aof.c:660-840 | A log cut at any byte loads exactly its whole commands, with the offset after them |
| `AofCodec.LoadPrinted` | redis-4.0.8/src/aof.c:660-840 | A whole log loads back command by command |
| `AofCodec.WholeIsLongest` | redis-4.0.8/src/aof.c:800-831 | The recovered commands are the longest list that fits the cut |
| `AofCodec.TolerantLoadOfCut` | redis-4.0.8/src/aof.c:800-831 | With truncation allowed a cut log loads and is truncated to its whole commands |
| `AofCodec.Loader.GetLine` | redis-4.0.8/src/aof.c:726-731 | A line up to newline, buffer size or end of file |
| `AofCodec.Loader.GetArg` | redis-4.0.8/src/aof.c:741-761 | One argument, or the error or short read the code reports |
| `AofCodec.Loader.GetArgs` | redis-4.0.8/src/aof.c:741-762 | All arguments of a command, or the first failure among them |
| `AofCodec.Loader.GetCommand` | redis-4.0.8/src/aof.c:726-762 | One command, end of file, error or short read |
| `AofCodec.Loader.Load` | redis-4.0.8/src/aof.c:711-785 | The loading loop: commands replayed, last valid offset, how it ended |
| `AofReplay.GroupFlatten` | redis-4.0.8/src/aof.c:862-1062 | Arguments group back into the items they were flattened from |
| `AofReplay.RunAllAppend` | redis-4.0.8/src/aof.c:771-773 | Replaying two logs in turn is replaying their concatenation |
| `AofRewrite.RunBatches` | redis-4.0.8/src/aof.c:862-1062 | A collection split into batches of any size replays to the same value |
| `AofRewrite.RunRow` | redis-4.0.8/src/aof.c:1095-1170 | The commands for a key recreate value and expiry, and nothing for an expired key |
| `AofRewrite.RewriteRebuilds` | redis-4.0.8/src/aof.c:1095-1170 | Replaying a rewrite into an empty server gives every database exactly, expired keys aside |
| `AofRewrite.ListMeaning` | redis-4.0.8/src/aof.c:862-892 | Pushed items arrive in order |
| `AofRewrite.SetMeaning` | redis-4.0.8/src/aof.c:896-939 | Added members are exactly the set |
| `AofRewrite.MapMeaning` | redis-4.0.8/src/aof.c:943-1062 | Each member or field has its own score or value, and no other changes |
| `AofRewrite.RewriteItems` | redis-4.0.8/src/aof.c:862-1062 | The loop with its item counter prints exactly the batches |
| `AofRewrite.RewriteRow` | redis-4.0.8/src/aof.c:1114-1155 | Text for one key |
| `AofRewrite.RewriteTable` | redis-4.0.8/src/aof.c:1102-1164 | Text for one database, none when it is empty |
| `AofRewrite.RewriteAll` | redis-4.0.8/src/aof.c:1095-1170 | Text for all databases |
| `AofServer.FlushConserves` | redis-4.0.8/src/aof.c:318-478 | Whatever write and ftruncate do, file plus buffer is unchanged, the size is right and the file only grows |
| `AofServer.BytesConserved` | redis-4.0.8/src/aof.c:95-122 | Bytes move between parent buffer, pipe and child without loss or reordering |
| `AofServer.ReapSuccess` | redis-4.0.8/src/aof.c:1468-1615 | After a successful rewrite the new file alone is the log and the buffer is empty |
| `AofServer.NextInv` | redis-4.0.8/src/aof.c:542-606 | Every step of feeding, flushing and rewriting keeps: file and buffer replay to the dataset, and so do snapshot and diff |
| `AofServer.RunsKeepInv` | redis-4.0.8/src/aof.c:1367-1615 | The same over every run |
| `AofServer.FileAndBufferAreTheDataset` | redis-4.0.8/src/aof.c:318-606 | In every run, loading file plus buffer gives the dataset |
| `AofServer.CrashRecoversPrefix` | redis-4.0.8/src/aof.c:660-840 | In every run, loading the file alone replays the longest whole prefix of what was fed |
| `AofServer.RewriteIsSafe` | redis-4.0.8/src/aof.c:1468-1615 | In every run a finished rewrite either installs a file that loads to the dataset or changes nothing |
| `AofBuffers.FedText` | redis-4.0.8/src/aof.c:542-606 | The text fed for a command, with SELECT exactly when the database changes |
| `AofBuffers.Buffers.Feed` | redis-4.0.8/src/aof.c:542-606 | The same text goes to the buffer when logging is on and to the rewrite buffer when a child runs |
| `AofBuffers.Buffers.AofWrite` | redis-4.0.8/src/aof.c:278-297 | Under any sequence of results the file gains exactly the prefix reported |
| `AofBuffers.Buffers.Flush` | redis-4.0.8/src/aof.c:318-478 | Short write, rollback and failed rollback, as the conserving function |
| `AofBuffers.Buffers.RewriteBufferAppend` | redis-4.0.8/src/aof.c:125-169 | The block list gains exactly the text, blocks keep their size |
| `AofBuffers.Buffers.ChildWriteDiffData` | redis-4.0.8/src/aof.c:95-122 | What leaves the block list enters the pipe in order; nothing once told to stop |
| `AofBuffers.Buffers.RewriteBufferWrite` | redis-4.0.8/src/aof.c:174-194 | Success means the whole list was appended |
| `Popcount.TableIsOnes` | redis-4.0.8/src/bitops.c:44 | The 256-entry table counts bits |
| `Popcount.CountBlock` | redis-4.0.8/src/bitops.c:52-87 | Seven words summed in parallel give the bits of their 28 bytes |
| `Popcount.RedisPopcount` | redis-4.0.8/src/bitops.c:40-92 | The number of set bits of any bytes at any alignment |
| `Bitpos.SkipWords` | redis-4.0.8/src/bitops.c:118-142 | Skips only bytes and words without the wanted bit, and stops before a word that has it |
| `Bitpos.LoadWord` | redis-4.0.8/src/bitops.c:144-159 | The bytes left, most significant first, padded with zeros |
| `Bitpos.ScanWord` | redis-4.0.8/src/bitops.c:168-180 | The first wanted bit of a word |
| `Bitpos.RedisBitpos` | redis-4.0.8/src/bitops.c:101-186 | The first wanted bit; without one, -1 for a set bit and the length for a clear bit |
| `Bitfield.WrittenStored` | redis-4.0.8/src/bitops.c:209-222 | Writing a value stores it modulo 2^n and touches no bit outside the field |
| `Bitfield.SetUnsignedBitfield` | redis-4.0.8/src/bitops.c:209-222 | The loop over an array does that, and reading back gives the value modulo 2^n |
| `Bitfield.GetUnsignedBitfield` | redis-4.0.8/src/bitops.c:229-241 | The big-endian integer in the field |
| `BitfieldCommand.GetSignedBitfield` | redis-4.0.8/src/bitops.c:243-263 | Its two's complement reading, or -1 for a negative field of 64 bits where the full-width shift gives all ones |
| `BitfieldOps.UnsignedExact` | redis-4.0.8/src/bitops.c:288-323 | Overflow is reported exactly when the exact sum leaves the range; wrap is the residue, saturation the clamp |
| `BitfieldOps.SignedExact` | redis-4.0.8/src/bitops.c:325-375 | The same for signed fields, with the wrap of 64 bits right exactly when the shift gives zero or the residue is -1 or 0 |
| `BitfieldOps.WrapSignedIsResidue` | redis-4.0.8/src/bitops.c:357-374 | With sound masks the sign extension computes the two's complement residue |
| `BitfieldOps.WrapExactIff` | redis-4.0.8/src/bitops.c:357-374 | It computes the residue exactly with sound masks or when the residue is -1 or 0 |
| `BitfieldOps.SignedSetExact` | redis-4.0.8/src/bitops.c:325-375 | For SET: exact detection and wrap, no overflow at 64 bits, and exactly when saturation clamps to the right end |
| `BitfieldOps.SaturatesToTheWrongEnd` | redis-4.0.8/src/bitops.c:325-375 | The least 64-bit integer saturates an 8-bit field to 127 |
| `BitfieldOps.UnsignedSetExact` | redis-4.0.8/src/bitops.c:288-323 | For SET: exact detection and wrap; saturation is the clamp exactly for non-negative values |
| `BitfieldOps.IncrByUnsigned` | redis-4.0.8/src/bitops.c:1052-1081 | Reply and stored value are the policy applied to the exact sum, FAIL changes nothing, no other bit changes |
| `BitfieldOps.IncrBySigned` | redis-4.0.8/src/bitops.c:1022-1051 | Reply and stored value agree, no other bit changes, and the reply is the policy applied to the exact sum exactly with sound masks or where field, argument and policy hide the misreading |
| `BitfieldOps.LuckyIff` | redis-4.0.8/src/bitops.c:1022-1051 | When a misread 64-bit field gives the reply the field itself would give, for every policy, both directions |
| `BitfieldOps.SetSigned` | redis-4.0.8/src/bitops.c:1022-1051 | SET stores what the policy says exactly under the saturation condition, and replies the old value exactly with sound masks or when it is at least -1 |
| `BitfieldOps.SetUnsigned` | redis-4.0.8/src/bitops.c:1052-1081 | SET on an unsigned field replies the old value and stores what the policy says, exactly for values that are not negative or do not saturate |
| `BitfieldCommand.CommandOnly` | redis-4.0.8/src/bitops.c:1008-1117 | A whole command changes no bit of the string before it, zeros behind it, outside the fields it writes |
| `BitfieldCommand.CommandReply` | redis-4.0.8/src/bitops.c:1008-1117 | An operation whose field no earlier one writes replies by what the string held there before the command |
| `BitfieldCommand.BufferReads` | redis-4.0.8/src/bitops.c:1093-1117 | The nine-byte zero-padded copy reads as the string itself, beyond its end too |
| `BitfieldCommand.Get` | redis-4.0.8/src/bitops.c:1083-1117 | GET replies the field at any offset |
| `BitfieldCommand.Execute` | redis-4.0.8/src/bitops.c:1008-1117 | One operation on the array, bytes and reply |
| `BitfieldCommand.ExecuteAll` | redis-4.0.8/src/bitops.c:1008-1117 | All operations of a command in order |
| `BitfieldCommand.Room` | redis-4.0.8/src/bitops.c:993-1003 | The string a command runs on holds every bit any of its operations writes |
| `BitfieldCommand.Reach` | redis-4.0.8/src/bitops.c:969-972 | The parsing loop finds whether anything is written and the highest bit written |
| `BitfieldCommand.Command` | redis-4.0.8/src/bitops.c:914-1117 | Room made, all operations run: string and replies from the string before |
| `BitfieldCommand.GrowthIsInvisible` | redis-4.0.8/src/bitops.c:477-491 | Growing the string for the highest bit changes no field |
| `Crc64Table.TableIsShift` | redis-4.0.8/src/crc64.c:42-171 | Each of the 256 entries is eight steps of division of its index |
| `Crc64.TableStepIsByteStep` | redis-4.0.8/src/crc64.c:173-181 | One table step is eight division steps of the byte xored in |
| `Crc64.CrcIsDivision` | redis-4.0.8/src/crc64.c:173-181 | The table-driven sum is bit-by-bit division of the message |
| `Crc64.CrcConcat` | redis-4.0.8/src/crc64.c:173-181 | The sum of a concatenation continues from the first sum |
| `Crc64.CrcInjective` | redis-4.0.8/src/crc64.c:173-181 | Different running sums stay different |
| `Crc64.ByteChangeShows` | redis-4.0.8/src/crc64.c:173-181 | Changing one byte changes the sum |
| `Crc64.RunCrc64` | redis-4.0.8/src/crc64.c:173-181 | The loop returns that division |
| `Crc64Bursts.PolyIsJones` | redis-4.0.8/src/crc64.c:1-11 | The constant divided by is the Jones polynomial with its 64 bits reversed |
| `Crc64Bursts.BitsShow` | redis-4.0.8/src/crc64.c:173-181 | Different strings of at most 64 bits leave different remainders from any state |
| `Crc64Bursts.BurstShows` | redis-4.0.8/src/crc64.c:173-181 | Two messages that differ, and only within 64 adjacent bits, have different sums |
| `Crc64Bursts.WindowShows` | redis-4.0.8/src/crc64.c:173-181 | Replacing at most eight adjacent bytes by others changes the sum |
| `DumpPayload.CreatedIsAccepted` | redis-4.0.8/src/cluster.c:4621-4648 | A created payload is accepted |
| `DumpPayload.OwnSumIsZero` | redis-4.0.8/src/cluster.c:4642-4646 | Eight bytes of a sum, lowest first, continue it to zero |
| `DumpPayload.AcceptsIff` | redis-4.0.8/src/cluster.c:4654-4671 | A payload is accepted exactly when it is long enough, its version is known and all of it, footer included, sums to zero |
| `DumpPayload.AnyBurstIsRejected` | redis-4.0.8/src/cluster.c:4654-4671 | An accepted payload changed within 64 adjacent bits, body, footer or across both, is rejected |
| `DumpPayload.AnyWindowIsRejected` | redis-4.0.8/src/cluster.c:4654-4671 | So is one with at most eight adjacent bytes replaced |
| `DumpPayload.NineBytesMaySlip` | redis-4.0.8/src/crc64.c:173-181 | Nine bytes do not suffice: from any state, windows that begin with any two bytes and sum alike |
| `DumpPayload.AnyByteChangeIsRejected` | redis-4.0.8/src/cluster.c:4654-4671 | An accepted payload with any one byte changed, value, version or sum, is rejected |
| `DumpPayload.VerifyDumpPayload` | redis-4.0.8/src/cluster.c:4654-4671 | Accepts exactly long enough payloads of known version with a matching sum |
| `SlotIndex.SameTagSameSlot` | redis-4.0.8/src/cluster.c:643-662 | Keys with the same non-empty first tag share a slot whatever surrounds it |
| `SlotIndex.KeyHashSlot` | redis-4.0.8/src/cluster.c:643-662 | The scan for braces finds the tag, or the whole key, with all its edge cases |
| `SlotIndex.Database.constructor` | redis-4.0.8/src/db.c:1398-1403 | Index and counters agree with an empty dictionary |
| `SlotIndex.Database.SlotToKeyUpdateKey` | redis-4.0.8/src/db.c:1371-1388 | Entry and counter change together |
| `SlotIndex.AgreesAdd` | redis-4.0.8/src/db.c:1371-1388 | Adding a new key keeps index and counters equal to the dictionary's keys by slot |
| `SlotIndex.AgreesRemove` | redis-4.0.8/src/db.c:1371-1388 | Removing a key does too, and its counter was positive |
| `SlotIndex.Database.DbAdd` | redis-4.0.8/src/db.c:167-174 | Dictionary updated, index and counters still agree |
| `SlotIndex.Database.DbSyncDelete` | redis-4.0.8/src/db.c:248-258 | Key and expiry gone, index and counters still agree |
| `SlotIndex.Database.SetKey` | redis-4.0.8/src/db.c:206-215 | Overwrite or add, expiry dropped, index and counters still agree |
| `SlotIndex.Database.Flush` | redis-4.0.8/src/db.c:1398-1403 | Everything empty and in agreement |
| `SlotIndex.Database.GetKeysInSlot` | redis-4.0.8/src/db.c:1408-1423 | The first keys of the slot in byte order, as many as there are or as asked |
| `SlotIndex.Database.DelKeysInSlot` | redis-4.0.8/src/db.c:1427-1446 | Removes exactly the keys of the slot and returns their number |

## Left out

- The remove-win set (`t_rwset.c`): the same header as the queue with less content; only easy members. The observed-remove and PN variants (`t_orset.c`, `t_ozset.c`, `t_pnset.c`).
- The transport between replicas and the text form of clocks.
- VectorClock.EqualVC: compares values; the pointer shortcut is left out.
- RemoveWin.RwElement.EffectAdd: does not model rounding of doubles.
- ClusterProtocol.PromptRunsAreSafe: voters, slot counts and the quorum are fixed through the run; restarts and resharding between elections are not modelled.
- ClusterRuns.StepInv: `CLUSTER RESET`, the loading of nodes.conf, `mf_slave` and the `MIGRATE_TO` flag are not part of the model; several slots in one ADDSLOTS or DELSLOTS are several steps.
- ClusterState.Cluster.UpdateSlotsConfigWith: returns the slots to purge; the purge itself is `SlotIndex.Database.DelKeysInSlot`.
- ClusterEpochs.ClusterNode.HandleSlaveFailover: whether to retry, which the code decides from clocks and data age, is a parameter.
- ClusterEpochs.ClusterNode.SendFailoverAuthIfNeeded: failure flags and vote times of the requester's master are given as circumstances.
- ClusterClaims.ClaimsConverge: each claim carries the epoch the table holds for its sender, and no slot is being imported.
- Failure detection by timeouts, gossip contents, replication offsets and election delays.
- AofServer.NextInv: the fsync policy that exits on errors, translation of expire commands, and keys that expire between a fork and its end are not modelled.
- AofServer.CrashRecoversPrefix: an empty file is not covered, since loading reports it as an error.
- AofRewrite.RewriteAll: streams and module values are not part of the model; encodings of collections are their item lists.
- AofReplay.RunAllAppend: commands other than those a rewrite emits are an arbitrary function of the dataset.
- BitfieldCommand.Command: the text of arguments is not parsed; offsets, widths and arguments are those the parser lets through.
- Popcount.RedisPopcount: the table is grouped by the high half of the byte rather than written as 256 literals.
- DumpPayload.CreatedIsAccepted: the serialized value is any byte string.
- SlotIndex.KeyHashSlot: CRC-16 is a parameter.
- SlotIndex.Database.SetKey: for a master, where the lookup deletes an expired key; slaves, which do not, and copy-on-write sharing are not modelled.
- RwTreeShape.OwnMoveKeepsAcyclic: for commands issued on an up-to-date node; what other replicas' moves do is `RwTreeShape.MoveKeepsAcyclicIff` and `RwTreeMoves.CrossedMoves`.
- RwTree.HeadersConverge: the death modelled is the null `uid` of t_rwtree.c:590; running out of memory and stack are not.
- RwTreeMoves.EffectIsGo: for moves whose removal clocks are already known, as under causal delivery.
- Scripting, pub/sub, replication streams, RDB files, eviction, HyperLogLog, geo commands and the client protocol.
