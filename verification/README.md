# Verification of Cryptis

A Dafny 4.11 project that models the protocols and algorithms of the messenger on which its
guarantees rest, and proves them. `dafny verify dfyconfig.toml` checks everything.

Code that computes a value without state is a function. Code that works step by step is a method
or a class with the same fields, loops and branches, and its contract ties the result or the new
state to a specification about which the promised properties are proved.

## What is modelled

**Group key tree** (`Bits`, `NodeArithmetic`, `KeyTree`, `PlanProperties`, `GroupCommit`, `CommitLearning`,
`KeyDelivery`, `Footholds`, `GroupModel`, `GroupServer`, `GroupRuns`, `ChainRuns`, `MemberRuns`,
`FetchRuns`, `FootholdExample`). The array numbering of
Appendix C of RFC 9420, commit plans, building, checking and processing of commits, leaf
allocation, and the confirmation of membership events by the chain. ECIES is symbolic: a sealed
value opens with the matching private key and with no other. A run interleaves additions, removals,
anchoring, confirmations in any order, plans handed out to members, and honest commits built from
plans that may be older than later confirmations. `FetchRuns` adds the clients: a member fetches any
number of pending commits at any time and is told the leaf that the group records for it at that
moment. In every reachable state an active member has the secrets of all commits of its present
seat that it has fetched, and all keys above its leaf (`MembersHaveTheirKeys`).

The header of `backend/app/services/treekem.py` says that the private key of a node is known to
exactly the members below it. Two things about this are false of the code.

*Others may know it.* When a commit blanks a node that has a key, the new keys above are still
sealed under that key, because the resolution looks at the stored key of a node before anything
else; whoever holds it learns them, and keeps what it learnt until a later commit renews it. The
exact condition is stated with footholds. A user that sits on a leaf it knows stands on the leaf.
When it loses the seat it grips the lowest node above the leaf that has a key: the next commit either
renews that node, and the foothold is lost, or blanks it, and the foothold moves up to the lowest
renewed node. Later commits keep it, move it up when they blank it, and end it when they renew it. In
every run a user obtains the secret of a commit if and only if it has a foothold after it
(`SecretIffFoothold`, `SecretIffHasFoothold`, `SecretsOfRuns`). `BlankedTargetExample` shows a commit
with such a target, and `RemovedMemberOpensLater` a run in which a removed member opens a commit that
blanks nothing.

*Members may not know it.* A member that changes its leaf before it fetches the first commits of its
seat never learns the keys of that seat (`RejoinMisses`). `SecretIffFetchedInSeat` says exactly when.

**Merkle batches and the delivery log** (`Merkle`, `MerkleBatch`, `DeliveryLog`, `DeliveryRuns`,
`DeliveryWorker`). The builder against the recursive definitions of section 2.1 of RFC 6962, for an
arbitrary node hash; soundness under the assumption that the hash does not collide on the strings
actually hashed. The log has queued, batched and confirmed events, batches, the waiting list, the
flush lock and the comments that the chain has accepted. Tasks may be repeated, crash at any point
between transactions, or be given duplicate ids.

**Secret sharing** (`ShiftAlgebra`, `BytePowers`, `Gf256`, `Interpolation`, `Shamir`). The field of
section 4.2 of FIPS 197, built from the shift-and-reduce multiplication; interpolation over any
field of characteristic two; splitting and combining as loops over bytes.

**PIN lockout** (`Lockout`, `OverlappingRecoveries`). One meter for the counter of a realm, the counter
of the worker across realms, and the local vault, with real-valued time. The header of `realm/app.py`
says that the share is destroyed after too many wrong guesses; the code locks for fifteen minutes and
keeps the share (`ShareSurvives`). The bound on guesses is proved for the code as it is. The worker
looks up its lock before it asks the realms and counts afterwards, without a lock for the user, so its
bound of `limit` guesses holds only for attempts one at a time; for c attempts at once it is
`limit + c - 1`, which is reached (`OverlappingGuessBound`, `OverlappingGuessesReached`).

**Wire codec** (`Varint`, `Wire`, `WireRoundTrip`, `WireCodec`, `WireBrowser`). The Python codec with
bit operations, the JavaScript one with division and multiplication, one schema. The JavaScript file
calls itself a mirror of the Python one; for decoding this holds up to a byte order mark in front of
a text, which the browser drops (`MessageMirrors`, `BrowserRoundTrip`, `MarkIsLost`).

**Sessions and device pairing** (`Sessions`, `SessionRuns`, `Pairing`, `PairingRuns`,
`RefundRuns`, `GenerationQuota`, `SessionServer`). Login, refresh rotation, revocation and authentication under a
clock that does not run backwards; one pairing request with its Redis record, the SQL commit that
follows it and a crash in between; the quota of QR generations with refunds, also composed with the
record whose cancellation asks for them.

**Search and reconciliation** (`SearchIndex`, `Morph`). The blind index against a plain scan of the
messages, and the keyed in-place update of a live tree.

## Assumptions

- Generated keys and epoch secrets are inputs. Exclusion assumes that generated keys are distinct;
  delivery does not.
- Commits are handed out to active members only, in order, each with the leaf recorded at that moment.
- A node row without a public key and a missing row are the same, as they are for every reader.
- Sorted lists of targets are compared as multisets, which is the same.
- Digests have 32 bytes. Event hashes, roots and siblings are bytes instead of hexadecimal strings.
- Transactions are atomic and take effect one after the other, and so does a closure under WATCH that
  is written back; an attempt that is aborted and repeated is one step. Only one flush runs at a time.
  For sessions this excludes two concurrent refreshes of one token under REPEATABLE READ, each of which
  reads the token as usable: both would commit, and the device would have two usable tokens, against
  `SessionRuns.AtMostOneToken`.
- `Lockout.WorkerGuessBound` takes one attempt of the worker after the other. In `OverlappingRecoveries`
  the lookup of the lock, with its removal when it has run out, is one step, and so is the count with
  the lock it may set; the replies lie in between.
- Completing a pairing holds the lock on the user row until it commits or rolls back.
- Text is represented by its UTF-8 bytes together with a predicate that says which bytes are valid,
  the same on both sides. Message fields are named by their numbers.
- Several readings of the clock in one call are parameters in ascending order.
- Search text is in lower case; which characters are letters or digits is a parameter; the keyed hash
  of a prefix is injective.

## Model

| member | source | states |
|---|---|---|
| `NodeArithmetic.LevelOf` | `backend/app/services/treekem.py:26-30` | the loop over shifted bits counts the trailing one bits |
| `NodeArithmetic.ChildBits` | `backend/app/services/treekem.py:45-56` | the exclusive-or with 1 or 3 shifted gives, at every level, the left and the right child in coordinates (level, position) |
| `NodeArithmetic.ParentBitsUp` | `backend/app/services/treekem.py:59-64` | the or and exclusive-or of `parent` go to the node one level up at half the position |
| `NodeArithmetic.ParentInvertsChildren` | `backend/app/services/treekem.py:45-64` | `parent` of `left(x)` and of `right(x)` is x, for every inner node |
| `NodeArithmetic.ChildrenSplit` | `backend/app/services/treekem.py:45-56` | the leaves under an inner node are those under its two children, and no leaf is under both |
| `NodeArithmetic.DirectPath` | `backend/app/services/treekem.py:67-74` | for a power-of-two capacity the loop ends after log2(capacity) - level steps, one node per level, each above the same leaves, the last being the root |
| `NodeArithmetic.DirectPathIsAncestors` | `backend/app/services/treekem.py:67-74` | the direct path of a leaf lists exactly the inner nodes of the tree whose subtree contains it |
| `NodeArithmetic.SubtreeLeavesAreUnder` | `backend/app/services/treekem.py:77-81` | the computed range of leaf numbers is exactly the set of leaves whose shifted number is the position of the node |
| `NodeArithmetic.CapacityFor` | `backend/app/services/treekem.py:84-88` | the least power of two that is at least the leaf count |
| `NodeArithmetic.NextCapacity` | `backend/app/services/group_service.py:141-142` | a full tree grows to exactly twice its capacity |
| `NodeArithmetic.DoublingKeepsSubtrees` | `backend/app/services/treekem.py:18-20` | doubling keeps every node with its subtree, and the old root becomes the left child of the new one |
| `KeyTree.PlanCommit` | `backend/app/services/treekem.py:134-176` | path, blanks, targets and known keys of the plan: the path is the ascending list of the candidates with a member below, the blanks (in increasing order) are the other candidates, targets are the resolutions of the children, and no key is known that is not needed; it fails exactly without members |
| `KeyTree.ResolutionHasKeys` | `backend/app/services/treekem.py:125-131` | every element of a resolution has a new or a stored key |
| `KeyTree.TargetsHaveKeys` | `backend/app/services/treekem.py:166-172` | so the assertion in the plan can never fail |
| `KeyTree.ResolutionInside` | `backend/app/services/treekem.py:125-131` | a resolution stays inside the subtree of its node |
| `KeyTree.TargetsDisjoint` | `backend/app/services/treekem.py:165-166` | no leaf lies under two targets of a node |
| `KeyTree.TargetsCover` | `backend/app/services/treekem.py:165-166` | every leaf below the node that lies under a keyed node lies under some target, at a lower level |
| `PlanProperties.TargetsPartitionMembers` | `backend/app/services/treekem.py:125-176` | every member below a path node lies under exactly one of its targets, every target has a new or known key, and a target without a member below it is a node that the same plan blanks |
| `PlanProperties.BlankedTargetIff` | `backend/app/services/treekem.py:127-128` | some target has no member below it if and only if the plan blanks a node that still has a key |
| `PlanProperties.BlankedTargetExample` | `backend/app/services/treekem.py:125-176` | a concrete tree of four leaves in which this happens |
| `PlanProperties.ResolutionAtMostOne` | `backend/app/services/treekem.py:125-131` | in a tree that has only drifted at the planned leaves, every subtree resolves to at most one node |
| `PlanProperties.AtMostTwoTargets` | `backend/app/services/treekem.py:165-167` | hence every path node has at most two targets |
| `PlanProperties.CommitSizeLogarithmic` | `backend/app/services/treekem.py:17` | a change of one leaf costs at most log2(capacity) path nodes and 2*log2(capacity) sealed node keys |
| `GroupCommit.BuildCommit` | `backend/static/js/lib/treekem.js:20-41` | node by node the new public key and its private key sealed to every target, under the new key of the target if it has one and the known one otherwise; the epoch secret under the key of the root |
| `GroupCommit.DrawnKeyAt` | `backend/static/js/lib/treekem.js:22-28` | every node of the path gets the key pair drawn for it |
| `GroupCommit.PlanIsSealable` | `backend/static/js/lib/treekem.js:29-39` | for a group with members every key the committer needs is in the plan, also the one of the root |
| `GroupCommit.ValidateCommit` | `backend/app/services/treekem.py:183-207` | accepts exactly the bodies whose node numbers are those of the path and whose ciphertext targets are, with multiplicity, those of the plan; otherwise it names a wrong branch or a node whose targets differ |
| `GroupCommit.TreeClient.ProcessCommit` | `backend/static/js/lib/treekem.js:45-73` | the new private keys, epochs and last epoch of the client: a node of the commit has a key sent for it or none, a blanked node none, a new leaf the identity key, and every other node what it had; the secret is the content of the root box exactly if the client holds the key of the root |
| `GroupCommit.SortedUpwards` | `backend/static/js/lib/treekem.js:52-54` | the nodes are processed from the leaves upwards, each of them once |
| `GroupCommit.LearnSucceeds` | `backend/static/js/lib/treekem.js:56-63` | a client that holds the key of any one target learns the key of the node, whatever outdated keys it tries before |
| `CommitLearning.Climb` | `backend/static/js/lib/treekem.js:53-66` | if every node of a set can be opened from below, the client holds the new keys of all of them when it is done |
| `CommitLearning.LearnsOnlyWithin` | `backend/static/js/lib/treekem.js:53-66` | if no node outside a set can be opened, no key outside it is learnt |
| `CommitLearning.KeptOrNew` | `backend/static/js/lib/treekem.js:53-66` | whatever the client holds afterwards it held before at the same node, or is the new key of that node |
| `KeyDelivery.NextIsSettled` | `backend/app/services/key_service.py:189-195` | a commit leaves a tree in which keyed inner nodes have a member below and unkeyed ones have members on one side only, with the leaves as they were |
| `KeyDelivery.MemberReceives` | `backend/static/js/lib/treekem.js:45-73` | a seated member obtains the epoch secret and afterwards holds every key above its leaf |
| `Footholds.ReachedClimbs` | `backend/static/js/lib/treekem.js:53-66` | a client can open, from below, every renewed node that its footholds after the commit reach |
| `Footholds.OpensOnlyReached` | `backend/static/js/lib/treekem.js:53-66` | and no other node |
| `Footholds.CommitIsExact` | `backend/static/js/lib/treekem.js:45-73` | if the footholds of a user say exactly which keys of the tree it holds before a commit, the footholds after the commit do so for the new tree, whether the user is seated, was removed, or never sat there |
| `Footholds.SecretIffFoothold` | `backend/app/services/treekem.py:9-13` | the exact condition: the secret of a commit is obtained if and only if the user has a foothold after it, that is, a seat it knows, or a node it has gripped since it lost a seat and that no commit has renewed |
| `Footholds.FootholdLeftIffBlanked` | `backend/app/services/treekem.py:127-128` | losing a seat leaves a foothold behind exactly when the next commit blanks a node above it that still has a key |
| `Footholds.FootholdLostIffRenewed` | `backend/app/services/treekem.py:9-13` | without a seat a foothold is lost exactly when its node is renewed; when it is blanked it moves up |
| `FootholdExample.PlanExists` | `backend/app/services/treekem.py:134-176` | every tree with positive capacity has a plan |
| `FootholdExample.RoundIsValid` | `backend/static/js/lib/treekem.js:20-41` | and every plan of a drifted tree with members has a commit that delivers it |
| `FootholdExample.RemovedMemberOpensLater` | `backend/app/services/treekem.py:9-13` | a run of three commits in a tree of eight leaves in which a removed member obtains the secret of a commit that blanks nothing and in whose tree, and in that of the commit before, it has no seat |
| `GroupModel.FreeLeaf` | `backend/app/services/group_service.py:126-143` | the first leaf that nobody sits on, that no unfinished event names and that has no key; or the first one beyond the tree |
| `GroupModel.NewGroupInv` | `backend/app/services/group_service.py:100-117` | a new group satisfies the invariant of all reachable states |
| `GroupModel.AddMemberInv` | `backend/app/services/group_service.py:145-169` | adding keeps it: members sit on distinct leaves below the capacity, also when the tree grows |
| `GroupModel.RemoveMemberInv` | `backend/app/services/group_service.py:177-194` | removing keeps it: nobody gets a leaf whose removal is not finished |
| `GroupModel.ConfirmInv` | `worker/tasks/blockchain.py:220-278` | confirming any submitted event keeps it, in any order |
| `GroupModel.CommitInv` | `backend/app/services/key_service.py:189-204` | a commit keeps it and changes no leaf |
| `GroupModel.AllConfirmedTreeIsMembers` | `worker/tasks/blockchain.py:247-278` | once all events are confirmed the occupied leaves and their owners are exactly the seats of the active members |
| `GroupModel.ConfirmationsConfluent` | `worker/tasks/blockchain.py:220-278` | so groups with the same members end with the same leaves, whatever the order of the confirmations |
| `GroupServer.AddMembersInv` | `backend/app/services/group_service.py:145-169` | a list of invitees keeps the invariant |
| `GroupServer.AddMembersJoin` | `backend/app/services/group_service.py:152-156` | exactly the invitees join, and nobody who was in changes seats |
| `GroupServer.FreeLeafSkips` | `backend/app/services/group_service.py:137-140` | leaves that are not free do not matter to the search |
| `GroupServer.FreeLeafIsLowest` | `backend/app/services/group_service.py:126-143` | the free leaf is the lowest one that is not in use |
| `GroupServer.GroupRecord.Create` | `backend/app/services/group_service.py:100-117` | the least capacity that holds the members, their seats in order, and one pending event |
| `GroupServer.GroupRecord.TakeFreeLeaf` | `backend/app/services/group_service.py:126-143` | the lowest leaf that nobody sits on, that has no key and that no unfinished event names; the capacity is doubled when there is none |
| `GroupServer.GroupRecord.Add` | `backend/app/services/group_service.py:145-169` | exactly the invitees join, nobody who was in changes seats, and each new member has one new pending event with its seat; keys, epoch and commits stay |
| `GroupServer.GroupRecord.RemoveUser` | `backend/app/services/group_service.py:177-194` | the member goes and one pending event carries its leaf; not found for others, and then nothing changes |
| `GroupServer.GroupRecord.AnchorMembership` | `worker/tasks/blockchain.py:196-217` | a pending or failed event ends submitted exactly if the chain took it and failed exactly if it did not; one that is submitted or confirmed stays, and so does everything else |
| `GroupServer.GroupRecord.ConfirmMembership` | `worker/tasks/blockchain.py:220-244` | an event is confirmed, and asks for a rotation, exactly if it was submitted and the chain has it; then a creation seats all members, an addition the member that still has the seat, a removal empties its leaf, and no other key changes |
| `GroupServer.GroupRecord.ApplyMembership` | `worker/tasks/blockchain.py:247-278` | the leaves after the event: all members for a creation, one seat if the member still sits there, one leaf emptied |
| `GroupServer.GroupRecord.RequestPlan` | `backend/app/services/key_service.py:146-161` | for requested rotations a plan for exactly the leaves they name, or for everything after a creation; without any the own leaf of a member, on request; and the exact condition of every refusal |
| `GroupServer.GroupRecord.TreeCommit` | `backend/app/services/key_service.py:178-213` | accepted exactly for the next epoch and a body that matches the plan of this moment: the epoch advances by one, exactly the requested rotations are done, renewed nodes have the new keys, blanked ones none, and the others what they had; refused without a change |
| `ChainRuns.EventFollowsHistory` | `worker/tasks/blockchain.py:196-244` | in every run the chain status and the rotation of an event follow from what was done: confirmed once it was seen, submitted once the chain took it, failed if it was only refused; requested by the confirmation and done by the next commit |
| `ChainRuns.ConfirmedWasSent` | `worker/tasks/blockchain.py:196-231` | every confirmed event was taken by the chain before it was seen there |
| `ChainRuns.PendingIffRequested` | `backend/app/services/key_service.py:200-205` | the group says that a rotation is pending exactly while some confirmed event waits for a commit |
| `GroupRuns.PlansCoverDrift` | `backend/app/services/key_service.py:146-161` | what the server plans for covers every leaf that changed since the last commit |
| `GroupRuns.ConfirmKeepsUsable` | `backend/app/services/key_service.py:178-188` | a plan that was handed out stays usable when later events are confirmed |
| `GroupRuns.CommitIsRound` | `backend/app/services/key_service.py:178-188` | an accepted commit delivers to the tree of the moment it is accepted, even when its plan was fetched before later confirmations |
| `GroupRuns.StepKeeps` | `backend/app/services/key_service.py:141-213` | every step of server and committers keeps the invariant of the whole world |
| `GroupRuns.RunInv` | `backend/app/services/key_service.py:141-213` | so it holds in every state of every run |
| `GroupRuns.SettledWhenIdle` | `backend/app/services/treekem.py:134-176` | in every reachable state without a requested rotation, keyed inner nodes have a member below and unkeyed ones have members on one side only, however often the capacity was doubled |
| `GroupRuns.ReachablePlans` | `backend/app/services/treekem.py:134-176` | every plan in a reachable state partitions the members below each path node among at most two targets, a memberless target being a blanked node |
| `GroupRuns.AcceptedServesMembers` | `backend/app/services/treekem.py:183-207` | whoever built it, a body that is accepted in a reachable state has for every renewed node and every member below it exactly one ciphertext sealed to a node above that member |
| `GroupRuns.ReachableCommitSize` | `backend/app/services/treekem.py:17` | in every reachable state a plan for one changed leaf has at most log2(capacity) path nodes and 2*log2(capacity) sealed keys |
| `MemberRuns.EpochIsFinal` | `backend/static/js/lib/treekem.js:68-71` | what a client has, or has not, stored for an epoch that it has processed is never changed later |
| `MemberRuns.FootholdsAreExact` | `backend/static/js/lib/treekem.js:45-73` | over every run of commits, whatever leaf the client was told with each of them, its footholds say exactly which keys of the current tree it holds |
| `MemberRuns.SecretIffHasFoothold` | `backend/app/services/treekem.py:9-13` | in every run the secret of a commit is obtained if and only if the user has a foothold after it |
| `MemberRuns.EpochIffHadFoothold` | `backend/static/js/lib/treekem.js:68-71` | so the epochs in the store of a client are, at any later time, exactly those of the commits after which it had a foothold, each with its secret |
| `MemberRuns.SeatIsFoothold` | `backend/app/services/key_service.py:215-227` | the foothold is the leaf itself exactly while the user sits there and knew the leaf by some commit of the seat that renewed everything above it |
| `MemberRuns.FirstOfSeatRenews` | `backend/app/services/key_service.py:146-161` | the first commit of a seat does |
| `MemberRuns.ToldInTime` | `backend/app/services/key_service.py:215-227` | a client that was told its leaf by the first commit of its seat stands on it, and so obtains every secret, for as long as the seat lasts |
| `MemberRuns.NeverToldInSeat` | `backend/app/services/key_service.py:215-227` | without a commit of a seat that came with its leaf a client never gains a foothold |
| `MemberRuns.SecretIffToldInSeat` | `backend/app/services/key_service.py:215-227` | for a user with a single seat, both directions: the secret of an epoch of the seat is obtained if and only if some commit of the seat up to that epoch renewed everything above the leaf, and the leaf had been told by then |
| `FetchRuns.NewSeatIsNew` | `backend/app/services/group_service.py:126-143` | the leaf given to a new member was not its leaf in the tree of the last commit |
| `FetchRuns.MoveKeeps` | `backend/app/services/key_service.py:215-227` | every step of the server and every fetch of any number of commits by any member keeps the invariant of group and clients |
| `FetchRuns.FetchRunInv` | `backend/app/services/key_service.py:215-227` | so it holds in every state of every run |
| `FetchRuns.MembersHaveTheirKeys` | `backend/app/services/key_service.py:178-227` | in every reachable state an active member has the secret of every commit of its present seat that it has fetched, and holds all keys above its leaf after the last one; nothing is assumed about what it was told |
| `FetchRuns.FetchedMembersHold` | `backend/app/services/key_service.py:178-227` | in particular every active member that is seated in the last tree and has fetched everything holds all current keys above its leaf |
| `FetchRuns.SecretsOfRuns` | `backend/app/services/treekem.py:9-13` | and for every user, member or not: of the commits it has processed it has exactly the secrets of those after which it had a foothold |
| `FetchRuns.ToldWhenFetched` | `backend/app/services/key_service.py:225` | every leaf that came with a commit was the recorded leaf of the user when that commit was fetched |
| `FetchRuns.SecretIffFetchedInSeat` | `backend/app/services/key_service.py:215-227` | the exact condition for a missed secret, in every reachable state: a user with one seat has the secret of an epoch of it if and only if some commit of the seat up to that epoch renewed everything above its leaf, as the first one does, and that commit or an earlier one was handed to the user while it was recorded on that leaf |
| `FetchRuns.RejoinMisses` | `backend/app/services/key_service.py:215-227` | a member that is removed and added again before its first fetch obtains no secret at all, those of its first seat included |
| `Merkle.SplitFromIs` | `backend/app/services/merkle.py:38-52` | the split of section 2.1 of RFC 6962 is the largest power of two below the number of leaves |
| `Merkle.ShapedIsStandard` | `backend/app/services/merkle.py:31-54` | a tree whose left halves are full has the Merkle Tree Hash of section 2.1 of RFC 6962 as its root |
| `Merkle.ShapedPath` | `backend/app/services/merkle.py:31-54` | and its paths are the audit paths of section 2.1.1 |
| `Merkle.JoinedIsLevel` | `backend/app/services/merkle.py:38-52` | joining neighbours and lifting an odd last node turns a level of such trees into the next one |
| `Merkle.ProofGrows` | `backend/app/services/merkle.py:45-51` | the step appended to a proof continues the path of its leaf |
| `Merkle.BuildTree` | `backend/app/services/merkle.py:31-54` | the level-by-level loop returns the Merkle Tree Hash, and as proofs exactly the audit paths |
| `Merkle.FoldProof` | `backend/app/services/merkle.py:57-62` | the accumulator is the fold of the proof |
| `Merkle.PathFolds` | `backend/app/services/merkle.py:57-62` | folding the path of a leaf gives the root |
| `Merkle.AuditPathVerifies` | `backend/app/services/merkle.py:57-62` | every audit path verifies, for an arbitrary hash |
| `Merkle.AuditPathLength` | `backend/app/services/merkle.py:45-51` | a proof has at most ceil(log2 n) steps |
| `Merkle.CeilLog2Is` | `backend/app/services/merkle.py:45-51` | the ceiling of the logarithm is what the recursion computes |
| `MerkleBatch.Build` | `backend/app/services/merkle.py:31-54` | refuses exactly the empty batch; otherwise the root and one verifying, short proof per event |
| `MerkleBatch.SmallBatches` | `backend/app/services/merkle.py:20-54` | what is hashed for one, two and three events, byte by byte: zero and the event, one and the two halves in order, an odd leaf next to the node of the others; with the proofs |
| `MerkleBatch.Verify` | `backend/static/js/lib/crypto.js:206-213` | true exactly when the fold of the proof is the root |
| `MerkleBatch.EqualHashesEqualTrees` | `backend/app/services/merkle.py:3-6` | without a collision among the hashed strings, equal roots come from equal trees, whatever their sizes |
| `MerkleBatch.EqualRootsEqualBatches` | `backend/app/services/merkle.py:5-6` | equal roots imply equal ordered batches, so no batch has a twin with a repeated leaf |
| `MerkleBatch.VerifiedLeadsUp` | `backend/app/services/merkle.py:57-62` | a proof that verifies consists of the true siblings, whatever bytes it contains |
| `MerkleBatch.VerifiesIffProofOfMember` | `backend/app/services/merkle.py:57-62` | a proof verifies against the root of a batch if and only if the event is in the batch and the proof is its audit path |
| `DeliveryLog.RosterStable` | `worker/tasks/blockchain.py:69-77` | the events of a batch, their leaves and their proofs are not disturbed by later steps |
| `DeliveryLog.CommitKeeps` | `worker/tasks/blockchain.py:61-79` | building a batch keeps the invariant of the log |
| `DeliveryLog.UpdateKeeps` | `worker/tasks/blockchain.py:99-146` | submitting, confirming and retrying a batch keep it |
| `DeliveryLog.StepKeeps` | `worker/tasks/blockchain.py:51-192` | no step, crash, repeated task or duplicate id breaks it: each event is in at most one batch with its own proof, confirmed iff its batch is, roots differ, leaf counts add up |
| `DeliveryRuns.RunKeeps` | `worker/tasks/blockchain.py:51-192` | over whole runs the invariant holds, events only advance and keep their place, batches keep their roots, and what the chain accepted stays |
| `DeliveryRuns.EveryRunKeeps` | `worker/tasks/blockchain.py:51-192` | in particular from the empty log |
| `DeliveryRuns.StoredProofVerifies` | `backend/app/models/chain.py:30-32` | the stored proof of every event outside the queue verifies against the root of its batch |
| `DeliveryRuns.ConfirmedIsOnChain` | `worker/tasks/blockchain.py:126-146` | that of a confirmed event against a root that the chain has accepted |
| `DeliveryRuns.ConfirmedWithBatch` | `worker/tasks/blockchain.py:136-142` | an event is confirmed exactly when its batch is |
| `DeliveryRuns.ConfirmedWasSent` | `worker/tasks/blockchain.py:99-142` | a batch that a run takes from pending or failed, or from nothing, to confirmed was accepted by the chain and seen there afterwards |
| `DeliveryRuns.AnchoredWasSeen` | `worker/tasks/blockchain.py:126-143` | in every run a confirmed event lies in a batch that the chain accepted first and was seen to have afterwards |
| `DeliveryRuns.SeenIsConfirmed` | `worker/tasks/blockchain.py:126-146` | a submitted batch that is seen is confirmed from then on |
| `DeliveryRuns.OneLeafEach` | `worker/tasks/blockchain.py:72-75` | no two events share a leaf of a batch |
| `DeliveryRuns.ChainProvesMembership` | `worker/tasks/blockchain.py:104-107` | whatever verifies against an accepted root is an event of that batch with its stored proof |
| `DeliveryRuns.RootIsNew` | `backend/app/models/chain.py:43` | a batch of queued events never has the root of an older one, so the unique constraint is never hit |
| `DeliveryRuns.NothingBehind` | `worker/tasks/blockchain.py:51-83` | among any other steps but a crash, flushes that ask for at least the m first ids of the list, the last of them complete, leave none of those events queued |
| `DeliveryRuns.RoundTakesOff` | `worker/tasks/blockchain.py:86-96` | a sweep and its flushes take the rows it found, 5000 or all stale ones, off those that wait |
| `DeliveryRuns.SweptEventsReachABatch` | `worker/tasks/blockchain.py:86-96` | however its id was lost, a queued event older than ten minutes is in a batch after ceil(n/5000) sweeps, n being the rows that are or get that old, each sweep followed by enough flushes among other steps, with any steps and crashes before the next sweep |
| `DeliveryWorker.Journal.RecordEvent` | `backend/app/services/chain_service.py:30-60` | afterwards the hash has a row, a new queued one exactly if it had none; nothing else changes |
| `DeliveryWorker.Journal.PushId` | `backend/app/services/chain_service.py:62-72` | the event is on its way to a batch; the log keeps its invariant |
| `DeliveryWorker.Journal.TakeIds` | `worker/tasks/blockchain.py:52-60` | at most the limit of ids leaves the list, under the lock |
| `DeliveryWorker.Journal.Abandon` | `worker/tasks/blockchain.py:52-58` | after a crash the log keeps its invariant, and what the flush held is still queued for the sweeper |
| `DeliveryWorker.Journal.SelectQueued` | `worker/tasks/blockchain.py:62-66` | exactly the rows among the ids that are still queued, each once, oldest first |
| `DeliveryWorker.Journal.CommitBatch` | `worker/tasks/blockchain.py:61-79` | one pending batch with the root of the selected rows, row k of which gets leaf k and its proof, in one transaction; nothing when no row is queued or the root exists |
| `DeliveryWorker.Journal.AssignRows` | `worker/tasks/blockchain.py:72-76` | event k of the batch gets leaf k and the proof of leaf k |
| `DeliveryWorker.Journal.SweepOrphans` | `worker/tasks/blockchain.py:86-96` | pushes queued rows older than ten minutes, all of them when there are fewer than 5000 |
| `DeliveryWorker.Journal.SubmitBatch` | `worker/tasks/blockchain.py:99-123` | the status after each outcome: submitted with a transaction when the chain took it, failed after the last retry, otherwise as it was; the chain has the root under the id of the batch after an acceptance, also one whose confirmation was lost, nothing after a refusal, and a repetition adds nothing |
| `DeliveryWorker.Journal.ConfirmBatch` | `worker/tasks/blockchain.py:126-146` | confirmed afterwards exactly if it was, or if it was submitted with a transaction and the chain has it; then exactly the rows of the batch are confirmed with it, and otherwise nothing changes |
| `DeliveryWorker.Journal.RetryBatch` | `worker/tasks/blockchain.py:183-192` | a failed batch is pending again and nothing else changes |
| `Gf256.MulCommutes` | `backend/static/js/lib/crypto.js:167-176` | multiplication of bytes commutes |
| `Gf256.MulAssociates` | `backend/static/js/lib/crypto.js:167-176` | it associates |
| `Gf256.MulDistributes` | `backend/static/js/lib/crypto.js:167-176` | it distributes over exclusive-or |
| `Gf256.MulUnits` | `backend/static/js/lib/crypto.js:167-176` | one is neutral and zero absorbs |
| `Gf256.StandardExample` | `backend/static/js/lib/crypto.js:167-176` | the product of 57 and 83 is c1, as in section 4.2 of FIPS 197 |
| `BytePowers.Cycle` | `backend/static/js/lib/crypto.js:167-177` | three generates: its first 254 powers are not one, and the 255th is |
| `Gf256.PowersDiffer` | `backend/static/js/lib/crypto.js:167-177` | its powers below the 255th are different |
| `Gf256.InverseExists` | `backend/static/js/lib/crypto.js:177` | every byte but zero has an inverse |
| `Shamir.GfMul` | `backend/static/js/lib/crypto.js:167-176` | the loop of shifts and reductions computes the product of the field |
| `Shamir.InverseUnique` | `backend/static/js/lib/crypto.js:177` | the inverse exists exactly for non-zero bytes and is unique |
| `Shamir.GfInv` | `backend/static/js/lib/crypto.js:177` | the search returns the inverse, and fails exactly for zero |
| `Shamir.BytesAreField` | `backend/static/js/lib/crypto.js:166-177` | bytes with these operations are a field of characteristic two (section 4.2 of FIPS 197) |
| `Interpolation.Division` | `backend/static/js/lib/crypto.js:178-203` | division of a polynomial by x - b leaves its value at b |
| `Interpolation.WeightsSumToOne` | `backend/static/js/lib/crypto.js:190-203` | the Lagrange weights of distinct points at zero add up to one |
| `Interpolation.LagrangeRecovers` | `backend/static/js/lib/crypto.js:190-203` | interpolation at as many points as coefficients, or more, gives the constant term |
| `Interpolation.InterpolationRecovers` | `backend/static/js/lib/crypto.js:190-203` | also as it is computed, with one product of numerators and one of denominators per point |
| `Interpolation.Interpolates` | `backend/static/js/lib/crypto.js:178-189` | some polynomial passes through any values at distinct points |
| `Interpolation.RootsForceZero` | `backend/static/js/lib/crypto.js:178-189` | a polynomial with as many roots as coefficients is zero |
| `Interpolation.OnlyOneThrough` | `backend/static/js/lib/crypto.js:178-189` | so it is the only one of its size |
| `Shamir.EvalAt` | `backend/static/js/lib/crypto.js:183-185` | the accumulator over increasing powers is the value of the polynomial |
| `Shamir.ShamirSplit` | `backend/static/js/lib/crypto.js:178-189` | share i is the point i + 1 followed by the values there of the polynomials of all secret bytes |
| `Shamir.CombineByte` | `backend/static/js/lib/crypto.js:195-199` | the interpolated value, or a failure exactly when two points are equal |
| `Shamir.ShamirCombine` | `backend/static/js/lib/crypto.js:190-203` | byte by byte; it fails exactly for repeated points |
| `Shamir.AnyKSharesRecover` | `backend/static/js/lib/crypto.js:178-203` | any k or more different shares of a split combine to the secret, for every secret, all coefficients and every n up to 255 |
| `Shamir.FewerSharesTellNothing` | `backend/static/js/lib/crypto.js:178-189` | k - 1 values are consistent with every secret byte, each through exactly one choice of the random coefficients |
| `Lockout.BudgetShrinks` | `realm/app.py:145-163` | waiting never adds to what may still be guessed by a given moment |
| `Lockout.GuessSpends` | `realm/app.py:145-163` | an evaluated wrong guess uses one of it up |
| `Lockout.GuessBound` | `realm/app.py:145-163` | over any run with an ascending clock at most limit*(floor(T/900)+1) wrong guesses are evaluated, from any starting state |
| `Lockout.NewestBackupWins` | `realm/app.py:122-134` | in whatever order backups arrive, and however often, the one with the newest version is kept |
| `Lockout.Realm.Recover` | `realm/app.py:138-163` | no share or locked: nothing changes; the right secret obtains the share and clears the count; a wrong one adds one, or starts again after a lock, with the guesses that are left and the lock at the limit |
| `Lockout.RealmLeftIsExact` | `realm/app.py:145-163` | a realm that is not locked is locked by exactly limit - attempts wrong guesses, or limit after a lock, whenever they come, and by no fewer |
| `Lockout.WrongGuessTakesOne` | `realm/app.py:156-163` | every wrong guess takes one from the guesses left, which is the number answered, and the last one locks |
| `Lockout.RealmGuessBound` | `realm/app.py:138-163` | the bound for a realm between two backups |
| `Lockout.ShareSurvives` | `realm/app.py:11-12` | after any number of guesses, right or wrong, the right secret obtains the share again once the last of them is fifteen minutes ago (the file header says that the share is destroyed) |
| `Lockout.Recovery.Recover` | `worker/tasks/keys.py:83-143` | locked, with nothing counted; a lock until the last locked realm opens; cleared with enough shares; one more failure for anything wrong, with the number left and the lock at the limit; otherwise failed |
| `Lockout.WorkerMeters` | `worker/tasks/keys.py:83-143` | a guess that no realm accepts counts for the worker, whichever realms are asked |
| `Lockout.WorkerGuessBound` | `worker/tasks/keys.py:83-143` | the same bound across rotating subsets of realms, for attempts that do not overlap |
| `Lockout.WorkerLeftIsExact` | `worker/tasks/keys.py:124-143` | from a count without a lock exactly limit - failures wrong attempts lock the recovery, and no fewer |
| `OverlappingRecoveries.OneAtATime` | `worker/tasks/keys.py:83-143` | the lookup of the lock and the count after the replies, taken one after the other, are the attempt as a whole |
| `OverlappingRecoveries.OverlappingGuessBound` | `worker/tasks/keys.py:83-143` | with c attempts at a time at most (limit+c-1)*(floor(T/900)+1) wrong guesses are evaluated, besides those under way at the start |
| `OverlappingRecoveries.OverlappingGuessesReached` | `worker/tasks/keys.py:83-143` | and limit+c-1 of them can be evaluated at a single moment, so that the bound for single attempts fails as soon as two overlap |
| `Lockout.Vault.UnlockWith` | `backend/static/js/lib/vault.js:119-144` | locked, missing, unlocked with a cleared count, or one more failure with a lock at the tenth |
| `Lockout.LeftIsExact` | `backend/static/js/lib/vault.js:77-81` | the attempts left that the client is told are exactly the wrong guesses that lock the vault: so many do, and no fewer |
| `Lockout.LeftCountsDown` | `backend/static/js/lib/vault.js:77-81` | every wrong guess takes one from the attempts left, and the vault locks exactly with the last |
| `Lockout.VaultGuessBound` | `backend/static/js/lib/vault.js:119-144` | the bound for the local vault |
| `Varint.VarintRoundTrip` | `backend/app/proto/wire.py:50-76` | reading what was written gives the number and its length, whatever follows |
| `Varint.VarintEnds` | `backend/app/proto/wire.py:63-76` | a varint is read exactly if one of the first ten bytes ends it, and up to the first that does |
| `Varint.VarintSize` | `backend/app/proto/wire.py:50-60` | n bytes hold every number below 2^(7n) |
| `Varint.SevenDigits` | `backend/app/proto/wire.py:53-60` | the masks and shifts are remainder and quotient by 128 |
| `Varint.EncVarint` | `backend/app/proto/wire.py:50-60` | bit operations append the varint; negative numbers are refused |
| `Varint.DecVarint` | `backend/app/proto/wire.py:63-76` | the loop reads the varint at a position, at most ten bytes; truncated and longer ones are refused |
| `Varint.PushVarint` | `backend/static/js/lib/proto.js:22-31` | division appends the same bytes for 0..2^53-1, and everything else is refused |
| `Varint.ReadVarintJs` | `backend/static/js/lib/proto.js:33-43` | multiplication reads the same numbers and refuses the same buffers |
| `WireRoundTrip.ReadEntry` | `backend/app/proto/wire.py:135-152` | a written record is read back, whatever follows |
| `WireRoundTrip.StandardExamples` | `backend/app/proto/wire.py:79-108` | 150 in field 1 and a text in field 2, byte by byte as in the Protocol Buffers encoding specification |
| `WireRoundTrip.DecodeEntries` | `backend/app/proto/wire.py:133-168` | decoding a sequence of records stores them one after the other |
| `WireRoundTrip.UnknownSkipped` | `backend/app/proto/wire.py:145-153` | a record of an unknown field or of fixed width changes nothing |
| `WireRoundTrip.UnknownBetween` | `backend/app/proto/wire.py:145-153` | also between any two others |
| `WireRoundTrip.RoundTrip` | `backend/app/proto/wire.py:79-168` | decode(encode(d)) is d with its defaults filled in, for every well-typed message with nested packets, repeated (also empty) texts and numbers below 2^64 |
| `WireRoundTrip.FilledAt` | `backend/app/proto/wire.py:113-131` | every field of the schema is there: as given, or with the default of its type |
| `WireCodec.Encode` | `backend/app/proto/wire.py:79-108` | the bytes of the message; refused exactly when a number in it is negative |
| `WireCodec.EncodeJs` | `backend/static/js/lib/proto.js:45-74` | the same bytes; refused exactly when a number or size is not a safe integer |
| `WireCodec.ReadAt` | `backend/app/proto/wire.py:133-152` | one record at a position |
| `WireCodec.Decode` | `backend/app/proto/wire.py:111-168` | the loop with positions decodes every buffer, and ends |
| `WireBrowser.DecodeJs` | `backend/static/js/lib/proto.js:76-111` | the browser's loop, up to wrong wire types and unsafe numbers |
| `WireBrowser.MessageMirrors` | `backend/static/js/lib/proto.js:76-111` | for every buffer: what the browser reads is what the server reads except that a byte order mark in front of a text is dropped, and where it fails, or is given a wrong wire type, the server fails |
| `WireBrowser.BrowserRoundTrip` | `backend/static/js/lib/proto.js:45-111` | what either encoder wrote comes back in the browser with its defaults filled in if and only if no text of it starts with a byte order mark |
| `WireBrowser.MarkIsLost` | `backend/static/js/lib/proto.js:20` | a concrete frame that does not come back |
| `SessionRuns.LoginKeeps` | `backend/app/services/auth_service.py:128-203` | a login, on a new, known or revoked device, keeps the invariant of sessions |
| `SessionRuns.RefreshKeeps` | `backend/app/services/auth_service.py:205-238` | so does a refresh, also of a token that was exchanged before |
| `SessionRuns.RevokingKeeps` | `backend/app/repositories/users.py:92-162` | so does every operation that only revokes |
| `SessionRuns.PairKeeps` | `backend/app/services/auth_service.py:141-180` | so does a paired session |
| `SessionRuns.StepKeeps` | `backend/app/services/auth_service.py:128-274` | every step keeps it, and revocation times never go back |
| `SessionRuns.RunKeeps` | `backend/app/services/auth_service.py:128-274` | so does every run with a clock that does not run backwards |
| `SessionRuns.EveryRunKeeps` | `backend/app/services/auth_service.py:128-274` | in particular from tables without devices |
| `SessionRuns.RevokeManyRejects` | `backend/app/repositories/users.py:145-162` | revoking devices of a user leaves exactly its other devices active and rejects every access token issued for them so far |
| `SessionRuns.RevokeAllRejects` | `backend/app/repositories/users.py:132-143` | revoking everything leaves no active device and no usable token, and rejects every access token of the user so far |
| `SessionRuns.RevokedForever` | `backend/app/services/security.py:70-75` | an access token once rejected as revoked is rejected for ever, also after a re-login has revived its device |
| `SessionRuns.LogoutIsFinal` | `backend/app/services/auth_service.py:257-265` | a logout rejects every access token issued for the device so far and leaves it no refresh token |
| `SessionRuns.AtMostOneToken` | `backend/app/services/auth_service.py:182-203` | a device has at most one usable refresh token and a revoked device none |
| `SessionRuns.ReuseRevokesDevice` | `backend/app/services/auth_service.py:205-218` | presenting a token that was exchanged at any earlier moment leaves its device revoked and without a usable token |
| `SessionRuns.ChangedSessionIsNotReissued` | `backend/app/services/auth_service.py:141-174` | once the token or device of a pairing is revoked, rotated or given a new key, every later attempt, after any run, to issue its credentials again is a conflict |
| `SessionRuns.ReissuedIffUnchanged` | `backend/app/services/auth_service.py:141-174` | after any run from its first issue, the credentials of a pairing are issued again if and only if token, device and key are as they were and the token has not expired, and that changes no table |
| `SessionServer.SessionTables.RevokeDeviceTokens` | `backend/app/repositories/users.py:92-97` | exactly the usable tokens of the device are revoked, at this moment; the session invariant holds and nothing revoked comes back |
| `SessionServer.SessionTables.RevokeDeviceRow` | `backend/app/repositories/users.py:124-130` | exactly the device and its usable tokens are revoked, and every access token issued for the device so far is rejected; the invariant holds and nothing comes back |
| `SessionServer.SessionTables.LogIn` | `backend/app/services/auth_service.py:128-203` | a presented device of the user is used again, with the earlier revocation kept, and otherwise there is a new one; exactly the new token is usable on it; no other device or token changes; the invariant holds |
| `SessionServer.SessionTables.RefreshSession` | `backend/app/services/auth_service.py:205-238` | succeeds exactly for a token that exists, is not revoked and not expired, of a user that exists and is not suspended and of an active device; the new token is of the same user and device; a token exchanged before ends exactly the session of its device, and any other refusal changes nothing |
| `SessionServer.SessionTables.LogOut` | `backend/app/services/auth_service.py:257-265` | not found or a conflict exactly when the device is not an active one of the user or is the last and protected; otherwise exactly this device and its tokens are revoked |
| `SessionServer.SessionTables.LogOutAll` | `backend/app/services/auth_service.py:267-274` | succeeds exactly from an active device of the user, and then revokes exactly its other active devices and their tokens |
| `SessionServer.SessionTables.RevokeUser` | `backend/app/repositories/users.py:132-143` | exactly the active devices of the user and the tokens of all its devices are revoked, and no access token issued so far is accepted |
| `SessionServer.SessionTables.PreparePairing` | `backend/app/services/auth_service.py:141-180` | succeeds exactly for a new session or one that is as it was issued and has not expired; a new one adds exactly its device and token, and neither a repetition nor a refusal changes a table |
| `SessionServer.SessionTables.Authenticate` | `backend/app/services/auth_service.py:240-255` | an access token is accepted exactly for a user that is not suspended and a device that exists, if it was issued after every moment at which one of them was revoked |
| `Pairing.ChangeKeeps` | `backend/app/services/device_pairing_service.py:223-307` | every change of the record keeps its form: an envelope exactly while approved, an issue time exactly when completed, no account exchanged, completed and rejected final |
| `Pairing.ActionKeeps` | `backend/app/services/device_pairing_service.py:180-319` | every action, also a crash between the record and the commit, keeps the invariant of the pairing |
| `PairingRuns.RunKeeps` | `backend/app/services/device_pairing_service.py:180-319` | so does every run |
| `PairingRuns.OneSessionPerRequest` | `backend/app/services/device_pairing_service.py:275-319` | from a new request on: a committed device means its record is completed or gone, and all completions that succeeded handed out the same credentials |
| `PairingRuns.RejectedYieldsNothing` | `backend/app/services/device_pairing_service.py:243-273` | a rejected or cancelled request never yields a session |
| `PairingRuns.DeliveredWasApproved` | `backend/app/services/device_pairing_service.py:231-307` | whatever a request hands out was approved before, while it was pending, by the account and for the operation that it names, and completed afterwards with the secret of the request |
| `PairingRuns.SessionRunKeeps` | `backend/app/services/device_pairing_service.py:275-319` | over every run the device of the request has the session that was delivered first, and what is being issued has not changed since it was prepared |
| `PairingRuns.RetryIssuesTheSame` | `backend/app/services/device_pairing_service.py:306-310` | after a crash before the commit the same operation prepares the same credentials again, whether or not the device is there already |
| `PairingRuns.ChangedSessionIsRefused` | `backend/app/services/auth_service.py:167-174` | in every run from a new request: once the session of the request has changed, no later completion succeeds and nothing more is ever handed out |
| `RefundRuns.RefundsOnlyPending` | `backend/app/services/device_pairing_service.py:252-273` | in every run of the record and the quota with crashes between them: a cancellation is told to refund, and the slot is given back, only after a cancellation that found the request pending |
| `RefundRuns.FreedAtMostOnce` | `backend/app/services/device_pairing_service.py:252-273` | however often a cancellation is repeated, after a crash or not, the slot of the request is freed at most once and no other slot by it |
| `RefundRuns.CancelAsksAgain` | `backend/app/services/device_pairing_service.py:257-273` | until the refund is noted as done, a repeated cancellation is told to refund again, so that a crash in between loses no slot |
| `SessionServer.PairingRelay.InspectRequest` | `backend/app/services/device_pairing_service.py:223-229` | succeeds exactly for a living pending request with this key that is free or of this account, and then only sets the account; every refusal has its reason and changes nothing |
| `SessionServer.PairingRelay.ApproveRequest` | `backend/app/services/device_pairing_service.py:231-241` | succeeds exactly for a living pending request, free or of this account, and an envelope for its key and account; the record is approved for the operation; every refusal has its reason and changes nothing |
| `SessionServer.PairingRelay.RejectRequest` | `backend/app/services/device_pairing_service.py:243-250` | succeeds exactly for a living pending request with this key that is free or of this account, and makes it rejected; every refusal has its reason and changes nothing |
| `SessionServer.PairingRelay.CancelRequest` | `backend/app/services/device_pairing_service.py:252-266` | succeeds exactly for a living request that is not completed, with the right secret, and makes it rejected; a refund exactly if it was never approved and was pending, or the refund is not done; every refusal has its reason |
| `SessionServer.PairingRelay.ClearRefundPending` | `backend/app/services/device_pairing_service.py:269-273` | with the right secret a living record notes that the refund is done |
| `SessionServer.PairingRelay.CompleteRequest` | `backend/app/services/device_pairing_service.py:275-307` | succeeds exactly for a living record that is approved or completed for this operation, with the right secret, an account that exists and is not suspended, and a session that is new or unchanged; then the credentials are derived from account, request, operation and secret; each failure has its refusal and changes nothing |
| `GenerationQuota.NextWindow` | `backend/app/services/device_pairing_service.py:58-109` | a reservation that finds fewer than three in the window before it overfills no window |
| `GenerationQuota.RefundHeld` | `backend/app/services/device_pairing_service.py:111-134` | a refund takes exactly the attempts of the request out of the row |
| `GenerationQuota.RefundOnlyOwn` | `backend/app/services/device_pairing_service.py:124-133` | a refund marks exactly the attempts of the request in the window |
| `GenerationQuota.RefundOnce` | `backend/app/services/device_pairing_service.py:252-273` | repeating a refund changes nothing |
| `GenerationQuota.RefundFrees` | `backend/app/services/device_pairing_service.py:124-133` | a refund in the window leaves fewer attempts in it |
| `GenerationQuota.WaitSuffices` | `backend/app/services/device_pairing_service.py:94-95` | after the oldest attempt has left the window there is room |
| `GenerationQuota.Quota.Reserve` | `backend/app/services/device_pairing_service.py:58-109` | refused exactly when the window that ends now has three unrefunded generations, with the least delay in seconds after which the oldest has left it; no sliding window of twenty minutes ever has more than three |
| `GenerationQuota.Quota.Release` | `backend/app/services/device_pairing_service.py:111-134` | exactly the attempts of the request in the window are given back, and if there were any, the next generation finds room |
| `GenerationQuota.Quota.Purge` | `backend/app/services/device_pairing_service.py:69-71` | exactly a row that was not updated for a window is removed, and that forgets nothing that counts |
| `SearchIndex.Words` | `backend/static/js/lib/crypto.js:132-136` | exactly the maximal runs of at least two letters or digits, each once |
| `SearchIndex.WordTokens` | `backend/static/js/lib/crypto.js:137-143` | exactly the tokens of the prefixes, two to twelve letters long, of the words |
| `SearchIndex.ThreadIndex.Send` | `backend/app/repositories/messages.py:44-46` | the token rows of the thread are those of its messages |
| `SearchIndex.ThreadIndex.Search` | `backend/app/repositories/messages.py:48-70` | the newest messages after the cleared ones that have a token of every group |
| `SearchIndex.ThreadIndex.SearchThread` | `backend/app/services/message_service.py:204-210` | the same for the groups that remain after malformed and surplus candidates are dropped |
| `SearchIndex.KeptTokens` | `backend/app/services/message_service.py:206-207` | of the candidates of the client only those of epochs beyond the first thirty-two are dropped |
| `SearchIndex.HitsAreScan` | `backend/static/js/app/data.js:960-982` | the messages found by tokens are those a plain scan finds: readable, not cleared, every query word cut to twelve letters beginning one of their words |
| `SearchIndex.SearchMessages` | `backend/static/js/app/data.js:960-982` | from the query to the newest fifty of the plain scan, for the first eight words |
| `Morph.SyncAttrs` | `backend/static/js/app/engine.js:43-60` | the attributes end equal to the new ones |
| `Morph.MatchFor` | `backend/static/js/app/engine.js:80-91` | the node that has the key and the same tag; without a key the one at the cursor, if it has no key and the same tag |
| `Morph.PlaceNext` | `backend/static/js/app/engine.js:79-100` | one new node is inserted or its match is moved to the cursor and updated; nodes before the cursor stay, and every keyed node still wanted stays ahead of it |
| `Morph.MorphNode` | `backend/static/js/app/engine.js:62-69` | the same object with the contents of the new node, and with the same objects below when the shape did not change |
| `Morph.MorphChildren` | `backend/static/js/app/engine.js:71-102` | every place holds the updated object that had its key or the new node, no object is used twice at any depth, and a list of the same shape keeps all its objects in place |
| `Morph.ReconciledIsSame` | `backend/static/js/app/engine.js:71-102` | the live children are structurally equal to the new ones at every depth |
| `Morph.UpdatedIsSame` | `backend/static/js/app/engine.js:62-69` | so is the whole tree |
| `Morph.KeyedNodeSurvives` | `backend/static/js/app/engine.js:34-39` | a keyed node present in both with the same tag is the same object afterwards |

## Left out

- GroupServer.GroupRecord.Create: roles, titles, avatars and the check of invitees are not modelled; the list of members is distinct and starts with the creator.
- GroupServer.GroupRecord.RemoveUser: does not model who may remove whom; leaving and removal by an administrator are one operation, since they have the same effect on the tree.
- GroupServer.GroupRecord.TreeCommit: does not model the check that public keys are points of the curve, nor the reason and the committer stored with a commit.
- GroupServer.GroupRecord.ApplyMembership: takes the identity key of a user as given; a user without an active key set is not modelled.
- GroupCommit.ValidateCommit: does not model the length limits on keys and ciphertexts; a body has well-formed entries.
- GroupCommit.TreeClient.ProcessCommit: a root ciphertext that does not open yields no secret, where the code throws after the same changes.
- FetchRuns.MembersHaveTheirKeys: a fetch hands out any number of commits, so the limit of the server per request needs no place; a fetch between two writes of one request is not modelled. Committers are honest.
- FetchRuns.SecretIffFetchedInSeat: for a user with a single seat so far; for several seats the condition is FetchRuns.SecretsOfRuns, in terms of footholds.
- Key resets (`register` in backend/app/services/key_service.py): a reset changes a leaf at once and its path only with a later commit, so the leaf is out of step in between.
- Conversation keys of direct threads, key backups (`create_backup`), and the storing of shares in the realms (`store_shares`): records that are written and read back.
- DeliveryWorker.Journal.SubmitBatch: two overlapping transactions for one batch, of which the later overwrites the status written by the earlier, are not modelled; the notification of members and error texts are left out.
- DeliveryWorker.Journal.Abandon: the expiry of the flush lock while its process is still working is not modelled.
- `recheck_submitted`: only enqueues tasks, which may be delivered at any time in the model.
- Shamir.ShamirSplit: for at most 255 shares and a threshold of at least one; the random bytes are a parameter.
- Shamir.ShamirCombine: the shares have equal length and there is at least one.
- Lockout.Realm.Recover: sealed requests and shares are opened already; deletion of a share is left out.
- Lockout.Recovery.Recover: realm indices out of range and failed calls are both unreachable realms; the request row is left out. Redis expiry only removes locks that have run out, and is a step of OverlappingRecoveries.
- OverlappingRecoveries.OverlappingGuessBound: two attempts that both find a lock run out, of which the later removes a lock set in between, are not modelled.
- Lockout.Vault.UnlockWith: the encrypted state, its key, `create` and `changePin` are left out; the right PIN is the one that opens the box.
- WireCodec.Encode: values have the types of their fields; conversion of other values to text or integers is left out.
- WireBrowser.DecodeJs: what the browser makes of a known field under the wrong wire type, and of numbers that a double need not hold exactly, is left open; the server refuses the former.
- SessionServer.SessionTables.RevokeDeviceRow: revokes the tokens before the row of the device, where the code does it after; both are one transaction.
- SessionServer.SessionTables.LogIn: the proof of wallet ownership and the fields shown in the session list are left out; deletion of old devices by maintenance is not modelled.
- SessionServer.SessionTables.Authenticate: the signature and the expiry of the access token are checked before.
- SessionServer.PairingRelay.CompleteRequest: the commit that follows and its failure are the steps Commit and Crash of Pairing; polling is left out.
- GenerationQuota.Quota.Reserve: entries in the old numeric format, rounding of stored times and the retry after a concurrent first insertion are left out.
- SearchIndex.ThreadIndex.Send: messages with more than 256 tokens, which the schema refuses, are not excluded; sending itself (sequence numbers, attachments, watermarks) is left out.
- Morph.MorphChildren: nodes are values with identities, so sharing in the document is not captured; siblings of the new markup have different keys. Text areas, the draft field, properties of input fields and comments are left out.
- Routers, schemas, WebSocket transport, the chain gateway, push messages, media, profiles and the user interface are not part of this model.
