# Verification of the HIC Core-0 mechanisms

A Dafny model of the HIC kernel's Core-0 layer and proofs about it: the capability table with
derivation, revocation, shared memory and handles; CNode trees and capability pointers; the
lock-free ring buffer; the audit log; domain quotas; execution flows, domain switches and the boot
scheduler; the AMP verification cache; and the stack-balance checker of the build scripts.

Each operation is a function from a state to a state. Where the source changes tables in place, a
class does the same in place, with the source's loops, and its contracts say that the result is that
function. The theorems are then about the functions, over every input, every run or every
interleaving.

| file | about |
|---|---|
| Capability.dfy, Operations.dfy | the capability state, every operation on it, runs of operations |
| CapSystem.dfy | the same operations on arrays, proved equal |
| Revocation.dfy, Subtree.dfy | what revocation frees, on any table and exactly on forests |
| History.dfy | derivation by history, and when revocation keeps its promise about it |
| Lineage.dfy | slot discipline, and no amplification over whole runs |
| Forest.dfy | which operations keep the derivation links a forest |
| SharedMemory.dfy | reference counts and page runs |
| Handles.dfy | the access checks and the lifetime of a handle |
| Access.dfy | what each operation gives and takes, told by the access checks, and why a call is refused |
| CSpace.dfy, NodeRevoke.dfy, NodeTree.dfy | capability pointers over CNode trees, and emptying a CNode |
| RingBuffer.dfy | the single-producer single-consumer ring, load by load |
| AuditLog.dfy | the wrapping log and its queries |
| Quota.dfy | checking, using, releasing and delegating quotas |
| ExecFlow.dfy | threads, flows, domain switches, the boot scheduler |
| FlowEffects.dfy | what these do to the threads they name and to the capabilities |
| AmpCache.dfy | the cached capability check |
| StackCheck.dfy | the worklist analysis of `stackcheck.py` |
| StackNet.dfy | the effect of a block on the stack, by counting |
| Bits.dfy | masks, shifts and powers of two |

## What the code does where its comments say otherwise

- `HIC_CAP_INVALID` is 0 (src/Core-0/types.h:76); the comment at src/Core-0/capability.c:335 gives another
  value. The model follows the definition: slot 0 is never handed out, parent 0 means none, a child 0
  is skipped, and slot 0 always looks present, with no rights and owned by domain 0.
- Revocation is described as taking everything derived from a capability. It takes the first half of every
  recorded child list, down to depth 16. `History.DerivedGoneAfterRun` gives the exact condition under which
  nothing derived from the capability, by history, stays alive, and `History.RecordedStepIff` exactly which
  steps make the recorded links fall behind history. `Forest.SecondChildSurvives`, `Forest.FullListEscapes`
  and `History.GrandchildLost` show what escapes, `Forest.UnrelatedTaken` what is taken along, and
  `History.ListsTrueIff` which hand-outs of a slot make that possible.
- The ring buffer asks for a power of two. It is first-in first-out for every size, and holds one item less
  than the lowest set bit of the size (`RingBuffer.FirstInFirstOut`, `RingBuffer.RefusedIff`).
- The use of a quota is checked against the whole quota, not against what is left after delegation
  (`Quota.UsedTwice`), and a thread or capability is counted even when the amount asked for is zero.
- An ended thread can be brought back by blocking it through a capability that still names it
  (`ExecFlow.EndedStaysIff`, `ExecFlow.EndedComesBack`).
- A handle names a slot, not a capability: after the slot is handed out again the old handle passes for the
  new capability (`Handles.OldHandlePasses`).
- A transfer moves ownership and nothing else: every handle to the capability, of whatever domain, passes as before
  (`Access.TransferKeeps`).
- Setting a policy mask that would take away every policy of a domain gives it back those of its level
  (`Access.SetPoliciesIff`).
- The percentage in a quota check is taken of the amount used times 100, in 64 and then 32 bits. Within the quota the
  level is wrong exactly when that product leaves its 64 bits and at least four fifths are in use, and is then
  reported as fine; beyond the quota it is wrong exactly when what the two words leave of the product is short of 95
  percent (`Quota.LevelRightIff`, with `Quota.FullIsFine` and `Quota.OverdrawnIsFine`).
- The scheduler does not make the idle thread ready when it takes the processor from it
  (src/Core-0/scheduler.c:115-118), so the idle thread stays marked running beside the current one
  (`ExecFlow.IdleLeftRunning`), in exactly those steps (`ExecFlow.IdleApartIff`). The zeroed block 0 of the thread
  table passes for a ready thread and is scheduled first. A thread that has yielded and is taken again keeps the mark
  of a ready one (`FlowEffects.ScheduleTakes`).
- The stack checker counts the return itself, so a function that leaves the stack as it found it and returns by
  a `ret` with operand 0 is reported (`StackCheck.ReturnIsCounted`, `StackCheck.LevelFunctionReported`). A `ret`
  without operand never gets that far: the instruction pattern of `parse_asm` asks for white space after the
  mnemonic, so the line is dropped (scripts/stackcheck.py:195-199).
- The patterns of `imm_effect` and `is_dynamic_rsp_adjustment` begin with the mnemonic but are matched against
  the operands alone, so on parsed files they answer 0 and no (scripts/stackcheck.py:73-100); the model takes
  their answers as given.
- The stack checker can run for ever, on a loop that pushes (`StackCheck.PushesForever`).
- A cached capability check can have been wrong for longer than the time to live, when the table changes its
  answer between the check and the stamp and time passes before the stamp (`AmpCache.StaleAnswer`); exactly
  then (`AmpCache.StampIff`).

## Model

| member | source | states |
|---|---|---|
| Capability.FirstZero | src/Core-0/capability.c:159-170 | the search of the creating calls returns the first slot from 1 on whose id is 0, or 0 when there is none |
| Capability.FirstMismatch | src/Core-0/capability.c:483-494 | the search of the deriving calls returns the first slot that does not hold its own number |
| Revocation.RevokeFromSweeps | src/Core-0/capability.c:261-322 | on arbitrary tables, cyclic ones included: the freed slots are pairwise different, each held an unmarked capability and is cleared, the root is among them, no other entry changes |
| Revocation.RevokeChildrenSweeps | src/Core-0/capability.c:285-294 | the same for the child loop from any index on, whatever the list holds |
| Revocation.RevokeFromExact | src/Core-0/capability.c:261-322 | on a forest the tables after a revocation are the old ones with the node detached and exactly the doomed slots erased: the node and, through depth 16, the first half of every list |
| Revocation.ChildrenExact | src/Core-0/capability.c:285-294 | the loop that walks a list while its calls swap-remove from it visits exactly the first half, and edits only that list |
| Revocation.SwapRemoveFacts | src/Core-0/capability.c:300-315 | removing by swapping with the last keeps all other children, once each |
| Revocation.EraseForest | src/Core-0/capability.c:300-320 | detaching a node and erasing it with doomed descendants leaves a forest, whatever part of the subtree stays |
| Revocation.DoomedFacts | src/Core-0/capability.c:261-294 | everything doomed is live and, but for the root, listed in the first half of the list of a doomed parent it points back to |
| Subtree.WholeSubtreeFreedIff | src/Core-0/capability.c:324-364 | revocation leaves nothing recorded below a capability alive if and only if its recorded subtree has at most 17 levels and no list longer than one; derivation by history is `History.DerivedGoneIff` |
| Subtree.FreedIsBelow | src/Core-0/capability.c:261-322 | only what is recorded below the capability is freed |
| Subtree.ThickSurvives | src/Core-0/capability.c:263-294 | when a subtree is deeper or wider than that, some capability below survives |
| Subtree.ChainLoses | src/Core-0/capability.c:261-294 | from a given depth on a chain is doomed as far as the depth limit admits |
| Subtree.ChainRevoked | src/Core-0/capability.c:261-322 | revoking the head of a chain frees its first 17 members, all when there are fewer, and nothing else in the table |
| History.ListsTrueIff | src/Core-0/capability.c:391-521 | over every mix of operations: a step leaves every list naming only capabilities that derive from its owner if and only if it does not hand out a slot that an old list still names, or that still has a list |
| History.FreedDerives | src/Core-0/capability.c:261-322 | on any tables whose lists are true in that sense, everything freed derives by history from the capability revoked |
| History.OnlyDerivedFreedIff | src/Core-0/capability.c:261-322 | on any tables whose lists are no longer than one, all revocations free only what derives from the capability revoked if and only if the lists are true |
| History.OnlyDerivedFreedInForestIff | src/Core-0/capability.c:261-322 | on a forest with lists of any length the place decides: all revocations free only what derives from the capability revoked if and only if the first half of every list is true |
| History.PlaceDecides | src/Core-0/capability.c:285-315 | outside forests too: of two tables that differ only in the place of a wrong name in one list, revocation spares it in the one and takes it in the other |
| History.FreedBelow | src/Core-0/capability.c:261-322 | on arbitrary tables, cyclic ones included, everything freed is recorded below the capability revoked |
| History.FreedDerivesAfterRun | src/Core-0/capability.c:324-364 | so after every run, of any mix of operations, without such a hand-out |
| History.DerivedGoneIff | src/Core-0/capability.c:324-364 | on a forest nothing that derives by history from the capability stays alive if and only if the recorded subtree is thin and every live descendant by history is recorded below it |
| History.DerivedGoneAfterRun | src/Core-0/capability.c:324-364 | the promise of revocation after every run that does not tangle the links: all freed derive from the capability, and that equivalence |
| History.RecordedStepIff | src/Core-0/capability.c:261-521 | a step leaves everything derived recorded if and only if it is neither a derivation into a full list nor the revocation of a listed capability whose subtree is not thin |
| History.PromiseKeptIff | src/Core-0/capability.c:324-364 | after every run without such steps the promise is kept if and only if the recorded subtree is thin |
| History.GrandchildLost | src/Core-0/capability.c:285-364 | a run of derivations and one revocation after which the subtree is thin and revoking its top leaves a grandchild alive |
| Lineage.AcceptedIff | src/Core-0/capability.c:115-1126 | each operation succeeds exactly when its guards hold before the call, and then hands out the first free slot |
| Lineage.AllocatorsAgree | src/Core-0/capability.c:159-177 | the two free-slot tests pick the same slot, never a live one, and fail together exactly when the table is full |
| Lineage.StepTidy | src/Core-0/capability.c:115-556 | every operation keeps each slot holding 0 or its own number with no revoked mark, and hands out only slots that were free |
| Lineage.RunTidy | src/Core-0/capability.c:115-556 | so does every run |
| Lineage.NoRevokedCaps | src/Core-0/domain.c:637-655 | in every reachable state the count of revoked capabilities of any domain is zero |
| Lineage.RightsTestsAgree | src/Core-0/capability.c:415-478 | the two ways the code tests for excess rights agree |
| Lineage.StepConfined | src/Core-0/capability.c:368-556 | one operation keeps every capability within the grant it descends from, slot reuse included |
| Lineage.RunConfined | src/Core-0/capability.c:368-556 | so does every run |
| Lineage.NoAmplification | src/Core-0/capability.c:368-556 | over every run from the start: a live capability has a subset of the rights and the same resource as the creation it descends from; a logical core's policy equals its derivation limit, is no stronger than the root's, and is shared or idle when an application domain created the root |
| Lineage.StepDomainsSane | src/Core-0/domain.c:1400-1512 | no sequence of mask changes gives an application domain more than the shared policy |
| Forest.DeriveForest | src/Core-0/capability.c:459-521 | derivation keeps the links a forest |
| Forest.AttenuateForestIff | src/Core-0/capability.c:391-454 | an attenuated transfer keeps the forest just when there was no list to record the child in |
| Forest.DeriveWithPolicyForestIff | src/Core-0/capability.c:529-556 | derivation with a policy keeps the forest unless a refused policy leaves its dead slot in a list |
| Forest.UnmapForestIff | src/Core-0/capability.c:1076-1126 | freeing a slot without unlinking it keeps the forest just when nothing links the slot |
| Forest.RevokeForest | src/Core-0/capability.c:334-364 | revocation keeps the forest |
| Forest.ForestStepIff | src/Core-0/capability.c:115-556 | any operation keeps the forest if and only if it is none of those exceptions |
| Forest.StepShrinking | src/Core-0/capability.c:459-521 | listed children keep holding a subset of their parent's rights |
| Forest.RunForest | src/Core-0/capability.c:261-521 | over every run without such an exception the links stay a forest of live capabilities with shrinking rights, and free slots are in no list |
| Forest.RevokeAfterRun | src/Core-0/capability.c:334-364 | after every such run, revoking a capability erases exactly the doomed slots, all of them recorded below it, and everything recorded below it if and only if the subtree is thin |
| Forest.FullListEscapes | src/Core-0/capability.c:511-516 | a derivation beyond the sixteenth is not recorded and outlives its parent's revocation |
| Forest.SecondLeafSkipped | src/Core-0/capability.c:285-294 | of two leaf children the second survives |
| Forest.SecondChildSurvives | src/Core-0/capability.c:285-294 | a run of one creation and two derivations reaches that case |
| Forest.UnrelatedTaken | src/Core-0/capability.c:391-454 | a run after which revoking one capability frees another domain's unrelated one |
| SharedMemory.RevokeCounted | src/Core-0/capability.c:217-246 | revocation over any links releases exactly one reference per capability freed |
| SharedMemory.MapCounted | src/Core-0/capability.c:1026-1071 | a mapping adds one holder and one reference |
| SharedMemory.UnmapCountedIff | src/Core-0/capability.c:1076-1126 | unmapping keeps the counts unless the slot was dead while its old region stands, or names no memory |
| SharedMemory.PagesSurviveIff | src/Core-0/capability.c:979-1004 | the page count survives the 32-bit size exactly below four gigabytes |
| SharedMemory.CountedStepIff | src/Core-0/capability.c:955-1126 | an operation keeps reference counts equal to live holders and lent page runs equal to regions if and only if it is none of the listed exceptions |
| SharedMemory.RunCounted | src/Core-0/capability.c:115-1126 | over every run of any mix of operations without such an exception the counts stay right |
| SharedMemory.SharedMemoryCounted | src/Core-0/capability.c:955-1126 | from the start, over every such run: each region's count is the number of live capabilities on its base and at least one, the runs lent out are exactly the regions', every capability on memory that is not private is backed, and no run was returned twice or at the wrong length |
| SharedMemory.CarefulRun | src/Core-0/capability.c:955-1126 | callers that keep to what they can see for themselves never cause an exception |
| SharedMemory.CoreUnmapsTwice | src/Core-0/capability.c:1076-1126 | unmapping twice by the core domain returns memory another holder still uses |
| Handles.HandlePassesIff | src/Core-0/capability.c:560-598 | a handle made for a domain passes exactly while its slot holds a capability, and exactly for the subsets of its rights |
| Handles.FastAgrees | src/Core-0/capability.h:142-169 | the inline check and the full check agree on every handle with an id in range |
| Handles.RevokedHandlesRefused | src/Core-0/capability.c:334-364 | after revocation, and every further run that does not hand the slot out again, no handle naming it passes for any domain or right |
| Handles.GrantedPassesIff | src/Core-0/capability.c:187-202 | a granted handle passes, over every run that keeps the domain's key, exactly while its slot holds a capability and for the subsets of its rights |
| Handles.OldHandlePasses | src/Core-0/capability.c:560-598 | a run in which a handle, refused after revocation, passes for the capability of another domain in the reused slot |
| Handles.TokenNonzero | src/Core-0/capability.h:100-113 | no handle is the invalid handle |
| Access.HandedOut | src/Core-0/capability.c:115-1071 | every accepted operation that makes a capability fills the first free slot with the rights asked for, owned by the recipient it names, for the resource named or that of the source; no other entry changes |
| Access.HandedOutPasses | src/Core-0/capability.c:459-598 | a handle for the new capability passes exactly for the subsets of the rights asked for, shared memory being writable exactly when flagged, and exactly the recipient can pass the capability on |
| Access.HandedOutLasts | src/Core-0/capability.c:459-598 | so over every run that keeps the key and does not hand the slot out again, as long as the capability is there |
| Access.DerivedNodeIff | src/Core-0/capability.c:459-521 | what is derived from a CNode capability names the node exactly when the node right was asked for |
| Access.OnlyMadePasses | src/Core-0/capability.c:560-598 | a handle that passes is the one made with the domain's key |
| Access.AccessRefusedWhy | src/Core-0/capability.c:560-598 | which failure of the access check is reported when |
| Access.RekeyIff | src/Core-0/capability.c:84-108 | after a new key, handles made with it pass, and an old one passes exactly when both keys give its capability the same token |
| Access.RekeyOthers | src/Core-0/capability.c:84-108 | and nothing changes for other domains |
| Access.TransferKeeps | src/Core-0/capability.c:368-388 | a transfer changes one owner and nothing else, and every access check answers as before |
| Access.TransferEnds | src/Core-0/capability.c:368-388 | after a transfer to another domain everything the old owner asks for on the capability is refused: deriving, transferring, attenuating, mapping, unmapping |
| Access.TransferMoves | src/Core-0/capability.c:368-388 | and what the new owner asks for succeeds exactly when it would have for the old one |
| Access.DirectIff | src/Core-0/amp.c:632-645 | the check behind the cache holds exactly when the domain's handle passes the access check and the domain is not refused as an owner |
| Access.DirectStepIff | src/Core-0/amp.c:632-645 | how every operation changes what it decides: true of a new capability for its recipient and the rights asked for, moved by a transfer, otherwise as before while the capability is there |
| Access.DirectGone | src/Core-0/amp.c:632-645 | after revocation it is false for every domain and right until the slot is handed out again |
| Access.SetPoliciesIff | src/Core-0/domain.c:1400-1512 | after setting a mask a domain may use just the policies it could before that are in the mask, or those of its level when there is none; other domains are not affected |
| Access.StartPolicies | src/Core-0/domain.c:1400-1436 | a domain just started may use all policies at core level, all but idle at privileged level, and only the shared one as an application |
| Access.PolicyRefused | src/Core-0/capability.c:870-898 | a logical core is refused for its policy exactly when the domain may not use it |
| Access.PolicyOrder | src/Core-0/domain.c:1473-1486 | exclusive, quota, shared, idle: a derived policy is the same or comes later |
| Access.RefusedWhy | src/Core-0/capability.c:368-1071 | which error deriving, attenuating, mapping and transferring report, and exactly when |
| Access.CreateRefusedWhy | src/Core-0/capability.c:115-177 | likewise for creations |
| Access.AllocRefusedWhy | src/Core-0/capability.c:955-1000 | likewise for allocating shared memory, and a refusal leaves everything as it was |
| Access.AllocRecords | src/Core-0/capability.c:1002-1007 | the region allocated is recorded with its run, size, owner and flags |
| Access.RevokeRefusedWhy | src/Core-0/capability.c:334-364 | likewise for revoking |
| Access.UnmapRefusedWhy | src/Core-0/capability.c:1076-1100 | likewise for unmapping, which asks for the handle made for the domain |
| SharedMemory.ReleasedRow | src/Core-0/capability.c:217-246 | what a release leaves of the region: one reference less, or an empty row |
| CapSystem.System.FindZero | src/Core-0/capability.c:122-129 | the search loop over the table from slot 0 on finds the first slot from 1 on holding id 0 |
| CapSystem.System.FindMismatch | src/Core-0/capability.c:483-489 | the other search loop, likewise |
| CapSystem.System.CreateMemory | src/Core-0/capability.c:115-150 | in place: the outcome of creation, state and status |
| CapSystem.System.DeriveCap | src/Core-0/capability.c:459-521 | in place: the outcome of derivation |
| CapSystem.System.AttenuateCap | src/Core-0/capability.c:391-454 | in place: the outcome of an attenuated transfer |
| CapSystem.System.TransferCap | src/Core-0/capability.c:368-388 | in place: the outcome of a transfer |
| CapSystem.System.DeriveCapWithPolicy | src/Core-0/capability.c:529-556 | in place: the outcome of derivation with a policy, rollback included |
| CapSystem.System.UnlinkFromParent | src/Core-0/capability.c:300-315 | the scan and swap in the parent's array removes the child as specified |
| CapSystem.System.ReleaseShmem | src/Core-0/capability.c:217-246 | in place: one reference released, the last one returning the frames |
| CapSystem.System.RetireSlot | src/Core-0/capability.c:296-322 | the tail of one revocation on the arrays: unlinked, children forgotten, reference released, slot cleared |
| CapSystem.System.RevokeChildList | src/Core-0/capability.c:285-294 | the loop over the live array, with its recursive calls, leaves the specified tables and shared memory |
| CapSystem.System.RevokeRecursive | src/Core-0/capability.c:261-322 | the recursive procedure, releases included, refines the recursive definition followed by the releases in order of freeing |
| CapSystem.System.RevokeCap | src/Core-0/capability.c:334-364 | in place: the outcome of revocation |
| CapSystem.System.AllocShared | src/Core-0/capability.c:955-1021 | in place: the outcome of allocating shared memory |
| CapSystem.System.MapShared | src/Core-0/capability.c:1026-1071 | in place: the outcome of mapping it |
| CapSystem.System.UnmapShared | src/Core-0/capability.c:1076-1126 | in place: the outcome of unmapping it |
| CSpace.CptrLookup | src/Core-0/capability.c:1845-1930 | the iterative walk gives the answer of the recursive one, errors included |
| CSpace.CptrResolve | src/Core-0/capability.c:1935-2004 | likewise for the walk to a slot |
| CSpace.IndexInRange | src/Core-0/capability.h:605-609 | the index extracted is always below the slot count, so the bound check never fails |
| CSpace.LookupIff | src/Core-0/capability.c:1845-1930 | lookup finds a capability with certain rights if and only if the low bits of the pointer spell a path of at most 16 indices to it and those are its rights under every mask on the path |
| CSpace.SpelledOnce | src/Core-0/capability.c:1869-1892 | paths are a prefix code: a pointer spells at most one path that leads anywhere |
| CSpace.EncodedIsFound | src/Core-0/capability.c:1845-1930 | round trip: the pointer made for a path finds the end of the path, and fits its 64-bit word when the path does |
| CSpace.LookupWithin | src/Core-0/capability.c:1900-1913 | the rights found are within the target's rights and within the mask of every slot passed |
| CSpace.LookupHasIff | src/Core-0/capability.c:1900-1913 | no less either: rights are granted exactly when the target has them and every mask on the path lets them through |
| CSpace.LookupMissIff | src/Core-0/capability.c:1845-1930 | lookup reports a parameter error exactly when the pointer spells sixteen indices that all lead on, and otherwise an invalid capability |
| CSpace.ResolveIff | src/Core-0/capability.c:1935-2004 | lookup succeeds exactly when resolve does and every guard matches; then both end at one slot, and with matching guards both fail alike |
| CSpace.ResolveFollows | src/Core-0/capability.c:1935-2004 | resolve lands on the slot that ends the path the pointer spells |
| NodeRevoke.NodePool.RevokeSubtree | src/Core-0/capability.c:2185-2224 | in place: the recursive emptying of a CNode |
| NodeRevoke.RevokeNodePurges | src/Core-0/capability.c:2185-2224 | on any graph of nodes slots only empty, capabilities only disappear, and every plain capability whose slot was emptied, in whatever node, is gone |
| NodeRevoke.SubtreeRevoked | src/Core-0/capability.c:2185-2241 | on shared and cyclic graphs too: all slots of the node called on are empty, its plain capabilities are gone, no slot anywhere became valid, a slot that changed names the invalid capability and keeps its mask, and the capability state is that of a run of revocations |
| NodeTree.NodeFrame | src/Core-0/capability.c:2185-2224 | on any graph, a node that is not reached within the depth limit is left exactly as it was |
| NodeTree.SubtreeEmptied | src/Core-0/capability.c:2185-2241 | on a tree in which no nested capability is, or is recorded below, a plain capability held in it, every slot of every node within 17 levels is empty and every other node is as it was |
| NodeTree.LastingEmptied | src/Core-0/capability.c:2185-2241 | the same on every tree whose nested capabilities outlast the call |
| NodeTree.LostAtStake | src/Core-0/capability.c:2185-2224 | on any graph, every capability lost during the call was, or was recorded below, a plain capability held in a node within reach |
| NodeTree.OrderDecides | src/Core-0/capability.c:2202-2223 | a tree in which a nested capability also stands in a plain slot: its node is emptied if and only if the nested slot comes first |
| NodeTree.TwiceReached | src/Core-0/capability.c:2185-2224 | two creations and such slots give a tree whose nested node stays filled |
| NodeRevoke.RevokeNodeIsRun | src/Core-0/capability.c:2185-2224 | what it does to the capability state is a run of revocations, so everything proved of runs holds of it |
| NodeRevoke.PurgeKeepsForest | src/Core-0/capability.c:2185-2241 | the links stay a forest with shrinking rights |
| Bits.CountUnderMask | src/Core-0/atomic.h:258-271 | stepping an index under the mask counts modulo the lowest set bit of the size |
| Bits.LowBitIsAllIff | src/Core-0/atomic.h:250-251 | that is the whole size just when the size is a power of two |
| RingBuffer.StepKeeps | src/Core-0/atomic.h:269-306 | every single load or store of either side keeps the invariant of the protocol |
| RingBuffer.FirstInFirstOut | src/Core-0/atomic.h:269-306 | over every interleaving and for every size: what was popped is a prefix of what was pushed, the capacity is respected, and the slot being written is never the slot being read |
| RingBuffer.RefusedIff | src/Core-0/atomic.h:269-298 | a push is refused exactly when the capacity is pending and a pop exactly when nothing is; the capacity is the size less one just when the size is a power of two |
| RingBuffer.Buffer.Push | src/Core-0/atomic.h:269-285 | an uninterrupted push appends to the queue, or refuses when full |
| RingBuffer.Buffer.Pop | src/Core-0/atomic.h:291-306 | an uninterrupted pop takes the oldest item, or none when empty |
| AuditLog.Log.InitBuffer | src/Core-0/audit.c:39-58 | a large enough buffer starts an empty history, a smaller one changes nothing |
| AuditLog.Log.LogEvent | src/Core-0/audit.c:63-97 | the wrapping buffer holds the current lap of the history extended by the event |
| AuditLog.Log.Append | src/Core-0/audit.c:69-96 | the record goes behind the entries of the lap, or to the start when the bytes left do not hold it |
| AuditLog.LapStep | src/Core-0/audit.c:70-73 | the lap grows by the event, or starts anew when it filled the buffer |
| AuditLog.Numbered | src/Core-0/audit.c:79 | entry numbers are places in the history modulo 2^32, whatever the 64-bit counter did |
| AuditLog.Log.Scan | src/Core-0/audit.c:134-168 | the reverse scan with early exit writes exactly the page of matches asked for and leaves the rest of the output alone |
| AuditLog.Log.Query | src/Core-0/audit.c:117-172 | the answer on the abstract history: reverse the lap, filter, skip the offset, take the smaller of the two limits; the error cases change nothing |
| AuditLog.Log.QueryByDomain | src/Core-0/audit.c:174-198 | likewise for one domain |
| AuditLog.Log.QueryByType | src/Core-0/audit.c:200-224 | likewise for one type |
| AuditLog.Log.QueryLatest | src/Core-0/audit.c:226-243 | likewise for the newest events |
| AuditLog.AnswerHas | src/Core-0/audit.c:134-168 | every match of the lap is in the answer, at the place its number of newer matches gives, unless skipped or crowded out |
| AuditLog.AnswerOnly | src/Core-0/audit.c:134-168 | and nothing else is |
| AuditLog.LatestDescends | src/Core-0/audit.c:226-243 | the latest events come newest first, and while fewer than 2^32 were logged their numbers descend one by one, across any number of wraps |
| AuditLog.SkippedIff | src/Core-0/audit.c:140-155 | an event that fits the filter is passed over exactly when 2^32 divides its place |
| AuditLog.OfIff | src/Core-0/audit.c:174-224 | the queries by domain and by type pass just the events of that domain or type, with the same exception |
| Quota.CheckLevels | src/Core-0/domain.c:706-760 | an amount is refused exactly when there is some and it goes beyond the quota; the other answers are fractions of the quota, while the percentage fits its words |
| Quota.LevelRightIff | src/Core-0/domain.c:742-757 | an amount that is not refused gets the true level if and only if, within the quota, the product fits its 64 bits or less than four fifths are used, and beyond the quota, the product modulo 2^64 and then modulo 2^32 quotas reaches 95 percent; a product beyond 64 bits within the quota always gives fine |
| Quota.FullIsFine | src/Core-0/domain.c:749-757 | every memory quota whose product overflows is called fine when it is used up |
| Quota.OverdrawnIsFine | src/Core-0/domain.c:749-757 | a thread quota of one, overdrawn beyond 2^32 percent, is called fine |
| Quota.MeasuredIn | src/Core-0/domain.c:721-738 | what is compared: the counters as they are, processor time in whole milliseconds against ten for each percent |
| Quota.ConsumeCounts | src/Core-0/domain.c:765-808 | a use goes through exactly when nothing is asked for or the quota allows it, and moves just its own counter, by the amount or by one |
| Quota.GiveBackRestoresIff | src/Core-0/domain.c:765-845 | giving back what was just used restores the account exactly when it is no processor time and the counter did not leave its word |
| Quota.GiveBackTakes | src/Core-0/domain.c:813-845 | release takes from just one counter and stops at zero |
| Quota.DelegateGives | src/Core-0/domain.c:850-885 | a delegation goes through exactly when the parent has as much left; the child gets it and its parent's name, and the parent has as much less to delegate |
| Quota.Domains.CheckQuota | src/Core-0/domain.c:706-760 | in place: the check and the amount available |
| Quota.Domains.ConsumeQuota | src/Core-0/domain.c:765-808 | in place: consumption with its word widths |
| Quota.Domains.ReleaseQuota | src/Core-0/domain.c:813-845 | in place: release, never below zero |
| Quota.Domains.DelegateQuota | src/Core-0/domain.c:850-885 | in place: delegation with unsigned subtraction |
| Quota.ConsumeIff | src/Core-0/domain.c:765-808 | consuming keeps the books exactly when it does not reach into what was delegated |
| Quota.DelegateIff | src/Core-0/domain.c:850-885 | delegating keeps them exactly when the child had no quota yet |
| Quota.BooksStepIff | src/Core-0/domain.c:765-885 | an operation keeps every domain solvent and the sum of kept quotas equal if and only if it is not one of those |
| Quota.QuotaConserved | src/Core-0/domain.c:765-885 | from one root quota, over every run without them: the sum over all domains of quota less delegation stays the root's quota, no domain uses or promises more than it has, and the unsigned subtractions never wrap |
| Quota.UsedTwice | src/Core-0/domain.c:765-868 | delegating all memory and then using all of it succeeds, and leaves nearly the whole word to delegate |
| ExecFlow.StepInv | src/Core-0/exec_flow.c:58-210 | every operation keeps a running thread of the table the current one, and the current one not ended |
| ExecFlow.AtMostOneRunning | src/Core-0/exec_flow.c:58-210 | over every run of flow operations, domain switches, scheduling, thread exit and capability operations at most one thread of the table is running, and it is the current one |
| ExecFlow.IdleApartIff | src/Core-0/scheduler.c:101-131 | an operation keeps a running idle thread the current one if and only if it is not a scheduling that finds a ready thread while the idle one runs |
| ExecFlow.OneRunningIff | src/Core-0/scheduler.c:101-131 | from the start, at every moment of a run of any mix of operations a running thread, the idle one included, is the current one, if and only if the run has no such scheduling |
| ExecFlow.UnscheduledKeepsIdle | src/Core-0/exec_flow.c:58-210 | runs of flow operations, domain switches and capability operations alone have none |
| ExecFlow.IdleLeftRunning | src/Core-0/scheduler.c:59-131 | a run from the start after which the idle thread and the current thread are both running |
| ExecFlow.SwitchEffect | src/Core-0/domain.c:1224-1297 | after a switch between distinct domains nothing in use of the old one is ready or running, nothing of the new one blocked or waiting, all else is unchanged, and a refused switch changes nothing |
| ExecFlow.SwitchToSelf | src/Core-0/domain.c:1254-1275 | switching a domain to itself suspends it with every unfinished thread ready |
| ExecFlow.EndedStaysIff | src/Core-0/exec_flow.c:150-168 | an ended thread stays ended in every step except a block through a capability that names it, or a new thread in its place when a capability slot is free |
| ExecFlow.EndedComesBack | src/Core-0/exec_flow.c:150-190 | a run from the start in which a thread that has ended is ready again |
| FlowEffects.CapsStep | src/Core-0/exec_flow.c:58-108 | what a step does to the capabilities is what one creation or revocation does, or nothing |
| FlowEffects.CapsRun | src/Core-0/exec_flow.c:58-108 | so the capabilities after a run of threads and flows are those after a run of capability operations |
| FlowEffects.DestroyEnds | src/Core-0/exec_flow.c:93-108 | destroying a flow ends its thread, which is not current any more, and takes its capability |
| FlowEffects.DestroyedStaysGone | src/Core-0/exec_flow.c:93-190 | from then on dispatching, blocking, waking and destroying it is refused, over every run that does not hand the slot out again |
| FlowEffects.SpawnNames | src/Core-0/exec_flow.c:58-90 | a flow created names its thread, ready in the domain asked for, and can be dispatched; without room for the capability the thread has ended |
| FlowEffects.DispatchIff | src/Core-0/exec_flow.c:110-149 | dispatch goes through exactly for a thread that has not ended, which is then running and current, the one before it ready; no other changes |
| FlowEffects.BlockThenWake | src/Core-0/exec_flow.c:150-190 | a blocked flow cannot be scheduled; waking it makes it ready again, and only once |
| FlowEffects.WakeIff | src/Core-0/exec_flow.c:170-190 | waking goes through exactly for blocked and waiting threads |
| FlowEffects.YieldReadies | src/Core-0/exec_flow.c:204-210 | a thread that yields is ready, so the scheduler can take it |
| FlowEffects.SwitchDone | src/Core-0/domain.c:1224-1297 | what a switch does to threads and domains, and that no second switch between the two goes through |
| FlowEffects.ScheduleTakes | src/Core-0/scheduler.c:101-131 | the scheduler makes a ready thread current, and the idle one only when there is none; what becomes of the one before, and that nothing else changes |
| FlowEffects.ExitEnds | src/Core-0/thread.c:71-95 | a thread that returns has ended and is not current |
| FlowEffects.DerivedFlowIff | src/Core-0/exec_flow.c:42-56 | what is derived from a flow is a flow of the same thread exactly when the thread right was asked for |
| ExecFlow.PickCloser | src/Core-0/scheduler.c:59-71 | the round-robin scan takes an eligible thread or comes strictly closer to it |
| ExecFlow.BoundedWait | src/Core-0/scheduler.c:59-131 | whatever else happens, a thread that stays ready is passed over at most 255 times |
| ExecFlow.Kernel.DispatchFlow | src/Core-0/exec_flow.c:110-149 | in place: dispatch up to the context switch |
| ExecFlow.Kernel.BlockFlow | src/Core-0/exec_flow.c:150-168 | in place: block |
| ExecFlow.Kernel.WakeFlow | src/Core-0/exec_flow.c:170-190 | in place: wake |
| ExecFlow.Kernel.YieldFlow | src/Core-0/exec_flow.c:204-210 | in place: yield |
| ExecFlow.Kernel.CreateFlow | src/Core-0/exec_flow.c:58-90 | in place: creation with its rollback |
| ExecFlow.Kernel.DestroyFlow | src/Core-0/exec_flow.c:93-108 | in place: destruction with revocation |
| ExecFlow.Kernel.TerminateThread | src/Core-0/thread.c:173-210 | in place: termination, current thread cleared |
| ExecFlow.Kernel.SwitchDomains | src/Core-0/domain.c:1224-1297 | in place: the switch over the whole thread table |
| ExecFlow.Kernel.PickNext | src/Core-0/scheduler.c:59-71 | in place: the round-robin scan |
| ExecFlow.Kernel.ScheduleNext | src/Core-0/scheduler.c:101-131 | in place: scheduling up to the context switch |
| ExecFlow.Kernel.ExitThread | src/Core-0/thread.c:71-95 | in place: a thread that returns from its entry ends and the next one is scheduled |
| AmpCache.Processor.Find | src/Core-0/amp.c:601-626 | in place: the lookup, dropping expired entries on its way |
| AmpCache.Processor.Add | src/Core-0/amp.c:649-661 | in place: the new entry goes to the first unused cell, if any |
| AmpCache.Processor.Verify | src/Core-0/amp.c:537-664 | the answer is the cached one, or the direct check, which is then cached; counters follow |
| AmpCache.Processor.SweepExpired | src/Core-0/amp.c:835-848 | in place: the sweep of expired entries |
| AmpCache.ScanFinds | src/Core-0/amp.c:601-626 | an answer comes from a cell in use, for the question, in time; without an answer no such cell remains in use |
| AmpCache.ScanIff | src/Core-0/amp.c:601-626 | the lookup answers exactly when some cell in use holds the question and is in time, and touches only cells for the question that are not |
| AmpCache.SweepIff | src/Core-0/amp.c:835-848 | the sweep takes just the cells past their time out of use, and no lookup at that time loses its answer |
| AmpCache.NextKeeps | src/Core-0/amp.c:601-848 | every step, with table changes and clock ticks in between, keeps each cell true at the time of its stamp, as long as stamps are timely |
| AmpCache.FinishIff | src/Core-0/amp.c:629-661 | a stamp keeps the cells so exactly when its answer is true at some moment of the stamping time, or there is no cell for it |
| AmpCache.CachedAnswer | src/Core-0/amp.c:601-663 | over every run with timely stamps an answer from the cache is the one the direct check gives at some moment of the run less than the time to live earlier |
| AmpCache.UnchangedIsTimely | src/Core-0/amp.c:629-661 | a stamp is timely, however late, when the table still gives the answer of the check |
| AmpCache.StampIff | src/Core-0/amp.c:601-663 | a stamp leaves every later answer fresh in that sense if and only if it is timely |
| AmpCache.StaleAnswer | src/Core-0/amp.c:601-663 | a run in which the cached answer is true at no moment of the time to live before it is given |
| StackCheck.BlockNet | scripts/stackcheck.py:367-386 | the loop over a block gives its net effect, or nothing when an unannotated dynamic adjustment occurs in it |
| StackNet.NetCounts | scripts/stackcheck.py:51-100 | the net effect of any block, by counting: a word up for each pop, ret and leave, a word down for each push and call, the frames of the interrupt and system returns, the operands, and the annotated adjustments, an annotated sub down and an annotated add up; unknown exactly when some adjustment is |
| StackNet.MatchedPair | scripts/stackcheck.py:51-64 | a push and pop, a call and ret, or an annotated sub and add around anything level can be put anywhere into a block without changing its net effect |
| StackNet.EveryReturnCounted | scripts/stackcheck.py:377-394 | for every kind of return, a block is reported exactly when what comes before does not leave the stack its frame below level |
| StackCheck.Analyze | scripts/stackcheck.py:349-400 | where the loop ends, its state is that of the turn-by-turn search |
| StackCheck.WhenEnded | scripts/stackcheck.py:349-400 | when the search ends without such an adjustment it has visited exactly the reachable pairs, reports an error if and only if some path reaches a return with the stack not level, and every report is such a path with its offset |
| StackCheck.EndsIff | scripts/stackcheck.py:349-400 | the loop ends if and only if some path meets such an adjustment or no path comes back to a block with another offset; it gives up, with no report, if and only if the former |
| StackCheck.NoDriftFinite | scripts/stackcheck.py:349-400 | without drifting cycles finitely many pairs are reachable, by paths no longer than the program |
| StackCheck.FiniteNoDrift | scripts/stackcheck.py:349-400 | with finitely many reachable pairs no cycle drifts |
| StackCheck.PushesForever | scripts/stackcheck.py:349-400 | a block that pushes and goes back to itself keeps the loop going for ever |
| StackCheck.TurnKeeps | scripts/stackcheck.py:355-398 | one turn of the loop keeps queued paths genuine, the frontier complete and the reports exact |
| StackCheck.ReachedIsVisited | scripts/stackcheck.py:355-398 | the queue is fair: whatever a path reaches is visited, also when the search goes on for ever |
| StackCheck.ReturnIsCounted | scripts/stackcheck.py:377-394 | a return is reported exactly when the instructions before it do not leave the stack one word and its operand below level |
| StackCheck.LevelFunctionReported | scripts/stackcheck.py:377-394 | a function consisting of a return with operand 0 is reported |

## Left out

- Union aliasing in a capability entry: memory, logical core, thread and CNode are separate variants, so a capability whose rights carry a type bit of another variant is read as not of that type.
- CapSystem.System.DeriveCapWithPolicy: not on a parent that is not a logical core, nor for policy values outside the four: the code then reads and writes the union through another variant.
- Forest.DeriveWithPolicyForestIff: not on such a parent, for the same reason.
- NodeTree.SubtreeEmptied: one way only where a nested CNode's capability is at stake; whether its node is emptied then depends on the order of the slots, as `NodeTree.OrderDecides` shows.
- History.OnlyDerivedFreedIff: outside forests not for lists longer than one, where the place of a wrong name decides, as `History.PlaceDecides` shows.
- History.FreedDerivesAfterRun: one way only, for the same reason.
- Subtree.WholeSubtreeFreedIff: about the recorded links; what derives by history is `History.DerivedGoneIff`.
- Forest.RevokeAfterRun: likewise; by history it is `History.DerivedGoneAfterRun`.
- SharedMemory.CarefulRun: not derivations, nor capabilities on other resources, though some are harmless; the exact condition is `SharedMemory.CountedStepIff`.
- The creating calls other than `cap_create_memory` on arrays: they differ in the resource they store and in the status when the table is full, which `Operations.Step` has.
- NULL out-pointers and NULL filters: every out-parameter is a result.
- `cap_grant` inside the transferring calls: the handle they return is `Capability.MakeHandle` of the slot they hand out.
- The rollback of `shmem_alloc` after a failed grant (src/Core-0/capability.c:1009-1017): the grant of a slot just created cannot fail.
- The child count increment of `cnode_insert` (src/Core-0/capability.c:1690): it names no child and the code calls it a simplification.
- `cnode_insert`, `cnode_remove`, `cnode_move`, `cnode_copy`, `cnode_destroy` and the CNode pool: the theorems hold for arbitrary node contents.
- The CPtr cache (src/Core-0/capability.c:2248-2324): it is filled under the shifted pointer, so lookups are modelled past it.
- Quality of the token hash: the proofs use only that its top bit is set.
- The physical memory manager, beyond lending runs that are not lent out already and taking them back.
- Thread stacks, logical-core binding and context switches: `thread_create` is the block it finds, and dispatch ends at the switch.
- Two producers or two consumers on one ring, and memory-order effects weaker than the fences of its loads and stores.
- Two callers of the capability check at the same time: one call is open at a time, beside the sweep and any change of the table. The reads of one check are taken at one moment.
- Allocation-rate tracking in `domain_quota_consume` and its CPU figures beyond the counters.
- Parsing of assembly text in `stackcheck.py`: blocks, operands and annotations are given.
- Service instances, connection migration, parallel partners, graceful shutdown, resource reclaim: their invariants are weak or about timing.
- AMP start-up, task queues and interrupts, HAL, boot, ACPI, modules, images, scripts with user interfaces: hardware, I/O and thin wrappers.
