# Verified model of the vendored V8 and Node headers and of the staging script

The repository vendors V8 and Node headers whose inline functions have bodies, and ships a script that stages the
ONOS distribution. This project models that code and proves properties of it in Dafny 4.11.

* `NodeImage`, `GlobalHandles` (with `Internals`): the bytes of a global-handle node, a store of such nodes in one
  byte array, and the record each node stands for.
* `CellStore`: what the storage-cell entry points and the handle operations do, as functions.
* `PersistentHandle`, `TracedHandle`: the handle classes, updating `val_` and node bytes in place.
* `HandleRuns`: runs of any handle operations with the collector as an adversary: ownership, conservation of cells,
  phantom handles, what each operation promises.
* `HandlesInPlace`: the same runs on bytes and handle objects, which the runs of worlds are proved to describe.
* `HandleEffects`: what each step of those runs does to the whole world, and which calls are possible.
* `LocalHandle`: the output of `MaybeLocal::ToLocal`.
* `HandleEquality`: the equality operators, under relocation and over runs.
* `ObjectWrap`, `ObjectWrapRuns`, `ObjectWrapEffects`: wraps in place, runs of many wraps inside a world of other
  handles, and what each action does.
* `Tagging`, `ExternalPointerTags`, `Words`, `DivMod`: small integers, cage compression, pointer tags, little-endian words.
* `HeapImage`: the fast type tests, internal fields, embedder data and external strings on a memory image.
* `IsolateImage`: embedder slots, counter and roots on the bytes of an isolate.
* `FunctionCallback`: return values of callbacks.
* `OnosStage`: the staging loops against a left-biased merge.
* `NodeVersion`: packed version numbers.

`dafny verify dfyconfig.toml` checks all of it.

Properties one might expect that are false of the code, each with the lemma that shows it at an input and the one that
states the exact condition:

* a copyable `Persistent` keeps its object when assigned to itself: it is emptied (`SelfAssignmentLosesTheObject`, `SelfAssignment`);
* the collector resets a phantom handle and no other: one forgotten by `Empty()` or by a non-resetting destructor leaves it
  nulling a handle that moved on (`StrayPhantomNullsAnotherHandle`, `PhantomsExactly`), or a wrap that still has references
  (`StrayPhantomNullsAWrap`, `NullingExactly`);
* `SetData` writes one of four slots: with a number out of range it writes other words of the isolate, and numbers wrap
  (`SlotSevenIsTheCounter`, `SetDataExact`);
* the order of staging inputs does not matter: it does when two of them give one name different contents, or when one
  raises (`SwapChangesTheMap`, `RaisingInputHidesLaterOnes`, `OrderIrrelevantExactly`);
* `Unwrap` undoes `Wrap`: of an object wrapped twice it returns the second wrap (`ObjectWrappedTwice`, `UnwrapFindsWrap`),
  and of one whose wrap was destroyed a dangling pointer (`DestroyedWrapDangles`, `UnwrapDanglesExactly`);
* `MaybeLocal::ToLocal` leaves its output alone when it is empty: it clears it (`ToLocal`).

## Model

| member | source | states |
|---|---|---|
| `HandleRuns.RunIsSafe` | node-js/include/node/v8-persistent-handle.h:455-586 | Over every run of constructions, resets, copies, moves, destructions and collector steps, with addresses reused by the allocator: no entry point is handed a disposed cell (so none is disposed twice), no two handles name one cell, the live cells are exactly those held plus those abandoned, and they number created minus disposed |
| `HandleRuns.StepSafe` | node-js/include/node/v8-persistent-handle.h:273-586 | Every single operation and collector step keeps that invariant, from any state that has it |
| `HandleRuns.LeaksExactly` | node-js/include/node/v8-persistent-handle.h:329-406 | A step abandons a cell of a `Global` or copyable `Persistent`, the two kinds by name, exactly when it empties such a handle by hand, or has the collector null such a handle away from a cell it came to hold since |
| `HandleRuns.ResettersLeaveNothing` | node-js/include/node/v8-persistent-handle.h:329-406 | Over runs of any handles without such a step, once no `Global` or copyable `Persistent` is left every live cell is held or was abandoned by a handle whose destructor does not reset |
| `HandleRuns.AllReleased` | node-js/include/node/v8-persistent-handle.h:254-406 | If besides only `Global` and copyable `Persistent` handles are made, destroying the last one leaves no live cell, and as many disposals as creations |
| `HandleRuns.NothingAbandonedExactly` | node-js/include/node/v8-persistent-handle.h:254-406 | Among such handles a step abandons nothing exactly when it does not leak |
| `HandleRuns.PhantomsExactly` | node-js/include/node/v8-persistent-handle.h:169-175 | A phantom handle stays the one the collector nulls through every step except, exactly, `Empty()` and a non-resetting destructor applied to a handle that holds a phantom cell |
| `HandleRuns.PhantomsStayHome` | node-js/include/node/v8-persistent-handle.h:169-175 | Over runs that forget no phantom cell the collector nulls only handles that hold the dying cell |
| `HandleRuns.AbandonedExactly` | node-js/include/node/v8-persistent-handle.h:117 | In every state a run can reach: a cell becomes abandoned exactly when `Empty()` or a non-resetting destructor forgets it or the collector nulls its handle for another, dying cell; the kind of that handle is recorded; and it leaves the ledger exactly when the collector frees it |
| `HandleRuns.StrayPhantomNullsAnotherHandle` | node-js/include/node/v8-persistent-handle.h:169-175 | At an input: a phantom handle emptied by hand and given another object is nulled when the first dies, and the second cell is live and held by none |
| `HandleEffects.CopyMakesTwin` | node-js/include/node/v8-persistent-handle.h:284-463 | A copy from another handle leaves that one and its object alone, disposes what the target held, and gives it a new cell with the same object, class id 0, no flags, neither weak nor pending, or nothing if the source is empty; every other cell is as before |
| `HandleEffects.MoveHandsOver` | node-js/include/node/v8-persistent-handle.h:561-586 | A move hands over the very cell with its class id, flags and weakness, redirects a phantom cell to the new handle, empties the source and disposes what the target held; every other cell is as before |
| `HandleEffects.LocalFillsHandle` | node-js/include/node/v8-persistent-handle.h:446-492 | A handle made from or reset to a local has a new such cell with its object, or nothing if the local is empty; its previous cell is gone and counted, and every other cell is as before |
| `HandleEffects.ResettingDestructors` | node-js/include/node/v8-persistent-handle.h:329-406 | Destroying a `Global` or a copyable `Persistent` disposes its cell: it is gone and counted once, nothing is abandoned, no other cell is touched |
| `HandleEffects.LeavingDestructors` | node-js/include/node/v8-persistent-handle.h:235-331 | Destroying a non-copyable `Persistent` or a traced reference leaves its cell live, held by none, and in the ledger with its kind |
| `HandleEffects.ResetEmpties` | node-js/include/node/v8-persistent-handle.h:474-479 | `Reset` empties the handle and disposes exactly its cell; nothing for an empty handle |
| `HandleEffects.EmptyHandles` | node-js/include/node/v8-persistent-handle.h:117 | A handle made empty has no cell; `Empty()` leaves the cell live and to none |
| `HandleEffects.SetWeakMarks` | node-js/include/node/v8-persistent-handle.h:508-523 | After `SetWeak` the state is 2, this callback and parameter are registered, and nothing else of the record or of any other changed |
| `HandleEffects.SetPhantomMarks` | node-js/include/node/v8-persistent-handle.h:525-528 | The same with the address of this handle registered |
| `HandleEffects.ClearWeakMarks` | node-js/include/node/v8-persistent-handle.h:530-535 | After `ClearWeak` the state is neither 2 nor 3, nothing is registered, and nothing else changed |
| `HandleEffects.ClassIdMarks` | node-js/include/node/v8-persistent-handle.h:543-550 | After `SetWrapperClassId` the record has this class id, and the rest of it, its weakness and every other cell are as before; nothing for an empty handle |
| `HandleEffects.FlagMarks` | node-js/include/node/v8-internal.h:489-494 | After a flag update the flag is set exactly if told so, and every other flag, the rest of the record and every other cell are as before |
| `HandleEffects.RelocationMarks` | node-js/include/node/v8-persistent-handle.h:77-89 | After objects moved, every record names the new address of its object and nothing else changed |
| `HandleEffects.PhantomDies` | node-js/include/node/v8-persistent-handle.h:169-175 | A dying phantom cell is freed and the handle at the registered address, whichever it is, is nulled |
| `HandleEffects.SelfAssignment` | node-js/include/node/v8-persistent-handle.h:455-588 | A handle assigned to itself, or reset from itself, is left as it was exactly if the operation compares addresses first, as those of `Global` and `TracedReference` do, or the handle is empty; otherwise the operation is a `Reset` |
| `HandleRuns.SelfAssignmentLosesTheObject` | node-js/include/node/v8-persistent-handle.h:455-464 | At an input: the one cell of a copyable `Persistent` is disposed by assigning it to itself |
| `HandleRuns.Untouched` | node-js/include/node/v8-persistent-handle.h:77-89 | No operation on other handles and no collector step changes a handle, its object (up to relocation), its class id, flags or weakness |
| `HandlesInPlace.Program.PerformAll` | node-js/include/node/v8-persistent-handle.h:273-586 | From the empty program, any run of calls that compile and find room, performed with the methods of the handle classes on bytes and handle objects, ends in the bytes and objects that stand for the end of the same run of worlds |
| `HandlesInPlace.Program.Perform` | node-js/include/node/v8-persistent-handle.h:273-586 | In any state a run can reach, every operation and collector step meets every requirement of the methods in place, and does to bytes and handle objects what it does to the world |
| `HandlesInPlace.AllNamedApart` | node-js/include/node/v8-persistent-handle.h:474-569 | What the entry points demand of their callers: in such a state every handle is empty or names a live cell, and no two name the same |
| `PersistentHandle.PersistentBase.FromLocal` | node-js/include/node/v8-persistent-handle.h:283-291 | In place: the node bytes and `val_` become what `CellStore.New` says of a local |
| `PersistentHandle.PersistentBase.FromPersistent` | node-js/include/node/v8-persistent-handle.h:393-399 | In place: a clone of the source cell, or nothing |
| `PersistentHandle.PersistentBase.Move` | node-js/include/node/v8-persistent-handle.h:561-569 | In place: `val_` of the other handle is taken and nulled, its cell transferred |
| `PersistentHandle.PersistentBase.Reset` | node-js/include/node/v8-persistent-handle.h:474-479 | In place: the cell is disposed if there is one, and `val_` is null |
| `PersistentHandle.PersistentBase.ResetToLocal` | node-js/include/node/v8-persistent-handle.h:485-492 | In place: the old cell goes before the new one is made, so its address may be reused |
| `PersistentHandle.PersistentBase.Copy` | node-js/include/node/v8-persistent-handle.h:455-464 | In place, the source being possibly the same handle: reset first, then look at the source |
| `PersistentHandle.PersistentBase.MoveAssign` | node-js/include/node/v8-persistent-handle.h:571-586 | In place: nothing on itself, otherwise reset, take over, transfer, null the source |
| `PersistentHandle.PersistentBase.Destroy` | node-js/include/node/v8-persistent-handle.h:329-331 | In place: that of a `Global` or copyable `Persistent` resets, any other leaves `val_` and the store alone |
| `PersistentHandle.PersistentBase.SetWeak` | node-js/include/node/v8-persistent-handle.h:508-523 | In place: the state bits of the node become weak and the callback is registered |
| `PersistentHandle.PersistentBase.SetPhantom` | node-js/include/node/v8-persistent-handle.h:525-528 | In place: the state bits become weak and the address of `val_` is registered |
| `PersistentHandle.PersistentBase.ClearWeak` | node-js/include/node/v8-persistent-handle.h:530-535 | In place: the state bits and the registration are cleared |
| `PersistentHandle.PersistentBase.IsWeak` | node-js/include/node/v8-persistent-handle.h:466-472 | Reads the state of the record packed in the node bytes; false for an empty handle |
| `PersistentHandle.PersistentBase.SetWrapperClassId` | node-js/include/node/v8-persistent-handle.h:543-550 | Writes two node bytes and thereby the class id of this record only; nothing for an empty handle |
| `PersistentHandle.PersistentBase.WrapperClassId` | node-js/include/node/v8-persistent-handle.h:552-559 | Reads the class id of the record, 0 for an empty handle |
| `PersistentHandle.PersistentBase.Equals` | node-js/include/node/v8-persistent-handle.h:123-130 | Compares the objects of the records |
| `TracedHandle.TracedReference.Reset` | node-js/include/node/v8-traced-handle.h:301-305 | In place: dispose and null |
| `TracedHandle.TracedReference.ResetToLocal` | node-js/include/node/v8-traced-handle.h:349-358 | In place: reset, then a cell for the object of a non-empty local |
| `TracedHandle.TracedReference.CopyAssign` | node-js/include/node/v8-traced-handle.h:389-400 | In place: nothing on itself, otherwise reset and clone |
| `TracedHandle.TracedReference.MoveAssign` | node-js/include/node/v8-traced-handle.h:378-387 | In place: nothing on itself, otherwise the cell of the source changes hands |
| `TracedHandle.TracedReference.SetWrapperClassId` | node-js/include/node/v8-traced-handle.h:402-408 | As for persistent handles |
| `TracedHandle.TracedReference.WrapperClassId` | node-js/include/node/v8-traced-handle.h:410-416 | As for persistent handles |
| `GlobalHandles.GlobalHandles.GlobalizeReference` | node-js/include/node/v8-persistent-handle.h:446-453 | Writing a fresh node over free bytes adds one record and disturbs no other |
| `GlobalHandles.GlobalHandles.CopyGlobalReference` | node-js/include/node/v8-persistent-handle.h:461-462 | The new node holds the object of the old one and none of its flags |
| `GlobalHandles.GlobalHandles.DisposeGlobal` | node-js/include/node/v8-persistent-handle.h:477 | One record is gone and counted as disposed |
| `GlobalHandles.GlobalHandles.MoveGlobalReference` | node-js/include/node/v8-persistent-handle.h:564-566 | Only the registered location of a phantom cell changes |
| `GlobalHandles.GlobalHandles.UpdateFlag` | node-js/include/node/v8-internal.h:489-494 | One record among all has this flag set or cleared |
| `NodeImage.RunRefines` | node-js/include/node/v8-internal.h:484-504 | Any interleaving of class-id writes, flag updates with shift 3 to 7 and state updates up to 7, on any set of non-overlapping nodes, refines independent updates of records |
| `NodeImage.WriteRefines` | node-js/include/node/v8-internal.h:405-409 | One such write changes one field of one record, for any pointer size |
| `NodeImage.NodeLayout` | node-js/include/node/v8-internal.h:405-407 | A node is a pointer and four bytes: the class id, lowest byte first, a byte of no concern, and the three state bits under the flags |
| `NodeImage.StateWriteExact` | node-js/include/node/v8-internal.h:501-504 | A state update is independent of the flags of every byte exactly when its unmasked argument is at most 7 |
| `NodeImage.FlagWriteExact` | node-js/include/node/v8-internal.h:489-494 | A flag update sets or clears its flag in every byte, and keeps the state and the other flags, exactly for shifts 3 to 7 |
| `Internals.UpdateNodeFlag` | node-js/include/node/v8-internal.h:489-494 | In place: one byte; for shifts 3 to 7 the record has this flag set or cleared and nothing else changed |
| `Internals.UpdateNodeState` | node-js/include/node/v8-internal.h:501-504 | In place: one byte; for values up to 7 the record has this state and nothing else changed |
| `Internals.GetNodeState` | node-js/include/node/v8-internal.h:496-499 | Reads the state of the record |
| `Internals.GetNodeFlag` | node-js/include/node/v8-internal.h:484-487 | Non-zero exactly when the record has the flag |
| `HandleEquality.EqualityIsAgreement` | node-js/include/node/v8-local-handle.h:192-208 | Equality across local, persistent and traced handles is agreement on the object denoted, hence reflexive, symmetric and transitive wherever an operator exists |
| `HandleEquality.EqualVarsIsTheOperator` | node-js/include/node/v8-persistent-handle.h:123-139 | In a world the operator answers whether both handles are empty or both cells hold the same object |
| `HandleEquality.RelocationKeepsEqualityExactly` | node-js/include/node/v8-traced-handle.h:307-330 | A collector step that moves objects and updates all locations keeps every answer exactly when it moves no two objects onto one another |
| `HandleEquality.StepKeepsEquality` | node-js/include/node/v8-persistent-handle.h:123-139 | No step that leaves two handles alone changes whether they are equal |
| `HandleEquality.RunKeepsEquality` | node-js/include/node/v8-persistent-handle.h:77-89 | Nor does any run of such steps |
| `ObjectWrapRuns.WeakExactlyWhenUnreferenced` | node-js/include/node/node_object_wrap.h:88-113 | In every reachable state of any number of wraps among any other handles, phantom handles that were forgotten included, and with the handles of wraps used from outside as their count permits, a wrapped cell is weak (or already picked by the collector) exactly when `refs_` is 0, and `refs_` is Refs minus Unrefs |
| `ObjectWrapRuns.UnrefFindsStrongHandle` | node-js/include/node/node_object_wrap.h:107-113 | The assert in `Unref` that the handle is not weak holds whenever its other two do |
| `ObjectWrapRuns.CallbackIsSound` | node-js/include/node/node_object_wrap.h:118-124 | Whenever the collector fires `WeakCallback`, its parameter is a live wrap that holds this cell and counts 0; afterwards the wrap is gone, this cell is freed, no other is touched, and exactly one disposal happened |
| `ObjectWrapRuns.UnwrapFindsWrap` | node-js/include/node/node_object_wrap.h:46-81 | After any run `Unwrap` of the present address of the object of a wrap returns the wrap exactly if no other wrap took the object over; handles pointed elsewhere from outside excepted |
| `ObjectWrapRuns.RewrapMissesTheFirst` | node-js/include/node/node_object_wrap.h:75-81 | Wrapping an object a second time makes `Unwrap` return the second wrap, and the first is superseded |
| `ObjectWrapRuns.ObjectWrappedTwice` | node-js/include/node/node_object_wrap.h:75-81 | At an input: after two wraps are made and both wrap one object, its field leads to the second while the first still holds it |
| `ObjectWrapRuns.DestroyedWrapDangles` | node-js/include/node/node_object_wrap.h:38-43 | At an input: after a wrap is made, wraps an object and is deleted, no wrap is left and the field of the object still holds its address |
| `ObjectWrapRuns.UnwrapDanglesExactly` | node-js/include/node/node_object_wrap.h:38-55 | After any run `Unwrap` of any object returns the wrap that last took it exactly while that wrap has not been destroyed; from then on the pointer dangles or leads to a younger wrap at the same address |
| `ObjectWrapRuns.PointerDiesExactly` | node-js/include/node/node_object_wrap.h:38-43 | A pointer to a live wrap stops being one exactly by deleting that wrap or firing its callback |
| `ObjectWrapRuns.SupersededOnlyByRewrap` | node-js/include/node/node_object_wrap.h:75-81 | A wrap is superseded exactly from another `Wrap` of its present object until it wraps again |
| `ObjectWrapRuns.ActInv` | node-js/include/node/node_object_wrap.h:33-124 | Every action of a wrap and every operation on another handle, whatever it forgets, keeps the coupling of count, weakness, callback and internal field; so does every collector step that nulls no wrap that holds an object |
| `ObjectWrapRuns.UseCouples` | node-js/include/node/node_object_wrap.h:69-71 | Any operation on the handle of a wrap through `persistent()` keeps count and weakness coupled exactly when the count permits it: emptying and weakening for this wrap at 0, clearing weakness and giving a new cell above, class ids and flags always |
| `ObjectWrapRuns.UseExactly` | node-js/include/node/node_object_wrap.h:69-71 | It keeps the whole invariant exactly when, besides, it does not empty a weak handle by hand |
| `ObjectWrapRuns.ProtectedMakeWeakExactly` | node-js/include/node/node_object_wrap.h:84-86 | Called by a derived class, `MakeWeak` keeps the coupling exactly while the count is 0 |
| `ObjectWrapRuns.NullingExactly` | node-js/include/node/v8-persistent-handle.h:169-175 | When the collector nulls the handle of a wrap, it is for a cell another handle at this address forgot; the wrap stays coupled exactly if its count is 0, and the whole invariant holds exactly if the handle was empty |
| `ObjectWrapRuns.PhantomsAtHomeSpareWraps` | node-js/include/node/v8-persistent-handle.h:169-175 | While every phantom cell is held where it is registered, the collector nulls the handle of no wrap |
| `ObjectWrapRuns.StraylessRunsSpareWraps` | node-js/include/node/v8-persistent-handle.h:169-175 | Over runs of wraps and other handles that forget no phantom cell, the collector never nulls the handle of a wrap |
| `ObjectWrapRuns.StrayPhantomNullsAWrap` | node-js/include/node/v8-persistent-handle.h:169-175 | At an input: a phantom handle destroyed where a wrap is made later leaves the wrap with one reference and an empty handle when its object dies |
| `ObjectWrapRuns.ReachableNext` | node-js/include/node/node_object_wrap.h:33-124 | A reachable state stays reachable under an allowed action |
| `ObjectWrapRuns.WrapIsTheMethod` | node-js/include/node/node_object_wrap.h:75-81 | The action has the store effect the method in place is proved to have |
| `ObjectWrapRuns.DeleteIsTheMethod` | node-js/include/node/node_object_wrap.h:38-43 | The same for the destructor |
| `ObjectWrapEffects.WrapTakesObject` | node-js/include/node/node_object_wrap.h:75-81 | `Wrap` points the field at the wrap and gives its handle a new cell with the object, state 2 and this wrap registered for the private callback; the count, the other fields and every other cell are as before |
| `ObjectWrapEffects.RefStrengthens` | node-js/include/node/node_object_wrap.h:92-96 | `Ref` adds one to the count and makes the cell strong, changing nothing else of it or of any other |
| `ObjectWrapEffects.UnrefWeakens` | node-js/include/node/node_object_wrap.h:107-113 | `Unref` takes one from the count; at 0 it makes the cell weak for this wrap, above it touches nothing |
| `ObjectWrapEffects.UnrefUndoesRef` | node-js/include/node/node_object_wrap.h:92-113 | `Unref` may follow every `Ref`, and then the count, all that is registered for any cell, and the object are as before both |
| `ObjectWrapEffects.DeleteReleases` | node-js/include/node/node_object_wrap.h:38-43 | Destroying a wrap disposes the cell of its handle, once: it is gone and not left to the ledger, and no other cell or field is touched; with an empty handle nothing is disposed |
| `ObjectWrapEffects.FieldsMove` | node-js/include/node/node_object_wrap.h:46-55 | When objects move, the fields of those that live on move along, and none is added |
| `ObjectWrapEffects.RepointedExactly` | node-js/include/node/node_object_wrap.h:69-71 | A handle counts as pointed elsewhere exactly from a reset of it from outside until the wrap wraps again |
| `ObjectWrap.ObjectWrap.Wrap` | node-js/include/node/node_object_wrap.h:75-81 | In place: field 0 leads to this wrap, a new cell holds the object and is weak with this wrap as parameter |
| `ObjectWrap.ObjectWrap.Ref` | node-js/include/node/node_object_wrap.h:92-96 | In place: weakness cleared, count one more |
| `ObjectWrap.ObjectWrap.Unref` | node-js/include/node/node_object_wrap.h:107-113 | In place: count one less, and weak for this wrap when it reaches 0, otherwise nothing |
| `ObjectWrap.ObjectWrap.Destroy` | node-js/include/node/node_object_wrap.h:38-43 | In place: the cell of a non-empty handle is gone and counted as disposed, no other is touched; nothing for an empty handle |
| `ObjectWrap.ObjectWrap.WeakCallback` | node-js/include/node/node_object_wrap.h:118-124 | In place: one disposal, the destructor adding none |
| `Tagging.SmiRoundTrip` | node-js/include/node/v8-internal.h:74-116 | In every configuration, encoding and decoding an `int` gives it back exactly when `IsValidSmi` holds |
| `Tagging.ValidSmiIsRange` | node-js/include/node/v8-internal.h:87-115 | The wrapping unsigned comparison is the signed range test for every `intptr_t`; the cast comparison is the 32-bit range test |
| `Tagging.SmiWords` | node-js/include/node/v8-internal.h:151-154 | The encoded word is the integer shifted by 32 bits without compression and 31-bit Smis, otherwise by one, modulo the word |
| `Tagging.SmiIsNoHeapObject` | node-js/include/node/v8-internal.h:450-452 | No encoded integer, valid or not, has the heap object tag |
| `Tagging.CompressionRoundTrip` | node-js/include/node/v8-internal.h:610-620 | Keeping the low 32 bits of an address and decompressing against a holder gives it back exactly when both lie in one cage |
| `Tagging.SmiSurvivesDecompression` | node-js/include/node/v8-internal.h:82-86 | An encoded int to which the cage base was added decodes to itself exactly if it is a valid Smi, and never has the heap object tag |
| `Tagging.Decompress` | node-js/include/node/v8-internal.h:615-620 | The sum stays in the holder's cage and never leaves the word |
| `ExternalPointerTags.TypeCheck` | node-js/include/node/v8-internal.h:281-310 | A 48-bit address stored under a tag comes back under the same tag, marked or not, and is inaccessible under any other; only null-tagged entries come back under every tag |
| `ExternalPointerTags.MismatchExact` | node-js/include/node/v8-internal.h:281-294 | For any two words used as tags, a mismatch is caught for every address exactly when some type bit of the first is missing from the second |
| `ExternalPointerTags.TagsAreAnAntichain` | node-js/include/node/v8-internal.h:300-310 | No non-null tag has its type bits inside those of another |
| `HeapImage.QuickTestsDecide` | node-js/include/node/v8-value.h:464-522 | In every configuration the fast tests decide exactly the type and kind of an object given by the bytes it and its map occupy: undefined is type 0x83 of kind 5, null of kind 3, a string any type below 0x80 |
| `HeapImage.ReadsFindObject` | node-js/include/node/v8-internal.h:466-477 | Of an object given by the bytes it and its map occupy, type and kind are found through compression and map packing |
| `HeapImage.ReadExactly` | node-js/include/node/v8-internal.h:535-551 | A raw read finds a word exactly if memory holds its bytes, lowest first, from the address without the heap object tag on |
| `HeapImage.QuickTestsAgree` | node-js/include/node/v8-value.h:500-507 | In any memory whatever: null-or-undefined is the disjunction, null and undefined exclude each other, string excludes both |
| `HeapImage.QuickTestsRejectSmis` | node-js/include/node/v8-value.h:464-522 | All of them are false on every Smi |
| `HeapImage.PackingRoundTrip` | node-js/include/node/v8-internal.h:336-342 | Packing a map word is undone by unpacking, keeps its cage, and makes its low bits 0b10 |
| `HeapImage.SlotRoundTrip` | node-js/include/node/v8-object.h:712-731 | A full slot read and then decompressed is the value stored in its tagged part exactly when that is storable in the holder, whatever the rest of the slot holds |
| `HeapImage.InternalFieldRoundTrip` | node-js/include/node/v8-object.h:712-731 | An internal field reads back the stored value exactly if the object may hold it: an address, and in the cage of the object if compressed |
| `HeapImage.EmbedderDataRoundTrip` | node-js/include/node/v8-context.h:345-364 | Embedder data reads back through two tagged reads exactly if the array may hold the value |
| `HeapImage.SmiInSlot` | node-js/include/node/v8-context.h:357-358 | An encoded int in such a slot decodes to itself exactly if it is a valid Smi |
| `HeapImage.ExternalStringPathsAgree` | node-js/include/node/v8-primitive.h:781-824 | The two-byte fast path is taken exactly when the base fast path is and reports two bytes; both read the same word; one-byte external strings never take the first |
| `HeapImage.ExternalStringRead` | node-js/include/node/v8-primitive.h:781-824 | Of a string given by its bytes both fast paths return the pointer-sized resource word exactly for the external representations they test, with the encoding of the type |
| `IsolateImage.RunRefines` | node-js/include/node/v8-internal.h:506-526 | Any run of in-range `SetData` and counter increments on the bytes refines a record of four slots and a wrapping counter, and changes no root and nothing else |
| `IsolateImage.SetDataExact` | node-js/include/node/v8-internal.h:506-512 | With the 32-bit product wrapping, a slot number leaves everything but the embedder slots alone exactly when it is below 4 modulo 2^32 over the pointer size |
| `IsolateImage.SlotSevenIsTheCounter` | node-js/include/node/v8-internal.h:506-512 | At an input: slot 7 is the long-task counter |
| `IsolateImage.StoreIsUpdate` | node-js/include/node/v8-internal.h:366-390 | Storing a word is a point update of the words of the image |
| `IsolateImage.SetDataBytes` | node-js/include/node/v8-internal.h:366-380 | A slot in range is the word at 28 pointer sizes and the slot: those bytes become the data, lowest first, and all others are as before |
| `IsolateImage.CounterGainsOne` | node-js/include/node/v8-internal.h:522-526 | The counter, at 35 pointer sizes, gains exactly one and wraps at the size of a word, and all other bytes are as before |
| `IsolateImage.IsolateData.SetData` | node-js/include/node/v8-isolate.h:1685-1688 | In place: the bytes of one word |
| `IsolateImage.IsolateData.GetData` | node-js/include/node/v8-isolate.h:1690-1693 | Reads the slot of the record |
| `IsolateImage.IsolateData.IncrementLongTasksStatsCounter` | node-js/include/node/v8-internal.h:522-526 | In place: the counter, wrapping |
| `IsolateImage.IsolateData.GetRoot` | node-js/include/node/v8-internal.h:528-533 | Reads the root of the record |
| `FunctionCallback.LastSettingWins` | node-js/include/node/v8-function-callback.h:258-332 | After any run of setters only the return slot differs and it decodes to the value of the last one, whichever of the Smi, boxed or unsigned paths it took; an empty handle gives the default |
| `FunctionCallback.StoredDecodes` | node-js/include/node/v8-function-callback.h:291-319 | Each setter stores a word that decodes to the value asked for |
| `FunctionCallback.LayoutsAgree` | node-js/include/node/v8-function-callback.h:355-379 | For both callback classes the negative offsets find the isolate and the default value, before and after any run of setters |
| `FunctionCallback.FunctionCallbackInfo.GetReturnValue` | node-js/include/node/v8-function-callback.h:417-425 | The return value agrees with the class on isolate and default value |
| `FunctionCallback.PropertyCallbackInfo.GetReturnValue` | node-js/include/node/v8-function-callback.h:437-460 | The return value agrees with the class on isolate and default value |
| `FunctionCallback.ReturnValue.SetHandle` | node-js/include/node/v8-function-callback.h:258-289 | In place: the content of the handle, or the default value if it is empty |
| `FunctionCallback.ReturnValue.SetInt32` | node-js/include/node/v8-function-callback.h:297-306 | In place: Smi or boxed |
| `FunctionCallback.ReturnValue.SetUint32` | node-js/include/node/v8-function-callback.h:308-319 | In place: the signed path when the top bit is clear, boxed otherwise |
| `FunctionCallback.ReturnValue.SetBool` | node-js/include/node/v8-function-callback.h:321-332 | In place: the true or false root of the isolate found below the slot |
| `FunctionCallback.ReturnValue.Get` | node-js/include/node/v8-function-callback.h:361-367 | The value of the slot, the hole reading as undefined |
| `OnosStage.Stage.StageOnos` | tools/package/onos_stage.py:59-97 | From any history of `written_files`, the archive is exactly the left-biased merge of the candidates of the inputs, `written_files` grows by exactly their names, and an input that raises stops both there |
| `OnosStage.Stage.Add` | tools/package/onos_stage.py:33-52 | One entry and one name, or nothing if the name was written before |
| `OnosStage.Stage.AddInput` | tools/package/onos_stage.py:69-95 | The candidates of one input file, by its name |
| `OnosStage.Stage.AddArtifacts` | tools/package/onos_stage.py:86-91 | The members of an oar that belong into the repository, under the redundant second test |
| `OnosStage.ZipStages` | tools/package/onos_stage.py:70-76 | A zip offers its members in order: under their own names if these contain `onos-<version>/`, otherwise below `onos-<version>/apache-karaf-4.2.9/system/`, with their contents |
| `OnosStage.OarStages` | tools/package/onos_stage.py:77-91 | An oar offers itself and its description under the name of the app, and then, in order, exactly the members with m2 in their name, below `system` without their first three characters |
| `OnosStage.OthersStage` | tools/package/onos_stage.py:92-95 | A features file offers itself under the features name of the version; any other file, and an oar without description, offer nothing |
| `OnosStage.CallStages` | tools/package/onos_stage.py:68-97 | A call offers what its inputs do, in order, up to one that raises; if none does, then the drivers marker and the runtime version |
| `OnosStage.MergeIsKept` | tools/package/onos_stage.py:33-52 | The merge is the subsequence of the entries whose name was not written before, by history or by an earlier entry: each once, first content, order of first occurrence |
| `OnosStage.MergeDistinct` | tools/package/onos_stage.py:28 | No name is in an archive twice, and its names are those of the candidates minus those written before |
| `OnosStage.StagingAgainWritesNothing` | tools/package/onos_stage.py:28 | Staging the same inputs again writes an empty archive |
| `OnosStage.OrderIrrelevantExactly` | tools/package/onos_stage.py:68-97 | From any history and for any inputs, what is staged under each name is the same for every permutation of the inputs exactly when, at every name not written before: inputs agree on its content if none raises, and none would stage it if one raises |
| `OnosStage.SwapChangesTheMap` | tools/package/onos_stage.py:70-76 | At an input: two zips with one member of the same name |
| `OnosStage.RaisingInputHidesLaterOnes` | tools/package/onos_stage.py:77-80 | At an input: a zip before or after an oar without app description |
| `LocalHandle.MaybeLocal.ToLocal` | node-js/include/node/v8-local-handle.h:355-363 | `ToLocal` overwrites its output in every case; that an empty source leaves it untouched, as its comment promises, is right exactly for an output that was empty already |
| `OnosStage.LookupMerge` | tools/package/onos_stage.py:33-52 | A name keeps the content of its first candidate |
| `OnosStage.StagedNamesContainBase` | tools/package/onos_stage.py:60-97 | Every staged name contains the base directory of the version |
| `NodeVersion.PackingOrdersExactly` | node-js/include/node/node.h:88-106 | Packed comparison is the lexicographic order that `NODE_VERSION_AT_LEAST` spells out exactly within these bounds on minor and patch numbers, among them 16 and 256 |

## Left out

- Handle scopes and the lifetimes of their slots: a local is the object its slot holds. Of `MaybeLocal` only `ToLocal` is modelled.
- The bodies behind the `api_internal` and `internal` entry points: only minimal contracts of creating, copying, disposing, transferring and weakening a cell; the state of a strong node is some value that is neither weak nor pending.
- Reclaiming traced cells: a traced reference that is destroyed abandons its cell; when the tracing collector frees it is not modelled. The entry point that moves a traced reference is taken to dispose the target's cell, hand over the source's and null it.
- The collector is its effect on roots: it moves objects and visits every node, picks weak cells, and frees phantom cells. When it does so is any time.
- Runs on bytes are those of handles; wraps in place are proved method by method, and `WrapIsTheMethod` and `DeleteIsTheMethod` tie them to the runs of wraps.
- `AnnotateStrongRetainer`, `Eternal`, the thread-safe slot accesses of traced references, second-pass callbacks and the type checks of C++.
- The runs of `ObjectWrapRuns` end where its invariant must: at a use of a wrap's handle that its count does not permit (`UseExactly`), and at a collector step that nulls a wrap's non-empty handle for a phantom cell forgotten at its address (`NullingExactly`). Rewriting internal field 0 by other code is not modelled. Every object given to `Wrap` is taken to have an internal field.
- `Ref` more than 2^31 - 1 times on one wrap, which overflows `int`.
- External pointer tables and the sandbox: the tag arithmetic of the comment is proved on words; field reads are those without the sandbox. `DecodeExternalPointerImpl` has no body in the repository.
- `V8_ENABLE_CHECKS` branches, slow paths, and memory that wraps around the address space.
- Doubles are real numbers; allocation of heap numbers is an argument that must hold the number it was made for. `ShouldThrowOnError` and the argument accessors of callbacks.
- Tar, gzip and zip encoding, time stamps, file modes, the regular expression on `app.xml`, the `git` hash and text encoding in the staging script: members, app descriptions and the version bytes are inputs. An oar whose description is missing or has no name raises; unreadable zip files are not modelled.
- Declarations without bodies elsewhere in the headers, and the Java, GUI and configuration files of the repository.
