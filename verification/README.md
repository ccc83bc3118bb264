# Yjs engine: a verified model

This project models the document engine that the desktop application ships as
`assets/js/yjs_bridge.js` (Yjs with the parts of lib0 that it uses), and the base 64 codec of
`js/src/base64.js`, and proves what replicas, updates, texts and encodings are promised to do.

**The sequence (Arcs, Yata, Agreement, Replicas, Registers, Preorders, Blocks, Merging, Store,
Sequence).** A list of items is edited concurrently. An item knows the ids of the neighbours
between which its creator put it. `Item.integrate` finds its place in any other replica's list by
a scan over the items in conflict. *Arcs* states the ordering rules that the scan keeps, on plain
positions; *Yata* is the scan on items of length one; *Agreement* proves that two lists that keep
the rules never disagree; *Replicas* is the system of replicas with its steps and proves
convergence over all runs, for arbitrary left and right origins. *Registers* are the entries of
maps, and *Preorders* gives their lists as a function of the set of items. *Blocks* proves that
items of any length, split and merged at will, behave as their units do, and *Sequence* is the
doubly linked list and struct store on the heap, proved against units.
An item is admissible when its origins and all earlier items of its client have arrived, which is
what `integrateStructs` waits for.

**The exchange of updates (Structs, Updates, IntegrateStructs, MergeUpdates, DiffUpdate, Retry,
Document, Deletion, StoreLog, Settling, Exchange, Convergence).** An update is a list of structs by
client, not bytes. `integrateStructs` is modelled variable by variable: pure functions give every
round, and the methods compute them. *Document* are the lists of all types and of all keys of maps: where an item
belongs, and why it is deleted. *Deletion* adds units to the store and deletes items with all that
is inside of them, and *StoreLog* follows the calls of `integrate`. *Settling* says what reading an
update comes to: exactly those of its units get into the store whose dependencies can all be met,
so that it does not matter how structs are cut and ordered. *Exchange* composes reading,
integrating, pending structs, pending deletes and the retry into `readUpdateV2`, over whole runs, and
*Convergence* compares stores: with the same updates, with different ones, with a part of one.

Three ghost parameters say what is assumed of updates. `content` is what any update may say about
an id; `time` orders units by creation, which makes dependencies acyclic; `worlds` are the replicas
(of *Replicas*) that created the items of each list. A collected unit may arrive without its item.

One promise does not hold of the code: that a pending struct which becomes applicable triggers a
retry. For leftovers that start behind a gap, `integrateStructs` records the clock before the
first leftover instead of the first missing clock (line 5091). A struct that waits for a unit in
that gap becomes applicable without a retry. `Retry.MissedRetry` is such a case, computed by the
machine itself. `Retry.RetryExact` gives the exact condition: a retry can be missed if and only if
some pending unit is exposed, which means that of all the units it waits for, directly or through
others, none is at or after a clock recorded in `missing`. Leftovers without a gap expose nothing
(`Retry.LeftoverWatched`). `Exchange.StructStore.ReadUpdate` carries this through all updates:
after one nothing is exposed if no client's pending units begin behind a gap, and nothing was
exposed before or the update triggered a retry. While nothing is exposed, nothing that is pending
could be integrated, and two such stores with the same updates hold the same (`Exchange.Receive`,
`Convergence.AnyOrderHeld`).

**Texts and arrays (RichText, TextDelta, Markers, EventDelta, Transactions).** A text is a
list of characters and format markers; it means the sequence of its visible characters with their
attributes. A position is the list divided in two. *Markers* is the cache of positions of an array.
A second promise fails here: a deletion past the end of an array throws before the markers are
updated. `Markers.YArray.DeleteAt` says exactly when they are still right, by the state before the
call, and `Markers.StaleExample` is an array where they are not. *EventDelta* computes the delta of
an event from the list after the transaction, and *Transactions* proves that it starts from the
array before the transaction.

**Sets and encodings (DeleteSets, ApplyDeletes, Varint, Columns, Base64).** Delete sets denote sets
of ids. Signed numbers are sign and magnitude, because `writeVarInt` tells -0 from 0.

Ids are unique, and a client creates its items in the order of their clocks. Clocks, lengths and
client ids are natural numbers; the varint codecs state their bound of 2^53 - 1, and the base 64
accumulator its 32 bits.

## Model

| member | source | states |
|---|---|---|
| `Arcs.KeepsApart` | assets/js/yjs_bridge.js:12438-12459 | The siblings that the scan reached but did not pass all have higher clients than the new item. |
| `Arcs.PassDescendant` | assets/js/yjs_bridge.js:12451-12456 | A descendant of something passed is passed, which keeps all that is passed in one piece. |
| `Arcs.StopOutside` | assets/js/yjs_bridge.js:12457-12459 | Where the scan meets an item that does not descend from the origin, the place found fits. |
| `Arcs.PlaceFits` | assets/js/yjs_bridge.js:12394-12463 | The place that the conflict scan finds keeps every ordering rule of the list: origins in front, subtrees unbroken, siblings by right origin and client. |
| `Arcs.InsertCanonical` | assets/js/yjs_bridge.js:12394-12463 | A list arranged by these rules stays arranged when an item goes to a place that fits. |
| `Yata.IntegrateCanonical` | assets/js/yjs_bridge.js:12394-12463 | For every list that `integrate` can produce and every item that causal delivery lets through, integrating puts the item at a definite place and keeps the arrangement. |
| `Agreement.Agree` | assets/js/yjs_bridge.js:12438-12459 | Two arranged lists of items of one history never disagree about the order of two common items, whatever their right origins. |
| `Agreement.SameList` | assets/js/yjs_bridge.js:12394-12508 | Two arranged lists with the same items are equal. |
| `Replicas.DeliverAdmissible` | assets/js/yjs_bridge.js:12347-12388 | An item that fitted in its creator's list fits in every other list in which its origins and its client's earlier items have arrived. |
| `Replicas.CreateAdmissible` | assets/js/yjs_bridge.js:8072-8105 | An insertion between two neighbours of the creator's list, tombstones included, is admissible there and refers only to older items. |
| `Replicas.StepValid` | assets/js/yjs_bridge.js:12394-12508 | Every step of the system - insert, deliver, delete, deliver a delete - keeps every replica's list arranged. |
| `Replicas.RunValid` | assets/js/yjs_bridge.js:12394-12508 | Every reachable state of every run is valid. |
| `Replicas.OrderAgreed` | assets/js/yjs_bridge.js:12394-12508 | In every run any two replicas agree on the order of all items that both hold. |
| `Replicas.Converged` | assets/js/yjs_bridge.js:12394-12508 | In every run replicas that received the same items hold the same list, and with the same deletions show the same content. |
| `Registers.WinnerIsLast` | assets/js/yjs_bridge.js:12438-12502 | Without right origins: the last item of a list is exactly the one that a rule on the set of items selects (greatest client among siblings, from the root down), so it does not depend on arrival order. |
| `Registers.WinnerOfRun` | assets/js/yjs_bridge.js:12438-12502 | The same in every run of appends, for every replica. |
| `Preorders.ListIsPreorder` | assets/js/yjs_bridge.js:12394-12463 | Without right origins a list is the preorder of the tree of origins, siblings by client: a function of the set of items. |
| `Preorders.PreorderOfRun` | assets/js/yjs_bridge.js:12394-12463 | The same in every run of appends, for every replica. |
| `Registers.MapEntry.Integrate` | assets/js/yjs_bridge.js:12464-12503 | The `_map` entry is always the last item, and all other items of the key are deleted. |
| `Registers.MapEntry.Set` | assets/js/yjs_bridge.js:8072-8105 | Setting a key appends its item, which becomes the value. |
| `Registers.MapEntry.Delete` | assets/js/yjs_bridge.js:8056-8061 | Deleting a key deletes the current item only; the key then has no value. |
| `Blocks.PassInside` | assets/js/yjs_bridge.js:12438-12459 | Once the scan passes a block's first unit it passes the block's other units. |
| `Blocks.ScanRefines` | assets/js/yjs_bridge.js:12438-12459 | The conflict scan over items of any length ends where the scan over their units ends. |
| `Blocks.UnitsStayTogether` | assets/js/yjs_bridge.js:12394-12463 | Integrating the units of a new item one after the other leaves them next to each other. |
| `Blocks.BlockRefinesUnits` | assets/js/yjs_bridge.js:12394-12463 | Integrating an item of length n gives the list that integrating its n units in clock order gives, although other items refer into the middle of blocks. |
| `Blocks.SplitKeeps` | assets/js/yjs_bridge.js:12060-12096 | Splitting an item changes neither units, origins, order nor deleted marks. |
| `Merging.MergeKeeps` | assets/js/yjs_bridge.js:12546-12584 | Merging an item into the one before it changes neither units, order nor marks. |
| `Merging.SplitThenMerge` | assets/js/yjs_bridge.js:12060-12096 | The two parts of a split item can be merged, which gives the list back. |
| `Merging.MergeThenSplit` | assets/js/yjs_bridge.js:12546-12584 | Splitting a merged item where it was merged gives the two items back. |
| `Merging.TryToMergeWithLefts` | assets/js/yjs_bridge.js:5970-5991 | The struct and the ones before it that it is merged with become one, in the store and where they stand next to each other in the list; all other structs, the units, their order and marks and the gap-free partition stay. It stops only at the first struct, or where the two could not be merged (another origin, right origin, client or mark, or clocks that do not follow), or where they are not neighbours in the list. |
| `Sequence.FindIndexSS` | assets/js/yjs_bridge.js:5681-5709 | The pivoted binary search returns the struct that holds the clock, for every clock below the state. |
| `Sequence.SplitItem` | assets/js/yjs_bridge.js:12060-12096 | On the heap: splits an item, relinks its neighbours both ways and leaves all other items as they are. |
| `Sequence.GetItemCleanStart` | assets/js/yjs_bridge.js:5762-5765 | Returns the item that begins with an id, after a split if necessary; list and store stay linked and partitioned. |
| `Sequence.GetItemCleanEnd` | assets/js/yjs_bridge.js:5778-5790 | Returns the item that ends with an id, after a split if necessary. |
| `Sequence.Judge` | assets/js/yjs_bridge.js:12439-12457 | One round of the conflict loop with its two sets decides as the specification does. |
| `Sequence.ScanLoop` | assets/js/yjs_bridge.js:12430-12459 | The loop over linked items with `itemsBeforeOrigin` and `conflictingItems` finds the place of the specified scan. |
| `Sequence.Connect` | assets/js/yjs_bridge.js:12464-12484 | Relinks `left`, `right` and the start; the list is the old one with the item inserted. |
| `Sequence.List.Integrate` | assets/js/yjs_bridge.js:12347-12508 | Taking in an item, known in part or not, on the linked list of a store that holds items of other lists too: the units are those of integrating its new units one by one, the visible length grows by exactly its visible units, and no other list changes. |
| `Sequence.List.Beside` | assets/js/yjs_bridge.js:7548 | A further list can be opened in a store that holds the items of others. |
| `Sequence.StoredForOther` | assets/js/yjs_bridge.js:5658-5670 | The store of a list is the store of every other list of the document, which holds its items and those of all others. |
| `Sequence.List.Delete` | assets/js/yjs_bridge.js:12591-12603 | Deleting an item moves nothing and shortens the visible length by the item's length, once. |
| `Store.Held` | assets/js/yjs_bridge.js:5681-5709 | Every clock below a client's state lies in exactly one struct. |
| `Store.SplitPartition` | assets/js/yjs_bridge.js:5742-5750 | A split keeps a client's structs a gap-free partition of its clocks and keeps its state. |
| `Store.AddPartition` | assets/js/yjs_bridge.js:5658-5670 | A struct that begins at the state extends the partition to its end. |
| `Structs.Missing` | assets/js/yjs_bridge.js:12347-12356 | `getMissing`, by the fields: a missing origin is reported, else a missing right origin, else a missing parent, else nothing; items of the same client are not asked for. |
| `Structs.WaitsForOlder` | assets/js/yjs_bridge.js:4996-4997 | A struct is younger than a struct that it waits for, so that no circle of waiting structs exists. |
| `IntegrateStructs.AddStackToRest` | assets/js/yjs_bridge.js:5062-5081 | At a dead end every client on the stack goes to the leftovers, from its last struct that was read on, and is removed from the readers. |
| `IntegrateStructs.NotPending` | assets/js/yjs_bridge.js:5095-5110 | The client that a struct waits for has no struct on the stack. |
| `IntegrateStructs.Handle` | assets/js/yjs_bridge.js:5085-5117 | Handling one struct keeps the machine's invariant and makes progress, and gives what the function of one round gives. |
| `IntegrateStructs.Round` | assets/js/yjs_bridge.js:5084-5132 | Every round keeps the invariant and decreases what is left to do. |
| `IntegrateStructs.IntegrateStructs` | assets/js/yjs_bridge.js:5010-5142 | On every acyclic update: each struct is integrated only when its client's clocks are contiguous and all it refers to is in the store; nothing is integrated that is not in the update; every struct is in the store, a `Skip`, or left over; every leftover list starts with a struct that is still blocked: behind a gap, which `missing` records, or by the first of its origin, right origin and parent that is not in the store, whose client `missing` records or which is left over too; every clock that `missing` records has such a struct as its cause; no recorded clock is in the store; the result is what the machine computes. Terminates. |
| `IntegrateStructs.ComputesOnce` | assets/js/yjs_bridge.js:5010-5142 | The machine halts with one result only, so that evaluating it determines what is recorded. |
| `Updates.ByClientList` | assets/js/yjs_bridge.js:4895-4981 | Reading an update groups its structs by client, clocks without gaps. |
| `Updates.WrittenUpdate` | assets/js/yjs_bridge.js:4864-4885 | Writing leftovers gives an update with exactly their ids. |
| `Updates.ReadWritten` | assets/js/yjs_bridge.js:4864-4981 | Reading what was written gives each client's list back. |
| `MergeUpdates.LeastFirst` | assets/js/yjs_bridge.js:6808-6825 | Of the sorted readers the first holds the least id. |
| `MergeUpdates.PassOver` | assets/js/yjs_bridge.js:6838-6843 | A struct that is passed over was written already. |
| `MergeUpdates.FillGap` | assets/js/yjs_bridge.js:6857-6870 | A gap is filled by a `Skip` up to the next struct. |
| `MergeUpdates.WritePart` | assets/js/yjs_bridge.js:6871-6886 | Of an overlapping struct exactly the part that is new is written. |
| `MergeUpdates.WriteSameClient` | assets/js/yjs_bridge.js:6856-6887 | One round for the same client; `currWrite` is never a `Skip` at the loop head, so that the branches which extend or shorten one are dead. |
| `MergeUpdates.Round` | assets/js/yjs_bridge.js:6829-6899 | One round of the merge keeps the invariant and decreases its measure. |
| `MergeUpdates.MergeUpdates` | assets/js/yjs_bridge.js:6785-6911 | The merged update has descending clients and contiguous clocks, holds exactly the union of the ids of the inputs, each with a unit that an input gives it, for overlapping and gapped inputs. One update comes back as it is; of several, every struct of the result is a struct of an input or what is new of one up to its end, joined with `GC`s before it only if it is a `GC`, and every `Skip` stands between two structs of its client. Terminates. |
| `DiffUpdate.DiffUpdate` | assets/js/yjs_bridge.js:6919-6953 | The diff is an update that holds exactly the non-`Skip` ids of the update at or above the state vector. Of each client it is made of the structs from the first one on that holds such an id, `Skip`s between them too, that first one without what is below the state vector. |
| `Convergence.DiffSuffices` | assets/js/yjs_bridge.js:6919-6953 | A peer that reads the diff for a state vector which it had before has afterwards the same units in its store, the same units pending and the same deletes applied and pending as one that reads the whole update. |
| `Convergence.ReadDiff` | assets/js/yjs_bridge.js:6919-6953 | Reading the diff keeps the contract of reading the whole update: all of the update is in the store or pending. |
| `Retry.ReachedClear` | assets/js/yjs_bridge.js:5180-5187 | What a store reached without a retry waited for no unit at or after a recorded clock. |
| `Retry.ExposedMissed` | assets/js/yjs_bridge.js:5180-5187 | From an exposed pending unit: a causally closed later store has everything it needs, and no retry was triggered. |
| `Retry.RetryExact` | assets/js/yjs_bridge.js:5180-5234 | A retry can be missed if and only if some pending unit is exposed: of the units it waits for, directly or indirectly, none is at or after a recorded clock of `missing`, and all exist. |
| `Retry.NoneReached` | assets/js/yjs_bridge.js:5180-5187 | Where no pending unit is exposed, none has everything that it needs. |
| `Retry.StaysUnexposed` | assets/js/yjs_bridge.js:5180-5187 | While nothing triggers a retry, pending units of which none is exposed stay so. |
| `Retry.LeftoverWatched` | assets/js/yjs_bridge.js:5088-5110 | What `integrateStructs` leaves over waits for something that is pending or at or after a recorded clock, unless it begins behind a gap that nothing pending fills. |
| `Retry.MergedUnexposed` | assets/js/yjs_bridge.js:5188-5197 | Merging what waits for something watched - pending, or at or after a recorded clock - into pending units that are not exposed exposes nothing. |
| `Retry.GapLeft` | assets/js/yjs_bridge.js:5085-5110 | On an update with a struct behind a gap the machine leaves both structs over and records, for the client with the gap, the clock before its leftover. |
| `Retry.MissedRetry` | assets/js/yjs_bridge.js:5088-5093 | Then the first clocks of the gap arrive, computed by the machine as well: the other struct could be integrated now, and nothing triggers a retry. |
| `Document.RightPlace` | assets/js/yjs_bridge.js:12347-12388 | `getMissing` gives an item the parent and key that it was created for, whether it names them or copies them from a neighbour, unless something that it refers to was collected. |
| `Document.FiledNext` | assets/js/yjs_bridge.js:12394-12463 | Integrating an item into its list keeps all lists of the document arranged, whatever was collected before. |
| `Document.ListsAgree` | assets/js/yjs_bridge.js:12394-12508 | Two stores with the same items hold the same list of every type and key. |
| `Document.OrderAgreed` | assets/js/yjs_bridge.js:12394-12508 | Even where different items were collected, two stores agree about the order of the items that both hold. |
| `Document.RuledOnce` | assets/js/yjs_bridge.js:12485-12503 | The reasons for deletion - named, arrived without content, collected, outdone by a later value of the key, or inside a deleted item - determine the set of deleted ids. |
| `Document.LiveIsShown` | assets/js/yjs_bridge.js:12485-12503 | An item is not deleted exactly if nothing named it, it came with its content, it is the last value of its key, if it has one, and it is not inside of a deleted item: of each key at most the last value is there. |
| `Deletion.RuledPlaced` | assets/js/yjs_bridge.js:12464-12503 | When an item arrives, the only ids that have a new reason to be deleted are itself and the value before it of its key. |
| `Deletion.RuledSpread` | assets/js/yjs_bridge.js:3838-3892 | After a delete set was applied and the children of newly deleted types were deleted, the deleted ids are exactly those with a reason. |
| `StoreLog.LogClosed` | assets/js/yjs_bridge.js:5010-5142 | The store is causally closed: each unit it holds came with a struct all of whose references are in the store. |
| `StoreLog.IntegratedKept` | assets/js/yjs_bridge.js:5010-5142 | Integrating an update loses and invents no id: what it holds is in the store or left over, and what is new in the store it held. |
| `Settling.IntegratedSettles` | assets/js/yjs_bridge.js:5010-5142 | Integrating an update takes in, of its units, exactly those that have everything they need in the store afterwards. |
| `Settling.SettlesOnce` | assets/js/yjs_bridge.js:5010-5142 | This determines the state vector: it depends only on which new ids the update holds, not on its structs or their order. |
| `Settling.ReadsOnce` | assets/js/yjs_bridge.js:5165-5234 | The same for a whole call of `readUpdateV2`, with the retry. |
| `Settling.NothingWaits` | assets/js/yjs_bridge.js:5180-5187 | Where nothing is exposed and everything that pending units need is in the store or pending, nothing waits. |
| `Exchange.StructStore.DeleteItem` | assets/js/yjs_bridge.js:12591-12603 | Deletes the item and, recursively, all that is inside of it, and nothing else. |
| `Exchange.StructStore.DeleteChildren` | assets/js/yjs_bridge.js:11939-11962 | Every child of a type and every value of its keys is deleted, with all that is inside of them, and nothing else. |
| `Exchange.StructStore.IntegrateUnit` | assets/js/yjs_bridge.js:12394-12508 | A unit goes to its place in its list, or becomes a `GC`; the value that it outdoes, or itself if it is outdone or its parent is deleted, is deleted, so that the deleted ids stay exactly those with a reason. |
| `Exchange.StructStore.Integrate` | assets/js/yjs_bridge.js:5010-5142 | Integrating an update loses and invents no id, keeps every list arranged and the deleted ids exactly those with a reason; the store's state vector is that of the applied structs. |
| `Exchange.StructStore.ReadAndApplyDeleteSet` | assets/js/yjs_bridge.js:3838-3892 | Deletes the named ids below the client's state with all that is inside of them, returns exactly the other ranges, and changes no unit and no order. |
| `Exchange.StructStore.KeepLeftovers` | assets/js/yjs_bridge.js:5179-5200 | Leftovers are merged with what is pending without loss; the retry is due exactly if the store passed a recorded clock; if it is not due, nothing gets exposed unless a client's pending units begin behind a gap. |
| `Exchange.StructStore.ReadDeletes` | assets/js/yjs_bridge.js:5204-5221 | Deletes that arrive and deletes that are pending are applied or stay pending, exactly by whether the store holds them. |
| `Exchange.StructStore.ReadUpdate` | assets/js/yjs_bridge.js:5165-5234 | For every update: every unit held, pending or arriving is held or pending afterwards and no other; exactly what can be integrated is; every named delete is applied or pending; the deleted ids are exactly those with a reason. If nothing was exposed before, or the update triggers a retry, and no client's pending units begin behind a gap, nothing is exposed afterwards. |
| `Exchange.DeletesTwice` | assets/js/yjs_bridge.js:5204-5234 | Applying the remainder of a delete set later gives the deleted set that applying it then would have given. |
| `Exchange.Receive` | assets/js/yjs_bridge.js:5165-5234 | After any sequence of updates, in any order, with repetitions: the ids delivered are exactly those in the store or pending; the deletes named are exactly those applied or pending; an id of the store is deleted exactly if it was named, arrived without content, was collected, was outdone by a later value of the key, or is inside a deleted item; so of each key at most the last value is there, and nothing inside of a deleted item; a retry can be missed exactly if a pending unit is exposed. If none is, nothing pending could be integrated, and if everything that was delivered has what it needs delivered too, all of it is in the store. |
| `Convergence.AnyOrderHeld` | assets/js/yjs_bridge.js:5165-5234 | Two stores that received the same updates in any order, with repetitions, hold the same units, have the same units pending, and have applied and pending the same deletes, if nothing is pending, or if no retry can be missed. |
| `Convergence.AnyOrder` | assets/js/yjs_bridge.js:5165-5234 | They also hold the same lists in the same order and have the same ids deleted, if nothing was collected, and whatever came without its content is named by a delete set. |
| `Convergence.SharedOrder` | assets/js/yjs_bridge.js:12394-12508 | Whatever two stores received, collected and have pending: an item that both have in a list is in the same list, and they have all the items that they share in the same order. |
| `RichText.Position.MinimizeAttributeChanges` | assets/js/yjs_bridge.js:8887-8897 | Passes exactly the deleted elements and the markers that set what is wanted, up to the first other element, and so changes no character and no requested attribute. |
| `RichText.Position.InsertAttributes` | assets/js/yjs_bridge.js:8909-8927 | Inserts one marker for each requested attribute that is not in force yet, and none for the others; the result records exactly the old values of these. |
| `RichText.Position.InsertNegatedAttributes` | assets/js/yjs_bridge.js:8837-8862 | Restores the old attributes: passes what restores them already, and inserts one marker for each of the others; what follows reads as before the change. |
| `RichText.Position.FormatRange` | assets/js/yjs_bridge.js:8982-9022 | Throughout the loop `negatedAttributes` holds the old value of every attribute that differs from the requested one; of the range exactly the markers of requested attributes are deleted. |
| `RichText.Position.FormatText` | assets/js/yjs_bridge.js:8973-9036 | Overrides exactly the requested attributes of exactly the next `length` characters (null removes), pads with newlines past the end, and leaves all other text and attributes unchanged. The list changes only by the markers that this needs. |
| `RichText.Position.InsertText` | assets/js/yjs_bridge.js:8939-8961 | Inserts the text with exactly the given attributes; no other character changes, and no marker is inserted that is not needed. |
| `RichText.Position.DeleteText` | assets/js/yjs_bridge.js:9224-9252 | Deletes exactly the next characters; no other character changes its attributes. Of the markers exactly those of the gap at the position are deleted that are superfluous there. |
| `RichText.Position.FindNextPosition` | assets/js/yjs_bridge.js:8778-8802 | Moves past exactly the given number of visible characters and knows the attributes there. |
| `RichText.DeleteOverwritten` | assets/js/yjs_bridge.js:9107-9125 | A marker may go when another one of its key follows in the same gap. |
| `RichText.DeleteRedundant` | assets/js/yjs_bridge.js:9073-9090 | A marker may go when its attribute already has its value. |
| `RichText.CleanupFormattingGap` | assets/js/yjs_bridge.js:9051-9101 | A live marker of the gap is deleted exactly if another live one of its key follows in the gap, or if its value was in force where the gap starts; nothing else changes, and the number of deleted markers is returned. The attributed text stays the same, and the attributes at the current position stay right. |
| `TextDelta.CleanupContextlessFormattingGap` | assets/js/yjs_bridge.js:9107-9125 | Deletes exactly the markers of the gap before the position that another one of their key follows there; the attributed text stays the same. |
| `TextDelta.CleanupYTextFormatting` | assets/js/yjs_bridge.js:9139-9163 | Deletes exactly the superfluous markers of the first gap and returns their number; the attributed text stays the same. |
| `TextDelta.YText.InsertAt` | assets/js/yjs_bridge.js:9809-9827 | Inserts at the visible index; without attributes the text takes those of the character before it. The list changes only there, by the text and the markers that it needs. |
| `TextDelta.YText.FormatAt` | assets/js/yjs_bridge.js:9883-9899 | The requested attributes are overridden on the range and nowhere else, with newlines for what exceeds the text, by no more markers than that needs; nothing changes for an empty range, or where nothing at all stands right of the index. |
| `TextDelta.YText.DeleteAt` | assets/js/yjs_bridge.js:9859-9871 | Deletes exactly the range, and the superfluous markers of the gap there. |
| `TextDelta.YText.ApplyDelta` | assets/js/yjs_bridge.js:9656-9682 | The attributed text becomes what applying the operations one after the other to the old attributed text gives; what single operations do is said by the following three. |
| `TextDelta.DeltaDeletes` | assets/js/yjs_bridge.js:9656-9682 | On any text, retaining `i` and deleting `n` leaves the first `i` characters and those from `i + n` on. |
| `TextDelta.DeltaFormats` | assets/js/yjs_bridge.js:9656-9682 | On any text, retaining `i` and retaining `n` with attributes overrides them on these `n` characters and leaves the others, as `format` does. |
| `TextDelta.DeltaInserts` | assets/js/yjs_bridge.js:9656-9682 | On any text, retaining `i` and inserting puts the text with exactly its attributes between the first `i` characters and the others. |
| `TextDelta.YText.ToDelta` | assets/js/yjs_bridge.js:9694-9797 | The operations expand to the attributed text; none is empty, and two visible characters are in the same operation exactly if no live marker stands between them. |
| `TextDelta.DeltaReproduces` | assets/js/yjs_bridge.js:9656-9797 | Applying the delta of a text to an empty text reproduces it. |
| `Markers.YArray.FindMarker` | assets/js/yjs_bridge.js:7393-7464 | Returns an item at or before the index together with the visible length left of it; the markers afterwards are a function of the state before, which walks from the closest marker and replaces it or the oldest one, and all are right. |
| `Markers.WalkReaches` | assets/js/yjs_bridge.js:7405-7429 | Wherever the walk starts, it gets to the item that the index is in, or that begins there, or to the last one, and from there back over the items that could be merged. |
| `Markers.YArray.MarkersBeforeInsert` | assets/js/yjs_bridge.js:7475-7506 | Markers move to the last visible item, or are dropped where it is flagged already, and those at or right of the index move on by the inserted length. |
| `Markers.NoneLost` | assets/js/yjs_bridge.js:7475-7506 | Where only items with a marker are flagged, every visible item that a marker stands for has a marker afterwards. |
| `Markers.YArray.GetAt` | assets/js/yjs_bridge.js:7844-7860 | The value at an index is the one a walk from the start finds. |
| `Markers.YArray.InsertAt` | assets/js/yjs_bridge.js:7937-7976 | Inserts at the index or fails past the end: the item is split that the index is inside of, the new items follow it, and all others, deleted ones too, stay as they are; every marker then has the visible length left of its item. |
| `Markers.YArray.DeleteAt` | assets/js/yjs_bridge.js:8010-8046 | Deletes the range: items are split at its two ends only, what was visible between them is deleted, and nothing else changes; markers stay right, and where the range exceeds the array, exactly if none of those that `findMarker` leaves begins after the index. |
| `Markers.StaleExample` | assets/js/yjs_bridge.js:8010-8046 | A concrete array, marker and range past the end: five elements are deleted, the call fails, and the marker is wrong afterwards. |
| `Markers.YArray.Cut` | assets/js/yjs_bridge.js:12060-12096 | A split keeps the content and every marker. |
| `Markers.YArray.MergeWith` | assets/js/yjs_bridge.js:12560-12572 | A merge keeps the content and every marker; those of the right item go to the joined one. |
| `EventDelta.Changes` | assets/js/yjs_bridge.js:7206-7270 | The list of inserts, deletes and retains, computed from the list after the transaction, the state vector and the delete set. Element by element, and up to the elements that stay at the end, it is what happened to the items in list order: what was added and lives is inserted, what was there and was deleted in the transaction is deleted, what was there and lives is retained. Neighbours differ in kind, none is empty unless an item is, there is no trailing retain, and it leads from the content before to the content now. |
| `Transactions.OldIsBefore` | assets/js/yjs_bridge.js:7114-7196 | For every transaction - any sequence of insertions, splits, deletions and deletions elsewhere, where an item may come without its content and name itself in the delete set - the content that the event reads off for the time before is the visible content of the list that the transaction started from. |
| `Transactions.EventChanges` | assets/js/yjs_bridge.js:7206-7270 | So applying the delta of the event to the array before the transaction gives the array after it, and retains what stayed. |
| `DeleteSets.FindIndexDS` | assets/js/yjs_bridge.js:3638-3655 | The binary search returns a range that covers the clock, or none covers it. |
| `DeleteSets.IsDeleted` | assets/js/yjs_bridge.js:3665-3668 | Membership in the set of ids. |
| `DeleteSets.Join` | assets/js/yjs_bridge.js:3683-3696 | In place: the sorted list's clocks, in ranges with at least one clock between them. |
| `DeleteSets.SortAndMerge` | assets/js/yjs_bridge.js:3676-3698 | The same clocks in normal form; the result has a hole exactly for the empty list, as `j` starts at 1. |
| `DeleteSets.MergeDeleteSets` | assets/js/yjs_bridge.js:3704-3724 | The union of the sets, in normal form. |
| `DeleteSets.RoundTrip` | assets/js/yjs_bridge.js:4620-4653 | The V2 delta encoding is defined exactly for lists without an empty range, and decodes to the list, whatever follows in the input, exactly if the ranges are sorted and do not overlap. |
| `DeleteSets.SeparatedEncodable` | assets/js/yjs_bridge.js:4343-4375 | A normal form without empty ranges can be encoded. |
| `ApplyDeletes.DeleteRange` | assets/js/yjs_bridge.js:3854-3879 | Deletes exactly the clocks of the range that the store holds, and splits structs exactly at those ends of the range where a struct lies that was not deleted; units and order stay. |
| `ApplyDeletes.ApplyToClient` | assets/js/yjs_bridge.js:3843-3883 | All ranges of one client: the clocks below the state are deleted, the others returned, and structs are split only at the ends of ranges, where nothing was deleted before. |
| `ApplyDeletes.DeletedRanges` | assets/js/yjs_bridge.js:3754-3768 | The runs of deleted structs cover exactly the deleted clocks and are in normal form. |
| `ApplyDeletes.CreateDeleteSet` | assets/js/yjs_bridge.js:3748-3773 | The delete set of a store names exactly the deleted ids. |
| `Varint.VarUintRead` | assets/js/yjs_bridge.js:1278-1297 | Every integer up to 2^53 - 1 is read back, whatever follows it. |
| `Varint.VarIntRead` | assets/js/yjs_bridge.js:1310-1335 | Every signed integer of that magnitude is read back, with -0 told from 0. |
| `Varint.Encoder.Write` | assets/js/yjs_bridge.js:591-599 | The chunked buffer holds what it held, and the byte. |
| `Varint.Encoder.WriteUint8Array` | assets/js/yjs_bridge.js:710-727 | The chunked buffer holds what it held, and the bytes, across a buffer's end. |
| `Varint.Encoder.VerifyLen` | assets/js/yjs_bridge.js:575-582 | Makes room without changing what was written. |
| `Varint.Encoder.WriteVarUint` | assets/js/yjs_bridge.js:617-623 | Appends the encoding of the integer. |
| `Varint.Encoder.WriteVarInt` | assets/js/yjs_bridge.js:634-648 | Appends the encoding of the signed integer. |
| `Varint.Encoder.ToUint8Array` | assets/js/yjs_bridge.js:556-566 | Everything that was written, in order. |
| `Varint.Decoder.ReadVarUint` | assets/js/yjs_bridge.js:1278-1297 | Reads as specified, with the errors for a missing end and for too large a number. |
| `Varint.Decoder.ReadVarInt` | assets/js/yjs_bridge.js:1310-1335 | Reads as specified; past the end it reads 0. |
| `Columns.ColumnRoundTrip` | assets/js/yjs_bridge.js:1502-1563 | Reading n values from the bytes of a column gives the n values that the runs encode: of `UintOptRle` the values written, including runs of 0, of `IntDiffOptRle` the differences, including odd negative ones. |
| `Columns.DiffRoundTrip` | assets/js/yjs_bridge.js:1531-1563 | Reading n values from the bytes of an `IntDiffOptRle` column gives the sums of the differences, which are the values written. |
| `Columns.ByteRoundTrip` | assets/js/yjs_bridge.js:1469-1500 | Reading n values from the bytes of an `Rle` column gives the n values, although the count of the last run is never written. |
| `Columns.EncodedOnce` | assets/js/yjs_bridge.js:959-1083 | The bytes of both columns of numbers are a function of the values or differences. |
| `Columns.BytesEncodedOnce` | assets/js/yjs_bridge.js:919-954 | The bytes of an `Rle` column are a function of the values, however they were written. |
| `Columns.ValueBytes` | assets/js/yjs_bridge.js:959-998 | The bytes of a column with a single value, a run of two and a run of three that needs two bytes. |
| `Columns.DiffBytes` | assets/js/yjs_bridge.js:1016-1070 | The bytes of a column of differences with a run and a single negative value. |
| `Columns.UintOptRleEncoder.Write` | assets/js/yjs_bridge.js:979-1002 | One more value is written; an equal one goes to the run of the one before it. |
| `Columns.UintOptRleEncoder.ToUint8Array` | assets/js/yjs_bridge.js:962-1011 | The bytes encode exactly the values that were written, in maximal runs. |
| `Columns.IntDiffOptRleEncoder.Write` | assets/js/yjs_bridge.js:1048-1074 | One more value is written, as a difference; an equal one goes to the run of the one before it. |
| `Columns.IntDiffOptRleEncoder.ToUint8Array` | assets/js/yjs_bridge.js:1030-1083 | The bytes encode differences, in maximal runs, whose sums are the values that were written. |
| `Columns.RleEncoder.Write` | assets/js/yjs_bridge.js:919-954 | One more byte is written; an equal one goes to the run of the one before it. |
| `Columns.UintOptRleDecoder.Read` | assets/js/yjs_bridge.js:1502-1529 | Reads the next value as specified, with the reader's errors. |
| `Columns.IntDiffOptRleDecoder.Read` | assets/js/yjs_bridge.js:1531-1563 | Adds the next difference as specified. |
| `Columns.RleDecoder.Read` | assets/js/yjs_bridge.js:1469-1500 | Reads the next byte as specified; the last run lasts for ever. |
| `Base64.EncodedLength` | js/src/base64.js:3-15 | Four letters for every three bytes begun. |
| `Base64.U8ToB64` | js/src/base64.js:3-15 | The letters of the six-bit groups of section 4 of RFC 4648, padded. |
| `Base64.Accumulate` | js/src/base64.js:24 | The accumulator overflows 32 bits, but its low bits are those of the groups. |
| `Base64.B64ToU8` | js/src/base64.js:17-32 | Of letters of the alphabet: the bytes of their groups, padding removed. |
| `Base64.RoundTrip` | js/src/base64.js:3-32 | Decoding the encoding of any bytes gives the bytes. |

## Left out

- Sequence.List.Integrate: a `GC` of the store counts among the items of other lists; says nothing of content, and nothing of the choice among several lists, which is in Document.
- Sequence.FindIndexSS: the pivot is computed with exact division, not with floating point.
- Exchange.StructStore.Integrate: works unit by unit, where the original integrates structs; that blocks behave as their units is proved in Blocks and Sequence. An item of several units under a key comes only of merging deleted values; in the original its units are deleted by the delete set that arrives with it, here all but the last one are deleted before that, when it is integrated.
- Exchange.StructStore.DeleteItem: garbage collection of the local store (`tryGc`) is not part of the model; units that others collected are. The item that is a parent is taken to hold a type.
- Exchange.StructStore.ReadAndApplyDeleteSet: marks all named ids before it deletes what is inside of them, where the original goes from item to item; what is deleted in the end is the same.
- Exchange.Receive: says nothing about local edits between two updates.
- Convergence.AnyOrder: requires that no unit was collected, as a store that never got a collected item cannot hold it, and that what came without its content is named by a delete set; Convergence.AnyOrderHeld and Convergence.SharedOrder have neither condition.
- Retry.RetryExact: assumes that all updates agree about a unit; an update that holds as `GC` what another one holds as an item is covered by conservation, not by this. The same assumption, named `Functional`, stands in what Settling, Exchange.StructStore.ReadUpdate and Convergence.AnyOrderHeld say about exactly which units get into the store.
- MergeUpdates.MergeUpdates: the delete sets of the updates are merged in DeleteSets, and bytes are not part of it.
- Merging.TryToMergeWithLefts: content is opaque, so the loss at surrogate pairs and content that refuses to merge are not part of it.
- Registers.MapEntry.Integrate: the entry's items are values; the walk to the left end of the linked list is not part of it.
- RichText.Position.FormatText: characters are single units; attribute values are compared by structural equality, where the original compares nested objects by identity.
- RichText.Position.DeleteText: on an empty list the original throws a type error.
- TextDelta.YText.InsertAt: starts from the beginning of the text; the original may start at a search marker, which it has only in texts without formatting.
- TextDelta.YText.ApplyDelta: without the option that keeps a final newline from being inserted twice.
- TextDelta.YText.ToDelta: without snapshots, and without embeds, which the texts of RichText do not have either.
- TextDelta.CleanupYTextFormatting: not minimal, as in the original later gaps start at a visible item and are not scanned.
- Markers.YArray.InsertAt: all items are countable, as in arrays; a text's markers are dropped when formatting appears.
- Varint.Encoder.ToUint8Array: buffers that are put aside are values, as the original never writes to them again.
- Columns.IntDiffOptRleEncoder.Write: requires differences whose encoding stays below 2^53.
- Base64.B64ToU8: for characters outside the alphabet only the length is stated.
- Undo and redo, observers and events other than the array delta, XML types, subdocuments, awareness, snapshots and relative positions are not part of this model.
- The byte layout of whole updates, UTF-8, floats and JSON values are not part of this model; neither are the window and FFI layers.
