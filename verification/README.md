# Verified model of a game server's core

This project models eight parts of the server whose behaviour is more than plumbing, and proves what they
are relied on for.

- **Node files** (`NodeFormat`, `FileLoading`): the tree format of maps and items, its writer with escaping, the
  recursive parser with its step back at a parent's END, the block cache under it, and the in-place unescaping of
  properties.
- **Walk cache** (`WalkCache`): the matrix of walkable tiles around a creature, shifted in place as it walks.
- **Containers** (`ItemStore`, `ItemWalk`, `Containers`, `ItemMoves`, `ItemAdds`, `ItemRuns`): items in items with cached weights,
  the queries that guard adding, the iterator over everything nested, the depot limit that rests on its count, and whole moves and
  adds with stacks that join.
- **Conditions** (`ConditionTypes`, `DamageConditions`, `ConditionBonuses`, `PropStreams`, `ConditionCodec`,
  `ConditionStorage`, `StoredDamage`): damage spread over time, speed and skills lent and taken back, the stored form,
  and what of them is there after a logout.
- **Dispatcher** (`Dispatching`): a task list under a mutex and a condition variable, as a state machine over the steps
  that its threads can interleave between.
- **Combat areas** (`CombatAreas`): the matrices of spells, turned and mirrored, and the positions they cover.
- **House rent** (`HouseRent`): charges, warnings and evictions over a whole tenancy.
- **Battleground** (`Battlegrounds`): two teams dealt out from a sorted list, and late arrivals.

Code that changes things in place is a class or a loop here too, proved against functions and predicates on values;
the properties are lemmas about those, and invariants over whole runs. `Basics` holds what the modules share.
`dafny verify dfyconfig.toml` checks everything.

## Where the code does not do what one would expect

Each of these is stated exactly, by a condition that holds if and only if the code is right, or by a run that goes wrong.

- A node type is written escaped but read raw: types from 0xFD on do not survive (NodeFormat.SafeTypes).
- A cached read that starts inside the file and asks for bytes past its end does not end
  (FileLoading.ReadingEndsExactly).
- The walk cache goes stale: handlers do not ask after items without certain flags, such as a fire field in its last
  stage (item 1494), nor after conditions of the creature itself (WalkCache.EventExactly, WalkCache.StaleExactly, with the
  input of WalkCache.BurntOut), and a rebuild leaves the old answer where there is no tile
  (WalkCache.Creature.UpdateMapCache).
- The buffer for properties grows once in a call: a stretch that is more than 1024 bytes longer is written past its end
  (FileLoading.RoomExactly).
- A depot watches over the containers nested in it only when it stands directly on a tile (ItemStore.TopOfNested).
- A stack that is found to be joined is aimed at with the index behind it, so a full container refuses what that stack
  has room for (ItemMoves.FoundStackNeedsSlot, ItemMoves.Crowded), and with limits waived the rest of it can be lost
  (ItemMoves.WaivedRestIsLost, ItemMoves.Spilled). A container without a size always counts as full, so of a stack that is
  added to one no more comes in than its stacks have room for (ItemAdds.RestAsked).
- A damage condition can end before its last hit when the clock step does not divide the intervals
  (DamageConditions.RunDealsInOrder, with the input of DamageConditions.CutShort).
- A delayed damage condition that is merged while its front hit is far can end before it deals what it was given
  (DamageConditions.MergedWhole, with the run of DamageConditions.MergedOut).
- Damage that lasts is stored with all its hits, but every damage condition is made for a combat (src/src/items.cpp:1543-1578,
  src/src/monsters.cpp:335, src/src/spells.cpp:2067, src/src/luascript.cpp:5958) and none is written, so damage ends with a
  logout (StoredDamage.LogoutExactly, StoredDamage.CombatDamageEnds).
- Strings of 65536 bytes and more are cut, also by addLongString (PropStreams.LongStringBack).
- A second shutdown leaves its task behind (Dispatching.NothingLeftBehind, Dispatching.SecondShutdownStays), and a stop
  after the ending task undoes it (Dispatching.TerminatedExactly, with the run of Dispatching.LateStopKeepsRunning).
- Mirrored and flipped areas have their centre right only for square drawings (CombatAreas.MirrorExact,
  CombatAreas.FlipExact, with the drawing of CombatAreas.Askew).
- Warnings about unpaid rent are never taken back (HouseRent.EvictedLate), and past the year 2106 a period is charged
  again at once (HouseRent.PeriodHoldsExactly).
- From localhost one player can wait twice (Battlegrounds.WelcomeIsNew, Battlegrounds.DistinctExactly), and so be put
  into both teams (Battlegrounds.TwiceFromLocalhost).

## Model

| member | source | states |
|---|---|---|
| NodeFormat.RoundTripExactly | src/src/fileloader.cpp:120-294 | a forest of nodes written with startNode, setProps and endNode and parsed again is the same forest if and only if every node survives: its type is below 0xFD, or it is 0xFD and the escaped bytes shift into place |
| NodeFormat.RoundTrip | src/src/fileloader.cpp:120-294 | for types below 0xFD the round trip holds for all shapes and all property bytes |
| NodeFormat.SafeTypes | src/src/fileloader.cpp:283-288 | a type byte survives with every payload if and only if it is below 0xFD, although it is written escaped and read raw |
| NodeFormat.ParseSound | src/src/fileloader.cpp:120-222 | whatever bytes are accepted: every recorded property region lies in the file and holds no unescaped START or END, children lie behind the properties and inside their parent, siblings are disjoint and ordered, and rendering the recorded tree gives back exactly the bytes consumed |
| NodeFormat.KidsSound | src/src/fileloader.cpp:137-162 | soundness of what follows the properties of a node: its children and its END |
| NodeFormat.RestSound | src/src/fileloader.cpp:175-218 | soundness of what follows the END of a node: a sibling, the END of the parent (one byte back), or the end of the file |
| NodeFormat.EscapeInverse | src/src/fileloader.h:124-157 | unescaping undoes the escaping of writeData for all bytes, and what is written holds no unescaped START or END |
| NodeFormat.ScanOverClean | src/src/fileloader.cpp:137-172 | the property scan passes exactly the region it was given when the region is clean |
| NodeFormat.ScannedIsClean | src/src/fileloader.cpp:137-172 | every region the scan passes is clean |
| NodeFormat.ReadsBack | src/src/fileloader.cpp:120-294 | a written forest is parsed in place, wherever in a file it stands, provided its nodes survive |
| NodeFormat.OnlySurvivors | src/src/fileloader.cpp:120-294 | if parsing gives the forest back at all, every node survives |
| NodeFormat.BrokenPayload | src/src/fileloader.cpp:127-172 | how a type at or above 0xFD breaks the bytes that follow it |
| FileLoading.AndNot | src/src/fileloader.cpp:504-520 | the mask of loadCacheBlock, bit by bit: never above the position, and closer to it than the size, also when the size is no power of two |
| FileLoading.BlockBase | src/src/fileloader.cpp:504-520 | the base of the block for a position: base <= position < base + cache size |
| FileLoading.FileLoader.LoadCacheBlock | src/src/fileloader.cpp:504-559 | the block around the position is loaded over the first free one, else the first that lies more than two cache sizes away, else the first, and no other block changes; all blocks still equal their stretch of the file |
| FileLoading.FileLoader.GetCacheBlock | src/src/fileloader.cpp:485-502 | finds the block around a position if one is loaded |
| FileLoading.FileLoader.SafeSeek | src/src/fileloader.cpp:432-454 | moves the cursor, loading a block if needed |
| FileLoading.FileLoader.SafeTell | src/src/fileloader.cpp:456-483 | the position of the cursor, cached or not |
| FileLoading.FileLoader.ReadByte | src/src/fileloader.cpp:323-360 | the byte at the cursor and one step on, or end of file |
| FileLoading.FileLoader.ReadBytes | src/src/fileloader.cpp:362-413 | the bytes asked for, across block borders |
| FileLoading.ReadingProgress | src/src/fileloader.cpp:374-397 | from a position inside the file every pass of the cached loop reads at least one byte, if and only if bytes are left there |
| FileLoading.ReadingEndsExactly | src/src/fileloader.cpp:362-397 | from a position inside the file the passes of the cached loop come to an end if and only if all the bytes asked for lie in the file |
| FileLoading.RoomForShort | src/src/fileloader.cpp:229-234 | a file whose property stretches are no longer than the first buffer grown once is read without going past the buffer |
| FileLoading.RoomExactly | src/src/fileloader.cpp:229-238 | a walk over a file stays inside the buffer of getProps if and only if every property stretch is at most 1024 bytes longer than the buffer is when it is read |
| FileLoading.FileLoader.Run | src/src/fileloader.cpp:323-559 | any run of in-range seeks, tells and reads, with blocks loaded and evicted on the way, returns byte for byte, position for position and flag for flag what a plain cursor on the file returns |
| FileLoading.FileLoader.ParseSibling | src/src/fileloader.cpp:175-218 | one turn of the sibling loop extends the chain of linked nodes by what the grammar says |
| FileLoading.FileLoader.ParseNode | src/src/fileloader.cpp:120-222 | the recursive parser, with its seek one byte back at the END of a parent, terminates and builds linked nodes that represent exactly the parsed tree |
| FileLoading.FileLoader.OpenFile | src/src/fileloader.cpp:56-118 | a file opens exactly when it is longer than its identifier and the identifier is the accepted one or zero; then the root represents the parsed tree |
| FileLoading.FileLoader.UnescapeBuffer | src/src/fileloader.cpp:243-257 | the in-place loop of getProps turns clean escaped bytes into what they stand for |
| FileLoading.FileLoader.GetProps | src/src/fileloader.cpp:224-259 | the properties of a node, unescaped; the buffer grows by 1024 bytes in one call |
| FileLoading.FileLoader.ReadNodes | src/src/fileloader.cpp:296-321 | walking the linked nodes and asking for their properties gives the decoded tree |
| FileLoading.NodeWriter.WriteData | src/src/fileloader.h:124-157 | the loop over the bytes appends their escaped form |
| FileLoading.NodeWriter.WriteNodes | src/src/fileloader.cpp:274-294 | startNode, setProps and endNode around the children write exactly the grammar |
| FileLoading.EscapeConcat | src/src/fileloader.cpp:274-281 | properties given in several calls of setProps are the same as given in one |
| FileLoading.PlacedIsClean | src/src/fileloader.cpp:224-259 | every region an accepted file records can be unescaped |
| FileLoading.SaveAndLoad | src/src/fileloader.cpp:56-294 | end to end, cache on or off: what was written is read back if and only if every node survives |
| WalkCache.Creature.UpdateMapCache | src/src/creature.cpp:372-389 | a full rebuild agrees with the tiles if and only if no cell without a tile held yes before: missing tiles are skipped |
| WalkCache.Creature.UpdateOffset | src/src/creature.cpp:402-414 | one cell is refreshed, and only if it lies in the window |
| WalkCache.Creature.StepRows | src/src/creature.cpp:578-604 | a step north or south shifts the rows in place and refreshes the row that came in |
| WalkCache.Creature.StepColumns | src/src/creature.cpp:605-653 | a step east or west, straight or as part of a diagonal, shifts the columns, leaving out the row that was refreshed already |
| WalkCache.Creature.OnTileItem | src/src/creature.cpp:467-486 | an item change refreshes its tile exactly when a tested flag is set; from a cache that agrees it agrees afterwards if and only if it was refreshed, or the tile is not watched, or its walkability is the same |
| WalkCache.Creature.OnOtherAppears | src/src/creature.cpp:488-500 | another creature that appears is seen |
| WalkCache.Creature.OnOtherMoves | src/src/creature.cpp:661-669 | another creature that moves is seen at both ends |
| WalkCache.Creature.OnSelfAppears | src/src/creature.cpp:488-500 | from the first appearance on the cache is kept: every tile is asked, a missing one leaves the old answer, and the cache agrees if and only if no such answer was yes |
| WalkCache.Creature.OnSelfMoves | src/src/creature.cpp:573-669 | after an own step in any of eight directions, a teleport or a change of floor, every cell but the own one holds what is believed of its new position: asked anew where it came into the window and where the creature left, carried along elsewhere |
| WalkCache.EventExactly | src/src/creature.cpp:372-669 | from right answers any event leads to right ones if and only if nothing has changed where its handler does not ask, and no missing tile takes over a yes |
| WalkCache.SeenIsRight | src/src/creature.cpp:372-669 | over every run in which nothing changes unasked all answers stay right |
| WalkCache.StaleExactly | src/src/creature.cpp:372-669 | over every run, with the set of positions that changed or may have changed since they were last asked: all watched positions outside it have the right answer, and all have it if and only if each watched one in it is as walkable as when it was last asked |
| WalkCache.LastAnswer | src/src/creature.cpp:372-669 | what is believed of a position is the answer that it gave when it was last asked |
| WalkCache.FollowedIsSeen | src/src/creature.cpp:372-669 | in a run in which events change only the tiles they touch, none is unseen, items without tested flags change no answer, and there are tiles wherever the creature looks all around, nothing changes unasked |
| WalkCache.Creature.Run | src/src/creature.cpp:372-669 | after every run of events, whatever they change, each cell in the window but the own one holds the answer of its position when it was last asked; what is not stale agrees with the map, and all of it exactly under the condition of StaleExactly; after every run as in FollowedIsSeen, from a cache that agrees, it agrees with the map |
| WalkCache.BurntOut | src/src/creature.cpp:481-486 | a field without a tested flag burns out beside a creature: the tile is free, and path finding is told that it is not |
| WalkCache.Creature.GetWalkCache | src/src/creature.cpp:429-465 | what path finding is told about a position is what the creature believes of it, which is what the map says wherever the cache agrees |
| ItemStore.NoSelfContainment | src/src/container.cpp:270-307 | in a ranked store no item lies inside itself |
| ItemStore.BumpRepairs | src/src/container.cpp:121-126 | adding the difference here leaves exactly the parent out of balance, by the same difference |
| ItemStore.AttachUnbalances | src/src/container.cpp:467-504 | an item put in leaves exactly the new container out of balance, by the weight of the item; links and depths stay right |
| ItemStore.DetachUnbalances | src/src/container.cpp:591-652 | an item taken out leaves exactly the old container out of balance, by its weight |
| ItemStore.ReweighUnbalances | src/src/container.cpp:506-541 | an item that changes its own weight leaves exactly its container out of balance |
| ItemStore.TotalIsNestedWeight | src/src/container.cpp:121-131 | when every container balances, a total is the recursive sum over everything nested in it |
| ItemStore.TopOfNested | src/src/thing.cpp:27-45 | a container nested in a depot has the depot as its top parent if and only if the depot stands directly on a tile |
| Containers.Item.UpdateItemWeight | src/src/container.cpp:121-126 | pushing the difference up the parents restores the balance of the whole store |
| Containers.Item.AddThing | src/src/container.cpp:467-504 | the item comes to the front, unless the index is past the capacity; the store stays consistent and weighed |
| Containers.Item.InternalAddThing | src/src/container.cpp:757-789 | the same without a look at the capacity |
| Containers.Item.LoadItem | src/src/container.cpp:92-119 | one turn of the loading loop: to the back, with its weight |
| Containers.Item.UpdateThing | src/src/container.cpp:506-541 | a new type or count, and the weights follow |
| Containers.Item.ReplaceThing | src/src/container.cpp:543-589 | the list is as it was but for the new item at the index; the new item has the container as parent and the old one none, and the weights follow |
| Containers.Item.RemoveThing | src/src/container.cpp:591-652 | part of a stack or the whole item goes, and the weights follow |
| Containers.Item.AllItems | src/src/container.cpp:797-909 | the iterator visits every item nested at any depth exactly once, level by level, and ends |
| Containers.Item.GetItemHoldingCount | src/src/container.cpp:177-184 | equals the number of nested items |
| Containers.Item.IsHoldingItem | src/src/container.cpp:186-195 | true if and only if the item is nested, at any depth |
| Containers.ContainerIterator.Next | src/src/container.cpp:881-902 | one step keeps the queue, the visited items and their order in the walking relation |
| Containers.ContainerIterator.Finished | src/src/container.cpp:836-860 | an iterator at its end has visited all nested items, none twice |
| ItemWalk.WalkSteps | src/src/container.cpp:881-902 | the step relation of the walk is kept |
| ItemWalk.EverythingVisited | src/src/container.cpp:881-902 | whatever is nested has been visited once the queue is empty |
| ItemWalk.WalkIsComplete | src/src/container.cpp:797-909 | a finished walk is the set of nested items, in level order, without repetition |
| ItemWalk.DepotKeepsLimit | src/src/depot.cpp:41-67 | what the query counts is enough for what the move brings into the depot, also for a full container |
| ItemWalk.CountsExactly | src/src/depot.cpp:41-62 | for a depot on a tile and an item that goes as a whole the count is exact: nothing if the item is in the depot already, else the item and all that is nested in it |
| ItemWalk.DepotKeepsLimitAnew | src/src/depot.cpp:41-67 | the same when a stack goes and a new item comes in its place |
| ItemWalk.OnTileWatches | src/src/container.cpp:270-307 | a depot directly on a tile watches over exactly the containers nested in it, and itself |
| ItemWalk.NestedElsewhere | src/src/depot.cpp:41-67 | what is put in elsewhere adds nothing to what is nested in a depot |
| Containers.Item.GetTopParent | src/src/thing.cpp:27-45 | climbs to the last cylinder below the one without a parent |
| Containers.Item.IsAround | src/src/container.cpp:283-292 | the loop over the parents finds exactly the cylinders around a container |
| Containers.Item.ContainerQueryAdd | src/src/container.cpp:270-307 | accepts if and only if the child is owner, or the item can be picked up, does not hold the container, finds a slot, and the top parent does not mind |
| Containers.Item.DepotQueryAdd | src/src/depot.cpp:41-67 | accepts if and only if the limit is waived or not reached with the counted items, and the container rule holds |
| Containers.Item.QueryMaxCount | src/src/container.cpp:309-370 | a hundred for each free slot and what stacks of the same item have left, if the query lets that in; enough if that covers what is asked for |
| Containers.Item.QueryRemove | src/src/container.cpp:372-389 | lets go of some of what is there and can be moved, and of no more than a stack holds |
| Containers.Item.QueryDestination | src/src/container.cpp:391-454 | the container above, the last stack with room with the index behind it, the container at the index, or this one with the item at the index |
| Containers.Item.FoundStackHasNoSpare | src/src/container.cpp:429-443 | for a stack that was found only free slots count: the index behind it never shows what it has left itself |
| ItemMoves.FindDestination | src/src/game.cpp:1669-1680 | the loop over containers ends after one turn at most: where the first query leads, or, if that is another container, where the query of that one leads for any index; the flags hold only in the first container; the place is aimed at an item of its list or none, and a stack with room at the index is the one aimed at |
| ItemMoves.StaysThere | src/src/container.cpp:391-454 | at any index a container never leads to another one, so the limit of sixteen turns is never met |
| ItemMoves.FoundStackNeedsSlot | src/src/container.cpp:429-443 | a stack that was found is joined if and only if there is a free slot, which it does not need |
| ItemMoves.WaivedRestIsLost | src/src/game.cpp:1743-1763 | with limits waived, the rest that the last stack of a full container cannot take is aimed past the capacity |
| ItemMoves.Crowded | src/src/container.cpp:429-443 | thirty coins are refused by a full bag whose stack of sixty has room for them |
| ItemMoves.Spilled | src/src/game.cpp:1743-1763 | with limits waived eighty coins are moved to that bag: forty join the stack, forty are nowhere |
| ItemMoves.PlanIs | src/src/game.cpp:1682-1735 | a move goes through if and only if the destination accepts, has room for some, and the old place lets go; then as much goes as is asked for and fits |
| ItemMoves.MayMove | src/src/game.cpp:1682-1735 | all questions before a move answer exactly so |
| ItemMoves.WholeOrJoined | src/src/game.cpp:1722-1756 | of at most a hundred either all that is asked for goes, or all that goes joins another stack: so the count that the depot has checked holds |
| ItemMoves.NothingLost | src/src/game.cpp:1743-1763 | what is left of a stack comes to lie in a destination that has a size, unless limits are waived |
| ItemMoves.MoveItem | src/src/game.cpp:1682-1795 | as many go as planned and the answer is the planned one; then a stack is less by as many or gone, the one aimed at has grown by what it takes, the rest is a new item and an item that is no stack itself stands at the front, unless the index is past the capacity, and all other counts, places and lists stay; the store stays consistent, acyclic and weighed, and no watching depot passes its limit |
| ItemMoves.MoveHeld | src/src/game.cpp:1669-1795 | the whole of internalMoveItem for an item that lies somewhere: the questions are asked where the destination is, and what goes is there afterwards |
| ItemMoves.AmountsKept | src/src/game.cpp:1737-1763 | what leaves a stack is in the other one and in the new one: the amount of every type stays |
| ItemAdds.MayAdd | src/src/game.cpp:1816-1830 | the place is where one query leads, and the answer is yes if and only if that place accepts the item and the container that was asked has room for all of it |
| ItemAdds.AcceptsLoose | src/src/container.cpp:270-307 | the query for an item that lies nowhere: it may be picked up, there is no way into itself, the depots that watch have room for it with all it holds, and at any index there is a free slot |
| ItemAdds.MostForLoose | src/src/container.cpp:309-366 | a container takes of such a stack a hundred for each free slot and what its stacks have left |
| ItemAdds.RestAsked | src/src/game.cpp:1836-1862 | asked again for what is left of a stack, the answer is the one foreseen: yes if limits are waived; if stacks are not looked for, when the container is not full; and else when it has a size, or its stacks have room for all of it |
| ItemAdds.InternalAddItem | src/src/game.cpp:1811-1885 | an item that lies nowhere is added: the answer is yes if and only if all of it fits, and exactly as many come in as are foreseen, all, none, or what the stacks have room for; what does not join a stack comes to lie at the front of the place; a refusal at first changes nothing; the store stays consistent, acyclic and weighed, and every depot on a tile stays within its limit unless limits are waived |
| ItemAdds.AmountsAdded | src/src/game.cpp:1836-1879 | what joins a stack and what comes in itself is what the amount of the type grows by |
| ItemAdds.InternalMoveItem | src/src/game.cpp:1657-1795 | a whole move keeps the store consistent, acyclic and weighed; an item that lies somewhere goes to its destination exactly as planned, depots stay within their limits, and the number of items of every type stays; an item that lies nowhere is added without limits, the answer is yes if and only if all of it fits, and as many come in as foreseen |
| ItemAdds.PlainGoes | src/src/game.cpp:1669-1795 | an item that is no stack, may be picked up and moved, does not hold the bag, and meets a free slot and no depot or carrier that minds, goes, and the answer is yes |
| ItemAdds.MoveIntoBag | src/src/game.cpp:1657-1795 | then it stands at the front of the bag |
| ItemAdds.StackGoes | src/src/game.cpp:1669-1795 | up to a hundred of a stack that lies elsewhere go together, as asked, where there is a free slot and no stack to join, and the answer is yes |
| ItemAdds.PlainFits | src/src/game.cpp:1811-1885 | the same for one that lies nowhere: it is let in |
| ItemAdds.AddIntoBag | src/src/game.cpp:1811-1885 | and stands at the front of the bag |
| ItemMoves.LimitKept | src/src/depot.cpp:41-67 | in every case of a move the watching depot is within its limit |
| ItemRuns.Run | src/src/game.cpp:1657-1885 | after every run of moves, adds, updates, replacements, removals and loads no item lies inside itself, and every cached weight is the weight of all that is nested; a depot on a tile stays within its limit over every run in which what comes into it comes by way of the query, under limits, whatever happens elsewhere; and moves leave as many items of every type as there were |
| ItemRuns.WithinReplaced | src/src/container.cpp:543-589 | a replacement in a container elsewhere leaves a depot on a tile as it was, or emptier |
| ItemStore.DepthBound | src/src/thing.cpp:27-45 | nesting has a bound in every store, so the recursive weight is defined for all of it |
| DamageConditions.GenerateDamageList | src/src/condition.cpp:1273-1292 | terminates with a non-increasing list over every value from start down to 1; after the hits of each strength i the sum is as close to (start + 1 - i) * amount / start as hits of that strength bring it; the whole sum is at least the amount, and exactly the amount when start squared is at most the amount |
| DamageConditions.OnlyList | src/src/condition.cpp:1273-1292 | the amount and the first hit leave one such list only |
| DamageConditions.ConditionDamage.AddDamage | src/src/condition.cpp:1038-1066 | the rounds join the list, the ticks grow by their intervals; -1 rounds make it periodic |
| DamageConditions.ConditionDamage.Init | src/src/condition.cpp:1068-1092 | an empty list is filled with the generated hits, all of one interval, for the damage drawn and the first hit that was set, cut or worked out, and they sum up to that damage |
| DamageConditions.ConditionDamage.ExecuteCondition | src/src/condition.cpp:1106-1164 | one call works the front entry down, deals what is due, and answers whether the condition lives: off fields, on a matching field, and on one of another element, which uses hits up even for ever |
| DamageConditions.EndTimeTracksHits | src/src/condition.cpp:173-186 | while hits are left, the end time is exactly the time they have left away |
| DamageConditions.RunDealsInOrder | src/src/condition.cpp:1106-1164 | until its end is reported a condition deals a prefix of its list, in order, none twice; it gets through the whole list if and only if the last hit is due no later than one call after the end time |
| DamageConditions.NeededExact | src/src/condition.cpp:1147-1164 | when the step divides every interval no time is lost to rounding |
| DamageConditions.ConditionDamage.StartAndRun | src/src/condition.cpp:1094-1164 | from start to end, fresh or midway: it deals what a condition armed with its ticks deals, each hit once and in order; all if the step divides all intervals, and in general if and only if the rounded intervals fit |
| DamageConditions.CutShort | src/src/condition.cpp:1106-1164 | three hits three apart and called every two: the condition ends before the last |
| DamageConditions.MidwayKept | src/src/condition.cpp:1106-1145 | a call of executeCondition leaves each hit waiting for no longer than its interval |
| DamageConditions.ConditionDamage.StartCondition | src/src/condition.cpp:1094-1104 | end time, list and first hit of any condition, fresh or midway, periodic or not |
| DamageConditions.ConditionDamage.UpdateCondition | src/src/condition.cpp:1018-1036 | another condition takes over if it is forced to, or lasts longer and does no less harm |
| DamageConditions.ConditionDamage.TakesOverOnce | src/src/condition.cpp:1018-1036 | unforced, what takes over lasts longer and harms no less, so it is not taken over in turn |
| DamageConditions.ConditionDamage.TakesOverExactly | src/src/condition.cpp:1018-1036 | while both last for some time the one that lasts longer and harms no less takes over, and no other one |
| DamageConditions.ConditionDamage.AddCondition | src/src/condition.cpp:1180-1221 | a merge takes over ticks, damage and list of the other condition, but the first hit waits for as long as the old one would have, unless it is dealt at once |
| DamageConditions.ConditionDamage.MergeAndRun | src/src/condition.cpp:1106-1221 | merged with fresh hits in whole steps and run to its end, a condition deals them all if and only if it is not delayed, or the old front hit was due no later than one call after the interval of the new one |
| DamageConditions.MergedWhole | src/src/condition.cpp:1180-1221 | the same of the list alone |
| DamageConditions.MergedAway | src/src/condition.cpp:1180-1221 | a delayed condition whose front hit was nine seconds away never deals the one hit that it is given |
| DamageConditions.MergedOut | src/src/condition.cpp:1106-1221 | the same with the objects: one hit in nine seconds, a forced take-over by one hit in two, run to the end |
| DamageConditions.NeededMidway | src/src/condition.cpp:1117-1145 | when the step divides the intervals, the hits left midway are due within the sum of the intervals |
| StoredDamage.LogoutExactly | src/src/iologindata.cpp:955-966 | a condition of any class that is saved and loaded comes back if and only if it has ticks left and does not belong to a combat, or is a game master's |
| StoredDamage.DamageComesBack | src/src/iologindata.cpp:955-966 | of any conditions that the code makes, damage comes back if and only if some damage condition lasts |
| StoredDamage.CombatDamageEnds | src/src/items.cpp:1540-1580 | every damage condition is made for a combat, so none comes back |
| StoredDamage.StoredMidway | src/src/condition.cpp:941-1016 | one that lasts comes back alone and whole, with the sum of the remaining intervals as its ticks |
| DamageConditions.ResumedInOrder | src/src/condition.cpp:1094-1164 | armed with any ticks, a condition deals a prefix of its hits in order, and all of them if and only if the last is due no later than one call after the end time |
| StoredDamage.LogoutAndRun | src/src/condition.cpp:941-1164 | saved, loaded, started again and run to its end: nothing happens unless the condition lasts; then it deals its remaining hits in order, all of them if the step divides the intervals of a list midway, and in general if and only if the last is due in time |
| ConditionBonuses.TotalWithout | src/src/creature.cpp:1479-1496 | what a list lends, without one of its conditions |
| ConditionBonuses.Creature.Start | src/src/condition.cpp:1421-1432 | a started condition has given the creature exactly what it lends |
| ConditionBonuses.Creature.End | src/src/condition.cpp:504-535 | an ended condition takes back exactly what it lent |
| ConditionBonuses.Creature.MergeSpeed | src/src/condition.cpp:1440-1468 | a speed condition takes ticks, end time and speed over and the creature gets the difference |
| ConditionBonuses.Creature.MergeAttributes | src/src/condition.cpp:360-381 | ticks and end time are taken over, and the old bonuses are undone before the new ones are worked out and applied |
| ConditionBonuses.Condition.TakesInExactly | src/src/condition.cpp:288-292 | of two conditions of a type that last for some time speed takes the new one in always, others exactly when it does not end earlier |
| ConditionBonuses.Creature.AddCondition | src/src/creature.cpp:1443-1465 | merged into the first condition of the same type, id and sub-id, which takes over ticks, end time, speed and bonuses unless its rule refuses, or started and put last; all other conditions stay as they are; haste and paralysis end each other; the books stay balanced |
| ConditionBonuses.Creature.AddAndExecute | src/src/creature.cpp:1443-1609 | a condition with positive ticks that is taken in or started is still there after an execution up to now + ticks, and no longer after a later one |
| ConditionBonuses.Creature.RemoveType | src/src/creature.cpp:1479-1496 | the loop that erases while it walks removes exactly the conditions of the type |
| ConditionBonuses.Creature.RemoveTypeId | src/src/creature.cpp:1498-1515 | the same for a type and id |
| ConditionBonuses.Creature.RemoveOne | src/src/creature.cpp:1517-1529 | the same for one condition |
| ConditionBonuses.Creature.RemoveConditions | src/src/creature.cpp:1541-1558 | the same for all, or all persistent ones |
| ConditionBonuses.Creature.ExecuteConditions | src/src/creature.cpp:1571-1588 | all clocks go on by the interval, and exactly the conditions that have run out are ended |
| ConditionBonuses.Creature.Run | src/src/creature.cpp:1443-1588 | over every run of adding, merging, expiring and removing, the variable speed and every skill and stat bonus are the sums over the active conditions; with none active all are zero |
| ConditionBonuses.Creature.NothingLeft | src/src/creature.cpp:1541-1558 | with no condition left nothing is left over |
| ConditionBonuses.Creature.OneLeft | src/src/condition.cpp:1421-1439 | with one condition active the creature has exactly its speed, or a player its bonuses |
| PropStreams.PropWriteStream.AddType | src/src/fileloader.h:330-365 | the bytes join what is written; the buffer grows by the size plus 31 when they do not fit; what was written stays |
| PropStreams.PropWriteStream.AddString | src/src/fileloader.h:373-385 | the length cut to 16 bits, and as many bytes |
| PropStreams.PropWriteStream.AddLongString | src/src/fileloader.h:387-399 | the length in 32 bits, but cut to 16 before, and as many bytes |
| PropStreams.StringBack | src/src/fileloader.h:249-266 | a string comes back, whatever follows it, if and only if it is shorter than 65536 bytes |
| PropStreams.LongStringBack | src/src/fileloader.h:268-285 | the same for long strings |
| PropStreams.PropStream.GetType | src/src/fileloader.h:203-213 | the bytes at the cursor, or nothing at all when too few are left |
| PropStreams.PropStream.GetString | src/src/fileloader.h:249-266 | the string at the cursor; when bytes are missing the cursor stays behind the length |
| PropStreams.PropStream.GetLongString | src/src/fileloader.h:268-285 | the same for long strings |
| PropStreams.WriteAndRead | src/src/fileloader.h:249-399 | strings of both forms written one after the other and read in the same order: none fails, nothing is left over, and all come back the same if and only if all are shorter than 65536 bytes |
| PropStreams.SignedBack | src/src/fileloader.h:203-213 | a signed number comes back |
| ConditionCodec.ReadsFields | src/src/condition.cpp:63-73 | reading what was written sets the attributes in order and stops right behind the end code |
| ConditionCodec.BodyRead | src/src/condition.cpp:75-156 | for every class: setting the stored attributes on a fresh condition makes the condition again |
| ConditionCodec.IntervalsRead | src/src/condition.cpp:975-986 | the damage list comes back, and the ticks grow by every interval |
| ConditionCodec.TicksAreTotal | src/src/condition.cpp:975-986 | the ticks come back as the sum of the remaining intervals, if and only if that sum fits 31 bits |
| ConditionCodec.ConditionBack | src/src/condition.cpp:247-286 | one stored condition comes back whole, whatever follows it |
| ConditionCodec.ListBack | src/src/iologindata.cpp:486-496 | a stored list comes back up to the first condition whose type cannot be created |
| ConditionCodec.AllBack | src/src/iologindata.cpp:486-496 | of bytes that store conditions of any types, all come back if and only if every type can be created |
| ConditionCodec.NothingBehindUnknown | src/src/condition.cpp:188-245 | behind bytes of a type that cannot be created nothing is loaded |
| ConditionStorage.WrittenBack | src/src/iologindata.cpp:955-966 | of what the code makes everything that is written is loaded again, in order: a spell being cast, the one type that cannot be created, belongs to a combat and is not written |
| ConditionStorage.Condition.SerializeBase | src/src/condition.cpp:139-156 | the common attributes are written in their format |
| ConditionStorage.Condition.SerializeDamage | src/src/condition.cpp:995-1016 | damage: delayed, period damage, owner, and each interval |
| ConditionStorage.Condition.SerializeSpeed | src/src/condition.cpp:1399-1419 | speed: the outfits, the delta, and the formula |
| ConditionStorage.Condition.SerializeAttributes | src/src/condition.cpp:414-432 | attributes: skills, then stats |
| ConditionStorage.Condition.Serialize | src/src/condition.cpp:139-156 | every class appends exactly its attributes to the stream |
| ConditionStorage.Condition.UnserializeDamage | src/src/condition.cpp:941-993 | sets one attribute, or fails and leaves condition and cursor alone |
| ConditionStorage.Condition.UnserializeSpeed | src/src/condition.cpp:1338-1397 | the same for speed |
| ConditionStorage.Condition.UnserializeAttributes | src/src/condition.cpp:383-412 | the same for attributes, with their counters |
| ConditionStorage.Condition.Unserialize | src/src/condition.cpp:63-73 | the loop reads as the format says, also on bytes that nobody wrote |
| ConditionStorage.CreateCondition | src/src/condition.cpp:247-286 | a fresh condition of the stored type, or none |
| ConditionStorage.SaveConditions | src/src/iologindata.cpp:955-966 | the lasting conditions are written, each closed by the end code |
| ConditionStorage.LoadConditions | src/src/iologindata.cpp:486-496 | the loading loop gives what the format says, on any bytes |
| ConditionStorage.SaveAndLoad | src/src/iologindata.cpp:955-966 | what a player saved comes back restored: everything, of what the code makes, and up to the first type that cannot be created, of anything |
| Dispatching.NoLostWakeup | src/src/dispatcher.cpp:34-95 | in every interleaving: when the thread waits although a task is listed, some caller has pushed and not yet notified |
| Dispatching.NoDeadlock | src/src/dispatcher.cpp:34-113 | in every interleaving: while a task is listed and the thread has not ended, some thread can go on without a new call or a spurious wakeup |
| Dispatching.EveryTaskOnce | src/src/dispatcher.cpp:41-113 | every accepted task is listed or was removed, exactly once; removed tasks ended in that order, run or expired; tasks pushed at the back leave in acceptance order |
| Dispatching.AcceptedExactly | src/src/dispatcher.cpp:71-113 | in every run the tasks accepted are those of the calls of shutdown and of the calls of addTask that read RUNNING, but for those still before their push |
| Dispatching.AcceptedWhenRunning | src/src/dispatcher.cpp:71-95 | a call that reads the state goes on to put its task into the list exactly when it is RUNNING, whatever others do in between, at the head or at the end as it was handed over |
| Dispatching.AddedAlone | src/src/dispatcher.cpp:71-95 | a call of addTask that nobody interrupts, while RUNNING, leaves its task in the list, at the head if for the front and at the end otherwise |
| Dispatching.DroppedAlone | src/src/dispatcher.cpp:71-95 | in any other state it changes nothing |
| Dispatching.NothingLeftBehind | src/src/dispatcher.cpp:97-113 | when every shutdown comes after a stop, the list holds only ending tasks once the loop is left; with one stop it is empty if and only if there was one shutdown |
| Dispatching.SecondShutdownStays | src/src/dispatcher.cpp:102-113 | a second shutdown leaves its task in the list for ever |
| Dispatching.TerminatedExactly | src/src/dispatcher.cpp:34-107 | in every run from any state: TERMINATED in the end if and only if it was so and nobody called stop, or an ending task was carried out and nobody called stop after it |
| Dispatching.ThreadEndsExactly | src/src/dispatcher.cpp:34-107 | in every run from the start: the next test of the loop ends the thread if and only if an ending task was carried out with no stop after it |
| Dispatching.LateStopKeepsRunning | src/src/dispatcher.cpp:97-107 | such a stop exists: the ending task was carried out, its state is overwritten, and the thread sleeps for ever |
| Dispatching.ExclusiveKept | src/src/dispatcher.cpp:71-95 | every step keeps the mutex with the one that is between lock and unlock |
| Dispatching.WakesKept | src/src/dispatcher.cpp:45-48 | every step keeps a signal on its way |
| Dispatching.FiledKept | src/src/dispatcher.cpp:77-87 | every step keeps all tasks filed, once and in order |
| Dispatching.OrderlyKept | src/src/dispatcher.cpp:97-113 | every step keeps accepted work in front of the ending tasks |
| Dispatching.OneStopKept | src/src/dispatcher.cpp:97-113 | with one stop, given first, TERMINATED is never overwritten |
| Dispatching.StaysSafe | src/src/dispatcher.cpp:34-113 | all invariants hold in every reachable state |
| CombatAreas.CreateArea | src/src/combat.cpp:1425-1448 | the matrix is what the list draws: 1 and 3 set a cell, the last 2 or 3 is the centre |
| CombatAreas.RotateCells | src/src/combat.cpp:1379-1422 | all writes of a turn are in bounds, none hits a cell twice, and the output shows exactly the turned cells |
| CombatAreas.CopyArea | src/src/combat.cpp:1343-1423 | all cells are brought over by the operation, and the centre is the one the code computes |
| CombatAreas.TurnCarries | src/src/combat.cpp:1379-1422 | the offsets from the centre of a turned area are exactly the turned offsets |
| CombatAreas.MirrorExact | src/src/combat.cpp:1357-1367 | a mirrored area covers the mirrored offsets if and only if the drawing is square or empty: its centre is taken from the rows |
| CombatAreas.FlipExact | src/src/combat.cpp:1368-1378 | a flipped area covers the flipped offsets if and only if the drawing is square or empty: its centre is taken from the columns |
| CombatAreas.NoShift | src/src/combat.cpp:1357-1378 | no finite pattern is unchanged by a shift |
| CombatAreas.CombatArea.SetupArea | src/src/combat.cpp:1450-1471 | north is the drawing; east, south and west cover its offsets turned by 90, 180 and 270 degrees |
| CombatAreas.CombatArea.SetupExtArea | src/src/combat.cpp:1539-1565 | the four diagonals: mirror and flip as far as they are right, and the south-east always the mirror of the south-west |
| CombatAreas.SquareDiagonals | src/src/combat.cpp:1539-1565 | for square drawings the diagonals are mirror, flip and half turn |
| CombatAreas.Askew | src/src/combat.cpp:1357-1378 | a drawing of one row and two columns that is mirrored and flipped wrongly |
| CombatAreas.DirectionOf | src/src/combat.h:220-250 | the direction that points from the centre to the target: diagonal exactly with diagonal areas and a diagonal displacement, else along the column when there is one, and south for none |
| CombatAreas.DirectionTurns | src/src/combat.h:220-250 | a straight step in a direction is the step north, turned as the area of that direction is turned |
| CombatAreas.CombatArea.GetList | src/src/combat.cpp:1302-1341 | the loop with its 16-bit counters lists the covered positions row by row, if there is an area for the direction |
| CombatAreas.ListsCovered | src/src/combat.cpp:1302-1341 | the listed positions are exactly the target shifted by the covered offsets, where the sight is clear |
| CombatAreas.ListsTurned | src/src/combat.cpp:1302-1341 | a turned area lists exactly the target shifted by the turned offsets of the drawing |
| CombatAreas.ListedOnce | src/src/combat.cpp:1302-1341 | no position is listed twice |
| HouseRent.House.SetOwnerEx | src/src/house.cpp:104-143 | a new owner starts with the day of the acquisition and without warnings |
| HouseRent.House.PayRent | src/src/house.cpp:796-844 | charges exactly rent plus bid in 32 bits, from the bank when it is enabled and covers it, or else from the depot, or nothing; then the rent is paid for one period |
| HouseRent.House.PayHouse | src/src/house.cpp:846-964 | one visit does to house and player exactly what the rules say |
| HouseRent.PeriodHoldsExactly | src/src/house.cpp:820-842 | a charge keeps the next one off for the whole period, if and only if the date fits 32 bits |
| HouseRent.ChargesApart | src/src/house.cpp:796-964 | in any run of visits two charges lie at least one period apart, and each takes rent plus bid |
| HouseRent.EvictedLate | src/src/house.cpp:887-953 | warnings never pass the limit, payments do not take them back, and nobody is evicted for unpaid rent before limit + 1 days less the warnings already given |
| HouseRent.EvictionBound | src/src/house.cpp:887-953 | an owner who acquired the house at t is not evicted for unpaid rent before t + (limit + 1) days |
| HouseRent.NeverPaying | src/src/house.cpp:887-953 | who never pays is warned at each daily visit up to the limit and evicted at the next |
| HouseRent.PayersStay | src/src/house.cpp:846-964 | whoever is named, leads the guild of the house, keeps his account up and pays stays over any run of visits, and is never warned |
| HouseRent.ChargedExactly | src/src/house.cpp:846-889 | such an owner, if he is there to be charged, is charged rent plus bid exactly when rent is due |
| HouseRent.LostOtherwise | src/src/house.cpp:846-886 | a visit takes the house for another reason exactly when rent is due and the name, the leader, premium time or a login in time is missing |
| HouseRent.FreeStaysClean | src/src/house.cpp:118-134 | no warning is carried over to the next owner |
| Battlegrounds.SortedDescends | src/src/darghos_pvp.cpp:282-282 | the sorted list descends by level |
| Battlegrounds.SortedStable | src/src/darghos_pvp.cpp:282-282 | players of one level keep their order |
| Battlegrounds.SortedSame | src/src/darghos_pvp.cpp:282-282 | sorting neither loses nor doubles anybody |
| Battlegrounds.StrongestFirst | src/src/darghos_pvp.cpp:282-302 | nobody left waiting is stronger than anybody chosen, and nobody is lost |
| Battlegrounds.Battleground.BuildTeams | src/src/darghos_pvp.cpp:271-309 | goes ahead exactly when enough wait and no battle is on; the loop that takes the head of the list each time deals the first 2 * teamSize of the sorted list out in turn and leaves the rest waiting |
| Battlegrounds.FromEmptyTeams | src/src/darghos_pvp.cpp:287-302 | from empty teams: both hold exactly those dealt out, and are full and disjoint if and only if nobody was dealt out twice |
| Battlegrounds.BuiltFull | src/src/darghos_pvp.cpp:271-309 | with nobody in the list twice both teams are full and share nobody |
| Battlegrounds.WelcomeIsNew | src/src/darghos_pvp.cpp:123-143 | who is let into the list is new there if and only if he is not from localhost or not waiting yet: what playerIsInWaitlist skips |
| Battlegrounds.DistinctExactly | src/src/darghos_pvp.cpp:123-143 | over every run of joining and leaving, until a battle starts: nobody is in the list twice if and only if nobody from localhost came in again while he waited |
| Battlegrounds.ElsewhereIsWelcome | src/src/darghos_pvp.cpp:123-143 | a run without players from localhost meets that condition |
| Battlegrounds.EvenlyMatched | src/src/darghos_pvp.cpp:282-302 | the level sums differ by at most the highest less the lowest level chosen |
| Battlegrounds.Fair | src/src/darghos_pvp.cpp:287-302 | dealing out in turn from a descending list |
| Battlegrounds.TwiceFromLocalhost | src/src/darghos_pvp.cpp:123-143 | a run of two joins from localhost that puts one player into both teams |
| Battlegrounds.Battleground.PlayerIsInWaitlist | src/src/darghos_pvp.cpp:123-143 | the same player or the same address, but for localhost |
| Battlegrounds.Battleground.SortTeam | src/src/darghos_pvp.cpp:355-363 | a smallest team |
| Battlegrounds.Battleground.JoinRunning | src/src/darghos_pvp.cpp:446-495 | teams, list and answer become exactly what the rules of a late arrival say |
| Battlegrounds.LateArrival | src/src/darghos_pvp.cpp:446-495 | a late arrival is put in exactly when he is not inside, in no team, not fighting, nobody from his address plays and a team has room; it goes to a smallest team, which had room, and nobody else moves |
| Battlegrounds.LateKeeps | src/src/darghos_pvp.cpp:446-495 | never past the team size, and no gap wider than one or than it was; one more member exactly when put in |
| Battlegrounds.Battleground.JoinBuilding | src/src/darghos_pvp.cpp:433-445 | the player waits unless he does already, and a battle starts as soon as enough wait |
| Battlegrounds.Battleground.OnPlayerJoin | src/src/darghos_pvp.cpp:426-498 | every answer, and what becomes of teams, list and status |
| Battlegrounds.Battleground.Kick | src/src/darghos_pvp.cpp:511-560 | who is kicked is out of the team in which he is inside; who is not inside stays a member |
| Battlegrounds.KickExactly | src/src/darghos_pvp.cpp:511-560 | one member less if and only if the player was inside, and nobody else is touched |
| Battlegrounds.Battleground.Run | src/src/darghos_pvp.cpp:426-560 | any run of joining and leaving ends in the state that the rules give, one event after the other |
| Battlegrounds.RunFits | src/src/darghos_pvp.cpp:426-560 | over every run of joining and leaving, whoever comes, no team is past its size |
| Battlegrounds.RunRegular | src/src/darghos_pvp.cpp:426-560 | over every run in which nobody from localhost comes in again while he waits: nobody waits twice, and while nobody leaves the teams differ by one at most, or by as many as before |
| Battlegrounds.NobodyKeptWaiting | src/src/darghos_pvp.cpp:426-445 | over every run, while teams are built, fewer wait than two teams need: enough of them start their battle at once |
| Battlegrounds.DesertersStayOut | src/src/darghos_pvp.cpp:426-432 | over every run, whatever is going on, what deserters try changes nothing |
| Battlegrounds.LateAddress | src/src/darghos_pvp.cpp:446-495 | who comes late into a team shares the address of no member who is online, unless it is localhost |

## Left out

- Real files, zlib, seek and read failures and the error codes of the loader: a file is a sequence of bytes, and reading within it succeeds.
- FileLoading.FileLoader.Run: operations start inside the file, and what is read lies in it. A cached `readBytes` that runs past the end never ends (FileLoading.ReadingEndsExactly); one that starts past the end fails or, in a block that is loaded already, copies stale bytes, and is left out.
- FileLoading.FileLoader.ReadBytes: with the cache on, the bytes asked for lie in the file, as for FileLoader.Run.
- FileLoading.FileLoader.GetProps: properties fit the buffer after one growth by 1024 bytes, as the code needs them to; beyond that it writes past its buffer.
- FileLoading.SaveAndLoad: asks for the same of the whole file through `Room`; FileLoading.RoomExactly says exactly when there is room.
- Widths of 32 and 64 bits of positions, weights, levels and damage: numbers are unbounded, except where the code cuts them to 16 or 32 bits and a property depends on it.
- DamageConditions.GenerateDamageList: the floating-point comparison of the code is replaced by the exact one, 2 * (med - sum) > i.
- DamageConditions.RunDealsInOrder: the creature stands on no matching field, which arms the front entry again; DamageConditions.ConditionDamage.ExecuteCondition covers every field. So is every run of DamageConditions.ConditionDamage.StartAndRun, DamageConditions.ConditionDamage.MergeAndRun and StoredDamage.LogoutAndRun.
- WalkCache.Creature.Run: positions keep away from the edge of the 16-bit map. What changes an answer with no refresh at all, such as a condition of the creature itself or a creature that disappears, is one event, Unseen.
- Tiles, players and other cylinders that are no containers answer a query by a parameter; things that are no items, `Container::clone` (it adds clones without weight), inventory notifications and decay are left out.
- ItemMoves.MoveItem: the destination is a container, and containers never ask for an exchange; Counts of stacks are numbers; the code keeps them in 8 bits.
- ItemAdds.InternalAddItem: when the answer for the rest of a stack is no, what has joined already stays; the number left over, which the caller is told, is what has not come in. Asking without adding is left out.
- ItemAdds.InternalMoveItem: the depot limit is promised for moves of up to a hundred items, as many as a stack holds; a larger stack would be split against the count that the depot has checked.
- Containers.Item.ReplaceThing: the two weights are pushed up one after the other, instead of their difference.
- Weights are integers.
- ConditionBonuses.Creature.ExecuteConditions: the clocks and the ending are modelled; what a condition does to its creature at a tick (damage, healing, light, outfits) is not, nor that damage on a matching field puts its own end off: that is DamageConditions.ConditionDamage.ExecuteCondition.
- StoredDamage.LogoutAndRun: a condition that works off a list. Periodic damage, whose tick interval is not stored, is left out, and so is what time passes for a player who is offline.
- ConditionBonuses.Creature.Start: percentages of a player's skills and the drawn speed are parameters; events and icons are left out.
- ConditionBonuses.Creature.MergeOther: the rule of ConditionGeneric; damage, light and outfit conditions have rules and fields of their own, which lend nothing to the creature.
- ConditionStorage.Condition.UnserializeAttributes: a number past the last skill or stat is refused; the code writes past its array there.
- DamageConditions.ConditionDamage.AddCondition: owner and field of the condition are left out, and whether a hit goes through.
- Outfits and floats of stored conditions are opaque bytes; fields that are not stored (percentages, internal counters) start fresh.
- Dispatching.NoLostWakeup: one dispatcher thread; memory order beyond the atomic state, and what tasks do, are left out; a task that calls back is one more caller.
- CombatAreas.RotateCells: rotations are exact; the code rounds sines and cosines of 3.1416 / 180, which agrees for offsets of a real spell.
- CombatAreas.CreateArea: lists of equal rows with at most 32768 rows and columns; other lists run past the matrix. The lists that `setupArea` builds from length, spread or radius are left out.
- HouseRent.House.PayHouse: letters, saving offline players and the database are left out. A house won in an auction gets its owner by `setOwner`, without the day of acquisition, so HouseRent.EvictionBound does not cover it; HouseRent.EvictedLate does.
- Battlegrounds.Battleground.Run: starting, finishing and closing a battle are left out; they erase players during iteration or rebuild teams before old players have left. Positions, outfits and statistics are left out.
- Battlegrounds.Battleground.Kick: the team is the one in which the player is inside; the code asks the player, whom `putInside` has told. Team sizes are below 32768, since the counter of the dealing loop has 16 bits.
- Databases, Lua and XML loading, network, chat, configuration tables and client notifications.
