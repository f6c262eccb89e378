# Xania: the parts that must not go wrong

Xania is a multi-user game server written in C++. These Dafny modules model seven of its
mechanisms and prove what each of them is there to guarantee. Where the C++ changes objects in
place, so does the model: classes with methods, each proved against a function on values, and
theorems about those functions over every input or every run.

* **The list that may be changed while it is iterated** (`PlainList`, `RefList`, `Traversal`,
  `ListLaws`, `GenericLists`, `ListRuns`). `PlainList` says what such a list means: a sequence of entries and some
  cursors. `RefList` has the reference counts and tombstones, and `RefList.StepRefines` shows
  that no operation, in whatever order iterators and changes are mixed, lets them be seen.
  `Traversal` draws the conclusions for range-for loops and for whole runs, and `ListLaws` says
  what the operations do to the items, and what loops see of the items added under them. `GenericLists` has
  the C++ objects, node by node and iterator by iterator, each method tied to one `RefList` step,
  and `ListRuns` has runs and loops over these objects.
  An entry carries an integer key that stands for its node's address; keys are handed out above or
  below all earlier ones, so they also say where in the list an entry belongs.
* **Mob programs** (`MobLines`, `MobProgram`, `MobStructure`, `IfExpressions`). The interpreter runs a flat
  list of lines over a stack of frames and calls itself at each `if`. It is proved equal to one
  flat loop, and that loop is proved to do, command by command and condition by condition, what
  the nested program says whose text the lines are. A line read over an empty stack is undefined
  behaviour in the C++; `MobProgram.FlatRunDefined` says exactly for which programs that happens.
  Which texts are ifs, elses and endifs, and conditions of the form `func(arg) op operand`, are
  characterised exactly.
* **Snooping** (`SnoopGraph`, `Descriptors`, `OutputPass`). Which links are accepted, that no
  loop ever forms, and that buffered output drains without getting lost. The search refuses more than loops: it refuses
  any target from which some descriptor can be reached in two ways (`SnoopGraph.DiamondIsNotClear`).
* **The command table** (`CommandSets`). The search of the ordered map answers as a linear scan of
  the additions would. A level gets the answers it would get if there were nothing above it exactly
  if no addition is shadowed (`CommandSets.LevelLearnsNothingExactly`): an addition at or below the
  level is shadowed if its name was taken before, by something above the level, and nothing before
  it at or below the level has that name or one that starts with it. `CommandSets.SameNameHides`
  is the smallest table with a shadowed addition; additions with different names cast no shadows.
* **Random numbers** (`Rng`). The ring buffer computes a recurrence with lags 55 and 27, loses no
  information, never collapses, and the sampling on top favours no value and always ends: for no
  seed can the generator go on for ever giving outputs that a range rejects.
* **Duels** (`DuelBook`, `DuelRuns`, `Duel`). Two half records, any number of players, any order
  of commands, ticks and departures.
* **Movement, doors and area resets** (`Movement`, `Doors`, `Area`). The cascade of followers over
  any follower graph; the two sides of doors; the reset timer. That the two sides of every door
  agree is kept by every command by itself; that a locked door is closed is kept by opening and
  locking only if the far side is in step. The contracts of `Doors.DoOpen` and `Doors.DoLock`
  give the exact condition, and `Doors.OpeningCanFail` and `Doors.LockingCanFail` run each of them
  on a door whose two sides a reset has left in different states.

The comment on area resets says that Mud School is reset every one or two minutes. The code makes
it wait five updates, always, and the model follows the code.

## Model

| member | source | states |
|---|---|---|
| RefList.StepRefines | src/GenericList.hpp:33-52 | Any one operation on list or iterators keeps counts and tombstones sound and acts on live entries and cursors exactly as the plain list's operation does |
| RefList.AdvanceRefines | src/GenericList.hpp:106-117 | `++` lands on the least live entry beyond the one it stood on, even if that one was removed meanwhile, else at the end |
| RefList.BeginRefines | src/GenericList.hpp:71-95 | `begin` stands on the first live entry, whatever tombstones come first |
| RefList.RemoveRefines | src/GenericList.hpp:40-46 | Removing takes the first live match out of the live entries, with or without iterators on it |
| RefList.ClearRefines | src/GenericList.hpp:49-52 | Clearing leaves no live entry and disturbs no iterator |
| RefList.AddBackRefines | src/GenericList.hpp:34 | An added element comes after all others, with no reference to it |
| RefList.AddFrontRefines | src/GenericList.hpp:36 | An added element comes before all others, with no reference to it |
| RefList.AssignRefines | src/GenericList.hpp:134-142 | Copy assignment, to itself too, releases the old place and shares the new one |
| RefList.MoveAssignRefines | src/GenericList.hpp:144-151 | Move assignment releases the old place and takes over the other's place and count |
| RefList.MoveRefines | src/GenericList.hpp:143 | Move construction takes place and count over |
| RefList.DetachSound | src/GenericList.hpp:122-128 | Letting go erases a tombstone nobody else holds, and no live entry is lost |
| RefList.SkipFindsNext | src/GenericList.hpp:85-95 | Stepping over tombstones finds the least live entry beyond a key |
| RefList.NoIteratorsNoTombstones | src/GenericList.hpp:10-17 | Once every iterator is gone or at the end, the stored nodes are exactly the live items, with no counts left |
| Traversal.RangeForVisits | src/GenericList.hpp:10-17 | A range-for loop whose bodies do anything to the list and to other iterators visits live items only, in list order, none twice; at the end it has seen a present element exactly if it was not added at the front after the start, and of those there at the start exactly the ones that no body removed while the loop stood before them |
| Traversal.RangeForSees | src/GenericList.hpp:79-95 | At any moment of such a loop, of the elements not passed yet it goes on to see exactly those not removed ahead of it, elements added on the way included |
| Traversal.RemovingLoopSeesAll | src/GenericList.hpp:10-14 | A loop that removes each element as it sees it sees all of them, in order, and leaves none |
| Traversal.LoopIsSnapshot | src/GenericList.hpp:79-95 | If nothing is added, a loop sees what going over a copy taken at the start sees, passing over what has gone by then |
| ListLaws.AddBackPuts | src/GenericList.hpp:34 | After an addition at the back the items are those before and then the new one |
| ListLaws.AddFrontPuts | src/GenericList.hpp:36 | After an addition at the front the items are the new one and then those before |
| ListLaws.RemoveTakes | src/GenericList.hpp:40-46 | A removal takes out the first equal item and nothing else, and nothing if there is none |
| ListLaws.ClearEmptiesAll | src/GenericList.hpp:49-52 | After clearing there are no items |
| ListLaws.IteratorsTakeNothing | src/GenericList.hpp:106-155 | Nothing iterators do changes the items |
| ListLaws.AddsBuild | src/GenericList.hpp:34-36 | Any run of additions leaves the front items, the last one first, what was there, and the back items in order |
| ListLaws.AddedBackIsSeen | src/GenericList.hpp:34 | What any body of a loop adds at the back is put in the list, and a loop that gets to the end has seen it exactly if it was not removed before the loop came to it |
| ListLaws.AddedFrontIsUnseen | src/GenericList.hpp:36 | What any body of a loop adds at the front is put in the list and never seen by the loop |
| Traversal.RemovedIsNeverVisited | src/GenericList.hpp:79-95 | An element removed before an iteration begins is not visited in it or later |
| Traversal.EveryRunIsSound | src/GenericList.hpp:118-155 | After any operations from an empty list, counts equal the iterators on each node, every tombstone is referenced, and no iterator stands on an erased node |
| Traversal.RangeForRefines | src/GenericList.hpp:106-117 | Loops over the counted list and over the plain list read the same items |
| GenericLists.GenericList.AddBack | src/GenericList.hpp:34 | The items afterwards are those before and then the new one; the list object takes exactly the `AddBack` step; every node it stores was there before or is a new object |
| GenericLists.GenericList.AddFront | src/GenericList.hpp:36 | The items afterwards are the new one and then those before; the list object takes exactly the `AddFront` step; every node it stores was there before or is a new object |
| GenericLists.GenericList.Remove | src/GenericList.hpp:40-46 | The first equal item is taken out, and the result says if there was one; the list object takes exactly the `Remove` step and stores no node object it did not store before |
| GenericLists.GenericList.Clear | src/GenericList.hpp:49-52 | No items are left; the list object takes exactly the `Clear` step; it stores no node object it did not store before |
| GenericLists.GenericList.RemoveOrTombstone | src/GenericList.hpp:79-84 | A node is erased or emptied according to its count, and the next position is returned |
| GenericLists.GenericList.GetFirstNonTombstone | src/GenericList.hpp:85-95 | The first live node, after erasing the unreferenced tombstones on the way |
| GenericLists.GenericList.Begin | src/GenericList.hpp:71 | A new iterator and the list take exactly the `Begin` step |
| GenericLists.Iter.At | src/GenericList.hpp:132 | Constructing an iterator at a node counts one more reference there |
| GenericLists.Iter.Copy | src/GenericList.hpp:133 | Copy construction takes exactly the `Copy` step; the list keeps its node objects |
| GenericLists.Iter.Moved | src/GenericList.hpp:143 | Move construction takes exactly the `Move` step and leaves the other without a list; the list keeps its node objects |
| GenericLists.Iter.Incref | src/GenericList.hpp:118-121 | One more reference on the node, none at the end |
| GenericLists.Iter.Decref | src/GenericList.hpp:122-128 | One reference fewer; a tombstone goes with its last reference |
| GenericLists.Iter.Destroy | src/GenericList.hpp:155 | Destruction takes exactly the `Destroy` step; no node object is added |
| GenericLists.Iter.Advance | src/GenericList.hpp:106-117 | `++` takes exactly the `Advance` step |
| GenericLists.Iter.Assign | src/GenericList.hpp:134-142 | Copy assignment within one list or across two, each list taking its own step, which iterators each list has then, and that neither has gained a node object |
| GenericLists.Iter.MoveAssign | src/GenericList.hpp:144-151 | Move assignment within one list or across two, each list taking its own step, which iterators each list has then, and that neither has gained a node object |
| GenericLists.Size | src/GenericList.hpp:60 | The number of live entries; list and other iterators mean what they did before |
| GenericLists.IsEmpty | src/GenericList.hpp:55-58 | True exactly if there is no live entry, whatever tombstones there are |
| ListRuns.PerformAll | src/GenericList.hpp:33-52 | Any sequence of operations on a list object and the iterators on it has the outcome of the same run on values |
| ListRuns.Build | src/GenericList.hpp:34-36 | Any run of additions to a new list object gives the front items, the last one first, and then the back items in order |
| ListRuns.RangeFor | src/GenericList.hpp:106-117 | A range-for loop over the objects, whose bodies change the list and move or destroy other iterators, reads and leaves what the loop on values does |
| ListRuns.ForEach | src/GenericList.hpp:10-17 | A whole loop over the objects whose bodies add, remove and clear sees exactly what the theorem on loops says |
| ListRuns.RemoveEach | src/GenericList.hpp:10-14 | `for (obj : things) things.remove(obj)` reads every item in order and leaves the list empty and other iterators as they were |
| ListRuns.TwoLists | src/GenericList.hpp:134-142 | Two lists grown side by side, an iterator assigned across them and both cleared: no node is left once the iterators are gone |
| MobProgram.FlatRunDefined | src/MProgImpl.cpp:439-443 | A run is defined exactly if no line is read over an empty stack, and ends with height 1 + #if - #endif |
| MobProgram.FramesStayNested | src/MProgImpl.hpp:38-44 | Throughout, a frame is executable exactly if the one below is executing, and executes only if executable |
| MobProgram.ExecutionCtx.constructor | src/MProgImpl.hpp:50-55 | Execution starts with one frame that may and does execute |
| MobProgram.ExecutionCtx.ProcessLine | src/MProgImpl.cpp:440-457 | What one line does to frames, world and history |
| MobProgram.ExecutionCtx.ProcessBlock | src/MProgImpl.cpp:432-459 | The recursive interpreter does what one flat loop does and always ends at the last line |
| MobProgram.UnclosedIffFramesLeft | src/MProgImpl.cpp:484-486 | Frames are left over exactly if some `if` is never closed |
| MobLines.KindOfReadsLines | src/MProgImpl.cpp:440-454 | A line is an if with a condition exactly if its text is white space, `if` in any case, bare or quoted, its end, and then the condition behind white space; likewise else and endif; all others are commands |
| MobLines.ReadersAgree | src/ArgParser.cpp:5-29 | There is only one way to read lines so |
| MobProgram.OneBranchRuns | src/MProgImpl.cpp:444-456 | An if with an else asks its condition once and then does the one command or the other, in the world the condition left |
| MobProgram.SkippedLinesDoNothing | src/MProgImpl.cpp:448-456 | In a branch that does not run nothing is asked or done, whatever ifs and elses it holds |
| MobProgram.Drive | src/MProgImpl.cpp:472-487 | Nothing for a charmed mob; otherwise a random pick and then the run, of the lines as their texts are, from the world that leaves, and an unbalanced report exactly if an `if` is unclosed |
| MobStructure.BlockRuns | src/MProgImpl.cpp:439-457 | The flattened lines of a block do what the block says if the frame executes, nothing otherwise, and give the frames back |
| MobStructure.StmtRuns | src/MProgImpl.cpp:448-453 | The same for one command or one whole `if`; no condition is asked in a skipped branch |
| MobStructure.SectionsRun | src/MProgImpl.cpp:444-447 | Any number of `else` parts alternate within an `if` that may execute |
| MobStructure.BalancedIsText | src/MProgImpl.cpp:432-459 | Every balanced list of lines is the text of a nested program |
| MobStructure.TextParsesBack | src/MProgImpl.cpp:432-459 | No two nested programs have the same text |
| MobStructure.CompletedRunsAlike | src/MProgImpl.cpp:484-486 | Adding missing `endif`s, or dropping a last one too many, changes nothing a program does |
| MobStructure.FlatMeansStructured | src/MProgImpl.cpp:432-459 | Every runnable list of lines does exactly what the nested program says: same commands and conditions, same order, same worlds |
| MobStructure.GameProgramsMeanWhatTheySay | src/MProgImpl.cpp:440-448 | The same with lines read for what their texts are |
| IfExpressions.ParseIfExact | src/MProgImpl.cpp:507-559 | A condition parses to a result exactly if it is some spacing of well-formed parts with that meaning |
| IfExpressions.LayoutSplits | src/MProgImpl.cpp:511-548 | Whatever the spacing, the parts are found again |
| IfExpressions.SplitIsLayout | src/MProgImpl.cpp:511-548 | Nothing else is accepted |
| IfExpressions.PrintParsesBack | src/MProgImpl.cpp:553-558 | Printing a parsed condition parses to the same condition, numbers included |
| IfExpressions.OperandsAreRead | src/MProgImpl.cpp:553-558 | An operand in decimals becomes that number, any operand that is not a sign and digits stays that word, and without a comparison there is neither |
| Text.DecimalReadsBack | src/string_utils.cpp:24-49 | The decimal form of every 32-bit number is a number and reads as that number |
| Text.TrimSplits | src/string_utils.cpp:79-88 | A text is its trimmed form between white space |
| Text.TrimPad | src/string_utils.cpp:84-88 | White space around a trimmed text is exactly what trimming takes off |
| Text.PlusSign | src/string_utils.cpp:27-36 | A plus sign or a leading zero does not change a number |
| Text.CaseMeans | src/string_utils.cpp:252-256 | Which characters are equal when case does not matter |
| Text.SpaceMeans | src/string_utils.cpp:75-82 | Which characters are white space |
| SnoopGraph.ExploreDone | src/Descriptor.cpp:190-194 | A search that meets no descriptor twice has seen exactly what its start reaches, each along one path only |
| SnoopGraph.ExploreFails | src/Descriptor.cpp:191-193 | A search that meets a descriptor again has found one on the forbidden list or reached in two ways |
| SnoopGraph.DiamondIsNotClear | src/Descriptor.cpp:190-194 | Reaching one descriptor in two ways is refused even if there is no loop |
| SnoopGraph.LinkKeepsAcyclic | src/Descriptor.cpp:196-201 | A link whose target does not reach back closes no loop |
| SnoopGraph.SubgraphAcyclic | src/Descriptor.cpp:205-213 | Dropping links opens no loop |
| SnoopGraph.ChainFits | src/Descriptor.cpp:125-131 | Without loops no chain of snooped descriptors is longer than their number |
| Descriptors.SnoopLoopChecker.Snoops | src/Descriptor.cpp:187-195 | The search with one seen-set ends and reports a duplicate exactly if the start is not clear of what was seen |
| Descriptors.Descriptor.TryStartSnooping | src/Descriptor.cpp:179-203 | For two open descriptors, true exactly if already linked, or the caller is unreachable from the target and nothing is reachable from it in two ways; links stay mirrored and acyclic |
| Descriptors.Descriptor.StopSnooping | src/Descriptor.cpp:205-208 | One link goes, on both ends; the rest stays consistent |
| Descriptors.Descriptor.StopAllSnooping | src/Descriptor.cpp:210-213 | All links to victims go, on both ends |
| Descriptors.Descriptor.Write | src/Descriptor.cpp:138-153 | What a write leaves in the buffer, first line break and overflow included |
| Descriptors.WrittenExactly | src/Descriptor.cpp:142-152 | What was buffered stays and the message comes behind it, after a line break if it is the first and answers no command; up to 32000 characters in all |
| Descriptors.ForwardedExactly | src/Descriptor.cpp:125-131 | What arrives at a snooper is name, arrow and text in one piece behind what it had |
| Descriptors.Descriptor.FlushOutput | src/Descriptor.cpp:121-136 | The buffer is emptied; every snooper with room for it gets name, arrow and text in full, and exactly the others overflow |
| Descriptors.Descriptor.Close | src/Descriptor.cpp:215-261 | Every link of the closed descriptor goes, on both ends, and no other link does; only its snoopers get text, what was still buffered and then the news |
| OutputPass.ProcessOutput | src/MudImpl.cpp:572-598 | The buffer ends up empty, and every snooper with room for it gets all of it, paging notice or prompt included; it fails exactly if the connection does not take the text or the go-ahead |
| OutputPass.AppendedExactly | src/MudImpl.cpp:574-593 | If all of the closing text fits, it comes behind what was buffered, piece by piece |
| OutputPass.Turn | src/MudImpl.cpp:338-347 | If the turn comes, every snooper with room for it gets all that goes out; the connection is closed exactly if it does not take something, and then the snoopers get the news too; nobody else gets anything, and if the turn does not come nothing happens |
| OutputPass.Pass | src/MudImpl.cpp:337-350 | One pass in any order: whoever still has text snoops down a longer chain than before; and if no connection breaks and nobody overflows, all that anybody had buffered has been shown to each of their snoopers, in one piece, and nothing shown is lost |
| OutputPass.Quiesce | src/MudImpl.cpp:337-350 | With no new commands, as many passes as descriptors, each in any order, leave every buffer empty; and if no connection breaks and nobody overflows, all that anybody had buffered has been sent to each of their snoopers |
| OutputPass.NoCommands | src/MudImpl.cpp:300-301 | The start of a turn of the loop clears every processing flag |
| CommandSets.CommandSet.Add | src/CommandSet.hpp:15-18 | The map goes on indexing the whole history of additions; a repeated name is ignored but uses up an order number |
| CommandSets.CommandSet.Get | src/CommandSet.hpp:20-45 | The answer is the first addition of a new name that begins with what was typed, in any case, and whose level is low enough, and none only if there is none; it is that of a linear scan |
| CommandSets.ScanFindsFirst | src/CommandSet.hpp:36-42 | The scan finds the first addition of a new name that has the prefix and a low enough level, and none only if there is none |
| CommandSets.PrefixBlock | src/CommandSet.hpp:31-35 | Names with a common prefix stand together from the lower bound on, so the early stop misses none |
| CommandSets.InsertIndexes | src/CommandSet.hpp:17 | Inserting at the lower bound unless the name is there keeps order, index and history together |
| CommandSets.InvisibleExactly | src/CommandSet.hpp:26-28 | For everything that can be typed, the first addition that fits within the level wins, if and only if no addition is shadowed |
| CommandSets.LevelLearnsNothingExactly | src/CommandSet.hpp:26-28 | A level gets the answers it would get if there were nothing above it if and only if no addition is shadowed, additions being told apart by their values |
| CommandSets.HigherLevelsAreInvisible | src/CommandSet.hpp:26-28 | Two tables with the same additions up to a level, none shadowed, give that level the same answers |
| CommandSets.DifferentNamesCastNoShadow | src/CommandSet.hpp:26-28 | Nothing is shadowed if no name above the level is also used at or below it |
| CommandSets.LaterNameCastsNoShadow | src/CommandSet.hpp:15-18 | Nor by a later addition of the same name |
| CommandSets.SameNameHides | src/CommandSet.hpp:15-18 | A command of the same name added above the level first does shadow and hide the lower one |
| Rng.KnuthRng.constructor | src/Rng.cpp:57-68 | The ring holds the seeded Fibonacci words modulo 2^30, indices 0 and 28 |
| Rng.KnuthRng.NumberMm | src/Rng.cpp:70-83 | Call number k returns the recurrence's word k + 55 without its low 6 bits |
| Rng.WordsExactly | src/Rng.cpp:63-74 | The recurrence in full: seed and one, sums of the two words before up to number 54, then of those 55 and 27 back, all modulo 2^30 |
| Rng.StepKeepsWindow | src/Rng.cpp:70-81 | The ring always holds 55 consecutive words of the recurrence, each in its slot |
| Rng.SumNeverOverflows | src/Rng.cpp:74 | The 32-bit sum of two words never overflows, and masking is taking it modulo 2^30 |
| Rng.StepInjective | src/Rng.cpp:70-81 | Two different states never step to the same one |
| Rng.NeverCollapses | src/Rng.cpp:57-83 | For every seed and any number of calls some word of the ring is odd |
| Rng.NoValueFavoured | src/Rng.cpp:25-30 | For spans up to 2^24 each result has the same number of raw values behind it, and fewer than half of the masked values are rejected |
| Rng.AcceptedComes | src/Rng.cpp:29-30 | For every seed, moment and span, one of the next 56 + 864 * power outputs is accepted, so rejection always ends |
| Rng.GapsGrow | src/Rng.cpp:74 | As long as all words stay in the upper half of a power of two they drift towards its middle, by at least one every 27 words |
| Rng.KnuthRng.NumberRange | src/Rng.cpp:18-34 | A value in the range, made of the first raw output that fits and no later one; it always ends, after a bounded number of outputs; nothing is drawn for a range of one value or none |
| Rng.KnuthRng.NumberPercent | src/Rng.cpp:36-43 | A value from 1 to 100, made of the first raw output that fits; it always ends |
| Rng.KnuthRng.Dice | src/Rng.cpp:5-16 | The sum of that many throws in a row, within [n, n * s]; the outcome for every odd argument too |
| Rng.ThrowsAreSettled | src/Rng.cpp:11-15 | Seed, calls so far and dice determine the sum and the calls used up |
| DuelBook.StepKeepsMatching | src/Duel.cpp:84-154 | Every event keeps the records a matching: rivals point back, nobody faces themselves, never both merely invited |
| DuelBook.RunKeepsMatching | src/Duel.cpp:84-154 | The same over every run |
| DuelBook.NobodyIsLeftBehind | src/Duel.cpp:115-129 | After somebody has gone no record speaks of them |
| DuelBook.CommandExactly | src/Duel.cpp:84-113 | A command makes an invitation of 2 ticks of two players without records, a duel of 10 of an answered one, and changes nothing otherwise |
| DuelBook.CommandsEndNothing | src/Duel.cpp:106-111 | No command ends a record or changes its rival; one changes exactly if the invited side answers its own inviter |
| DuelBook.EndExactly | src/Duel.cpp:115-129 | An end takes away the two records of one pair and leaves all others |
| DuelBook.CheckExactly | src/Duel.cpp:131-154 | A check takes one tick from one record, and both records with the last one |
| DuelRuns.ProgressNeedsConsent | src/Duel.cpp:156-163 | A duel is in progress only if each party typed `duel` at the other, one after the other, the records standing since |
| DuelRuns.PairOrigin | src/Duel.cpp:52-75 | Who asked first, and that only the asker has agreed until the other asks too |
| DuelRuns.RecordsExpire | src/Duel.cpp:131-154 | With one check per player a tick, a pair survives at most 10 ticks, unanswered at most 1 |
| DuelRuns.AcceptedDuelsExpire | src/Duel.hpp:32-34 | Once accepted, a pair survives at most 9 ticks |
| DuelRuns.PairsRunOut | src/Duel.cpp:131-154 | Time in hand falls every tick, over acceptances too |
| DuelRuns.PairsSurviveInRuns | src/Duel.cpp:84-154 | In every run a pair lasts through whatever anybody types, as long as neither of the two leaves or has been checked as often as it has ticks |
| DuelRuns.UndisturbedPairsLast | src/Duel.cpp:136-138 | Left alone, a pair lasts exactly the ticks it has |
| DuelRuns.TicksGiven | src/Duel.cpp:52-68 | An invitation gives 2 ticks, its acceptance 10 and a duel in progress both ways |
| Duel.SendInvitation | src/Duel.cpp:52-56 | Both halves are created, challenger agreed, challengee invited |
| Duel.AcceptInvitation | src/Duel.cpp:64-68 | Both halves get 10 ticks and are agreed |
| Duel.IssueOrAcceptInvitation | src/Duel.cpp:84-104 | Which of the outcomes applies: refused, accepted, or a new invitation |
| Duel.ValidateDuellists | src/Duel.cpp:25-50 | No objection exactly if the two differ, are mortal and near in level, neither is a controlled creature, and the other is a connected player, strong enough and ready |
| Duel.DoDuel | src/Duel.cpp:176-195 | In a safe room, with nobody there or with an objection nothing happens; otherwise a player's command is negotiated, and the outcome is undefined exactly for a creature that gets that far |
| Duel.NegotiateDuel | src/Duel.cpp:106-113 | What the command does for any two, and that it keeps the matching for any two who differ; no record ends and none changes its rival, and nothing changes for somebody who has already agreed |
| Duel.TerminateDuel | src/Duel.cpp:115-129 | Both halves go, and nobody else's |
| Duel.CheckDuelTimeout | src/Duel.cpp:131-154 | One tick of one player; when it ends a duel in progress the two, and nobody else, stop fighting each other |
| Duel.Tick | src/update.cpp:666-692 | One check for every listed player, in order |
| Movement.MoveChar | src/act_move.cpp:86-235 | Ends for every follower graph; goes exactly if there is a way out and the character is free to go; each mover moves once, to the same room, all following the leader or an earlier mover; other rooms are untouched; no aggressive follower enters a place of law; followers who stayed would not stand when told to, were not free to go, were barred, or come behind one who was barred and were not asked; nobody's position changes but of charmed characters on no mount who rested, sat or slept without a spell |
| Movement.Followers | src/act_move.cpp:216-231 | The same for the loop over those left behind, whom it tells to stand at most once each |
| Movement.Follower | src/act_move.cpp:217-230 | One turn of that loop: told to stand, barred, or asked and pulled along with all who follow in turn |
| Movement.WhoComesAlong | src/act_move.cpp:216-231 | Exactly those come along who were there, whose master goes, who come before any follower of the same master barred by law, who stand once told to, and who are free to go |
| Movement.CalledMeans | src/act_move.cpp:217-220 | Whom being told to stand brings to their feet: the charmed, on no mount, resting, sitting or asleep without a spell |
| Movement.Call | src/act_move.cpp:217-218 | Only a charmed follower of the leader that is not standing is told to stand |
| Movement.FollowersReachLeader | src/act_move.cpp:216-231 | Everyone who came along reaches the leader from master to master |
| Movement.Relocate | src/act_move.cpp:201-202 | Leaving one room's list for the front of another's keeps everyone listed once, where they are |
| Movement.Char.Stand | src/act_move.cpp:729-762 | Somebody stands afterwards exactly if they stood before, or rested, sat or slept without a spell and were on no mount; nobody else changes position, and nobody rides |
| Doors.FarSideOfFarSide | src/act_move.cpp:54-61 | The far side's far side is the near side, and they are two objects |
| Doors.FarSideExactly | src/act_move.cpp:54-61 | The far side is the exit the opposite way behind the door if that leads back, and otherwise there is none |
| Doors.DoOpen | src/act_move.cpp:424-448 | Exactly when it opens, both sides; both sides stay in step; locks stay on closed doors exactly if no side was locked |
| Doors.DoClose | src/act_move.cpp:479-499 | Exactly when it closes, both sides; both facts kept |
| Doors.DoLock | src/act_move.cpp:538-570 | Exactly when it locks, both sides; locks stay on closed doors exactly if both sides were closed |
| Doors.DoUnlock | src/act_move.cpp:610-639 | Exactly when it unlocks, both sides; both facts kept |
| Doors.DoPick | src/act_move.cpp:695-726 | Exactly when it unlocks, with the exceptions for immortals; both facts kept |
| Doors.PerformAll | src/act_move.cpp:424-726 | Any sequence of commands keeps all doors in step and locked only when closed, self-loops and one-way exits included |
| Doors.TwoRooms | src/db.cpp:358-379 | A door with one side closed and the other as a reset of that side may leave it |
| Doors.OpeningCanFail | src/act_move.cpp:428-447 | With the far side closed and locked, opening leaves a lock on an open door |
| Doors.LockingCanFail | src/act_move.cpp:542-569 | With the far side open, locking puts a lock on an open door |
| Directions.ReverseTwice | src/Direction.cpp:8-18 | Reversing a direction twice gives it back |
| Directions.ReverseGoesBack | src/Direction.cpp:8-18 | The reverse is the one direction whose step undoes the step |
| Area.AreasKeepResetting | src/Area.cpp:36-42 | The first update resets; then 7 to 24 updates apart, in Mud School always 5, for every interleaving of entries and exits |
| Area.ResetsArePaced | src/Area.cpp:72-92 | The same from any state of the timer between resets |
| Area.ComingAndGoing | src/Area.cpp:36-42 | Entries and exits never bring the next reset forward; only an entry into an area marked empty delays it |
| Area.EmptyOnlyByReset | src/Area.cpp:88-91 | Only a reset marks an area as empty, so there is one such delay between resets at most |
| Area.PlayersAreCounted | src/Area.cpp:41 | The player count is entries less exits, in 16 bits |
| Area.OccupiedGap | src/Area.cpp:72-92 | With somebody in it at a reset an area waits 15 updates less the roll, whoever comes and goes |
| Area.EmptyGap | src/Area.cpp:72-92 | With nobody in it, and nobody coming, it waits 10 less the roll |
| Area.GapOfSeven | src/Area.cpp:72-92 | A run with resets at updates 0 and 7 |
| Area.GapOfTwentyFour | src/Area.cpp:36-42 | A run with resets at updates 0 and 24 |
| Area.AreaTimer.PlayerEntered | src/Area.cpp:36-42 | What an entry does to the timer |
| Area.AreaTimer.PlayerLeft | src/Area.hpp:43 | What an exit does to it, wrapping around at zero |
| Area.AreaTimer.Update | src/Area.cpp:74-79 | What an update does to it, and exactly when it resets |
| Area.AreaTimer.DoReset | src/Area.cpp:81-92 | What a reset leaves as age and empty flag |

## Left out

- Sockets, doorman packets, files, signals and all message texts: input and output only.
- Login, switching into other bodies, and paging beyond its notice: local transitions.
- Descriptors.Descriptor.Write: an overflow empties the buffer and is recorded, but the re-entrant `close` that follows in the C++ is not modelled; forwarding is stated for snoopers that did not overflow.
- Descriptors.Descriptor.FlushOutput: says exactly which snoopers overflow, but not what is left in the buffer of one that does, since it is being closed.
- Descriptors.Descriptor.Close: what closing does to the character, its duel and the doorman is not part of the link model.
- OutputPass.ProcessOutput: the prompt is a list of pieces given in advance, and how it is formatted is left out; what makes a connection fail is an input of each turn.
- OutputPass.Quiesce: also covers runs in which somebody overflows, where the model keeps the connection open and the C++ closes it; about the C++ it speaks only as long as nobody does.
- MobProgram.Drive: the choice of a random mortal, the conditions and the commands are functions of the world, given from outside and without their logging.
- IfExpressions.ParseIfExact: the logging of rejected conditions is left out.
- Text.DecimalReadsBack: negating the least 32-bit number, undefined in C++, is taken to wrap.
- GenericLists.Iter.Advance: advancing an iterator at the end, or without a list, is undefined in C++ and excluded; so is reading `*it` there. Postfix `++` is a copy and an advance.
- GenericLists.Iter.Destroy: the destructor is an ordinary method, since Dafny has none; counts are unbounded integers.
- CommandSets.CommandSet.Add: the order number does not overflow; `enumerate` and `level_restrict` only list.
- Rng.KnuthRng.NumberRange: the span is at most 2^30, beyond which the doubling in the C++ overflows.
- Rng.KnuthRng.Dice: the sum is unbounded, where the C++ has 32 bits.
- Duel.DoDuel: how the name of the opponent is looked up is left out, and so are the spells cast on acceptance; a creature without player data that gets past the objections is a null pointer in the C++, and only reported here.
- CommandSets.LevelLearnsNothingExactly: answers are values, so additions must have different ones for an answer to give away which addition it is; `CommandSets.InvisibleExactly` says the same of positions without that.
- DuelRuns.RecordsExpire: assumes that both players are checked in every tick, as mortal players are.
- Movement.MoveChar: closed doors, clans and guilds, privacy, mounts, movement points and sectors are one predicate `may` of the character without side effects, though privacy and exhaustion can change while a party moves; mob triggers, sickness and light are left out.
- Movement.Followers: goes over a copy of the people taken at the start and passes over those who have gone; `Traversal.LoopIsSnapshot` is what makes this the list's own iteration.
- Doors.DoPick: the skill roll and the guards before it are left out, and so are containers; finding the exit a keyword names is reduced to whether the direction has a door.
- Area.AreaTimer.DoReset: what rooms are refilled with is left out, and the roll is a parameter.
