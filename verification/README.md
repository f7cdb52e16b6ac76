# A verified model of the game server's stateful logic

The server keeps a world of characters, rooms and objects that players change command by command.
This project models the parts of it whose correctness depends on state built up over many commands,
and proves what they keep, compute and undo. Where the server works by changing fields, lists and
arrays, so does the model: each such method is proved equal to a function on values, and what matters is
proved about those functions, over every run.

| Part of the server | Files |
|---|---|
| Following: `master` pointers and linked lists of followers, groups, death | `Characters`, `FollowSpec` (values), `Followers` (pointers and nodes) |
| Moving with one's followers | `MoveSpec` (values), `GroupMove` (the recursion) |
| The mini-map search | `Exits`, `MiniMap` |
| The write-back cache for script values | `PvalKey`, `PvalSpec`, `PvalManager`, `PvalProperties` |
| Base64 | `Base64` |
| Cleaning a typed line; splitting websocket input into commands | `LineEditor`, `Framing` |
| Calendar stepping; timestamps | `Calendar`, `DateFormat` |
| Pouring, filling, refilling lanterns | `Pouring` |
| Wearing, removing, drawing, sheathing | `Equipment` (values), `Wardrobe` (runs, and the commands in place) |
| Bashes and the events that end them | `BashSpec` (values), `BashQueue` (queue and event list) |
| Snooping | `SnoopSpec` (values), `SnoopRelay` (relayed output), `Snooping` (pointers) |
| Text tables with colour codes | `ColorText`, `TextTable` (values), `TextTableBuilder` (vectors and loops) |

`Seqs`, `Options` and `Bytes` hold what several of them share. `dafny verify dfyconfig.toml` checks everything.

## Main results

**Following.** From an empty world on, over every run of entering, following, grouping, disbanding and dying,
the masters form a forest, and the linked list of every leader holds exactly the characters whose master
that leader is, once each (`FollowSpec.EveryRunIsAForest`, and every method of `Followers.Realm`). So the
list walk of `stopFollowing` always finds its node and `circleFollow` ends. That guard is exact: a new master
closes a loop if and only if `circleFollow` says so, for those who follow nobody yet and for those who change their
leader (`FollowSpec.GuardIsExact`). What each answer of `do_follow` means, and what it leaves of masters, lists and groups,
is stated over the old masters and lists alone (`FollowSpec.FollowReplyMeans`, `FollowSpec.DoFollowMeans`).

**Moving.** One `perform_move` ends, moves nobody twice, moves exactly those who are joined to the mover by a
chain of masters along which everyone stood in the same room, was standing, and could step, and changes the room
of no one else; each character is asked to step at most once, and those who moved are those asked who were able
(`GroupMove.MoveGroup`, `MoveSpec.GoersStandWithRoot`). `GroupMove.PerformMove` says the same over the exits and the
characters' fields: when it succeeds, who moves, and that they then stand in the room the exit leads to.

**Mini-map.** For every radius and every cap: listed rooms are distinct, in range, never more than the cap, the start aside,
and the nearest ones (no room left out has a shorter route than a listed one); a room queued with at most 2, the source's
radius, is queued with its distance; when the range is within the cap, a room is listed if and
only if a short enough route leads to it, and it is queued with n if and only if n is its distance; the exits listed are
exactly the visible exits from queued to listed rooms. Routes are sequences of exits: all enabled and not hidden behind
a closed door, and all but the last open and into rooms the player can see (`MiniMap.Route`, `MiniMap.TellsRoutes`).

**Script values.** Readers see a plain map, whatever fails. Flattened keys split back if and only if both owner parts are
clean. After any operations whose queries succeed, on good keys, a flush leaves the table equal to what readers see and
nothing for a second flush. After any operations on good keys, failing or not, a flush does so if and only if every good
key, cached or not, agrees with its row before the flush or is written by it.

**Codecs.** Base64 round-trips on every byte sequence, and the other way if and only if the text is canonical in the
sense of section 3.5 of RFC 4648; group by group, the places of the characters in the alphabet, read in base 64, are the
bytes read in base 256 (`Base64.EncodeIsText`, `Base64.DecodeIsBytes`). Cleaning a line is the fold that pushes printable bytes and pops on erase. Framed
payloads, and what follows them, come out of any chunks if and only if no payload has an end mark or NUL and what follows
holds no whole command. Timestamps sort as strings as they do in time.

**Conservation.** Pouring and filling conserve every liquid if and only if no lantern without limit runs over its counter;
each overflow costs exactly 65536 units of oil. Items stay in exactly one place over every run, except for a weapon that
is its own sheath. Sheathing and drawing again restores the state if and only if a stated condition holds.

**Small protocols.** A bashed character has exactly one event. Over every run of bashes, escapes and pulses it lies exactly
as long as, after every pulse, the pulses given exceed the pulses taken off and passed, counted from the start of the run
or from behind some bash or escape (there the floor at zero may have forgotten what was before); the largest of these
counts is what is left. The snoop links that runs can reach are exactly the sound ones, nobody watches without leave, and
output is relayed to watchers without end if and only if its descriptor is in a circle of watchers.

**What each operation does.** Beside the functions on values there are lemmas that say what each command reads and
changes in terms of fields, slots, links and characters alone; their names end in `Means`, `Mean` or `Symbols`.

## Where the code does not do what one might expect

Each of these has a lemma that gives the condition under which the code does behave, or an input, or both.

- A saved value that a flush fails to write is marked clean all the same, and no later run writes its row unless it sets
  it anew: the row stays missing or keeps its older value (`PvalProperties.FailedSaveIsLost`, exact condition in `PvalProperties.FlushInSyncExactly`).
- An instant delete whose query fails drops the cached value all the same: no flush finds the row again, and it comes back
  when the table is next loaded (`PvalProperties.FailedDeleteComesBack`).
- Keys longer than 64 characters are cut when saved but not when deleted by a flush, so their rows stay
  (`PvalProperties.LongKeysStay`).
- An owner type or id with `~=~` in it, or ending in `~=`, shares flattened keys with other owners
  (`PvalKey.UncleanPartsCollide`).
- Oil poured into a lantern without limit wraps its 16-bit counter (`Pouring.RunConservesExactly`, an input in
  `Pouring.LanternRunsOver`).
- A source that runs dry is cleared of poison before the poison is copied (`Pouring.PoisonFollows`, an input in
  `Pouring.PoisonIsLost`).
- A wielded weapon that is itself an empty sheath for its own kind, in the first slot that has one, is taken from
  the hand and put into itself, which is refused: it is then nowhere (`Wardrobe.RunConserves`, a run in
  `Wardrobe.DaggerIsSwallowed`).
- The guard of `TextTableBuilder::put` is off by one: a cell too many does not throw but is written outside the vector
  of widths, and only the put after that throws (`TextTable.PutOverrunsExactly`, `TextTable.PutThrowsAfterStray`, a run in
  `TextTable.SecondCellOverruns`); `append` does not widen a column
  (`TextTable.AppendedIsAlignedIffFits`, a run in `TextTable.AppendMisaligns`).
- The floor at zero makes bashes and escapes depend on their order, so that the plain sum does not decide
  (`BashSpec.BashesAddUp`, a run in `BashSpec.ShortenedBash`).
- The year byte wraps at its ends: the day after 31 December of year byte 255 is 1 January of year byte 0
  (`Calendar.NextDayCounts`).
- `%A` prints the weekday name for the day of the month instead of the day of the week
  (`DateFormat.FullWeekdayIsMonthDay`).
- Three or more descriptors can snoop on one another in a circle (`SnoopSpec.CircleOfThree`), and if all of them may,
  what one of them is sent is relayed without end (`SnoopRelay.RelayEndsIffNoCircle`, a run in
  `SnoopRelay.CircleRelaysForever`).
- A NUL before the first end mark blocks a websocket connection for good (`Framing.NulBlocks`).
- With a larger radius than the source's, the cap can make the search queue a room with more than its distance
  (`MiniMap.FarDistanceIsNotExact`).

## Model

| member | source | states |
|---|---|---|
| FollowSpec.RanksHaveNoLoops | src/act.movement.cpp:1917-1925 | masters that only lead to lower ranks have no loop |
| FollowSpec.HeightsRank | src/act.movement.cpp:1917-1925 | without loops every character has a finite height above it, which falls at each step to a master: the climb of circleFollow ends |
| FollowSpec.AboveStep | src/act.movement.cpp:1919-1923 | one step of the climb of circleFollow decides nothing but the character it leaves |
| FollowSpec.GuardIsExact | src/act.movement.cpp:1777-1788 | a new master closes a loop if and only if ch is that master or above it, whether ch follows somebody already or not, which is the guard of do_follow |
| FollowSpec.UnfollowKeepsForest | src/act.movement.cpp:1879-1915 | stopFollowing keeps masters loop-free and lists in step with masters |
| FollowSpec.AddFollowerKeepsForest | src/act.movement.cpp:1847-1877 | add_follower keeps the forest when the guard has passed |
| FollowSpec.DoFollowKeepsForest | src/act.movement.cpp:1706-1791 | do_follow keeps the forest, whatever it answers |
| FollowSpec.UnfollowAllAtOnce | src/act.other.cpp:1119-1130 | taking followers out one by one removes exactly them, keeps the order of the others and touches no other list |
| FollowSpec.UnfollowIsWithout | src/act.movement.cpp:1897-1914 | one stopFollowing takes one name out of one list |
| FollowSpec.DieAtOnce | src/act.movement.cpp:1831-1844 | after die_follower the dead follow nobody, nobody follows them, and every other list and master is as before |
| FollowSpec.DisbandAtOnce | src/act.other.cpp:1109-1135 | disbanding frees exactly the followers in the group, and keeps the rest in order |
| FollowSpec.FollowThenStop | src/act.movement.cpp:1847-1915 | starting to follow and stopping again changes nothing for one who had no leader and no group flag |
| FollowSpec.StepKeepsForest | src/act.movement.cpp:1706-1915 | every command keeps the forest |
| FollowSpec.RunKeepsForest | src/act.movement.cpp:1706-1915 | every run keeps the forest |
| FollowSpec.EveryRunIsAForest | src/act.movement.cpp:1706-1915 | every run from an empty world ends in a forest |
| FollowSpec.UnfollowMeans | src/act.movement.cpp:1879-1915 | stopFollowing takes the master, the group flag and the one place in the master's list, and no other list or flag |
| FollowSpec.AddFollowerMeans | src/act.movement.cpp:1847-1877 | add_follower sets the master and puts the follower in front of the leader's list; for the purged it does nothing |
| FollowSpec.FollowReplyMeans | src/act.movement.cpp:1706-1791 | which of its six answers do_follow gives, each with its exact condition |
| FollowSpec.DoFollowMeans | src/act.movement.cpp:1706-1791 | what do_follow leaves of masters, lists and group flags for each answer: one follows the leader afterwards exactly when the answer is that one does, or one did and was not stopped |
| FollowSpec.StepMeans | src/act.other.cpp:1137-1159 | entering, joining a group and being expelled from one change one list or one flag, and no master |
| Followers.CutLinked | src/act.movement.cpp:1897-1912 | relinking around node i leaves a linked list of the other nodes |
| Followers.CutKeepsLinks | src/act.movement.cpp:1897-1912 | cutting a node out of one list leaves every other list linked as before |
| Followers.CutIsUnfollow | src/act.movement.cpp:1897-1914 | the list surgery and the cleared pointer are together the value operation of stopFollowing |
| Followers.PushKeepsLinks | src/act.movement.cpp:1863-1870 | a new node at the head of one list leaves all lists linked |
| Followers.SplitMembers | src/act.other.cpp:1119-1130 | the walk of do_ungroup has the members in the rest of the list still to free |
| Followers.Realm.Enter | src/db.cpp:2891-2892 | a new character without master and followers joins the realm and keeps it valid |
| Followers.Realm.Unlink | src/act.movement.cpp:1897-1912 | the two cases of the list surgery: exactly the node of the character is taken out and deleted |
| Followers.Realm.StopFollowing | src/act.movement.cpp:1879-1915 | the walk never runs off the list, and the pointers afterwards stand for the value operation |
| Followers.Realm.AddFollower | src/act.movement.cpp:1847-1877 | pointers and lists afterwards stand for the value operation, also for purged characters and for one who already follows |
| Followers.Realm.CircleFollow | src/act.movement.cpp:1917-1925 | ends, and is true exactly when the character is the target or above it |
| Followers.Realm.DoFollow | src/act.movement.cpp:1706-1791 | every refusal, read off race, level, descriptor and arena, and every effect of do_follow on pointers and lists, in the order of its checks; what the effects are is FollowSpec.DoFollowMeans |
| Followers.Realm.DieFollower | src/act.movement.cpp:1831-1844 | the loop that unlinks the nodes it walks over ends with the value operation |
| Followers.Realm.Disband | src/act.other.cpp:1109-1135 | likewise for do_ungroup without argument |
| Followers.Realm.Expel | src/act.other.cpp:1137-1159 | do_ungroup with a name clears one group flag and no pointer |
| Followers.Realm.Enroll | src/act.other.cpp:997 | a character joins a group, and no pointer changes |
| FollowSpec.HeightDrops | src/act.movement.cpp:756-770 | a master has fewer masters above it than its follower, so that following a chain of masters ends |
| MoveSpec.GoersStandWithRoot | src/act.movement.cpp:756-770 | whoever moves is below the mover and stood in the mover's room |
| MoveSpec.GoesRelay | src/act.movement.cpp:756-770 | the recursive call for a follower moves exactly those the whole command moves below that follower |
| MoveSpec.StaysBelow | src/act.movement.cpp:756-770 | nobody below a follower that stays behind moves |
| MoveSpec.SiblingsApart | src/act.movement.cpp:756-770 | nobody is below two followers of the same leader |
| MoveSpec.BelowSomeKid | src/act.movement.cpp:756-770 | whoever else moves is below one of the followers in the list |
| MoveSpec.CanGoMeans | src/act.movement.cpp:722-745 | an exit can be used exactly when the room has one in that direction that leads somewhere and is neither closed nor disabled, and it leads where it says |
| MoveSpec.GoersMeans | src/act.movement.cpp:756-770 | besides the mover exactly those move who stand in the room of a master who moves, are standing and free, and can step |
| GroupMove.SimpleMove | src/act.movement.cpp:662-663 | the character stands in the given room exactly when it is able, and where it stood otherwise |
| GroupMove.Leave | src/act.movement.cpp:717-752 | the mover's own step: every check of the exit and the mover but the making of a missing exit, and the room that the exit names |
| GroupMove.RootHasGone | src/act.movement.cpp:750-756 | after the mover's step nothing but the mover has moved |
| GroupMove.KidsShare | src/act.movement.cpp:756-770 | the recursive call on a follower moves that follower's share of the whole outcome |
| GroupMove.RelayDone | src/act.movement.cpp:756-770 | when one follower is done the others still have exactly their shares to move |
| GroupMove.MoveGroup | src/act.movement.cpp:717-775 | the recursion ends; nobody moves or is asked twice; exactly the goers move, which are those asked who are able, and every other room stays |
| GroupMove.PerformMove | src/act.movement.cpp:717-775 | over exits and characters alone: it succeeds exactly when the direction is one of the six, the room's exit there leads somewhere and is neither closed nor disabled, and the mover neither fights nor sits at a table and can step; then all who moved stand in the room the exit leads to, and all others where they stood; if not, nobody moves |
| GroupMove.AskingNext | src/act.movement.cpp:756-770 | the recursive call for a follower asks nobody who was asked before or will be asked for another follower |
| MiniMap.BallIsRoutes | src/Descriptor.cpp:559-604 | the rooms within n are those that routes of at most n open exits into lit rooms lead to |
| MiniMap.RangeIsRoutes | src/Descriptor.cpp:578-604 | a room is in range exactly when a route of at most radius exits leads to it, all but the last of them open and into lit rooms |
| MiniMap.LinkTells | src/Descriptor.cpp:588-596 | the listed exit says where it leads, whether it is closed, and whether the exit opposite (north and south, east and west, up and down) fails to lead back or is not shown |
| MiniMap.MapTellsRoutes | src/Descriptor.cpp:553-606 | a mini-map in terms of exits and dark rooms alone: which rooms it lists, which exits, and with which distances rooms are queued |
| MiniMap.FrontierReachesBall | src/Descriptor.cpp:572-606 | when the search is past all rooms queued with less than n every room within n has been queued at a distance of at most n |
| MiniMap.RangeListed | src/Descriptor.cpp:572-606 | when the search is past all rooms queued with less than n and the cap turned none away, all rooms in range n are listed |
| MiniMap.ListNearest | src/Descriptor.cpp:583-587 | a room that is listed is no further away than any room left out |
| MiniMap.CompleteSearch | src/Descriptor.cpp:572-606 | without the cap every room in range is listed |
| MiniMap.BallBorder | src/Descriptor.cpp:598-604 | one visible exit from a room strictly within the radius stays in range |
| MiniMap.LeftOut | src/Descriptor.cpp:583-587 | a room is left out of a list only by the cap |
| MiniMap.StartSearch | src/Descriptor.cpp:569-571 | the search starts in a correct state |
| MiniMap.SkipStep | src/Descriptor.cpp:579-585 | passing over an exit keeps the search correct |
| MiniMap.ListStep | src/Descriptor.cpp:583-587 | listing a room keeps the search correct |
| MiniMap.LinkStep | src/Descriptor.cpp:588-597 | listing an exit keeps the search correct |
| MiniMap.EnqueueStep | src/Descriptor.cpp:600-604 | queueing a room with the next distance keeps the search correct |
| MiniMap.AdvanceStep | src/Descriptor.cpp:572-576 | going on to the next queued room keeps the search correct, and the queue never outgrows the range |
| MiniMap.FinishSearch | src/Descriptor.cpp:572-606 | an exhausted search is a mini-map |
| MiniMap.ExamineKeepsSearching | src/Descriptor.cpp:576-605 | one turn of the inner loop keeps the search correct |
| MiniMap.Snapshot | src/Descriptor.cpp:553-606 | ends with a mini-map; unless the cap is reached it lists exactly the rooms that routes lead to, over exits that are enabled and not hidden behind a closed door, open and into lit rooms but for the last; its exits and distances likewise; it is just what examining exit after exit gives |
| MiniMap.ListsExactlyTheRoutes | src/Descriptor.cpp:553-606 | when the rooms that routes of at most radius exits lead to are no more than the cap, exactly these are listed |
| MiniMap.CapKeepsNearest | src/Descriptor.cpp:583-587 | no room left out has a shorter route than a listed one |
| MiniMap.IsDistanceIffBall | src/Descriptor.cpp:600-604 | the shortest route that goes on has n exits exactly when the room is within n but not within n - 1 |
| MiniMap.QueuesExactDistances | src/Descriptor.cpp:600-604 | unless the cap is hit, a room is queued with n exactly when n is its distance and within the radius |
| MiniMap.NearDistancesAreExact | src/Descriptor.cpp:600-604 | whatever the cap, a room queued with at most 2 is queued with its distance |
| MiniMap.YardSearch | src/Descriptor.cpp:572-606 | the search of one small world with radius 3 and cap 4, room by room |
| MiniMap.FarDistanceIsNotExact | src/Descriptor.cpp:583-604 | there a room 2 away is queued with 3 |
| PvalKey.Find | src/PvalManager.cpp:123-124 | the first separator at or behind a position |
| PvalKey.FindsEndOfPart | src/PvalManager.cpp:123 | the first separator found ends the first part exactly when that part is clean |
| PvalKey.SplitIsExact | src/PvalManager.cpp:122-127 | a flattened key splits into its own parts exactly when both owner parts are clean; the key text may be anything |
| PvalKey.FullKeyIsInjective | src/PvalManager.cpp:11-14 | between clean owners no two values share a flattened key |
| PvalKey.UncleanPartsCollide | src/PvalManager.cpp:11-14 | every unclean part makes two different values share one |
| PvalKey.SplitRejoins | src/PvalManager.cpp:122-127 | the parts found, flattened again, give the same text |
| PvalManagers.PvalManager.SendQuery | src/PvalManager.cpp:148-157 | a query replaces or deletes one row, or fails and changes nothing |
| PvalManagers.PvalManager.GetPval | src/PvalManager.cpp:57-64 | the cached value unless it is missing or waiting for deletion |
| PvalManagers.PvalManager.SetPval | src/PvalManager.cpp:66-90 | returns false and changes nothing exactly when an instant write fails; otherwise the new entry, dirty when deferred |
| PvalManagers.PvalManager.DeletePval | src/PvalManager.cpp:92-114 | a deferred delete marks the entry, an instant one drops it even when its query fails |
| PvalManagers.PvalManager.SaveDirtyPvals | src/PvalManager.cpp:116-164 | the loop that erases entries while it walks over them does the flush entry by entry and sends just its queries |
| PvalManagers.FlushTurn | src/PvalManager.cpp:119-163 | one turn of that loop does the flush of one entry |
| PvalProperties.ReadsAPlainMap | src/PvalManager.cpp:57-164 | after any operations, failing or not, getPval finds what a plain map holds |
| PvalProperties.FlushIsInvisible | src/PvalManager.cpp:116-164 | no flush, failing or not, changes what readers see |
| PvalProperties.NoInterference | src/PvalManager.cpp:66-114 | no operation on one value touches what readers see of another |
| PvalProperties.StepConsistent | src/PvalManager.cpp:66-164 | every succeeding operation on good keys keeps rows cached and clean entries equal to their rows |
| PvalProperties.RunConsistent | src/PvalManager.cpp:66-164 | and so does every run |
| PvalProperties.FlushSavesAll | src/PvalManager.cpp:116-164 | a second flush sends nothing, even after failures |
| PvalProperties.FlushSynchronises | src/PvalManager.cpp:116-164 | after succeeding operations a flush leaves the table equal to what readers see, which is the plain map |
| PvalProperties.FlushedRow | src/PvalManager.cpp:119-163 | after a flush a key agrees with its row exactly when it did before or was written now |
| PvalProperties.FlushInSyncExactly | src/PvalManager.cpp:116-164 | whatever failed before and fails now, table and readers are equal after a flush exactly when every good key agrees with its row already or is written now |
| PvalProperties.RunTidy | src/PvalManager.cpp:66-164 | operations on good rows, failing or not, leave every cached key and every row good |
| PvalProperties.FailedDeleteComesBack | src/PvalManager.cpp:99-110 | after a set and an instant delete the next flush leaves table and readers equal exactly when the delete's query succeeded |
| PvalProperties.FailedSaveIsLost | src/PvalManager.cpp:153-158 | a row whose save failed in a flush is not written by any later run that does not set it, and keeps its older value if it had one, while readers see the new value until it is deleted |
| PvalProperties.LongKeysStay | src/PvalManager.cpp:129-147 | saving and deleting clears the row exactly when the key has at most 64 characters |
| PvalProperties.CacheMeans | src/PvalManager.cpp:11-114 | what getPval, setPval and deletePval read and leave under the three texts joined by `~=~`, and in the row with the key cut to 64 characters |
| PvalProperties.QueryMeans | src/PvalManager.cpp:119-158 | which row an entry of a clean owner makes a flush delete or replace |
| PvalProperties.FlushedCache | src/PvalManager.cpp:118-163 | a flush leaves exactly the entries not marked for deletion, with their values, and clean |
| PvalProperties.FlushedByQueries | src/PvalManager.cpp:118-163 | a flush changes the table by those of its queries that do not fail, in order, and by nothing else |
| Base64.CharIsPlace | src/StringUtil.cpp:8 | the characters written are those of the alphabet, by their places in it |
| Base64.SextetMeans | src/StringUtil.cpp:93-94 | a character is read as its place in the alphabet, and as 255 if it is not in it |
| Base64.EncodeIsText | src/StringUtil.cpp:15-59 | in every group the places of the four characters, read in base 64, are the three bytes read in base 256; a short group is filled with zero bytes, and with '=' where only those are left |
| Base64.PlacesExist | src/StringUtil.cpp:71-94 | every text has places in the alphabet up to its first character outside it |
| Base64.DecodeIsBytes | src/StringUtil.cpp:61-104 | the bytes are, group by group, the number that the places give in base 64, up to the first character outside the alphabet |
| Base64.JoinSplit | src/StringUtil.cpp:30-80 | regrouping three bytes into four sextets and back is the identity |
| Base64.SplitJoin | src/StringUtil.cpp:30-80 | and four sextets into three bytes and back |
| Base64.DecodeEncode | src/StringUtil.cpp:15-104 | decoding undoes encoding, for every byte sequence, with both kinds of short last group |
| Base64.EncodeShape | src/StringUtil.cpp:15-59 | the length is 4 times the number of groups, and the text is alphabet characters followed by the padding its length calls for |
| Base64.EncodeIsCanonical | src/StringUtil.cpp:41-56 | an encoding is canonical: whole groups, right padding, unused bits zero |
| Base64.EncodeDecode | src/StringUtil.cpp:61-104 | encoding undoes decoding exactly for canonical texts |
| Base64.Base64Encode | src/StringUtil.cpp:15-59 | the loop over two small arrays computes the encoding, whose characters are the ones that the bytes have in the alphabet as written out |
| Base64.EncodeLeftOver | src/StringUtil.cpp:41-56 | the last one or two bytes, with padding |
| Base64.Base64Decode | src/StringUtil.cpp:61-104 | the loop over two small arrays computes the decoding, whose bytes are the ones that the places in the alphabet as written out give; it stops at the first character outside the alphabet |
| Base64.DecodeLeftOver | src/StringUtil.cpp:88-101 | the last one to three characters |
| LineEditor.CleanLine | src/Descriptor.cpp:133-153 | the loop that erases from the line it walks over ends, and leaves the fold of key presses |
| LineEditor.CleanedLineFromEnd | src/Descriptor.cpp:133-153 | read from the end, a printable byte stays exactly when no erase behind it is left over for it |
| LineEditor.EndIsStack | src/Descriptor.cpp:133-153 | with n erases still to come the last n bytes go |
| LineEditor.CleanIffUnchanged | src/Descriptor.cpp:133-153 | the result is all printable, and the line is unchanged exactly when it was |
| LineEditor.CleaningTwice | src/Descriptor.cpp:133-153 | cleaning again changes nothing |
| LineEditor.KeyMeans | src/Descriptor.cpp:135-152 | bytes 8 and 127 take the last byte off, bytes 32 to 126 are kept, and all others are passed over |
| Framing.Connection.Receive | src/Descriptor.cpp:1081-1093 | the loop takes every complete command from the buffer and keeps the rest |
| Framing.FindEnd | src/Descriptor.cpp:1086 | the first end mark or NUL |
| Framing.ExtractInTwo | src/Descriptor.cpp:1081-1093 | taking commands from a part first and then from the rest with the remainder gives the same commands and remainder |
| Framing.ChunksAreOne | src/Descriptor.cpp:1081-1093 | however the input is cut, the commands and what is kept are those of the whole input |
| Framing.ExtractedIsSendable | src/Descriptor.cpp:1081-1093 | commands and remainder, framed again, are the input; every command taken could have been sent and none is left |
| Framing.FramesRoundTrip | src/Descriptor.cpp:630-638 | framed payloads come out in order, and what follows is kept, exactly when no payload has an end mark or NUL and what follows holds no whole command |
| Framing.ChunkedRoundTrip | src/Descriptor.cpp:630-638 | the same through any chunks |
| Framing.SendableIsNeeded | src/Descriptor.cpp:630-633 | a payload survives exactly when it is free of the end mark and of NUL |
| Framing.NulBlocks | src/Descriptor.cpp:1086 | behind a NUL that comes before the first end mark nothing is ever taken off |
| Framing.NulBlocksChunks | src/Descriptor.cpp:1081-1093 | nor by any chunks that arrive later |
| Framing.FrameMeans | src/Descriptor.cpp:630-633 | a payload without the bytes 6 and 0 is sent with a 6 behind it, taken off when that has arrived, and kept until then |
| Calendar.DateTime.MoveDayForward | src/DateTime.cpp:234-241 | the next day, carried over months and the year byte |
| Calendar.DateTime.MoveDayBackward | src/DateTime.cpp:242-251 | the day before |
| Calendar.DateTime.MoveMonthForward | src/DateTime.cpp:253-259 | the next month |
| Calendar.DateTime.MoveMonthBackward | src/DateTime.cpp:261-271 | the month before |
| Calendar.YearLength | src/DateTime.cpp:307-325 | the months of a year add up to 365 or 366 days |
| Calendar.NextDayCounts | src/DateTime.cpp:234-241 | a day forward keeps dates valid and adds one to the day number, except exactly at the last date, which goes to the first |
| Calendar.LastDayCounts | src/DateTime.cpp:242-251 | a day backward takes one off, except exactly at the first date |
| Calendar.DayStepsUndo | src/DateTime.cpp:234-251 | forward and backward undo one another, at the ends of the year byte too |
| Calendar.MonthStepsUndo | src/DateTime.cpp:253-271 | and so do month steps |
| Calendar.ThereAndBack | src/DateTime.cpp:234-251 | n days forward and n days backward are the identity on valid dates |
| Calendar.ForwardCounts | src/DateTime.cpp:234-241 | n days forward add n to the day number |
| Calendar.DayNumbersOrder | src/DateTime.cpp:234-271 | day numbers are in date order, one for each date |
| Calendar.MonthsAreGregorian | src/DateTime.cpp:307-325 | a month has its Gregorian length exactly unless it is February of 1900 or of 2100 |
| Calendar.DayNumbersAreGregorian | src/DateTime.cpp:307-325 | from 1901 to 2099 dates are counted as in the Gregorian calendar |
| DateFormat.Parse | src/DateTime.cpp:115-209 | the loop computes the formatting, with unknown symbols kept and a dangling percent sign dropped |
| DateFormat.FormatInParts | src/DateTime.cpp:121-206 | formatting a complete format and a continuation separately gives the same text |
| DateFormat.FormatDistributes | src/DateTime.cpp:121-206 | that holds for every continuation exactly when the first part does not end in a dangling percent sign |
| DateFormat.FullWeekdayIsMonthDay | src/DateTime.cpp:135-137 | the full weekday name is right exactly when the day of the month has the number of the day of the week |
| DateFormat.StampFields | src/MiscUtil.cpp:144-147 | the timestamp is the six fields with the marks between them |
| DateFormat.StampsSortByTime | src/MiscUtil.cpp:139-147 | timestamps of dates in range are in string order exactly when the dates are in time order, and equal exactly for equal fields |
| DateFormat.PlainFormat | src/DateTime.cpp:121-206 | text without percent signs is kept, a percent sign at its end is dropped, and one with a symbol writes the symbol |
| DateFormat.WeekdaySymbols | src/DateTime.cpp:132-137 | `%w` and `%a` write the weekday and its first three letters; `%A` takes the weekday from the day of the month |
| DateFormat.MonthSymbols | src/DateTime.cpp:138-143 | `%B` and `%b` write the month and its first three letters |
| DateFormat.PlainSymbols | src/DateTime.cpp:144-205 | the half of the day, the symbols that write nothing, and the unknown ones that are kept |
| DateFormat.NumberSymbols | src/DateTime.cpp:147-192 | each number symbol writes the decimal numeral of its field, the year counted from 1900 and the month from 1, with two digits where the source pads |
| DateFormat.StampMeans | src/MiscUtil.cpp:139-147 | a timestamp has 19 characters, with the numerals of year, month, day, hour, minute and second at their places |
| Pouring.TransferConserves | src/act.item.cpp:1513-1538 | the common end of pouring and filling moves liquid without making or losing any, and overfills nothing |
| Pouring.PourOilConserves | src/act.item.cpp:1306-1362 | the same for refilling a light, unless it runs over |
| Pouring.PourConserves | src/act.item.cpp:1263-1538 | a pour conserves every liquid and keeps both vessels sound exactly when no lantern without limit runs over |
| Pouring.FillConserves | src/act.item.cpp:1369-1538 | a fill always does |
| Pouring.PoisonFollows | src/act.item.cpp:1524-1538 | poison is passed on exactly when the source had at least what was asked for |
| Pouring.RunConserves | src/act.item.cpp:1254-1541 | over every run without overflow each liquid's total stays, and no vessel goes below empty or above full |
| Pouring.RunCounts | src/act.item.cpp:1331-1338 | over every run each overflow takes 65536 units of oil away and nothing else changes a total |
| Pouring.RunConservesExactly | src/act.item.cpp:1254-1541 | a run conserves every liquid exactly when it has no overflow |
| Pouring.DoPour | src/act.item.cpp:1263-1541 | the command in place, with the reply and both vessels: pouring into something, out, into a target that is not found, and into itself |
| Pouring.LanternRunsOver | src/act.item.cpp:1331-1338 | two sound vessels with which a pour wraps the counter |
| Pouring.PoisonIsLost | src/act.item.cpp:1524-1538 | two sound vessels with which a pour loses the poison |
| Pouring.DoFill | src/act.item.cpp:1369-1541 | filling in place |
| Pouring.TransferInPlace | src/act.item.cpp:1472-1538 | the assignments in their order, with 16-bit values and the poison flag |
| Pouring.TransferMeans | src/act.item.cpp:1472-1538 | nothing is moved into a vessel that holds another liquid or is full; otherwise the smaller of what there is and what there is room for |
| Pouring.PourOilMeans | src/act.item.cpp:1306-1362 | when a light is refilled, and with how much |
| Pouring.PourAndFillMeans | src/act.item.cpp:1263-1440 | from and into what can be poured and filled, and the refusals otherwise |
| Equipment.FindEmpty | src/act.item.cpp:246-272 | the first slot with an empty sheath that takes the weapon |
| Equipment.FindLoaded | src/act.item.cpp:181-199 | the first slot with a sheath that has something in it |
| Wardrobe.WearConserves | src/act.item.cpp:1720-1729 | wearing that changes anything moves the item from the inventory to one slot, and no other item; every item keeps its number of places |
| Wardrobe.RemoveConserves | src/act.item.cpp:1950-1971 | an item is worn once less and carried once more exactly when it is in the slot, not cursed, there is room and it is allowed; every other item stays |
| Wardrobe.DrawConserves | src/act.item.cpp:171-206 | drawing moves the first thing in the sheath into the hand |
| Wardrobe.SheatheConserves | src/act.item.cpp:238-276 | sheathing moves the weapon into the sheath, and loses it exactly when it is its own sheath |
| Wardrobe.RemoveMeans | src/act.item.cpp:1950-1971 | when an item is taken off, that it then comes first in the inventory, and that nothing else changes |
| Wardrobe.WearMeans | src/act.item.cpp:1672-1729 | when an item is put on, in which of two places, and that nothing else changes |
| Wardrobe.WearThenRemove | src/act.item.cpp:1720-1971 | an item put on and taken off again is back in the inventory, in front, and all else is as before |
| Wardrobe.DrawsNothing | src/act.item.cpp:171-199 | drawing answers 1 with a weapon in hand, and 0 exactly when there is none and no filled sheath |
| Wardrobe.DrawMeans | src/act.item.cpp:181-206 | what comes into the hand is the first thing in the first filled sheath, unless it takes two hands beside a shield or is too heavy |
| Wardrobe.SheathesNothing | src/act.item.cpp:238-272 | sheathing answers -1 exactly without a weapon, and 0 exactly with a weapon and without an empty sheath for its kind |
| Wardrobe.SheatheMeans | src/act.item.cpp:246-276 | the weapon goes into the first empty sheath for its kind, and nowhere if that is the weapon itself |
| Wardrobe.StepConserves | src/act.item.cpp:171-276 | the same for every command and every item |
| Wardrobe.StepKeepsOneGrip | src/act.item.cpp:1680-1690 | no command leaves a shield beside a wielded two-handed weapon |
| Wardrobe.RunConserves | src/act.item.cpp:171-276 | over every run each item is in exactly one place, but for a weapon sheathed while it is its own sheath, which is gone for good |
| Wardrobe.DaggerIsSwallowed | src/act.item.cpp:243-275 | one dagger, wielded and sheathed, after which it is nowhere |
| Wardrobe.RunKeepsOneGrip | src/act.item.cpp:1672-1717 | over every run a shield is never worn beside a wielded two-handed weapon |
| Wardrobe.SafeMakesConserve | src/act.item.cpp:246-275 | where no kind of thing is both a weapon and a sheath for itself, no run loses anything |
| Wardrobe.SheatheThenDraw | src/act.item.cpp:171-276 | sheathing and drawing again restores everything exactly when the weapon is not its own sheath, is not too heavy and no earlier sheath is loaded |
| Wardrobe.Wearer.Draw | src/act.item.cpp:171-222 | the search through the slots and the two assignments, in place |
| Wardrobe.Wearer.Sheath | src/act.item.cpp:238-276 | the same for sheathing; the weapon leaves the hand before the sheath is looked up again |
| Wardrobe.Wearer.PerformWear | src/act.item.cpp:1672-1729 | every refusal of CanWear, the second place for necks, ears, wrists and fingers, and the move |
| Wardrobe.Wearer.PerformRemove | src/act.item.cpp:1950-1971 | cursed items stay, full hands refuse, otherwise the item is carried first |
| BashSpec.OthersDoNotMatter | src/act.offensive.cpp:88-105 | a character lies and stands up by the bashes on that character and the clock alone |
| BashSpec.BashesAddUp | src/act.offensive.cpp:88-105 | over every run a character lies throughout exactly when it does not leave and after every pulse some count of pulses given, taken off and passed is positive; what is left is the largest of these counts |
| BashSpec.LongerBashesAddUp | src/act.offensive.cpp:88-105 | where no bash is shortened the plain sum decides, and its difference is left |
| BashSpec.ShortenedBash | src/act.offensive.cpp:95-96 | a character lies although the plain sum is below zero |
| BashSpec.FloorForgets | src/act.offensive.cpp:95-96 | for one who lies throughout from both starts, what is left is the larger of the plain balance and of what a start with nothing to go leaves, whatever bashes, escapes and pulses the run mixes |
| BashSpec.BashMeans | src/act.offensive.cpp:88-105 | a bash gives one who stands all its pulses, adds them with the floor at zero for one who lies, and changes nobody else |
| BashSpec.FleeMeans | src/act.offensive.cpp:1356-1357 | one who lies and whose opponent flees is spared 28 pulses; one who stands is not bashed by it |
| BashSpec.LeaveMeans | src/db.cpp:3234-3244 | one who goes does not lie any more, and nobody else changes |
| BashSpec.PulseMeans | src/dg_event.cpp:95-112 | a pulse takes one off every bash and ends exactly those with no more than one left |
| BashQueue.Combat.AddEvent | src/dg_event.cpp:34-69 | the event is in the list once, wherever the comparison puts it |
| BashQueue.Combat.RemoveEvent | src/dg_event.cpp:71-93 | exactly that event is taken out of the list |
| BashQueue.Combat.SetBashState | src/act.offensive.cpp:77-105 | a second bash lengthens the one event, with the floor at zero; a first one makes one event, with all pulses, behind the queue; no other event changes its time |
| BashQueue.Combat.ShortenOnFlee | src/act.offensive.cpp:1356-1357 | the event to shorten is always there: no event is made |
| BashQueue.Combat.Depart | src/db.cpp:3234-3244 | a character that goes takes its event and queue entry along and no other |
| BashQueue.Combat.Expire | src/act.offensive.cpp:64-75 | BashStand frees the character and removes its queue entry, and the caller removes the event |
| BashQueue.Combat.ProcessEvents | src/dg_event.cpp:95-112 | one pulse counts every queued event down once, and exactly those with less than two left are off the queue and their characters stand, although the list shrinks during the walk; other events are taken off without a call |
| BashQueue.TickNext | src/dg_event.cpp:95-112 | no bash is counted down twice in a pulse |
| SnoopSpec.StepKeepsSound | src/act.wizard.cpp:4090-4140 | no command makes anyone snoop on itself, two snoop on each other, or two snoop on the same |
| SnoopSpec.RunKeepsSound | src/act.wizard.cpp:3987-4140 | nor does any run |
| SnoopSpec.EverySoundIsReached | src/act.wizard.cpp:4090-4140 | every sound set of links is reached by some run |
| SnoopSpec.ReachedIffSound | src/act.wizard.cpp:3987-4140 | the sets of links that runs reach are exactly the sound ones |
| SnoopSpec.CircleOfThree | src/act.wizard.cpp:4107-4108 | three can snoop on one another in a circle |
| SnoopSpec.WatchesNext | src/act.wizard.cpp:4118-4131 | a snooper watches after a command exactly when it did before or the command gave leave |
| SnoopSpec.WatchedByLeave | src/act.wizard.cpp:4057-4083 | over every run a snooper watches exactly when leave was given for this very link, although the permission flag outlives links |
| SnoopSpec.SnoopMeans | src/act.wizard.cpp:3987-4140 | snooping is ended by snooping on oneself; otherwise it is refused for one who is snooped on or snoops back, and else the new link takes the place of the old, with permission unless it must be asked for |
| SnoopSpec.AnswersMean | src/act.wizard.cpp:4037-4083 | denying ends the snooping of one without permission, granting gives permission, and leaving ends the snooping on both sides; no other link or flag changes |
| SnoopRelay.RelayEndsIffClimbEnds | src/Descriptor.cpp:349-355 | sendInstant ends exactly when climbing from watcher to watcher does |
| SnoopRelay.RelayEndsIffNoCircle | src/Descriptor.cpp:349-355 | and that is exactly when the descriptor is in no circle of watchers |
| SnoopRelay.RelayMeans | src/Descriptor.cpp:349-370 | without a permitted snooper only the descriptor is written to; with one, what the mark and the text make the snooper be sent comes before |
| SnoopRelay.ClimbOn | src/Descriptor.cpp:351 | a climb from watcher to watcher ends or comes back to where it began |
| SnoopRelay.CircleRelaysForever | src/Descriptor.cpp:349-355 | a run of three commands after which output is relayed without end |
| Snooping.Descriptor.StopSnooping | src/act.wizard.cpp:3987-4015 | both pointers and the permission are cleared, and the pointers stay each other's inverse |
| Snooping.Descriptor.DoSnoop | src/act.wizard.cpp:4090-4140 | the checks of do_snoop, and the old link dropped before the new one is made |
| Snooping.Descriptor.DoDeny | src/act.wizard.cpp:4037-4055 | a request without permission is dropped on both sides |
| Snooping.Descriptor.DoGrant | src/act.wizard.cpp:4058-4073 | the snooper gets permission |
| Snooping.Descriptor.Cleanup | src/Descriptor.cpp:269-277 | a descriptor that goes leaves no pointer to itself behind |
| Snooping.Descriptor.SendInstant | src/Descriptor.cpp:349-370 | where the climb ends, every watcher above is written a mark and a copy at each step, in order, and the descriptor last |
| Snooping.Descriptor.Forget | src/handler.cpp:1478-1492 | an extracted character's descriptor is unlinked on both sides |
| ColorText.WidthsAdd | src/StringUtil.cpp:390-403 | the widths of texts add up when the first is closed |
| ColorText.WidthsAddIffClosed | src/StringUtil.cpp:390-403 | they add up for every second text exactly when the first is closed |
| ColorText.StrlenIgnoreColors | src/StringUtil.cpp:390-403 | the loop computes the width of a text whose codes end |
| ColorText.RepeatText | src/StringUtil.cpp:405-412 | the loop repeats the text, and gives nothing for counts below one |
| ColorText.RepeatWidth | src/StringUtil.cpp:405-412 | a closed text repeated is as many times as wide |
| ColorText.WidthMeans | src/StringUtil.cpp:390-403 | plain characters count one each, a colour code counts nothing and is open without its m, and nothing behind a NUL counts |
| TextTable.PutOverrunsExactly | src/TextTableBuilder.cpp:54-62 | where no stray write came before, put does not throw, and writes outside the vector exactly when the row is full |
| TextTable.PutThrowsAfterStray | src/TextTableBuilder.cpp:54-62 | the put after a stray write throws, and no other does |
| TextTable.StepKeepsShape | src/TextTableBuilder.cpp:26-67 | every row but the last is as long as the header, and the last is no longer |
| TextTable.WidestIsLeast | src/TextTableBuilder.cpp:61 | a column is as wide as the widest cell put into it |
| TextTable.BorderWidth | src/TextTableBuilder.cpp:120-134 | a border is 3 wider than each column, and 1 more |
| TextTable.RowWidth | src/TextTableBuilder.cpp:136-156 | a row is as wide as a border, and as much wider as its cells reach beyond their columns |
| TextTable.CellStarts | src/TextTableBuilder.cpp:136-156 | a cell starts behind the columns before it, when none of the cells there is more than one wider than its column |
| TextTable.LinesEquallyWide | src/TextTableBuilder.cpp:158-180 | all lines have the width of the border exactly when no cell is more than one wider than its column |
| TextTable.BuildIsAligned | src/TextTableBuilder.cpp:26-180 | after every run of row starts and puts, build throws exactly for a short last row, and otherwise all lines are equally wide |
| TextTable.AppendedIsAlignedIffFits | src/TextTableBuilder.cpp:89-98 | with appended texts the lines are equally wide exactly when no cell has outgrown its column by more than one |
| TextTable.SecondCellOverruns | src/TextTableBuilder.cpp:54-62 | a run of five commands that writes outside the vector |
| TextTable.AppendMisaligns | src/TextTableBuilder.cpp:89-98 | a run of five commands whose lines differ in width |
| TextTable.StepMeans | src/TextTableBuilder.cpp:26-98 | which cell each command adds or lengthens, and that no other cell changes |
| TextTable.BorderMeans | src/TextTableBuilder.cpp:120-134 | a border is dashes, with a plus at each end of a column in the format of MySQL |
| TextTable.RowMeans | src/TextTableBuilder.cpp:136-156 | a row is a bar, a space, the text and the missing spaces for each cell, and a bar |
| TextTable.LinesMean | src/TextTableBuilder.cpp:158-180 | the lines are the header, a border and the rows, between two more borders in the format of MySQL |
| TextTable.BuildMeans | src/TextTableBuilder.cpp:158-180 | what build gives for an empty header, when it throws, and a newline behind each line |
| TextTableBuilders.ColumnsOfPut | src/TextTableBuilder.cpp:45-62 | the running maximum is the widest cell of each column |
| TextTableBuilders.TextTableBuilder.StartRow | src/TextTableBuilder.cpp:26-41 | a new row, or the exception when the row before is not as long as the header |
| TextTableBuilders.TextTableBuilder.Put | src/TextTableBuilder.cpp:43-67 | the vectors stand for the row with the cell added, or nothing changes |
| TextTableBuilders.TextTableBuilder.Append | src/TextTableBuilder.cpp:89-98 | the last cell is lengthened, and no column is widened |
| TextTableBuilders.TextTableBuilder.BuildBorder | src/TextTableBuilder.cpp:120-134 | the border as a line |
| TextTableBuilders.TextTableBuilder.BuildRow | src/TextTableBuilder.cpp:136-156 | a row as a line, or the exception |
| TextTableBuilders.TextTableBuilder.Build | src/TextTableBuilder.cpp:158-180 | all lines in order, nothing for an empty header, the exception for a short row |

## Left out

- Messages, paging, logging, colour output, light and affect changes, and all JavaScript triggers. What a trigger, an
  arena script, a clan rule or a permission level answers is a parameter of the operation that asks for it.
- GroupMove.SimpleMove: leaves out death traps, mounts moved along, scripts that move or purge the mover, and movement
  points. It is a step that fails or moves the character; whether it succeeds is fixed for each character for the length
  of one command, which loses nothing because `GroupMove.PerformMove` proves that each is asked at most once.
- GroupMove.Leave: leaves out `buildwalk`, which makes a missing exit and its room. The cancelled timers and cleared
  NOTRACK flags beside each step are left out as well.
- The memory of deleted follower nodes: a ghost set of the nodes not yet deleted stands for it, so that no deleted
  node is reached again.
- The vnum, name and sector of a room in the mini-map and its JSON text; rooms are identities. Radius 2 and cap 25 of the
  source are parameters.
- SQL text, escaping and connections: a query replaces or deletes one row of a map, or fails. The comparison of keys is
  exact, where a database may ignore case. The start-up load and the background clean-up thread are not modelled.
- The order in which the flush walks over its hash map is a parameter; any order of the keys is allowed.
- The characters of texts are bytes of the ASCII range wherever the source tests for printing or alphabet; locales are
  not modelled.
- What happens to a websocket command after it is taken from the buffer.
- `setTime` and `getTime`, which go through `localtime` and `mktime`, and the comparison of dates by them.
- Adding and removing drink names, and the amount that is printed. `pour ... out` is modelled in place but not part of the
  runs that conserve liquid.
- The position, the wait state and the timer that `setBashState` changes, and scripts that set the bashed flag directly.
- BashQueue.Combat.ProcessEvents: events of other kinds are in the list and are counted down and taken off, but the code
  they call, which may change the list in the source, is not part of this model.
- The linked list of events is a sequence that the methods reassign, and so are inventories and contents of things;
  `Followers` has the list surgery on nodes.
- Weights: the items too heavy for a character at the moment of a command are a parameter of the command.
- Switched descriptors and descriptors without a character or a connection in the snoop commands and the relay; one
  descriptor is one character, and who is written what stands for the sockets and logs behind it.
- Overloads of `put` and `append` for numbers, which convert and call the ones for text.
- ColorText.StrlenIgnoreColors: asks for a text whose colour codes end, because the source reads on behind the text
  otherwise.
- Combat rolls, clan, set and show commands, accounts, mail and file utilities.
