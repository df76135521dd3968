# Madmail in Dafny

A model, in Dafny, of the parts of the Madmail mail server whose correctness is hardest to see from
the code, with proofs of what they keep over whole runs. Nothing here executes the server; every
statement is about the model, which follows the code branch by branch.

| file | models |
|---|---|
| `Uids.dfy` | ascending lists and finite sets of UIDs, shared by the other files |
| `SeqUid.dfy` | translation between sequence numbers and UIDs |
| `Session.dfy` | one IMAP session on values: pending updates, `Sync`, and the client that applies its responses |
| `Handles.dfy` | the same as objects updated in place: `MailboxHandle`, `SharedHandle`, `Manager` |
| `Runs.dfy` | any number of sessions of one mailbox: storing, announcing, listing, registering and taking announcements as separate steps |
| `Races.dfy` | the races of that machine, each as a run |
| `Orderly.dfy` | rules for its callers under which these races cannot happen |
| `Recents.dfy` | which session shows a message as \Recent, over the same runs |
| `Idle.dfy` | the idle loop and its one-slot channel, interleaved with everyone who enqueues updates |
| `Criteria.dfy` | rewriting of number sets and of search trees |
| `Tables.dfy` | the mailbox tables and the meaning of the SQL statements used on them |
| `Store.dfy` | the mailbox store: create, copy, move, delete, expunge, and deliveries as one transaction |
| `StoreRuns.dfy` | runs of the store: UIDs, `uidnext` and message counters |
| `Bodies.dfy` | runs of the store: reference counts and message bodies |
| `OpenPgp.dfy` | the OpenPGP payload recogniser |
| `Lexer.dfy`, `Dispenser.dfy` | the configuration lexer and token dispenser |
| `Layout.dfy` | how a tree of directives is laid out in tokens |
| `Meaning.dfy` | what a tree of directives means as a file: declarations, macros, imports |
| `Parser.dfy` | the configuration block parser, proved to read that meaning from the text |
| `Imports.dfy` | expansion of snippet imports |
| `Verdicts.dfy` | merging the results of checks that run in parallel |
| `Checks.dfy` | which calls a check state gets, and in which order |
| `Limiter.dfy` | the limiter of failed admin logins |
| `Quoting.dfy` | splitting addresses, quoting and unquoting local parts |

Objects that the source changes in place are classes with `modifies` clauses, and each of their
methods is proved against a function on values; the theorems are about those functions. Goroutines
are step machines: a step is what one goroutine does under its lock, or one committed transaction, and
theorems hold for all interleavings of these steps. A theorem that needs more about their order has it
as a condition on each step, with a lemma that the condition is exact and a run that fails without it.
The answers of code outside the model (checks, clocks, name validation) are arbitrary.

## Where the code differs from what one would expect

Each of these is modelled as the code is, with the exact condition under which the expected
behaviour holds.

- `uidToSeq` answers a single absent UID inside the range with the next higher message
  (`SeqUid.NumberOfRightIff`). It searches by halving, and in a map that is not ascending, which a session
  can come to have, it can answer a present UID with another message (`SeqUid.NumberOfUnordered`).
- `Sync` numbers FETCH in the new map but sends it before EXPUNGE and EXISTS
  (`Session.FetchNumberRightIff`, `Session.FetchBeforeExists`).
- A flag change does not update one that is still pending (`Session.FlagsCurrentIff`,
  `Session.StaleFlagsSent`).
- Storing and announcing are separate steps, as are listing a mailbox and registering for it, and
  announcements reach each session in any order. A session can therefore show messages out of order
  or twice, keep one that is gone, or never show one that is there (`Runs.StepFaithfulIff` for the exact
  conditions, `Races` for the runs, `Runs.PhantomStays` and `Runs.MissedForGood` for what stays,
  `Orderly.OrderlyIsClean` for rules that exclude all of this but a `Sync` that meets a UID both created and
  expunged). Order and completeness do not depend on what a `Sync` meets (`Runs.RunOrderedIff`,
  `Runs.RunCoveredIff`, `Orderly.OrderlyStaysOrdered`).
- A delivery stores \Recent whatever the manager answers, so two sessions can show it
  (`Recents.StepRecentIff`, `Recents.DeliveryShowsRecentTwice`).
- Closing a handle twice forgets a newer registration of the same mailbox (`Handles.ClosedTwice`). Exactly
  when a registration is forgotten that is not the handle's own says `Handles.ForgetsOnlyOwnIff`.
- An open-ended sequence range past the last message is dropped, and a UID set and a sequence set in
  one node are merged by union (`Criteria.SeqRangeRightIff`, `Criteria.PastEndExample`,
  `Criteria.BothSetsRightIff`, `Criteria.BothSetsExample`).
- The ranges of a resolved UID set can overlap (`Criteria.ResolvedSetOverlaps`). A move over such ranges
  copies a message twice and leaves the counter of its source too low (`StoreRuns.StepCountedIff`,
  `StoreRuns.OverlapMiscounts`).
- Reference counts change by one per key and not per message (`Bodies.CopyExactIff`,
  `Bodies.ExpungeExactIff`, with `Bodies.RepeatedKeyMiscounts` and `Bodies.RepeatedKeyLeaks`), and
  `DelMessages` deletes bodies without looking at them (`Bodies.DeleteKeepsBodiesIff`,
  `Bodies.SharedBodyLost`).
- A move or copy of zero messages announces a range whose end lies before its start, and which names two
  messages that do not exist when its bounds are read in either order (`StoreRuns.MoveAnnouncesIff`,
  `StoreRuns.CopyAnnouncesIff`, `StoreRuns.EmptyMoveAnnounces`).
- The lexer's documentation says that a hash sign hides the rest of the line; inside a word it hides
  only the rest of the word (`Lexer.HashHidesLineIff`, `Lexer.HashInWord`). A backslash cannot be escaped in
  quotes (`Lexer.QuotingIff`, `Lexer.BackslashLost`).
- A quoted local part is accepted without its closing quote (`Quoting.BehindQuote`).
- The outcome of parallel checks can depend on the schedule: when some rejecting results carry a reason
  and others do not, and likewise for quarantining ones (`Verdicts.AgreeIff`, `Verdicts.DisagreeExample`).

## Model

| member | source | states |
|---|---|---|
| SeqUid.Search | internal/go-imap-mess/sequid.go:29-31 | where halving ends in any map; in an ascending one that is the first position whose UID is at or above the one searched for |
| SeqUid.RangeTranslated | internal/go-imap-mess/sequid.go:15-60 | in an ascending map a range a < b, or a:*, becomes exactly the interval of positions whose UIDs lie in it, and fails exactly when there are none |
| SeqUid.OddTranslated | internal/go-imap-mess/sequid.go:15-60 | there `*` as lower bound is the last position or fails, and reversed bounds fail |
| SeqUid.UidToSeq | internal/go-imap-mess/sequid.go:15-60 | a translation of ranges for every map, within its bounds; in an ascending map a UID range a < b becomes exactly the interval of positions whose UIDs lie in [a, b] and fails exactly when there are none; open ranges, single UIDs, `*`, `*` as lower bound and reversed bounds likewise |
| SeqUid.SeqToUid | internal/go-imap-mess/sequid.go:62-110 | sequence numbers to UIDs for every map, with holes, also from `*`: the outermost set entries of the range, and when it fails |
| SeqUid.RoundTrip | internal/go-imap-mess/sequid.go:15-110 | for valid positions the two translations are mutual inverses |
| SeqUid.NumberOfPresent | internal/go-imap-mess/sequid.go:22-45 | a present UID is reported under its own position |
| SeqUid.NumberOfRightIff | internal/go-imap-mess/sequid.go:22-45 | looking up one UID is right if and only if it is present or outside the range of the map |
| SeqUid.NumberOfUnordered | internal/go-imap-mess/sequid.go:22-45 | UID 3 in the map 1, 9, 3 is answered with the message 9 |
| SeqUid.NumberOfAbsentExample | internal/go-imap-mess/sequid.go:22-45 | UID 3 among 2, 4, 6 is answered with the message 4 |
| Session.SyncMirrors | internal/go-imap-mess/mailbox.go:170-258 | a client that applies the responses in order ends with exactly the server's map; every EXPUNGE is in range when it arrives and EXISTS never shrinks the view |
| Session.ExpungesMirror | internal/go-imap-mess/mailbox.go:184-240 | EXPUNGE numbers sent downwards remove from the client's view exactly the messages that the compaction removes |
| Session.SyncElements | internal/go-imap-mess/mailbox.go:182-213 | after a `Sync` the map holds the old messages less the expunged ones, and the created ones |
| Session.SyncAscending | internal/go-imap-mess/mailbox.go:182-213 | a `Sync` keeps the map strictly ascending when created UIDs lie above it |
| Session.FetchSentIff | internal/go-imap-mess/mailbox.go:222-235 | a pending flag update is sent, and under which number, if and only if its UID has one in the new map |
| Session.FetchNumberRightIff | internal/go-imap-mess/mailbox.go:221-240 | every FETCH that is sent names the right message for the client if and only if that message is in the old map and none before it goes in the same `Sync` |
| Session.FetchBeforeExists | internal/go-imap-mess/mailbox.go:221-258 | a FETCH for a message that arrives in the same `Sync` is sent to a client that has no slot for it |
| Session.CountsSentIff | internal/go-imap-mess/mailbox.go:198-254 | EXISTS is sent if and only if something arrived, with the number of messages in the new map; RECENT if and only if, besides, an arrival was taken as recent, with the session's count of them |
| Session.RecentFlagSentIff | internal/go-imap-mess/mailbox.go:222-294 | the flags sent for a changed message are the new ones, with \Recent if and only if the session shows it as recent |
| Session.FlagsCurrentIff | internal/go-imap-mess/mailbox.go:266-294 | after a flag change its flags are what is pending if and only if nothing different was pending |
| Session.StaleFlagsSent | internal/go-imap-mess/mailbox.go:266-294 | of two flag changes before one `Sync` the first one's flags are sent |
| Handles.MailboxHandle.constructor | internal/go-imap-mess/sequpdate.go:84-97 | a new handle shows the listed UIDs and recents, counts the recents and has nothing pending |
| Handles.MailboxHandle.Management | internal/go-imap-mess/sequpdate.go:54-61 | a management handle has no connection and no shared handle |
| Handles.MailboxHandle.IdleUpdate | internal/go-imap-mess/mailbox.go:334-341 | puts a token into the channel unless there is one, and does nothing without a channel |
| Handles.MailboxHandle.Compact | internal/go-imap-mess/mailbox.go:184-194 | compaction within the array keeps exactly the UIDs that stay, in order, and collects the positions of the others |
| Handles.MailboxHandle.AppendCreated | internal/go-imap-mess/mailbox.go:202-207 | created UIDs are appended in ascending order |
| Handles.MailboxHandle.SendFlags | internal/go-imap-mess/mailbox.go:222-235 | in any map, FETCH responses are those of the pending updates that have a number in it |
| Handles.MailboxHandle.Sync | internal/go-imap-mess/mailbox.go:170-258 | in any map, ascending or not, the object ends in the state, and sends the responses, that the value model of `Sync` says |
| Handles.MailboxHandle.EnqueueFlagsUpdate | internal/go-imap-mess/mailbox.go:266-294 | the update is appended, with \Recent for recent messages, unless one is pending for the message, which then stays as it is |
| Handles.MailboxHandle.RemovedSet | internal/go-imap-mess/mailbox.go:369-391 | a removal is enqueued for every session of the mailbox, unless the handle has no connection |
| Handles.MailboxHandle.Removed | internal/go-imap-mess/mailbox.go:345-367 | the same for one UID |
| Handles.SharedHandle.EnqueueRemoved | internal/go-imap-mess/sequpdate.go:263-268 | in whatever order the handles come, each gets the removal and nothing else changes |
| Handles.SharedHandle.EnqueueArrived | internal/go-imap-mess/sequpdate.go:144-162 | each handle gets the arrival, and exactly one of them, if there is any, the \Recent mark |
| Handles.Manager.Mailbox | internal/go-imap-mess/sequpdate.go:71-112 | one more session for the key, with the given connection, other sessions as they were; the shared handle is the registered one, or new |
| Handles.Manager.NewMessage | internal/go-imap-mess/sequpdate.go:165-209 | the UID is made recent in exactly one open session, or the caller is told to store the flag, never both |
| Handles.Manager.NewMessages | internal/go-imap-mess/sequpdate.go:132-163 | the same for several UIDs, except that without a session the answer is still no |
| Handles.Manager.RemovedSet | internal/go-imap-mess/sequpdate.go:251-269 | every session of the key gets the removal |
| Handles.Manager.Close | internal/go-imap-mess/mailbox.go:397-421 | the handle goes, and with the last handle of its shared one the key, whoever holds it by then; other registrations stay exactly under the condition below; a handle without a connection is left alone |
| Handles.ForgetsOnlyOwnIff | internal/go-imap-mess/mailbox.go:397-421 | closing forgets no registration but that of the handle's own shared handle if and only if another handle is left there, or the key is not registered, or is registered for that very shared handle |
| Handles.ClosedTwice | internal/go-imap-mess/mailbox.go:397-421 | a session opens and closes, another opens, the first is closed again: the second is still open and its mailbox no longer registered |
| Runs.RunsStaySound | internal/go-imap-mess/mailbox.go:170-391 | in every run, in whatever order announcements are taken, each client's view is the server's map; a session shows nothing that was not stored or announced; and everything it listed or took stays in map plus pending unless it took a removal, which is of a deleted message |
| Runs.StepFaithfulIff | internal/go-imap-mess/sequpdate.go:71-209 | a step keeps every session ascending, exact and informed of all that is announced if and only if it is clean: no `Sync(true)` meets a UID created and expunged, arrivals are taken in time, nothing is announced between listing and registering, and every removal finds the sessions that know the message |
| Runs.TakingFaithfulIff | internal/go-imap-mess/sequpdate.go:144-162 | a session stays faithful when it takes an arrival if and only if its UIDs lie above the map and their removals were not shown before |
| Runs.SyncedFaithfulIff | internal/go-imap-mess/mailbox.go:182-213 | a `Sync(true)` keeps a session faithful if and only if no UID is both created and expunged |
| Runs.JoinedFaithfulIff | internal/go-imap-sql/user.go:128-137 | a session that registers is faithful if and only if everything announced and still there is in its list, and nothing in its list was announced as removed |
| Runs.RunsStayFaithful | internal/go-imap-mess/mailbox.go:182-391 | every run of clean steps keeps all of this together; what order and completeness need by themselves is stated below |
| Runs.StepOrderedIff | internal/go-imap-mess/mailbox.go:170-258 | a step keeps every map ascending and below all pending arrivals if and only if an arrival that is taken lies above the map it joins, whatever a `Sync` meets |
| Runs.StepCoveredIff | internal/go-imap-mess/sequpdate.go:71-209 | a step leaves every message that is announced and still there known to each session or on its way to it if and only if a session that registers lists all of them |
| Runs.RunOrderedIff | internal/go-imap-mess/mailbox.go:170-258 | in any run all maps are ascending and below what is pending throughout if and only if every arrival is taken on top of the map |
| Runs.RunCoveredIff | internal/go-imap-mess/sequpdate.go:71-209 | in any run no session ever misses a message that is announced and still there if and only if every list is complete when its session registers |
| Runs.NothingMissing | internal/go-imap-mess/mailbox.go:182-213 | such messages are in the map or pending, but for those on their way |
| Runs.ClientSeesMailbox | internal/go-imap-mess/mailbox.go:170-258 | after any clean run, once everything is announced, a session that has taken it all and runs a clean `Sync(true)` shows its client exactly the mailbox, in order of UID |
| Runs.SyncLeavesPhantom | internal/go-imap-mess/mailbox.go:184-208 | a UID created and expunged before one `Sync(true)` is shown although it is gone |
| Runs.LateArrivalSticks | internal/go-imap-mess/mailbox.go:184-208 | so is one whose arrival is taken after its removal was shown |
| Runs.PhantomStays | internal/go-imap-mess/mailbox.go:184-208 | it stays in every run until its removal is announced again or the session closes |
| Runs.MissedForGood | internal/go-imap-sql/user.go:128-137 | a message announced before a session registered, and not in its list, is never shown by that session |
| Races.SyncMeetsBoth | internal/go-imap-mess/mailbox.go:184-208 | a run: stored, announced, deleted, announced, both taken before one `Sync(true)`; the message stays visible |
| Races.RemovalOvertakes | internal/go-imap-mess/sequpdate.go:133-209 | a run: the removal is taken and shown before the arrival; the message stays visible |
| Races.ArrivalsSwapped | internal/go-imap-mess/sequpdate.go:176-204 | a run: two arrivals are taken in the other order; the view is not ascending |
| Races.ShownTwice | internal/go-imap-sql/delivery.go:384-402 | a run: a session opens between commit and announcement; the message is shown twice |
| Races.MissedInGap | internal/go-imap-sql/user.go:128-137 | a run: a message is stored and announced between listing and registering; it is never shown |
| Races.RemovedInGap | internal/go-imap-sql/user.go:128-137 | a run: a listed message is removed before the session registers; it stays visible |
| Races.RemovalAnnouncedFirst | internal/go-imap-sql/delivery.go:384-402 | a run: the removal is announced before the arrival and a session opens in between; the message stays visible |
| Races.SilentRemoval | internal/go-imap-mess/mailbox.go:369-381 | a run: a removal through a handle without a connection reaches nobody |
| Orderly.OrderlyIsClean | internal/go-imap-mess/sequpdate.go:71-269 | in a run where UIDs ascend, sessions take announcements in the order made, removals are announced behind the arrival and through connected handles, and sessions list while nothing stored awaits its announcement and register before the next one, every step but a `Sync` is clean |
| Orderly.OrderlyStaysOrdered | internal/go-imap-mess/mailbox.go:170-391 | in every such run, whatever the `Sync`s met, each session's map is strictly ascending and below all pending arrivals, and no message that is announced and still there is missing from map and pending arrivals but those on their way |
| Orderly.OrderlyClientSeesMailbox | internal/go-imap-mess/mailbox.go:170-258 | so a session that has taken everything shows its client exactly the mailbox after `Sync(true)`, if no `Sync` met a UID both created and expunged |
| Recents.RecentShownOnce | internal/go-imap-mess/sequpdate.go:71-209 | in every run whose callers store the flag only when an announcement found no session, and clear it when handed out, no two sessions show a message as recent, and counts are the sizes of the sets |
| Recents.StepRecentIff | internal/go-imap-sql/mailbox.go:97-230 | a step keeps each flag in one place and the counts right if and only if flags are stored or promised only when nobody holds them, and a reader that cannot clear them is given none |
| Recents.RecentSaidIff | internal/go-imap-mess/mailbox.go:198-254 | in every run a `Sync` sends RECENT if and only if the session took an arrival as recent since its last `Sync`, and the number is its count |
| Recents.RecentSaidRight | internal/go-imap-mess/mailbox.go:198-254 | if the callers obey the manager, that is the number of messages it shows as recent |
| Recents.OneRecentOfThree | internal/go-imap-mess/mailbox.go:198-254 | messages 2 and 4, then 5 taken as recent: EXISTS 3, RECENT 1 |
| Recents.DeliveryShowsRecentTwice | internal/go-imap-sql/delivery.go:318-400 | a run in which a delivered message is recent in two sessions |
| Idle.RunsForgetNothing | internal/go-imap-mess/mailbox.go:134-161 | in every interleaving, something pending while the session idles means a token in the channel or an idler bound to `Sync` |
| Idle.NoLostWakeup | internal/go-imap-mess/mailbox.go:134-161 | an idler that waits on an empty channel has nothing pending |
| Idle.IdlerDrains | internal/go-imap-mess/mailbox.go:134-161 | left alone, an idler with something pending reaches a state with nothing pending in at most two of its own steps |
| Criteria.ResolveUids | internal/go-imap-mess/mailbox.go:58-83 | the loop over UID ranges resolves `*` to the last UID and puts each range in order |
| Criteria.ResolveSeq | internal/go-imap-mess/mailbox.go:50-99 | a number set becomes the set of its resolved ranges, and when that is an error |
| Criteria.UidSetKeepsMeaning | internal/go-imap-mess/mailbox.go:58-83 | a resolved UID set names the same messages |
| Criteria.SeqRangeRightIff | internal/go-imap-mess/mailbox.go:85-92 | a sequence range resolves to exactly the messages it names if and only if it is not open-ended past the end |
| Criteria.PastEndExample | internal/go-imap-mess/mailbox.go:85-92 | 3:* over two messages names the last one and is dropped |
| Criteria.SeqSetKeepsMeaning | internal/go-imap-mess/mailbox.go:85-98 | so does a whole set |
| Criteria.ResolveKeepsMeaning | internal/go-imap-mess/mailbox.go:103-124 | for every tree of Not and Or every message matches the rewritten tree exactly when it matched the original |
| Criteria.BothSetsRightIff | internal/go-imap-mess/mailbox.go:104-115 | a node with both sets is right for a message if and only if both sets name it or neither does |
| Criteria.BothSetsExample | internal/go-imap-mess/mailbox.go:104-115 | UID 4 and number 1 over messages 2 and 4: no message has both, and the rewritten node names the first |
| Criteria.ResolvedSetOverlaps | internal/go-imap-mess/mailbox.go:58-83 | the UID set 4,10:* over messages 2 and 4 comes out as 4:4 and 4:10 |
| Tables.CopyForm | internal/go-imap-sql/sql.go:419-448 | the two copy statements give consecutive new UIDs in the order of the old ones, each with its source's key, flags, \Seen and data, and without its marks |
| Store.Store.IncrementMsgCounters | internal/go-imap-sql/mailbox.go:232-257 | the old `uidnext` on every database, which goes up by one with the counter |
| Store.Store.CreateMessage | internal/go-imap-sql/mailbox.go:385-487 | one new row under the old `uidnext`, with the given key and data, the given flags less \Recent, seen exactly if \Seen is given, recent as told; no other row changes, counters and key as they should |
| Store.Store.CopySpan | internal/go-imap-sql/sql.go:419-448 | one range copied from a given base on, and how many rows it had |
| Store.Store.CopySpans | internal/go-imap-sql/mailbox.go:733-754 | all ranges copied onto consecutive UIDs, one reference per key and range |
| Store.Store.CopyMessages | internal/go-imap-sql/mailbox.go:601-640 | the store ends as a copy, every copy with its source's key, flags, \Seen and data; the announced range is that of the copies; without the mailbox nothing changes |
| Store.Store.MarkSpans | internal/go-imap-sql/mailbox.go:504-510 | exactly the chosen rows are marked |
| Store.Store.MoveMessages | internal/go-imap-sql/mailbox.go:489-599 | chosen messages are gone from the source, their copies in the target with key, flags, \Seen and data, counts and references as before; which UIDs are announced |
| Store.Store.DelMessages | internal/go-imap-sql/mailbox.go:642-721 | exactly the chosen messages go, and all their bodies |
| Store.Store.Expunge | internal/go-imap-sql/mailbox.go:768-864 | exactly the messages of the mailbox flagged \Deleted go and are announced, all others stay unchanged, the counter falls by as many; or nothing happens at all when a key in use would be deleted |
| Store.ExpungedRows | internal/go-imap-sql/sql.go:385-401 | which rows an expunge removes, said of each row |
| Store.ExpungedCounts | internal/go-imap-sql/mailbox.go:805-864 | the counter of the mailbox falls by the number of messages that go, and no other changes |
| Store.ExpungedKeys | internal/go-imap-sql/sql.go:592-656 | which keys stay, with how many references, and which bodies are deleted, said of each key |
| Store.Delivery.MboxDelivery | internal/go-imap-sql/delivery.go:281-359 | one new row in the open transaction with the given key, flags and data, unseen and recent; no other row changes; its notification queued |
| Store.Delivery.BodyParsed | internal/go-imap-sql/delivery.go:236-279 | all messages in one transaction, stored tables untouched, one notification for each, in order |
| Store.Delivery.Commit | internal/go-imap-sql/delivery.go:384-402 | all messages appear at once and exactly they are announced |
| Store.Delivery.Abort | internal/go-imap-sql/delivery.go:361-375 | stored tables unchanged, nobody told |
| StoreRuns.DeliveryArrives | internal/go-imap-sql/delivery.go:236-402 | what a delivery announces is exactly the rows it adds, one for each message with what it brings, in order and with ascending UIDs |
| StoreRuns.ChosenInOrder | internal/go-imap-sql/mailbox.go:733-754 | over ascending disjoint ranges the selection is each chosen message once, in order of UID |
| StoreRuns.ChosenRowsAre | internal/go-imap-sql/mailbox.go:733-754 | chosen are exactly the messages whose UID lies in some range |
| StoreRuns.CopyInOrder | internal/go-imap-sql/mailbox.go:723-766 | a multi-range copy is an order-preserving bijection onto the consecutive UIDs from the old `uidnext` on, each copy with its source's key, flags, \Seen and data; what was there is unchanged |
| StoreRuns.MoveInOrder | internal/go-imap-sql/mailbox.go:525-596 | so is a move, with the same contents, and exactly the chosen messages leave; the counters stay right |
| StoreRuns.AnnouncesCopiesIff | internal/go-imap-sql/mailbox.go:594-626 | the announced range, read upwards, is exactly the new UIDs; read in either order it is so if and only if there are any |
| StoreRuns.MoveAnnouncesIff | internal/go-imap-sql/mailbox.go:489-599 | after a move the announced range names exactly the copies, in whatever order its bounds are read, if and only if something was moved |
| StoreRuns.CopyAnnouncesIff | internal/go-imap-sql/mailbox.go:601-626 | the same after a copy |
| StoreRuns.EmptyMoveAnnounces | internal/go-imap-sql/mailbox.go:489-599 | a move of nothing to a mailbox with `uidnext` 5 announces 5:4, which names messages 4 and 5 in either order of the bounds |
| StoreRuns.ApartIff | internal/go-imap-sql/mailbox.go:525-545 | ranges select at least as many messages as there are, and exactly as many if and only if no two share one |
| StoreRuns.MoveCountsRightIff | internal/go-imap-sql/mailbox.go:525-582 | a move over any ranges keeps the counters right if and only if no two of them share a message |
| StoreRuns.OverlapMiscounts | internal/go-imap-sql/mailbox.go:525-582 | a move over 4:4 and 4:10 copies message 4 twice and leaves the counter of the source too low |
| StoreRuns.StepPlaced | internal/go-imap-sql/mailbox.go:385-864 | every operation, over any ranges, keeps UIDs below `uidnext` and keys on record, and never lowers `uidnext` |
| StoreRuns.StepCountedIff | internal/go-imap-sql/mailbox.go:385-864 | an operation keeps the message counters right if and only if it is not a move that selects a message twice |
| StoreRuns.RunsStayPlaced | internal/go-imap-sql/mailbox.go:385-864 | so does every run: UIDs below `uidnext`, which never falls |
| StoreRuns.RunsStayGood | internal/go-imap-sql/mailbox.go:385-864 | in every run that moves no message twice the counters are right as well |
| StoreRuns.UidsAreNew | internal/go-imap-sql/mailbox.go:232-257 | a UID handed out anywhere in a run was never in use and lies above all that ever were |
| Bodies.CopyExactIff | internal/go-imap-sql/sql.go:608-617 | a copy leaves reference counts exact if and only if no range holds one key twice |
| Bodies.HitsAllIff | internal/go-imap-sql/sql.go:608-617 | keys are counted as often as copied if and only if no range holds one key twice |
| Bodies.MoveAllExact | internal/go-imap-sql/mailbox.go:489-599 | a move that selects no message twice leaves reference counts exact |
| Bodies.ExpungeExactIff | internal/go-imap-sql/sql.go:592-607 | an expunge leaves counts exact if and only if it removes no key twice |
| Bodies.ExactCanExpunge | internal/go-imap-sql/sql.go:648-656 | with exact counts the database never refuses an expunge |
| Bodies.ExpungeDrops | internal/go-imap-sql/mailbox.go:805-864 | an expunge deletes exactly the bodies that lost their last message |
| Bodies.StepTidyIff | internal/go-imap-sql/mailbox.go:385-864 | an operation keeps counters and counts exact and the blob store equal to the bodies in use if and only if it selects no key twice in one statement, moves no message twice, and deletes nothing past the counts |
| Bodies.RunsStayTidy | internal/go-imap-sql/mailbox.go:385-864 | so does every run of such operations |
| Bodies.NoRepeatsSingle | internal/go-imap-sql/mailbox.go:385-864 | where no mailbox holds a key twice, every operation but a deletion and a move that selects a message twice is of that kind |
| Bodies.MovesOnce | internal/go-imap-sql/mailbox.go:489-599 | a move after which no mailbox holds a key twice has selected no message twice |
| Bodies.RunsWithoutRepeats | internal/go-imap-sql/mailbox.go:385-864 | so a run without deletions, in which no mailbox comes to hold a key twice, keeps the store tidy |
| Bodies.RepeatedKeyLeaks | internal/go-imap-sql/sql.go:592-607 | two messages with one body expunged together leave the body behind |
| Bodies.RepeatedKeyMiscounts | internal/go-imap-sql/sql.go:608-617 | two messages with one body copied in one range: four messages have it and three are counted |
| Bodies.ExpungeKeepsBodies | internal/go-imap-sql/mailbox.go:805-864 | whatever the counts, an expunge takes no body from a message that stays |
| Bodies.DeleteKeepsBodiesIff | internal/go-imap-sql/mailbox.go:674-721 | a deletion keeps the others' bodies if and only if none of them shares a deleted key |
| Bodies.SharedBodyLost | internal/go-imap-sql/mailbox.go:674-721 | deleting a message takes the body from its copy in another mailbox |
| Bodies.RunsKeepBodies | internal/go-imap-sql/mailbox.go:385-864 | in every run without deletions every message keeps its body |
| OpenPgp.LengthRoundTrip | internal/pgp_verify/pgp_verify.go:278-299 | every 32-bit length can be encoded and decoding gives it back |
| OpenPgp.LengthExamples | internal/pgp_verify/pgp_verify.go:266-299 | the octets of the examples in section 4.2.3 of RFC 4880 have the lengths given there |
| OpenPgp.MessageExamples | internal/pgp_verify/pgp_verify.go:248-316 | octets that are a message, and octets that are none |
| OpenPgp.ShortestIsShortest | internal/pgp_verify/pgp_verify.go:278-299 | no length header is shorter than the one chosen |
| OpenPgp.BodyRoundTrip | internal/pgp_verify/pgp_verify.go:266-301 | decoding a body with its partial lengths inverts encoding and stops where it ends |
| OpenPgp.BodyEncoded | internal/pgp_verify/pgp_verify.go:266-301 | what decodes as a body is the encoding of that body |
| OpenPgp.MessageRoundTrip | internal/pgp_verify/pgp_verify.go:248-316 | every message is accepted, as itself |
| OpenPgp.MessageEncoded | internal/pgp_verify/pgp_verify.go:248-316 | what is accepted is the encoding of a message |
| OpenPgp.Unambiguous | internal/pgp_verify/pgp_verify.go:248-316 | a byte string encodes at most one message |
| OpenPgp.PrefixFree | internal/pgp_verify/pgp_verify.go:248-316 | no message is a proper prefix of another |
| OpenPgp.Masks | internal/pgp_verify/pgp_verify.go:256-270 | the bit masks are a comparison and remainders |
| OpenPgp.SkipPartials | internal/pgp_verify/pgp_verify.go:267-274 | the inner loop skips partial bodies, or the payload is cut short |
| OpenPgp.ReadLength | internal/pgp_verify/pgp_verify.go:278-299 | the three final length forms |
| OpenPgp.ReadPacket | internal/pgp_verify/pgp_verify.go:254-301 | one packet's tag and end, and what they decide about the payload from there on |
| OpenPgp.IsEncryptedOpenPGPPayload | internal/pgp_verify/pgp_verify.go:248-316 | for every byte string, accepted if and only if it is session key packets followed by one SEIPD packet ending at the last byte |
| Lexer.QuotedBreaks | framework/config/lexer/lexer.go:126-147 | the text of a quoted string holds exactly the line breaks of its source |
| Lexer.SameLineIff | framework/config/lexer/lexer.go:100-178 | a token ends on the line where the next starts if and only if no line break lies between them, and never after it |
| Lexer.QuotingIff | framework/config/lexer/lexer.go:126-147 | a text written in quotes with its quotes escaped reads back as itself if and only if, read in steps of one character or of two from a backslash on, no step is a backslash and a quote and none ends early; the second of two backslashes may stand before a quote |
| Lexer.BackslashLost | framework/config/lexer/lexer.go:126-147 | one backslash written in quotes is read as a quotation mark |
| Lexer.Lexer.Load | framework/config/lexer/lexer.go:64-81 | a leading byte order mark is skipped, lines count from one, and an empty input is an error |
| Lexer.Lexer.Scan | framework/config/lexer/lexer.go:100-178 | the loop over flags finds the next token of the text, with the line it starts on, and keeps the line counter right |
| Lexer.Lexer.PlainRune | framework/config/lexer/lexer.go:149-177 | one character outside quotes ends the token, begins one or leaves the token sought as it was |
| Lexer.Lexer.Next | framework/config/lexer/lexer.go:100-178 | the same on the lexer object |
| Lexer.AllTokens | framework/config/lexer/parse.go:28-42 | all tokens of the text, in order; none and an error for an empty one |
| Lexer.TokensInOrder | framework/config/lexer/lexer.go:100-178 | each token starts on or after the line on which the one before it ends |
| Lexer.TokensWritten | framework/config/lexer/lexer.go:64-178 | every list of safe texts, written in quotes at any line distances, is read back as exactly these tokens, each with the line it starts on |
| Lexer.WordReadsBack | framework/config/lexer/lexer.go:149-177 | a word is read as itself, less its carriage returns; a hash sign inside it hides what follows up to the next blank that ends a word and no more |
| Lexer.HashHidesLine | framework/config/lexer/lexer.go:165-171 | a hash sign where no word has begun hides everything up to the end of the line |
| Lexer.HashHidesLineIff | framework/config/lexer/lexer.go:149-177 | for the first hash sign of any word outside quotes, carriage returns in the word included, nothing behind it on the line is read if and only if it is the first character of a token, or behind the blank that ends the word there is nothing to be read anyway |
| Lexer.HashInWord | framework/config/lexer/lexer.go:149-177 | `a#b c` is read as `a` and `c` |
| Dispenser.ExactlyOneMove | framework/config/lexer/dispenser.go:86-122 | on the tokens of any text exactly one of `NextArg` and `NextLine` advances from every token but the last, and which one |
| Dispenser.Dispenser.Next | framework/config/lexer/dispenser.go:74-80 | one token on, unless at the last |
| Dispenser.Dispenser.NumLineBreaks | framework/config/lexer/dispenser.go:259-264 | the loop counts the line breaks |
| Dispenser.Dispenser.NextArg | framework/config/lexer/dispenser.go:86-101 | advances exactly when the next token starts on the line where this one ends |
| Dispenser.Dispenser.NextLine | framework/config/lexer/dispenser.go:107-122 | advances exactly when it starts on a later line |
| Meaning.PlainNode | framework/cfgparser/imports.go:114-154 | macros leave a directive of plain texts alone |
| Meaning.AllReadableTaken | framework/cfgparser/parse.go:219-349 | directives of plain texts with valid names, within the nesting limit, mean themselves, whatever is declared |
| Meaning.SnippetsMeaning | framework/cfgparser/parse.go:219-385 | a file of snippets and directives in any order means the directives with these snippets imported |
| Meaning.TableMeaning | framework/cfgparser/parse.go:219-385 | for every table of snippets and all directives: the table written in front, the file means the directives with the snippets of the table imported |
| Meaning.ImportExample | framework/cfgparser/parse.go:335-379 | `(a) { b c }` and `import a` mean `b c` |
| Meaning.ReferenceReplaced | framework/cfgparser/imports.go:119-146 | among plain arguments `$(x)` stands for the values of the macro, or for nothing |
| Meaning.MacroMeaning | framework/cfgparser/parse.go:200-331 | for all names and values: `$(x) = values` and `name pre $(x) post` mean `name pre values post` |
| Meaning.DeclarationsOnTopOnly | framework/cfgparser/parse.go:312-333 | a snippet or macro name inside a block makes any file an error |
| Meaning.DepthIff | framework/cfgparser/parse.go:224-226 | 256 blocks can be open in each other, and no more |
| Parser.ReadWords | framework/cfgparser/parse.go:123-140 | the inner loop ends with the line or with the brace that opens a block, what it passed is the arguments, and arguments that lie ahead are read; on a continued line the first word may be on a later line |
| Parser.ReadLine | framework/cfgparser/parse.go:123-140 | with the block that may follow: what it passed is the arguments and the block, and those that lie ahead are read as what the block means, or are an error |
| Parser.ReadArgs | framework/cfgparser/parse.go:121-156 | the loop over continued lines ends, and words on lines continued by a backslash are read as the arguments of one line, without the backslashes |
| Parser.ReadNode | framework/cfgparser/parse.go:106-175 | from plain tokens the directive is exactly the tokens passed, the cursor ends at its last token; a directive that lies ahead is read as a directive, snippet or macro under the name it has, or is an error, as its meaning says |
| Parser.ReadHead | framework/cfgparser/parse.go:114-175 | a name in parentheses is a snippet under the name inside, `$(name) =` a macro, any other a directive whose name has to be valid |
| Parser.Keep | framework/cfgparser/parse.go:312-343 | declarations go to their tables at top level only, other directives into the block with their macros replaced, and what is an error |
| Parser.ReadDirective | framework/cfgparser/parse.go:290-343 | a closing brace among the arguments closes the block and is not kept |
| Parser.ReadNext | framework/cfgparser/parse.go:255-343 | one round of the loop over a block: which of error, end, closing brace and directive it meets |
| Parser.ReadBlock | framework/cfgparser/parse.go:228-349 | the loop over a block ends; from plain tokens the directives are exactly the tokens passed, and directives and declarations that lie ahead are read as what they mean, with the errors that has |
| Parser.ReadNodes | framework/cfgparser/parse.go:219-349 | terminates on every token stream, within the nesting limit; from plain tokens the directives are exactly the tokens passed, with directives starting where lines and blocks do; a block that lies ahead is read as what it means |
| Parser.ReadTree | framework/cfgparser/parse.go:351-385 | no import is left; a plain file without imports is read exactly as laid out; every tree of safe texts without braces, written down, is read as what it means, errors included: so plain directives as themselves, and every table of snippets with directives behind it as the directives with these snippets imported |
| Layout.LayoutUnique | framework/cfgparser/parse.go:219-349 | a layout is that of at most one tree without braces among its names and arguments |
| Layout.TreeWritten | framework/cfgparser/parse.go:219-349 | the tokens of a written tree are laid out as the tree is, every closing brace on a new line |
| Imports.ExpandImports | framework/cfgparser/imports.go:28-75 | terminates on every tree and table; repeated passes give exactly direct inlining within the budget of the depth, with errors in the same cases |
| Imports.Pass | framework/cfgparser/imports.go:35-66 | one pass over a block keeps what direct inlining makes of it, or fails when that does; whether another is needed |
| Imports.ExpandChild | framework/cfgparser/imports.go:37-65 | what one child contributes to a pass |
| Imports.InlinedNodeIsFree | framework/cfgparser/imports.go:28-75 | no import is left at any depth, name and arguments stay, blocks stay blocks and others stay without one |
| Imports.BudgetGrows | framework/cfgparser/imports.go:47-49 | a larger depth budget never changes a result |
| Imports.CyclesFail | framework/cfgparser/imports.go:47-49 | a reached cycle of snippets, or an unknown name, is an error at any depth |
| Imports.ChainIff | framework/cfgparser/imports.go:47-49 | from the top of a file 256 imports can be followed one into the other, and no more |
| Imports.AcyclicInlines | framework/cfgparser/imports.go:28-75 | without cycles and unknown names some budget is enough, so only the depth limit can fail |
| Verdicts.VerdictDecided | internal/msgpipeline/check_runner.go:161-237 | when results of concern carry reasons, every schedule ends with the error exactly when some result rejects, and otherwise with the quarantine flag exactly when it was set before or some result quarantines |
| Verdicts.GatheredAlike | internal/msgpipeline/check_runner.go:188-207 | all schedules gather the same multiset of authentication results and of header fields |
| Verdicts.FirstDecides | internal/msgpipeline/check_runner.go:209-216 | for every worker there is a schedule in which its reason is the one that stays |
| Verdicts.AgreeIff | internal/msgpipeline/check_runner.go:209-237 | all schedules have one outcome if and only if rejecting results all carry a reason or all carry none, and the same holds of quarantining ones unless a rejection with a reason hides them or the flag was set before |
| Verdicts.DisagreeExample | internal/msgpipeline/check_runner.go:209-237 | two rejections, one with a reason: one schedule fails and another does not |
| Verdicts.ErrorHidesQuarantine | internal/msgpipeline/check_runner.go:209-237 | two quarantines, one with a reason, beside a rejection with one: every schedule fails alike |
| Checks.ReplayedAll | internal/msgpipeline/check_runner.go:126-150 | a replay asks about every recorded recipient, each once |
| Checks.ReplayedInOrder | internal/msgpipeline/check_runner.go:126-150 | in the order in which they were first recorded |
| Checks.CheckRunner.constructor | internal/msgpipeline/check_runner.go:59-68 | a runner without states |
| Checks.CheckRunner.RunAll | internal/msgpipeline/check_runner.go:161-226 | every state of the group gets the call once; a recipient is put to a state only once |
| Checks.CheckRunner.CheckStates | internal/msgpipeline/check_runner.go:70-159 | all traces stay prefixes of connection, sender, distinct recipients, body, and only grow, by recorded recipients; on success a new state has been introduced and asked about every recorded recipient, in order and once; states of other checks get no call |
| Checks.CheckRunner.CheckConnSender | internal/msgpipeline/check_runner.go:239-246 | keeps that; on success every check has a state, new ones introduced; states of other checks get no call |
| Checks.CheckRunner.CheckRcpt | internal/msgpipeline/check_runner.go:248-272 | keeps that; once the states are prepared every one is asked, unless it was before, and the recipient is recorded, whatever the checks answer; otherwise nothing is recorded |
| Checks.CheckRunner.CheckBody | internal/msgpipeline/check_runner.go:274-289 | keeps that; once the states are prepared the body is the last call of every one of them |
| Limiter.Handler.Prune | internal/api/admin/admin.go:236-242 | the loop keeps exactly the attempts after the cutoff |
| Limiter.Handler.CheckRateLimit | internal/api/admin/admin.go:228-246 | allowed exactly below ten recent attempts; the list is pruned |
| Limiter.Handler.RecordFailedAttempt | internal/api/admin/admin.go:249-253 | one attempt more |
| Limiter.Handler.ClearFailedAttempts | internal/api/admin/admin.go:256-260 | none for the address |
| Limiter.Handler.Authenticate | internal/api/admin/admin.go:188-224 | true exactly for the right token while allowed, and what the table is afterwards |
| Limiter.Handler.CleanupRateLimitEntries | internal/api/admin/admin.go:264-282 | in any order of addresses, recent attempts stay and empty addresses go |
| Limiter.BlockedAMinute | internal/api/admin/admin.go:228-246 | ten failures at once block an address for exactly sixty seconds |
| Limiter.CleanupUnseen | internal/api/admin/admin.go:264-282 | with a non-decreasing clock, cleanups at any points change no later answer |
| Limiter.FailuresBounded | internal/api/admin/admin.go:188-260 | with at most k calls in flight no minute since the last success holds more than 9 + k recorded failures |
| Limiter.BoundReached | internal/api/admin/admin.go:188-260 | for every k > 0 some run records that many |
| Quoting.SplitJoinedIff | framework/address/split.go:36-54 | parts joined by an at-sign split back if and only if both are there and the domain has no at-sign |
| Quoting.PostmasterSplit | framework/address/split.go:36-39 | the postmaster, in any case, splits into itself and an empty domain, and nothing else has an empty domain |
| Quoting.SplitIsJoined | framework/address/split.go:36-54 | every address that splits is its parts joined, but for the postmaster |
| Quoting.QuoteMbox | framework/address/split.go:113-132 | the loop quotes exactly the local parts with special characters and escapes quotes and backslashes |
| Quoting.QuotedIff | framework/address/split.go:106-132 | a local part stays as it is if and only if it has none of the thirteen special characters; otherwise it is put in quotes |
| Quoting.UnquotePlainIff | framework/address/split.go:58-103 | without quotes a local part is accepted, as itself, if and only if it is not empty and has no backslash and no at-sign |
| Quoting.BehindQuote | framework/address/split.go:58-103 | nothing may follow the closing quote, which may itself be missing |
| Quoting.UnquoteMbox | framework/address/split.go:58-103 | the loop over flags undoes quoting, with its errors |
| Quoting.UnquoteQuoted | framework/address/split.go:58-132 | unquoting undoes quoting for every local part |
| Quoting.QuotedAddress | framework/address/split.go:36-132 | splitting and unquoting a quoted address give back exactly what was put in |
| Quoting.QuotedDiffer | framework/address/split.go:113-132 | different local parts stay different when quoted |

## Left out

- Store.Store.CopySpan: for a copy within one mailbox (source and target the same) the range has to end below `uidnext`; a later one would meet the copies themselves.
- Store.Store.CopySpans: as for one range.
- Store.Store.CopyMessages: as for one range; database failures other than the refused deletion of a key are not modelled.
- Store.Store.MoveMessages: as for copies.
- Store.Store.DelMessages: a failure between the deletion of bodies and the commit is not modelled.
- Store.Delivery.BodyParsed: takes the mailboxes, flags and fresh body keys as resolved; failures half-way are not modelled.
- Store.Delivery.Commit: replaces the stored tables by the transaction's copy of them; what other transactions committed in the meantime is not captured, isolation being the database's.
- Store.Delivery.Abort: bodies already written stay in the blob store; failures while writing them are not modelled.
- Criteria.ResolveCriteria: works on values; that the source rewrites its argument in place, and aliasing between criteria nodes, are not captured.
- Parser.ReadNodes: the parse context is passed and returned as a value, not updated in place. What is read is stated for plain tokens, and for directives laid out one to a line with their texts in quotes; a block on one line, or a brace as last argument, is stated for plain tokens only.
- Parser.ReadLine: as for `Parser.ReadNodes`.
- Parser.ReadWords: as for `Parser.ReadNodes`.
- Parser.ReadArgs: as for `Parser.ReadNodes`; a block behind a continued line is not stated.
- Parser.ReadNode: as for `Parser.ReadNodes`.
- Parser.ReadDirective: as for `Parser.ReadNodes`.
- Parser.ReadNext: as for `Parser.ReadNodes`.
- Parser.ReadBlock: as for `Parser.ReadNodes`.
- Parser.ReadTree: as for `Parser.ReadNodes`; imports of files are not modelled.
- Checks.CheckRunner.CheckStates: on an error the source also closes states that stay in use; closing is not modelled. Calls are stated for lists without repeated checks and in the order MAIL, RCPT, DATA.
- OpenPgp.IsEncryptedOpenPGPPayload: positions are unbounded; on a 32-bit platform their addition could wrap.
- Limiter.Handler.Authenticate: takes the authorization header that was found; the constant-time comparison is an equality.
- Runs.RunsStaySound: a transaction that announces and then fails to commit, whose UIDs are handed out again, is not among the steps; nor are handles that outlive the last close of their key.
- 32-bit wrap-around of `uidnext` and of message counters.
- External notifications between processes (`sink`, `ExternalSubscribe`), `MailboxDestroyed`, deletion and renaming of mailboxes, deletion of users.
- Fan-out to sessions is modelled per mailbox key; sessions of different keys share nothing but the manager's map.
- Search and fetch of message bodies, quotas and append limits, SQL dialects, prepared statements and schema upgrades.
- File imports, environment expansion and macros inside a string (`expandSingleValueMacro` is an arbitrary function); `validateNodeName` is an arbitrary predicate.
- MIME parsing, armor and base64 in the PGP check; DMARC in the check runner; logging everywhere.
- Invalid UTF-8 in addresses and configuration files; read errors while lexing.
- SMTP, DNS, TLS, LDAP, PAM and the other modules of the server, which are input and output or thin wrappers.
