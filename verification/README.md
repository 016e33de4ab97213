# Verified model of the communications store

This project models the shared state of a communications back end, its tables, unique indexes, statements and
transactions, and proves what the operations over it keep, alone and with any number of other callers between their
statements.

Conventions:

- A table is a map or a sequence. A unique index is part of the model, so an insert that meets one fails as a conflict.
- One SQL statement is one atomic step, and one transaction is one step that commits whole or leaves nothing. Where
  several statements run without a transaction, other callers' statements may come between them: as events of a
  transition system in the run theorems, as an `others` function in the methods.
- Instants are integers (nanoseconds). Fresh ids, clocks, host hooks and the spec's row checks are parameters, and every
  theorem holds for all of them.
- A failing statement is a parameter of the writing operations, or an event (`Break`) of the runs of chat threads and
  device keys. `ChatStore.OpenThread`, `ChatStore.DeclineThread`, `NotificationStore.MarkRead`, the methods of
  `DMRosterStore` and `DMKeyStore`, and operations that only read take none: they are stated for statements that work.
- A class method is proved equal to a step function, and the lemmas are about that function and the runs made of it.

| file | what it models |
|---|---|
| `Common.dfy`, `Names.dfy`, `Listings.dfy` | counting, first-seen name lists, and ordered listings with cursors and pages |
| `Standing.dfy` | the standing-message scheduler: any hosts, clocks, aborts and stops, then one whole pass |
| `Slug.dfy` | a label's tag path |
| `ChatThreads.dfy`, `ChatRuns.dfy`, `ChatStarts.dfy`, `ChatReuse.dfy`, `ChatAsides.dfy`, `ChatStore.dfy` | the chat-thread table, its statements at once, what starts of one label are answered and to whom, labels that name aside paths, the store's methods |
| `ChatRequests.dfy`, `ChatTransactions.dfy` | a member's start and a lead's decline with the notices they raise, as transactions |
| `GetOrCreate.dfy`, `Subjects.dfy` | read, insert, read again under a unique index, once for all; subject threads |
| `DMRoster.dfy`, `DMKeys.dfy` | a direct-message roster and its admins; device keys and the three statements of a publish |
| `Acts.dfy`, `Moderation.dfy` | removals, dismissals, disputes and the act log |
| `ReadMarkers.dfy`, `ChatMessages.dfy`, `Activity.dfy` | read points and unread counts, message listings and cursors, the activity summary |
| `Notifications.dfy`, `Audiences.dfy`, `Receipts.dfy` | raises and preferences, audience raises, acknowledgements and receipts |
| `MixedRadix.dfy`, `Rewriting.dfy`, `AddressCode.dfy` | the address code: printing, validating, normalising, formatting, searching |

Where the code and what is written about it disagree, the model follows the code:

- Device keys are documented as one live key a handset. A publish whose third statement never runs leaves two:
  `DMKeys.ABrokenPublishLeavesTwins`, with the exact condition in `DMKeys.BrokenPublishKeepsOneIff` and the whole-run
  form in `DMKeys.TwinsMeanABrokenPublish`.
- `Removed` and `Left standing` are documented as two states of one post (models/moderation.go:19-23). A removal does
  not look for a dismissal, so both rows may stand: `Moderation.BothMayStand`. A removal that succeeds makes both stand
  exactly when the post was dismissed before (`Moderation.RemovalMakesBothStandIff`), a dismissal never does
  (`Moderation.DismissalNeverMakesBothStand`), and in every reachable state both stand exactly when the log holds the
  dismissal and, after it, the removal (`Moderation.BothStandIffLogged`).
- `DecideDispute` takes any outcome. Rows and log go on agreeing exactly when it is not `open`
  (`Moderation.AgreesIffSpecified`), and over a whole run exactly when no step decided a dispute to stay open
  (`Moderation.RunAgreesIff`). `Moderation.OpenMayBeDecided` is a run that does.
- A leave counts and then writes. Admin continuity holds of whole operations, not of interleaved statements:
  `DMRoster.TwoLeavesMayStrandTheThread`, with the exact condition in `DMRoster.LeaveWriteKeepsContinuityIff`.
- `ErrDMNotLastToLeave` says that only the last to leave can bring a thread back (models/directmessage.go:34). The claim
  succeeds for anybody who left it: `DMRoster.AnybodyWhoLeftMayClaim`, at a run in which the first to leave claims in
  `DMRoster.TheFirstToLeaveMayClaim`. It is the last one's alone exactly when nobody else left:
  `DMRoster.OnlyTheLastToLeaveMayClaimIff`.
- A `kicked` participant is active again by accepting: `DMRoster.KickedIsNotFinal`.
- An event the host knows as unmutable is documented as raised whatever the member muted
  (documentation/2. design/declared-comm.md:631-634). A store opened inside a chat transaction carries no `Mutable` hook
  (testrun.go:199-205), so such an event can be muted there: `ChatTransactions.TheHostsWordIsNotHeard`. The same people
  are told with and without the hook exactly when no recipient of an event only the host calls unmutable muted its
  category: `ChatRequests.TransactionTellsTheSameIff`.
- A declined label is documented as free again, every later start answering the one new thread
  (documentation/2. design/routes.md:398-402); `ChatReuse.ADeclinedLabelIsStartedOnceAgain` proves it of the label that
  was declined. But a label may name the very path a decline moved its thread to: exactly when the suffix, the thread's
  id without its prefix, slugs to itself (`Slug.LabelsMayNameAsidePathsIff`), as groups of lower-case letters and digits
  joined with dashes do (`Slug.LabelsMayNameAsidePaths`). `ChatAsides.ADeclinedThreadMayHoldALabelsPath` is such a run;
  each start of that label then mints another thread. Two undisturbed starts of a label are answered one thread exactly
  when no declined thread holds its path (`ChatStores.LoneStartsAnswerOneIff`); in reachable states, exactly when no
  thread still declined was moved there (`ChatStarts.StartableIff`).
- A thread somebody asked for, still with the leads, is documented as one that can be declined
  (documentation/2. design/routes.md:380-383). Its decline ends in a conflict when another thread was started at the
  path it would be moved to: `ChatAsides.ADeclineMayMeetTheIndex`, with the exact condition in
  `ChatTransactions.AloneDeclines` and `ChatTransactions.LeadsDeclineConflictsIff`.
- A pass may end without a failure and leave an occurrence due, when another host's earlier clock claimed in between:
  `Standing.ALostClaimMayLeaveOneDue`, with the exact condition in `Standing.ATryLeavesNothingDueIff`.
- A message stamped earlier than a reader's cursor is never fetched by that cursor:
  `ChatMessages.AnEarlierStampIsMissed`, with the exact condition in `ChatMessages.PollingCatchesUpIff`.

## Model

| member | source | states |
|---|---|---|
| Standing.Between | standing_impl.go:155-155 | the occurrences in a half-open span, ascending, all of them and no other |
| Listings.OneIncreasingListing | standing_impl.go:155-155 | that contract leaves one list: two ascending lists of the same instants are equal |
| Standing.LatestDue | standing_impl.go:146-159 | what a pass would send is the greatest occurrence after the last sent one, or from the start, up to now; none iff there is none |
| Standing.RunKeepsInv | standing_impl.go:146-212 | every interleaving of creates, reads, claims, aborted posts and stops by any hosts with any clocks keeps each message's posts rising, its own occurrences, and ending at its mark |
| Standing.EveryOccurrenceAtMostOnce | standing_impl.go:146-212 | over any run of any hosts a message's posts strictly rise, so no occurrence goes out twice |
| Standing.PostsEqualMoves | standing_impl.go:162-183 | in any run the posts added for a message equal the moves of its `last_sent_at` |
| Standing.NothingPostedAfterStop | standing_impl.go:105-123 | once a stop committed, nothing any host does posts for that message again |
| Standing.PassOutcome | standing_impl.go:125-144 | a pass posts exactly what is owed, in order, fails exactly the troubled rows, and leaves every other row as it was |
| Standing.PassLeavesNothingDue | standing_impl.go:125-188 | a pass nobody steps into leaves a running message with a readable schedule whose post did not fail with no occurrence after its mark up to now |
| Standing.ATryLeavesNothingDueIff | standing_impl.go:146-212 | in any run of any hosts, a try that does not fail leaves its message nothing due up to its own now iff the mark is still the one its host read, or nothing was due any more |
| Standing.ALostClaimMayLeaveOneDue | standing_impl.go:146-212 | a run in which a host with an earlier clock claims first: the later host's claim is lost, no failure is reported, and a later occurrence stays due |
| Standing.SecondPassIsSilent | standing_impl.go:125-188 | a second pass at the same or an earlier time posts nothing and changes nothing |
| Standing.FailureIsItsOwn | standing_impl.go:133-142 | a message whose post failed keeps its mark and is due again, and every other due message still goes out |
| Standing.StandingStore.CreateStanding | standing_impl.go:74-89 | a message is stored trimmed, running and unsent iff it passes the spec's check, its schedule can be read and the insert works; the stored row is the answer if it can be read back |
| Common.TrimSpaceTrims | standing_impl.go:75-75 | trimming takes white space off both ends and nothing else |
| Standing.StandingStore.StopStanding | standing_impl.go:105-123 | each answer exactly when the source gives it: blank, a statement that fails, unknown, already stopped, stopped with the row; the row is stopped iff the update works and finds it running, even if it cannot be read back |
| Standing.StandingStore.ListRunning | standing_impl.go:126-130 | every running row as it stands, none twice |
| Standing.StandingStore.ClaimAndPost | standing_impl.go:146-212 | one claim by compare-and-swap with its post, both or neither |
| Standing.StandingStore.SendDueStandingMessages | standing_impl.go:125-144 | the loop is a whole pass over a listing of the running rows, and each row ends as that pass says, whoever fails |
| Slug.LabelTagPath | chat_impl.go:74-95 | the builder loop is: lower-case, split into maximal letter-or-digit runs, join with dashes; nothing for no word |
| Slug.RunsAreTheMaximalRuns | chat_impl.go:82-90 | the scan's words are the maximal runs, and no other word list is |
| Slug.SamePathIffSameWords | chat_impl.go:74-95 | two labels get one path exactly when they have one word list |
| Slug.PathsAreTheirOwnPath | chat_impl.go:74-95 | slugging a path gives the path back |
| Slug.TidyKeepsThePath | chat_impl.go:47-54 | tidying white space never changes a label's path |
| Slug.LabelsMayNameAsidePaths | chat_impl.go:74-95 | a path suffixed with groups of lower-case letters and digits joined with dashes, as the minted ids are, is itself the path of a label |
| Slug.LabelsMayNameAsidePathsIff | chat_impl.go:74-95 | a path with a suffix is the path of some label iff it is its own, and iff the suffix slugs to itself |
| ChatThreads.OneThreadASlot | chat_impl.go:167-176 | no two threads of one room share a path |
| ChatThreads.ResolveFindsIt | chat_impl.go:167-176 | a path resolves iff some thread of the room sits there |
| ChatThreads.MatchedDeclineFreesTheSlot | chat_impl.go:148-163 | a decline that matches moves its thread aside and leaves its old path to nobody |
| ChatRuns.ApplyKeepsInv | chat_impl.go:56-72 | each statement of any start, decline or open keeps the index, the threads' seats, what each call knows, and that one call at most declined a thread; so does each failure, which ends the call, or sends an insert that broke to the second read |
| ChatRuns.RunKeepsInv | chat_impl.go:119-165 | so does any run of any number of calls, over which threads only move on |
| ChatRuns.PathsStayUniqueAndSeated | chat_impl.go:119-165 | in every reachable state paths are unique, and every declined thread sits at the path it was started at suffixed with its own id |
| ChatRuns.ThreadsOnlyMoveOn | chat_impl.go:140-165 | however calls interleave a thread only goes undeclined, declined, group, or undeclined, group, and its other columns never change |
| ChatRuns.DeclinedAtMostOnce | chat_impl.go:140-165 | over a whole run at most one call is told it declined a thread |
| ChatRuns.DeclineRecursOnce | chat_impl.go:160-162 | a decline calls itself at most once, and the second read always ends it |
| ChatStarts.OnlyTheUnwillingGetAnother | chat_impl.go:122-127 | while nothing is declined at the slot or moved onto it, whoever is answered another thread met the slot's own, undeclined, and could not reuse it |
| ChatReuse.WillingStartsReuse | chat_impl.go:119-138 | while nothing is declined at the slot or moved onto it, a start that is answered, by a caller who may reuse the thread first held there at any stage it may since have reached, is answered that thread |
| ChatReuse.WillingStartsConverge | chat_impl.go:119-138 | so all such starts of a label, told by what they may reuse when they begin, are answered one thread: the slot's, or one new thread minted by at most one of them |
| ChatReuse.MembersStartsReuse | manager_chat_start.go:30-57 | a member's start of a label whose thread is the group's, or was asked for by that member, is answered that thread |
| ChatReuse.ADeclinedLabelIsStartedOnceAgain | chat_impl.go:140-165 | after a decline that took, the starts of its label are answered one thread that was not there before, until that one too is declined |
| ChatStarts.DeclinesAtIff | chat_impl.go:148-163 | the steps those results are without are exactly those that empty the slot or leave a declined thread there; a decline that matches nothing or meets the index is not one |
| ChatStarts.StartableIff | chat_impl.go:147-164 | in every reachable state a slot is free or its thread undeclined iff no thread of the room that is still declined was moved there |
| ChatStarts.UnconditionalStartsReuse | chat_impl.go:97-102 | starts that reuse anything refuse nothing there |
| ChatStarts.DeclineFreesTheSlot | chat_impl.go:147-164 | a decline that took leaves its label free to be started anew, and its thread aside from where it was started |
| ChatStarts.ADeclinedThreadInTheWayMeansANewOneEachTime | chat_impl.go:122-137 | where a declined thread sits on the very path a label names, each start of the label mints another thread |
| ChatAsides.ADeclinedThreadMayHoldALabelsPath | chat_impl.go:147-164 | for any label and ids as they are minted, a run from the empty store (a start, its decline, the start of the label that names the aside path) in which a declined thread holds the path the last start asks for |
| ChatAsides.ADeclineMayMeetTheIndex | chat_impl.go:147-158 | a run from the empty store (a start, the start of the label that names where it would be moved, its undisturbed decline) that ends in a conflict with the thread still declinable |
| ChatStores.MintFits | chat_impl.go:119-138 | a start that succeeds answers an undeclined thread of its room, stored as answered: the caller's own draft at the label's path or suffixed, or one it may reuse |
| ChatStores.MintMovesOn | chat_impl.go:119-138 | whatever others do in between, a start only adds a thread |
| ChatStores.ChatStore.MintUnlessReusable | chat_impl.go:119-138 | whatever others do between its statements, the method is the read, the insert and, when the insert met the index or broke otherwise, the second read |
| ChatStores.LoneStartsAnswerOneIff | chat_impl.go:119-138 | two undisturbed starts of one label that may reuse anything are answered one thread iff no declined thread holds the label's path |
| ChatStores.ChatStore.DeclineThread | chat_impl.go:140-165 | ends although it calls itself, within two rounds, and each answer is true of the store it leaves, whatever others did in between |
| ChatStores.ChatStore.OpenThread | chat_impl.go:56-72 | an opened thread is the group's and undeclined; it is not found iff it was not there when read |
| ChatRequests.LeadsToTell | manager_chat_start.go:90-121 | the confirmed ones among the distinct named leads, in first-seen order; no answer iff a hook fails for one of them |
| ChatRequests.RecipientsFor | manager_recipients.go:20-39 | the defaults, or what the host names instead, each once, in first-seen order |
| ChatRequests.RaiseEach | manager_chat_start.go:149-164 | raises one after another, passing over the muted, as far as the first that fails otherwise |
| ChatRequests.TellsTheUnsilenced | manager_chat_start.go:149-164 | a telling that succeeds tells exactly those who have not muted it, in order, and stores one row for each |
| ChatRequests.TransactionTellsTheSameIff | notification_impl.go:124-136 | inside a chat transaction, whose store has no `Mutable` hook, the same people are told as with it iff no recipient muted the category of an event only the host calls unmutable |
| ChatTransactions.MembersStart | manager_chat_start.go:30-57 | a member's start answers only a thread that member may read; it tells the other leads only when it minted; refused, it leaves nothing behind |
| ChatTransactions.OtherLeadsAre | manager_chat_start.go:90-121 | the other leads are those named and confirmed, none twice, never the requester and never nobody |
| ChatTransactions.LeadsDecline | manager_chat_start.go:59-88 | an answered decline leaves the thread declined, tells only if it is the one that declined it and not to its own requester; refused, it leaves nothing behind |
| ChatTransactions.LeadsDeclineConflictsIff | manager_chat_start.go:59-88 | a confirmed lead's decline ends in a conflict iff another thread has the path the declinable one would be moved to |
| ChatTransactions.OneRoundOfDeclineNotices | manager_chat_start.go:66-69 | once a decline of a thread was answered, no later decline of it raises a notice, whatever happened in between |
| ChatTransactions.AloneDeclines | chat_impl.go:140-165 | with nobody in between a decline takes iff the thread is in the room, declinable and its aside path free; it ends in a conflict iff that path is taken; else it answers a thread declined before, or refuses, and changes nothing |
| ChatTransactions.StartRequested | manager_chat_start.go:30-57 | a failed notice takes the minted thread back with it |
| ChatTransactions.TheHostsWordIsNotHeard | manager_chat_start.go:123-138 | a committed member's start that leaves out a lead who muted chat, of an event the host calls unmutable and that a raise outside the transaction delivers |
| ChatTransactions.StartChatThreadFor | manager_chat_start.go:16-28 | refuses who is not in the room, then starts as a lead or requests as a member |
| ChatTransactions.DeclineChatThreadFor | manager_chat_start.go:59-88 | the method is the lead's check and the transaction |
| GetOrCreate.RunKeepsTruth | subject_impl.go:48-68 | under any interleaving rows are only added, every answer is the stored row, and the stored row is the first one inserted |
| GetOrCreate.CallsConverge | subject_impl.go:48-68 | all successful calls for one key return one and the same stored row, the first one inserted |
| Subjects.SubjectStore.Open | subject_impl.go:48-68 | read, insert, read again with others in between: the answer is the stored thread, and the one there before if there was one |
| Subjects.OpensConverge | subject_impl.go:48-68 | all successful opens of one subject's thread answer one thread, that subject's, the first one inserted |
| DMRoster.NoOperationLosesTheLastAdmin | dm_roster_impl.go:35-134 | no operation takes the last active admin while anybody stays active |
| DMRoster.AdminContinuity | dm_roster_impl.go:35-134 | from a roster with an active admin every later state has one, up to the first with nobody active |
| DMRoster.ClaimLeavesTheClaimantAlone | dm_roster_impl.go:136-151 | a self re-enable succeeds iff nobody is active and the claimant left, and leaves exactly the claimant active |
| DMRoster.AnybodyWhoLeftMayClaim | dm_roster_impl.go:136-151 | once the last active participant left, a claim succeeds for that one and for anybody who left earlier, and for nobody else |
| DMRoster.OnlyTheLastToLeaveMayClaimIff | dm_roster_impl.go:136-151 | the last to leave is the only one who may claim iff nobody else stands as left |
| DMRoster.TheFirstToLeaveMayClaim | dm_roster_impl.go:136-151 | a run in which one leaves, then another, and the first claims the thread |
| DMRoster.BetweenTwoClaimsItEmptied | dm_roster_impl.go:136-151 | between two successful claims of one thread some step emptied its active set |
| DMRoster.OneRowAtATime | dm_roster_impl.go:35-189 | an operation changes nobody's row but its subject's, a refused one nobody's; rows are added only by invitation and never removed |
| DMRoster.NobodyIsMadeActive | dm_roster_impl.go:53-55 | over any run nobody becomes active but by their own accepting or claiming |
| DMRoster.AdminsAreMadeByAdmins | dm_roster_impl.go:95-113 | over any run nobody becomes an admin but by the promotion of an admin active at that step |
| DMRoster.LeaveWriteKeepsContinuityIff | dm_roster_impl.go:57-78 | a leave's write on a roster changed since its counts keeps continuity iff the guard still holds |
| DMRoster.TwoLeavesMayStrandTheThread | dm_roster_impl.go:57-78 | two admins who both count before either writes strand the rest |
| DMRoster.KickedIsNotFinal | dm_roster_impl.go:160-171 | setting a state does not look at the earlier one |
| DMRoster.CreateThread | dm_impl.go:40-85 | the thread under its given or minted id with the creator's roster, or nothing when that id is taken or somebody is named twice |
| DMRoster.FirstRosterIsWhoWasNamed | dm_impl.go:64-79 | a new thread has exactly its creator and those named, and an active admin iff it has a creator |
| DMRoster.DMRosterStore.Invite | dm_roster_impl.go:35-51 | an active admin's invitation of somebody not active; an older row keeps its admin flag |
| DMRoster.DMRosterStore.Accept | dm_roster_impl.go:53-55 | anybody on the roster becomes active |
| DMRoster.DMRosterStore.Leave | dm_roster_impl.go:57-78 | refused to the last active admin while others are active |
| DMRoster.DMRosterStore.Kick | dm_roster_impl.go:80-93 | an active admin's, never of oneself |
| DMRoster.DMRosterStore.Promote | dm_roster_impl.go:95-113 | an active admin's, of anybody on the roster |
| DMRoster.DMRosterStore.ReEnable | dm_roster_impl.go:115-151 | an active admin's invitation, or one's own claim of an emptied thread |
| DMKeys.TwinsMeanABrokenPublish | dm_message_impl.go:61-100 | over any interleaving of publishes and retirements, when none is in flight two live keys of one handset mean a publish of the later one was broken off after its upsert |
| DMKeys.OneLiveKeyAHandset | dm_message_impl.go:61-100 | with no publish in flight and none broken off, every actor and handset has at most one live key |
| DMKeys.ABrokenPublishLeavesTwins | dm_message_impl.go:90-98 | a run in which one publish stops after its upsert and two live keys remain |
| DMKeys.BrokenPublishKeepsOneIff | dm_message_impl.go:74-98 | a completed publish keeps one live key a handset; one broken off after its upsert does iff no sibling was live |
| DMKeys.PublishReplaces | dm_message_impl.go:61-100 | publishing leaves the key live and alone on its handset; other actors and handsets keep what they had |
| DMKeys.DMKeyStore.PublishDeviceKey | dm_message_impl.go:61-100 | the three statements with nobody in between, answering the row read back |
| DMKeys.DMKeyStore.LookupDeviceKeys | dm_message_impl.go:102-110 | exactly the live keys of the named actors |
| DMKeys.DMKeyStore.RetireDeviceKeysForDevice | dm_message_impl.go:112-126 | retires every live key of a named handset and counts them |
| Moderation.RowsAndLogAgree | moderation_impl.go:79-105 | in every reachable state, rolled-back transactions included, the log holds one entry a removal, one a dismissal and one a decided dispute, of the kind its state dictates, and nothing else |
| Moderation.DismissalCameFirst | moderation_dismissal_impl.go:24-37 | where a message has both, its dismissal was logged before its removal |
| Moderation.DecidedOnce | moderation_impl.go:186-188 | a decided dispute never changes again, and deciding it is refused |
| Moderation.NeverByTheRemover | moderation_impl.go:190-197 | no dispute is ever decided by the actor who made the removal |
| Moderation.AgreesIffSpecified | moderation_impl.go:199-215 | a decision keeps rows and log in agreement iff its outcome is not `open` |
| Moderation.RunAgreesIff | moderation_impl.go:176-221 | over any run rows and log go on agreeing iff no step of it decided a dispute to stay open |
| Moderation.OpenMayBeDecided | moderation_impl.go:199-215 | a run in which a dispute is decided to stay open by somebody else: the log oversays from then on, and the dispute may be decided again |
| Moderation.BothMayStand | moderation_impl.go:79-105 | a run in which a message is dismissed and then removed, and both rows stand |
| Moderation.RemovalMakesBothStandIff | moderation_impl.go:79-105 | after a removal that succeeds both rows stand iff the message was dismissed before it |
| Moderation.DismissalNeverMakesBothStand | moderation_dismissal_impl.go:12-49 | after a dismissal that succeeds they never both stand |
| Moderation.BothStandIff | moderation_impl.go:79-105 | after any run both stand iff they did before it or some step of it removed a message then dismissed |
| Moderation.BothStandIffLogged | moderation_impl.go:79-105 | in every reachable state both stand iff the log holds a dismissal of the message and, after it, a removal |
| Moderation.ModerationStore.CreateRemoval | moderation_impl.go:79-105 | the row and its entry together, or neither |
| Moderation.ModerationStore.DismissReports | moderation_dismissal_impl.go:12-49 | refused on a removed message; the row and its entry together, or neither |
| Moderation.ModerationStore.CreateDispute | moderation_impl.go:131-156 | an open dispute of an existing removal, one a removal; an unknown removal is a bad reference |
| Moderation.ModerationStore.DecideDispute | moderation_impl.go:176-221 | refusals in their order, then the decision and its entry together, or neither |
| ReadMarkers.StoredIsTheGreatest | chat_read_impl.go:28-38 | the stored read point is the greatest ever offered |
| ReadMarkers.OrderMakesNoDifference | chat_read_impl.go:28-38 | in whatever order and however often points are offered, the stored one is the same |
| ReadMarkers.UnreadIsWhatWasNeverReached | chat_read_impl.go:55-98 | in any run of posts and marks what is unread is min(100, others' posts after every point ever offered) |
| ReadMarkers.MarkingNeverRaises | chat_read_impl.go:13-42 | a mark never raises a count, and touches only its own thread's and reader's |
| ReadMarkers.MarkingTheLastReadsAll | chat_read_impl.go:13-42 | a mark at or past the last post leaves nothing unread |
| ReadMarkers.PostingCounts | chat_read_impl.go:65-70 | a post counts once for each other reader not yet past it, up to the cap, and never for its own author |
| ReadMarkers.ReadStore.MarkRead | chat_read_impl.go:13-42 | a marker that passes the spec's check is upserted, keeping the later point and the latest mark; the stored row is the answer if it can be read back, and a refused or failed write changes nothing |
| ReadMarkers.ReadStore.CountUnread | chat_read_impl.go:59-70 | the limited count is min(100, the unread) |
| ReadMarkers.ReadStore.UnreadCounts | chat_read_impl.go:81-97 | the map holds exactly the structure's threads with anything unread, with their counts |
| ChatMessages.ListMessagesIsTheThread | chat_impl.go:218-224 | the listing is the one list of a thread's messages in (created_at, id) order |
| ChatMessages.CursorLosesNothing | chat_impl.go:226-232 | a thread is what stands at or before any cursor followed by what stands after it |
| ChatMessages.PollingCatchesUpIff | chat_impl.go:226-232 | polling after one's last message ends up with the whole thread iff every message posted meanwhile stands after that one |
| ChatMessages.AnEarlierStampIsMissed | chat_impl.go:226-232 | one message is held, another stamped earlier is posted, and asking for what came after answers nothing |
| Activity.Tally | chat_impl.go:287-309 | the row loop's totals and latest time are over every row, and its page is the slice asked for, negative offsets and limits included |
| Activity.Activity | chat_impl.go:252-314 | the query in order, then the loop: one entry for each matching room with the raw rows' figures, totals and latest time over all of them, and the page asked for |
| Activity.JoinHasEachRoomOnce | chat_impl.go:238-250 | the full outer join has one row for each room with a thread or a message, with the figures of the raw rows |
| Activity.SummaryAgreesWithRows | chat_impl.go:252-314 | each room once, in order; thread and message totals equal the matching raw rows, and the latest time is the latest matching message's, whatever page is asked for |
| Activity.PagesConcatenate | chat_impl.go:305-307 | pages at successive offsets, put together, are the whole ordered list |
| Notifications.MutedIffLastSetSo | notification_impl.go:124-136 | over any run a raise is refused as muted iff its event may be muted and the actor last set its category muted |
| Notifications.SurveyAndSecurityAlwaysReach | notification_impl.go:163-170 | no run leaves a survey or security row muted, so their raises are never refused as muted |
| Notifications.AReadStampStays | notification_impl.go:83-97 | a raised notification stays, and a read one is never stamped again |
| Notifications.NotificationStore.SetPreference | notification_impl.go:163-193 | refused for the exempt categories; else the actor's one row of the category is as set |
| Notifications.NotificationStore.RefuseIfMuted | notification_impl.go:124-136 | unmutable events are not asked about |
| Notifications.NotificationStore.Raise | notification_impl.go:99-122 | check, rules, mute, insert, in that order; one new row or no change |
| Notifications.NotificationStore.MarkRead | notification_impl.go:83-97 | stamps exactly the actor's own unread rows named, and none for too many ids |
| Names.FirstSeenIsTheOnlyOne | manager_audience.go:74-82 | the distinct non-skipped names in first-seen order are one list and no other |
| Names.Distinct | manager_audience.go:74-82 | the `seen` loop computes that list |
| Audiences.AudienceOf | manager_audience.go:66-87 | the distinct names, refused when there is no hook, it fails, or it names nobody |
| Audiences.RaisesShareTheNames | manager_audience.go:51-62 | a raise that ends without error shares the names out into raised and missed, both in order, none lost or doubled |
| Audiences.RaisesAreStored | manager_audience.go:51-62 | stopped or not, exactly the raised are stored, as the template has them, and each miss is muted or its cap is spent |
| Audiences.RaiseToAudience | manager_audience.go:30-64 | refuses before raising anything, or raises to each in turn; without an error the split is complete |
| Receipts.AckStore.AcknowledgeNotification | notification_acknowledgement_impl.go:14-41 | only an actor's own notification; read, insert, read again with others in between, and the answer is the stored row |
| Receipts.AcknowledgementsConverge | notification_acknowledgement_impl.go:14-41 | all successful acknowledgements of one notification answer one row, its own actor's, the first one inserted |
| Receipts.AcknowledgementTimes | notification_acknowledgement_impl.go:91-110 | the time of each sent notification that was acknowledged, in whatever order the rows come |
| Receipts.NotificationReceipts | notification_acknowledgement_impl.go:55-89 | a blank subject is refused; else one receipt for each row of the clamped page, each with its own times |
| Receipts.PagingVisitsEachOnce | notification_acknowledgement_impl.go:55-76 | paging by last id with any limit ends, and visits each matching notification once, in id order |
| AddressCode.DecodeAddress | models/address_code.go:28-62 | a printed address is valid and decodes, in mixed radix, to its number modulo 26^6 10^8 |
| AddressCode.AddressOfDecode | models/address_code.go:28-62 | every valid address is printed for the number it decodes to |
| AddressCode.SpaceIsTheProduct | models/address_code.go:17-22 | the code's size is the product of its radices |
| AddressCode.SameAddressIffSameRemainder | models/address_code.go:28-62 | two numbers print one address iff they leave one remainder |
| AddressCode.PrintingIsInjective | models/address_code.go:28-62 | printing is injective below the size of the code |
| AddressCode.ModuloBias | models/address_code.go:34-37 | every valid address has floor(2^128/M) or one more preimages among 128-bit numbers, and exactly which |
| AddressCode.EmitAddressLetters | models/address_code.go:48-54 | the loop prints three digits in radix 26 and leaves the quotient |
| AddressCode.EmitAddressDigits | models/address_code.go:56-62 | the loop prints four digits in radix 10 and leaves the quotient |
| AddressCode.AddressDerive | models/address_code.go:28-46 | a blank key has no address; any other has its digest's |
| AddressCode.AddressValid | models/address_code.go:90-117 | the four scans accept exactly three letters, four digits, three letters, four digits |
| AddressCode.AddressNormalize | models/address_code.go:69-87 | the loop's rewriting if that is valid, else nothing |
| AddressCode.NormalizeFormat | models/address_code.go:120-127 | normalising a formatted valid address gives it back |
| AddressCode.NormalizeTwice | models/address_code.go:69-87 | normalising is idempotent |
| AddressCode.TypingMakesNoDifference | models/address_code.go:69-87 | a separator inserted anywhere and the case of any letter make no difference |
| AddressCode.AddressSearch | models/address_directory.go:122-137 | the loop's rewriting, or nothing when a character can be in no address |
| AddressCode.FragmentIsFound | models/address_directory.go:122-137 | any contiguous piece of a formatted address searches for a contiguous piece of the canonical form |

## Left out

- DMKeys.DMKeyStore.PublishDeviceKey: the method runs its statements with nobody in between; interleaved and broken-off publishes are the run theorems' matter, where publishes are values.
- DMRoster.DMRosterStore.Invite: no operation of the roster takes a failing statement; one that fails leaves the roster as before its one write or as after it.
- DMKeys.DMKeyStore.RetireDeviceKeysForDevice: takes no failing statement, nor does any method of its class; publishes that break off are events of the runs.
- ChatStores.ChatStore.OpenThread: takes no failing statement; in the runs a `Break` ends any open at any statement.
- ChatStores.ChatStore.DeclineThread: takes no failing statement; in the runs a `Break` ends any decline at any statement.
- DMRoster.AdminContinuity: is about whole operations, because `Leave` counts before it writes; one thread's roster is modelled, since every statement names one thread.
- Moderation.ModerationStore.DismissReports: its check and insert are one serializable transaction, as is `DecideDispute`; weaker isolation levels are not modelled.
- Notifications.NotificationStore.Raise: the vocabulary of events and categories and the domain's caps are parameters, so the theorems hold for any of them.
- ChatTransactions.StartRequested: the push of raised notices after the commit is not modelled.
- Slug.LabelTagPath: the Unicode tables are a parameter with the properties `Slug.Sound` states; texts are sequences of characters, not of bytes.
- AddressCode.AddressDerive: SHA-256 is replaced by an arbitrary number below 2^128.
- Standing.Between: recurrence rules (section 3.3.10 of RFC 5545), date lists and time zones are an arbitrary set of instants; that the rule parser meets this contract is not part of this model.
- Reports, chat archives, DM messages and reactions, subject messages and views: one-statement reads and writes.
- Routes, the MCP server, command-line tools, schema migration, and the declared operations and blueprint: wiring over code that is not part of this model.
- Web push: network calls and goroutines.
- Test runs: one run scope is modelled; the copies add a column to every condition.
- The address book's and the directory's search queries: predicates with one branch.
