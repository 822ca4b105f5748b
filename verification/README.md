# Maxplayer protocols: a Dafny model

This project models the parts of maxplayer whose correctness rests on an argument rather than on one line of code,
and proves that argument. Four components and two text formats are covered.

* **The swarm relay protocol.** Signed, replaceable events on n independent relays: quorum publishes and reads
  (`Quorum`, `Sequential`, `RelayClient`), the latest-version resolver (`Latest`), drafts and their strict parsers
  (`Drafts`, `Readers`), the roster (`Roster`), run selection and timestamps (`Runs`), the `publish` command with its
  "closed is final" rule and its `--if-latest` compare-and-set (`Publishing`, `Deciding`, `Reopening`, `LateArrivals`,
  `LateRun`), the guard on `join` (`JoinGuard`, `JoinAnswers`, `JoinRelays`, `JoinLoss`), the re-send outbox (`Outbox`,
  `Sweeps`, `Repair`) and the paged history reader (`Paging`). `FilteredRead` is an example run.
* **The spend ledger.** Records and their fold (`Ledger`), the byte-level log and the gate over it (`Budget`), runs of
  many gates with crashes (`BudgetRuns`), and what one payment costs (`Payments`).
* **The chat mailbox.** The transcript file (`ChatLog`), receive, quota, drops, checkpoint and inbox (`Mailbox`,
  `Delivery`), the two-size page reader (`Paging`), the watch cycle (`Watch`), and send slots with bounded retry (`SendSlots`).
* **Text formats.** The checks attestation (`Attestation`, over the JSON string lists of `Json`) and the delivery manifest
  (`Sentinel`). `Basics` and `ByteLines` hold what they share. `LedgerCodec` and `ChatCodec` (over `Strokes`) show
  that the laws asked of the two line formats can be met.

Code that works on expressions is modelled by functions. Code that updates fields, files or loop variables is modelled by
classes and methods, each proved equal to a specification function or to the property it is for; the results about whole
runs are lemmas about those specification functions. A relay call, a file write or a clock reading is a parameter that says
how it ended. Events are taken as already verified, and an event id as a hash: `IdsIdentify` says that no two different
events in reach share one.

## What is false of the code, and exactly when it holds

* **A closed run that stays closed.** Once some version was acknowledged, no publish and no re-send ever reopens a closed
  run; it stays closed if and only if no open version that beats all held ones arrives late from an earlier send
  (`Publishing.ClosedStaysClosed`). It is closed for good, whatever follows, if and only if no open version was signed
  that beats every version held (`LateArrivals.ClosedForGoodExactly`). `LateRun.LateUpdateReopens` is a run of three
  commands that a late copy reopens: an update that times out, then a close signed in the same second with a higher id.
* **A close that no quorum acknowledged.** It is taken over by an open update if and only if some quorum holds no version of
  the run, none is queued, and the update's clock puts it above the close (`Reopening.ReopenExactly`; for one command,
  `Reopening.PublishReopensExactly`). `Reopening.LoneCloseIsLost` is such a run of two commands on three relays.
* **A join that costs nothing.** A published `join` costs a live run, judged by everything the relays hold, if and only if
  the caller's newest membership was not read, the published one takes it over, and some live run counts the one and not
  the other (`JoinRelays.JoinLosesExactly`). That cannot happen when the newest membership was acknowledged
  (`JoinRelays.JoinNeverForfeits`); it does when only a missing relay holds it (`JoinLoss.UnreadMembershipIsLost`).
* **Freshness for every filter.** A quorum read returns an acknowledged event or a version it does not beat if and only if
  its filter does not leave out all such versions that the completing relays held (`Quorum.QuorumReadsAreFresh`). Filters
  by author, kind and identifier never do (`Quorum.CoordinateReadsAreFresh`). The membership filter does once a newer version
  without the `p` tag has replaced the membership (`FilteredRead.UntaggedHidesMembership`).
* **No re-send of a superseded version.** In every run, such a send means that the save after the newer publish failed or
  that the older version met quorum again (`Outbox.OutboxRuns`). The next sweep sends it if and only if that save failed and the
  entry survives the prune with a missing relay that answers (`Outbox.StaleSendExactly`; smallest case
  `Outbox.UnsavedQueueSendsStale`).
* **Entries within their age.** A sweep leaves no entry past its age (`Outbox.ResendKeepsAge`). Queueing leaves none if and
  only if it pruned or what it left was within age (`Outbox.QueueKeepsAgeExactly`; over runs, `Outbox.AgeIsBoundedExactly`): it
  returns before pruning when a newer version of the coordinate is queued, and then an expired entry stays
  (`Outbox.EarlyReturnKeepsExpired`). The `publish` command never takes that branch (`Publishing.QueueIsNeverEarly`), so in
  every run of one home's commands each saved outbox is within age (`Publishing.SavedOutboxIsWithinAge`).
* **A cache that equals the fold.** After a section of the spend gate the cache equals a fresh fold if and only if
  `Budget.WillAgree` held before it, whatever the outcome (`Budget.CacheIsExact`). It fails when a write is answered with an
  error after the whole record reached the disk (`Budget.FailedWriteIsCounted`), and when a record is written onto an
  unfinished line; then no fold succeeds and every charge is refused (`Budget.LostLineBreakLocks`).
* **Credits that fit their charge.** A retry after a crash between the charge and the hop's journal raises fresh quotes and
  charges nothing more, so its credit can exceed the charge. It fits if and only if the settled plan's unused reserve is at
  most the amount first charged (`BudgetRuns.PaymentFitsExactly`; for the total, `BudgetRuns.RetryFitsExactly`).
  `BudgetRuns.DearerQuoteOvercredits` is such a run, which lowers the total below what was spent before the attempt.
* **A rumor dropped for quota that stays out.** A delivery of a dropped rumor is logged if and only if a checkpoint has moved
  the history window past the drop's date and the message would be logged were it new (`Mailbox.DroppedComesBackExactly`).
  With one wrap per rumor, history reads and checkpoints that never go back this does not happen
  (`Mailbox.DroppedStaysOut`); a second, later wrap brings it back (`Mailbox.SecondWrapComesBack`).
* **Every received message is printed.** A received message not yet printed can still be printed if and only if no later
  one has been (`Delivery.StillPrintableExactly`). `Delivery.RemovedPeerIsSkipped` is a run in which a peer's message is
  passed over while the peer is removed, and is never printed once it is approved again.
* **Counters of the day's sends.** They are exact throughout a run if and only if each granted reservation is for the
  file's day or for a day on which no slot is occupied (`SendSlots.SlotsAreExact`). A clock that never goes back a day is
  enough (`SendSlots.OrderedRunsAreFresh`); `SendSlots.BackdatedReservationForgets` is a run that is not.
* **No chat message lost.** What the relay held when the last finished read began, dated up to its checkpoint, is handed over
  in every run if and only if the relay admits nothing dated more than the 240-second overlap back
  (`Watch.NothingIsLostExactly`). A message at or before the cursor that was not handed over arrived in the cursor's own second,
  after that read had begun (`Watch.OnlySameSecondWaits`); such a message exists (`Watch.SameSecondArrivalWaits`).
* **Membership drafts.** A note longer than 4096 UTF-16 units is dropped by the reader, so the round trip holds up to that
  note (`Drafts.MembershipRoundTrip`).

## Model

| member | source | states |
|---|---|---|
| `Attestation.RenderAttestation` | crates/maxplayer-core/src/checks.rs:330-350 | the printing loop yields exactly the attestation's lines, each ended by LF |
| `Attestation.ParseAttestation` | crates/maxplayer-core/src/checks.rs:352-418 | the reading loop, with every early error, computes `Parse` |
| `Attestation.AcceptsExactlyRenders` | crates/maxplayer-core/src/checks.rs:330-430 | for every text and attestation: the text is accepted as that attestation if and only if the attestation is valid and the text is its print with an optional CR before each LF |
| `Attestation.RoundTrip` | crates/maxplayer-core/src/checks.rs:330-418 | reading a valid attestation's print gives it back, whatever its argv holds (quotes, controls, " exit=") |
| `Json.ReadPrinted` | crates/maxplayer-core/src/checks.rs:340-347 | every list of strings reads back from its JSON text (section 7 of RFC 8259) |
| `Json.PrintItemsHasNoControls` | crates/maxplayer-core/src/checks.rs:340-347 | JSON text holds no raw control character, so a check stays on one line |
| `Sentinel.ManifestRecognisedExactly` | crates/maxplayer-core/src/delivery_sentinel.rs:69-104 | with any 64-hex path label, the manifest of one job hash is recognised for another if and only if the two hashes are equal and the label is not that hash |
| `Sentinel.UncutManifest` | crates/maxplayer-core/src/delivery_sentinel.rs:98-104 | without a label to cut, a manifest carries the token of a job if and only if it is its own |
| `Sentinel.SelfCutManifest` | crates/maxplayer-core/src/delivery_sentinel.rs:98-104 | cutting the job hash itself out of the text leaves no job's token |
| `Drafts.ChallengeRoundTrip` | crates/maxplayer-core/src/challenge.rs:91-153 | a printed run is accepted if and only if it is valid, and then reads back as itself |
| `Drafts.MembershipRoundTrip` | crates/maxplayer-core/src/challenge.rs:164-208 | a printed membership is accepted if and only if it is valid, and reads back as itself with an oversized note dropped |
| `Drafts.DecisionRoundTrip` | crates/maxplayer-core/src/challenge.rs:218-256 | a printed decision is accepted if and only if it is valid, and then reads back as itself |
| `Readers.RunReadExactly` | crates/maxplayer-core/src/challenge.rs:22-153 | for every draft and run: the draft is read as that run if and only if the run is valid, the author is its buyer, and its kind, text and the one tag of each name say what the run says, in any tag order; a missing, repeated or malformed tag is refused |
| `Readers.MembershipReadExactly` | crates/maxplayer-core/src/challenge.rs:22-208 | the same for memberships, which must carry no `a` tag; the note is the text unless it or the tags are over the limits |
| `Readers.DecisionReadExactly` | crates/maxplayer-core/src/challenge.rs:22-256 | the same for decisions |
| `Readers.RepeatedTagIsRefused` | crates/maxplayer-core/src/challenge.rs:22-39 | no reader accepts a draft that repeats one of the tags it reads |
| `Latest.LatestPerCoordinate` | crates/maxplayer-core/src/challenge.rs:286-302 | the map-updating loop computes the resolved view |
| `Latest.ViewHoldsWinners` | crates/maxplayer-core/src/challenge.rs:286-302 | the view is in coordinate order and holds exactly the newest version of each coordinate, lowest id on a tie |
| `Latest.ViewDependsOnSet` | crates/maxplayer-core/src/challenge.rs:286-302 | the output sequence depends only on the set of events, not on order or repeats |
| `Latest.ViewMerges` | crates/maxplayer-core/src/challenge.rs:286-302 | resolving a concatenation equals resolving the two resolved halves |
| `Roster.AcceptedMeaning` | crates/maxplayer-core/src/challenge.rs:305-321 | a seller is accepted if and only if the buyer's newest decision on it says so |
| `Roster.EligibleMeaning` | crates/maxplayer-core/src/challenge.rs:323-337 | a seller is eligible if and only if it is accepted and its newest membership is joined, early enough in date and in since |
| `Roster.EligibleFrame` | crates/maxplayer-core/src/challenge.rs:305-337 | two event lists that agree on valid decisions and on accepted authors' memberships have the same eligible list |
| `Roster.StrangersChangeNothing` | crates/maxplayer-core/src/challenge.rs:305-337 | events by keys that are neither the buyer nor accepted change neither acceptance nor eligibility |
| `Roster.FetchMemberships` | crates/maxplayer-challenges/src/cli.rs:528-546 | reads of at most a hundred authors each, as few as that allows, together return exactly what one membership read of all authors would |
| `Roster.ReadRoster` | crates/maxplayer-challenges/src/cli.rs:507-547 | the roster-scoped reads give the same acceptance and the same eligible list as all events, for every run of the buyer |
| `Runs.SelectRun` | crates/maxplayer-challenges/src/cli.rs:332-358 | the selection is a candidate that no candidate is ahead of; none only if there is no candidate |
| `Runs.SelectsNewestOpen` | crates/maxplayer-challenges/src/cli.rs:332-355 | without an id the choice is never a cancelled run, and no other run that is not cancelled is newer, or as new and starts later, or as new and starts with it under a lower id; none if and only if all are cancelled |
| `Runs.SelectByIdIsNewest` | crates/maxplayer-challenges/src/cli.rs:332-358 | selecting by id gives the newest valid version of that run, and nothing if and only if there is none |
| `Runs.ReplacementTimestamp` | crates/maxplayer-challenges/src/cli.rs:835-857 | a timestamp within the tolerance that is later than every own version (short of one dated at the last second of 64 bits), or a refusal because one is dated past the tolerance |
| `Runs.ReplacementIsFirstFree` | crates/maxplayer-challenges/src/cli.rs:835-857 | a replacement is dated if and only if the second after each own version is within the tolerance, and then by the first second not before the clock and after all of them |
| `Runs.LastEnding` | crates/maxplayer-challenges/src/cli.rs:787-807 | the blocking run reported blocks, and no blocking run ends after it |
| `Runs.NamesLastEnding` | crates/maxplayer-challenges/src/cli.rs:787-807 | of the blocking runs it ends last, and under the lowest id of those that end with it |
| `Runs.IdentifierIsFirst` | crates/maxplayer-challenges/src/relay.rs:722-728 | a coordinate takes the first tag that identifies, whatever follows it |
| `JoinGuard.ForfeitMeaning` | crates/maxplayer-core/src/challenge.rs:323-337 | republishing forfeits a run if and only if the old date and since still count for it and the new date does not |
| `JoinGuard.GuardIsExact` | crates/maxplayer-challenges/src/cli.rs:787-807 | the guard names a run if and only if some open run, postable until 900 s after its end, would turn the seller from eligible to ineligible |
| `JoinGuard.CurrentJoinedIsNewest` | crates/maxplayer-challenges/src/cli.rs:607-610 | the membership the command works from is the caller's newest |
| `JoinAnswers.FirstJoinExactly` | crates/maxplayer-challenges/src/cli.rs:601-708 | a caller not joined: `join` publishes if and only if the note fits, the event can be dated and the request is valid, with the minutes and note asked for and both dates at the first free second |
| `JoinAnswers.ChangeJoinExactly` | crates/maxplayer-challenges/src/cli.rs:601-708 | a joined caller: `join` answers unchanged, unreadable, refused or published, each if and only if a stated condition on the events read holds; what it publishes keeps `since`, takes the minutes asked for, and the note asked for or the old one |
| `JoinRelays.JoinNeverForfeits` | crates/maxplayer-challenges/src/cli.rs:606-707 | a published change never costs a live run, judged by everything the relays hold, when the newest membership of the caller was acknowledged, whichever quorum answers |
| `JoinRelays.JoinLosesExactly` | crates/maxplayer-challenges/src/cli.rs:606-707 | it costs a live run if and only if the newest membership held was not read, the published one takes it over, and some live run counts the one and not the other |
| `JoinRelays.NothingToLose` | crates/maxplayer-challenges/src/cli.rs:606-707 | a seller without a membership on any relay has no run to lose |
| `JoinRelays.AcknowledgedIsRead` | crates/maxplayer-challenges/src/cli.rs:509-547 | an acknowledged newest membership is read whichever quorum answers |
| `JoinLoss.UnreadMembershipIsLost` | crates/maxplayer-challenges/src/cli.rs:606-707 | acknowledged left, below-quorum join on one relay, live run: the next join, reading the other two, costs the run |
| `JoinLoss.SignedStoriesAreTold` | crates/maxplayer-core/src/challenge.rs:91-256 | the events this program signs make such a case, for every open run, every pair of keys and all such dates |
| `JoinGuard.JoinRefusalIsNeeded` | crates/maxplayer-challenges/src/cli.rs:646-689 | a refusal names a live run that republishing at that timestamp would really forfeit |
| `Quorum.WithQuorum` | crates/maxplayer-challenges/src/relay.rs:174-192 | every quorum handed out is a strict majority of the relays, the least one when none is asked for; exactly the asked sizes that are not are refused, and any other is used as asked |
| `Quorum.QuorumsIntersect` | crates/maxplayer-challenges/src/relay.rs:25-36 | any two quorums share a relay |
| `Quorum.RunKeepsInv` | crates/maxplayer-challenges/src/relay.rs:331-404 | every interleaving of per-relay sends and reads keeps the freshness invariant |
| `Sequential.PublishRuns` | crates/maxplayer-challenges/src/relay.rs:515-575 | from any state of a run (a new operation's id is unused: `Sequential.IdsAreFresh`), the protocol steps of one publish leave on the relays what the client's publish does, and it is acknowledged if and only if a quorum accepted |
| `Sequential.ReadRuns` | crates/maxplayer-challenges/src/relay.rs:331-404 | from any such state, the steps of one read answer if and only if a quorum completed, with every event a completed relay holds and the filter wants |
| `Quorum.QuorumReadsAreFresh` | crates/maxplayer-challenges/src/relay.rs:331-404 | in every run and for every filter, a successful quorum read that started after an event was acknowledged met it or a version it does not beat, and returns one if and only if the filter does not leave them all out |
| `Quorum.CoordinateReadsAreFresh` | crates/maxplayer-challenges/src/relay.rs:304-319 | reads by author, kind and identifier always return the event or a version it does not beat |
| `Quorum.MembershipReadsAreFresh` | crates/maxplayer-challenges/src/cli.rs:533-546 | membership reads, which also ask for the p tag of the buyer, do so whenever the versions held are memberships of that buyer |
| `FilteredRead.UntaggedHidesMembership` | crates/maxplayer-challenges/src/cli.rs:533-546 | an acknowledged membership is not returned, nor a later version, once a newer version without the p tag has replaced it |
| `RelayClient.Relays.Read` | crates/maxplayer-challenges/src/relay.rs:331-404 | for any filter: succeeds if and only if enough relays completed; the union is exactly what they hold and what is still queued that the filter wants; records who answered, and who was missing only on success |
| `RelayClient.ReadAtKey` | crates/maxplayer-challenges/src/relay.rs:331-404 | with the filter of one coordinate, that is what the publish command decides on |
| `RelayClient.Relays.Publish` | crates/maxplayer-challenges/src/relay.rs:515-575 | every relay is sent the event, acknowledged if and only if a quorum accepted, and only then are the failed relays queued, unless the outbox cannot be saved |
| `RelayClient.Relays.Command` | crates/maxplayer-challenges/src/cli.rs:404-484 | the whole read-check-publish command decides what `Decide` says, and so signs exactly when `Deciding.SignsExactly` says, and leaves the relays and the outbox as `AfterSend` says; refused, it changes nothing |
| `RelayClient.DecisionDependsOnSet` | crates/maxplayer-challenges/src/cli.rs:404-484 | order and repeats among the events read never change the selected version, the final status or the new timestamp |
| `Publishing.RunsAreGood` | crates/maxplayer-challenges/src/relay.rs:515-638 | in every run of commands, re-sends, failed saves and late arrivals each acknowledged version stays on a quorum, or is beaten there |
| `Publishing.ClosedStaysClosed` | crates/maxplayer-challenges/src/cli.rs:404-484 | after any run in which some version was acknowledged and the newest version on any relay is closed, every continuation stays closed at each step if and only if no open version that beats all held arrives late |
| `Publishing.StepKeepsClosedExactly` | crates/maxplayer-challenges/src/cli.rs:404-484 | a step keeps the run closed unless it is the late arrival of an open version that beats all held; so no publish and no re-send reopens it |
| `Publishing.ArrivalKeepsClosedExactly` | crates/maxplayer-challenges/src/relay.rs:577-592 | a signed version arriving late keeps the run closed if and only if it is closed or some held version is not beaten by it |
| `LateArrivals.ClosedForGoodExactly` | crates/maxplayer-challenges/src/cli.rs:404-484 | after any run, a closed run with an acknowledged version stays closed in every continuation if and only if no open version was signed that beats every version held |
| `LateRun.LateUpdateReopens` | crates/maxplayer-challenges/src/relay.rs:515-592 | three commands on three relays, an open run, an update no relay was heard to take and a close of the same second with a higher id: closed, and reopened by the late copy of the update |
| `Publishing.OpenUpdateRefused` | crates/maxplayer-challenges/src/cli.rs:427-463 | an open update over a closed newest version is never signed once anything was acknowledged |
| `Publishing.IfLatestNeverOverwrites` | crates/maxplayer-challenges/src/cli.rs:464-477 | a publish with `--if-latest x` is signed only if no acknowledged version beats x (when it is signed: `Deciding.SignsExactly`) |
| `Deciding.SignsExactly` | crates/maxplayer-challenges/src/cli.rs:404-484 | a publish is signed if and only if the run is valid, a quorum was read (every relay for an open update of a known run under a degraded read), the newest version read is not closed, it is the one `--if-latest` names if any, and the second after each version read is within the tolerance; it takes the first free second |
| `Deciding.AnswersExactly` | crates/maxplayer-challenges/src/cli.rs:404-484 | each answer of a valid publish over a quorum read (incomplete, closed, superseded, undatable, signed) holds if and only if a stated condition on the versions read does |
| `Deciding.UpdateIsSignedExactly` | crates/maxplayer-challenges/src/cli.rs:404-484 | in every run, over an open newest version on the relays and a read of all of them: signed if and only if nothing or that version was expected and its successor is within the tolerance, and then dated right after it or by the clock |
| `Deciding.FirstPublishIsSigned` | crates/maxplayer-challenges/src/cli.rs:404-484 | a publish whose read found nothing is signed if and only if it expects nothing, dated by the clock |
| `Publishing.SignedBeatsAcked` | crates/maxplayer-challenges/src/cli.rs:835-857 | every signed version beats every version acknowledged before it, short of one dated at the last second of 64 bits |
| `Publishing.QueueIsNeverEarly` | crates/maxplayer-challenges/src/relay.rs:732-750 | a signed version is dated no earlier than any acknowledged one, so the command never queues below a newer version |
| `Publishing.SavedOutboxIsWithinAge` | crates/maxplayer-challenges/src/relay.rs:566-638 | in every run of one home, each publish that met quorum and each sweep that is saved leaves no outbox entry past its age |
| `Publishing.ReopenNeedsEmptyRead` | crates/maxplayer-challenges/src/cli.rs:427-463 | an open update over a closed newest version is signed only from a quorum read that found nothing |
| `Reopening.ReopenExactly` | crates/maxplayer-challenges/src/cli.rs:427-484 | some open update can become the newest over a closed run if and only if some quorum holds no version of it, none is queued, and the clock of the update puts it above the close |
| `Reopening.PublishReopensExactly` | crates/maxplayer-challenges/src/cli.rs:427-484 | one open update makes an open version the newest if and only if its read found nothing, no `--if-latest` was given, its clock puts it above the close, and some relay stores it |
| `Reopening.LoneCloseIsLost` | crates/maxplayer-challenges/src/cli.rs:427-484 | three relays: a close taken by one of them, then an open update reading the other two, and the open version is the newest |
| `Outbox.OutboxFile.Prune` | crates/maxplayer-challenges/src/relay.rs:751-761 | drops exhausted relays and delivered or expired entries, sorts by queue time, keeps the newest 64 |
| `Outbox.OutboxFile.Queue` | crates/maxplayer-challenges/src/relay.rs:732-750 | supersedes older versions of the coordinate, keeps a newer one, and keeps the outbox well shaped |
| `Outbox.OutboxFile.Resend` | crates/maxplayer-challenges/src/relay.rs:600-638 | sends each live entry to the answering relays that miss it, books the verdicts (`Sweeps.SweepBooksExactly`), prunes before and after |
| `Sweeps.SweepBooksExactly` | crates/maxplayer-challenges/src/relay.rs:600-638 | after a sweep a relay is missing from a kept entry if and only if it has failures left and, missing after the first prune, it did not answer and its count is unchanged, or it answered without taking the event and its count is one higher |
| `Sweeps.RefusedIsSentAgain` | crates/maxplayer-challenges/src/relay.rs:600-638 | a relay that refused an event, with failures left and the entry within its age, is sent it by the next sweep it answers, one failure later |
| `Sweeps.DeliveredIsNotSentAgain` | crates/maxplayer-challenges/src/relay.rs:594-638 | in every run, once a relay took an event in a saved sweep no step sends it there until it is queued again |
| `Sweeps.QueueAddsExactly` | crates/maxplayer-challenges/src/relay.rs:732-761 | queueing with room and no newer version queued leaves exactly the new event missing at the relays named, with no failures, and the live entries of other coordinates |
| `Sweeps.CapDropsOldest` | crates/maxplayer-challenges/src/relay.rs:757-761 | the cap drops only above 64 entries, leaves 64, and drops none that was queued after a kept one |
| `Sweeps.SortIsStable` | crates/maxplayer-challenges/src/relay.rs:757-759 | entries queued in one second keep their order |
| `Repair.QueuedForExactly` | crates/maxplayer-challenges/src/relay.rs:540-575 | after a saved publish that met quorum a relay is queued for if and only if it did not accept |
| `Repair.MissedIsRepaired` | crates/maxplayer-challenges/src/relay.rs:515-638 | in every run, a relay that missed an acknowledged publish holds it, or a version it does not beat, after the next sweep within a week that it answers and that reaches it |
| `Outbox.PruneKeepsShape` | crates/maxplayer-challenges/src/relay.rs:751-761 | pruning a list with one entry per coordinate gives at most 64 entries, in time order, still one per coordinate, each with relays missing and fewer than ten failures |
| `Outbox.ResendDecreases` | crates/maxplayer-challenges/src/relay.rs:600-638 | every re-send lowers the attempts that remain: the sends made are paid for by the decrease |
| `Outbox.QueueKeepsShape` | crates/maxplayer-challenges/src/relay.rs:732-761 | queueing keeps at most 64 entries, in time order, one per coordinate, each with relays missing and fewer than ten failures |
| `Outbox.QueueKeepsAgeExactly` | crates/maxplayer-challenges/src/relay.rs:732-761 | after queueing no entry is past its age if and only if queueing pruned or what it left was within age |
| `Outbox.ResendKeepsShape` | crates/maxplayer-challenges/src/relay.rs:600-638 | re-sending keeps the same shape |
| `Outbox.ResendKeepsAge` | crates/maxplayer-challenges/src/relay.rs:600-638 | after a sweep no entry is past its age |
| `Outbox.OutboxRuns` | crates/maxplayer-challenges/src/relay.rs:566-638 | over every run, whichever saves fail: the file keeps its shape, no entry was past its age at the last saved step that pruned, no send is exhausted or expired, saved sweeps send at most ten times per relay queued for, and an older version goes out after a newer one met quorum only if that save failed or it met quorum again |
| `Outbox.AgeIsBoundedExactly` | crates/maxplayer-challenges/src/relay.rs:732-761 | every saved step of a run leaves all entries within age if and only if none is an early return of queueing over an expired entry |
| `Outbox.EarlyReturnKeepsExpired` | crates/maxplayer-challenges/src/relay.rs:732-750 | an older version queued after a newer one has expired: queueing returns early and the expired entry stays |
| `Outbox.StaleSendExactly` | crates/maxplayer-challenges/src/relay.rs:566-619 | after a newer version met quorum, the next sweep sends the older one if and only if the save failed and the older entry survives the prune with a missing relay that answers |
| `Outbox.SentExactlyWhenDue` | crates/maxplayer-challenges/src/relay.rs:600-632 | a sweep sends an event if and only if an entry for it survives the prune with a missing relay that answered |
| `Outbox.UnsavedQueueSendsStale` | crates/maxplayer-challenges/src/relay.rs:566-573 | the smallest case: one relay missed the older version, and the save after the newer publish fails |
| `Paging.FrameCounter.Observe` | crates/maxplayer-challenges/src/relay.rs:79-114 | every frame is counted, and the oldest matching date is kept |
| `Paging.ReadPage` | crates/maxplayer-challenges/src/relay.rs:442-513 | one page reports all raw frames, the oldest matching one, and the rows the SDK let through, once each |
| `Paging.ReadRelay` | crates/maxplayer-challenges/src/relay.rs:406-440 | an Ok from the paged loop has received every matching event the relay holds, boundary seconds split over pages and dropped frames included; cursors strictly decrease and at most 20 pages are asked for |
| `Paging.PagingCapacity` | crates/maxplayer-challenges/src/relay.rs:41-47 | with at most m events in any second and m below the limit L, every history of fewer than L + 19 (L - m) events is read without an error |
| `Paging.CapacityIsExact` | crates/maxplayer-challenges/src/relay.rs:41-47 | with distinct seconds the read succeeds if and only if the history is below L + 19 (L - 1) |
| `Paging.DocumentedCapacity` | crates/maxplayer-challenges/src/relay.rs:41-47 | with pages of 500 and distinct seconds, exactly the histories below 500 + 19 x 499 events are read |
| `Paging.ChatPage` | crates/maxplayer-chat/src/network.rs:260-290 | one chat page hands over every notice, counts its own rows and keeps the oldest date |
| `Paging.CatchUp` | crates/maxplayer-chat/src/network.rs:239-313 | the loop ends, and on success every event held at the start and dated in the window was handed over |
| `Paging.CatchUpSucceeds` | crates/maxplayer-chat/src/network.rs:249-312 | against a relay that sends only rows it holds of the window, each once, the reader succeeds on every history with fewer than 1000 events in any second |
| `Watch.RunKeepsInv` | crates/maxplayer-chat/src/network.rs:369-471 | every run of arrivals, failed cycles, catch-ups and probes keeps this: what the relay held when the last finished read began, dated up to the cursor, is handed over, and it includes all arrivals before the second of the cursor |
| `Watch.NothingIsLostExactly` | crates/maxplayer-chat/src/network.rs:100-115 | no run loses a message that was at the relay when the last finished read began if and only if the relay admits nothing dated further back than the 240 s overlap |
| `Watch.NextReadDelivers` | crates/maxplayer-chat/src/network.rs:441-471 | a read that succeeds hands over every message that was at the relay when it began and is not dated after its checkpoint |
| `Watch.OnlySameSecondWaits` | crates/maxplayer-chat/src/network.rs:369-402 | a message at or before the cursor that was not handed over arrived in the second of the cursor, after that read had begun |
| `Watch.LateAdmissionLoses` | crates/maxplayer-core/src/private_content/transport.rs:165-167 | with a laxer relay some run loses a message |
| `Watch.SameSecondArrivalWaits` | crates/maxplayer-chat/src/network.rs:369-402 | an arrival in the checkpoint's own second can be at the cursor and not handed over |
| `ChatLog.TornTailIsHarmless` | crates/maxplayer-chat/src/lib.rs:335-347 | committed records survive any newline-free tail |
| `ChatLog.AppendAddsOne` | crates/maxplayer-chat/src/lib.rs:348-367 | whatever the file holds, an append adds exactly its record to what a reader sees |
| `ChatLog.CutAppendIsAtomic` | crates/maxplayer-chat/src/lib.rs:348-367 | an append cut at any byte leaves the old records, or the old records and the new one |
| `Mailbox.Home.AppendEntry` | crates/maxplayer-chat/src/lib.rs:348-367 | the readable log gains exactly one record |
| `Mailbox.Home.Receive` | crates/maxplayer-chat/src/lib.rs:397-465 | drops strangers, duplicates and remembered drops, remembers a quota drop with the wrap's date, logs the rest as the wrap's own id, sender and text, dated no later than the wrap or the clock; answers whether it logged |
| `Delivery.DeliveryLogsExactly` | crates/maxplayer-chat/src/lib.rs:425-464 | a delivery is logged if and only if the message is unseen and its peer below quota, and the one new record is the message; over quota it is remembered as dropped under the wrap's date; nothing else changes |
| `Mailbox.Home.Checkpoint` | crates/maxplayer-chat/src/network.rs:108-115 | moves the cursor and forgets exactly the drops older than the next history window |
| `Mailbox.Home.PrintInbox` | crates/maxplayer-chat/src/lib.rs:466-506 | prints the unread messages of approved peers and moves the marker to the last one |
| `Mailbox.ShownMeaning` | crates/maxplayer-chat/src/lib.rs:466-506 | the positions shown are exactly the inbound records of approved peers after the marker, in order |
| `Mailbox.Scan` | crates/maxplayer-chat/src/lib.rs:425-450 | one pass over the log answers whether the rumor is logged and how many inbound records the peer has that day |
| `Mailbox.MarkerPosition` | crates/maxplayer-chat/src/lib.rs:466-506 | the next inbox starts right after the last position printed |
| `Mailbox.MailboxIsSafe` | crates/maxplayer-chat/src/lib.rs:370-506 | over every run, whatever is delivered and whatever the clocks say: inbound ids are unique, no peer exceeds 100 a day, and each message is printed at most once and in log order |
| `Delivery.InboxPrintsExactly` | crates/maxplayer-chat/src/lib.rs:466-506 | in every run, the inbox prints a record if and only if it is an approved peer's and after all printed before |
| `Delivery.MessageIsPrintedOnce` | crates/maxplayer-chat/src/lib.rs:397-506 | in every run, a logged message, then anything but an inbox, then an inbox: its own text is printed if and only if its peer is still approved, and then never again |
| `Delivery.StillPrintableExactly` | crates/maxplayer-chat/src/lib.rs:466-506 | in every run, a received message not yet printed can still be printed if and only if no later one has been |
| `Delivery.RemovedPeerIsSkipped` | crates/maxplayer-chat/src/lib.rs:466-506 | a peer removed while another peer's message is read: its message is never printed, even once it is approved again |
| `Mailbox.DroppedComesBackExactly` | crates/maxplayer-chat/src/lib.rs:370-460 | in every run, a delivery of a rumor dropped before is logged if and only if a checkpoint has moved the history window past the drop and the message would be logged were it new |
| `Mailbox.DroppedStaysOut` | crates/maxplayer-chat/src/network.rs:100-115 | with one wrap per rumor, history reads and checkpoints that never go back, a rumor dropped for quota is never logged later, despite day rollover and pruning |
| `Mailbox.SecondWrapComesBack` | crates/maxplayer-chat/src/lib.rs:428-460 | a hundred messages, a drop, a checkpoint and a second, later wrap: the dropped rumor is logged |
| `SendSlots.SlotFile.ReserveSend` | crates/maxplayer-chat/src/lib.rs:533-555 | takes a slot of the day unless fifty are taken; a new day starts from zero |
| `SendSlots.SlotFile.RefundSend` | crates/maxplayer-chat/src/lib.rs:564-574 | gives a slot back only on the day it was taken |
| `SendSlots.SendOutcome` | crates/maxplayer-chat/src/network.rs:555-677 | attempts stop exactly at the first that is accepted, refused for good or out of its window; accepted if and only if some attempt made was, unconfirmed if and only if none was and some had no verdict, failed if and only if neither; the slot is refunded exactly on failure, so a later refusal never clears an earlier doubt |
| `SendSlots.SlotsAreExact` | crates/maxplayer-chat/src/lib.rs:533-574 | at every point of a run each peer's counter is the number of that day's in-flight, accepted and unconfirmed sends, at most fifty, if and only if each granted reservation is for the file's day or for a day with no slot occupied |
| `SendSlots.ReserveKeepsExactly` | crates/maxplayer-chat/src/lib.rs:533-555 | a granted reservation keeps every counter exact if and only if it is for the file's day or for an empty one |
| `SendSlots.GrantedExactly` | crates/maxplayer-chat/src/lib.rs:533-555 | in such a run a send is granted if and only if fewer than fifty of that day's sends to the peer are in flight, accepted or unconfirmed |
| `SendSlots.OrderedRunsAreFresh` | crates/maxplayer-chat/src/lib.rs:533-574 | a clock that never goes back a day meets that condition |
| `SendSlots.BackdatedReservationForgets` | crates/maxplayer-chat/src/lib.rs:533-555 | a reservation dated a day back, then one for the day it left, make the counter too low: one for two occupied slots |
| `Ledger.ReconcileIdsAreApart` | crates/maxplayer-core/src/authorize_pay.rs:679-681 | a credit's id is no attempt id, and different attempts have different ones |
| `Ledger.ReplayChangesNothing` | crates/maxplayer-core/src/budget.rs:393-425 | a keyed charge or credit written again, anywhere later, changes neither the total nor the ids |
| `Ledger.FoldIsExact` | crates/maxplayer-core/src/budget.rs:393-425 | when each credit follows its own charge and is no larger, the saturating fold is the exact sum of distinct charges less distinct credits and never floors |
| `Ledger.CreditFitsCharge` | crates/maxplayer-core/src/crossmint_hop.rs:759-769 | the credit of a hop is no larger than the planned cost it was computed from, what it leaves of that cost is what the hop cost whenever the plan covered it, and nothing is credited when the fee paid was not seen |
| `Payments.OutlayIsCounted` | crates/maxplayer-core/src/authorize_pay.rs:645-674 | an authorized new attempt raises what every later fold counts by exactly its outlay: amount plus input fee of a direct payment, planned cost of a hop |
| `Payments.CapRefusesExactly` | crates/maxplayer-core/src/authorize_pay.rs:1009-1031 | a new attempt is refused by the cap if and only if its whole outlay exceeds it, and then nothing is written |
| `Payments.WithinCapIsAuthorized` | crates/maxplayer-core/src/authorize_pay.rs:1009-1031 | when its write succeeds, a new attempt is authorized if and only if its whole outlay is within the cap |
| `Payments.SettledHopCostsItsOutlay` | crates/maxplayer-core/src/authorize_pay.rs:676-694 | a cross-mint payment within its plan, its unused reserve credited, has raised the total by exactly the delivered sats, the input fee and the Lightning fee paid |
| `Budget.FoldLedger` | crates/maxplayer-core/src/budget.rs:393-425 | the reading loop folds the records of every line, a last line without a break included, and fails on any malformed line |
| `Budget.AppendedBytes` | crates/maxplayer-core/src/budget.rs:430-458 | after any number of bytes of a record's line reached a readable ledger, a fold sees the record exactly when the line started cleanly and the object is whole, and fails otherwise |
| `Budget.BudgetGate.Refresh` | crates/maxplayer-core/src/budget.rs:204-212 | the cache becomes the fold, or stays when the fold fails |
| `Budget.BudgetGate.Reserve` | crates/maxplayer-core/src/budget.rs:292-309 | fold, dedupe, cap, append, cache: the file, the cache and the answer, for every way the write can end |
| `Budget.BudgetGate.CreditReserve` | crates/maxplayer-core/src/budget.rs:266-285 | the same for a credit; a zero credit does nothing |
| `Budget.SectionLeaves` | crates/maxplayer-core/src/budget.rs:292-309 | a locked section leaves nothing new, one new record whose id was not counted, or a ledger no fold accepts |
| `Budget.CacheIsExact` | crates/maxplayer-core/src/budget.rs:204-309 | after every section, whatever its outcome, the cache equals a fresh fold if and only if a condition on the state and the write holds beforehand (`WillAgree`) |
| `Budget.FailedWriteIsCounted` | crates/maxplayer-core/src/budget.rs:430-458 | a write that fails with the whole record on disk is answered with an error and counted by the next fold, and the cache does not count it |
| `Budget.LostLineBreakLocks` | crates/maxplayer-core/src/budget.rs:430-458 | a charge that lost only its line break is counted, the next one is authorized, and then every charge is refused |
| `BudgetRuns.LedgerIsSafe` | crates/maxplayer-core/src/budget.rs:239-309 | for any number of gates with stale caches, retries and crashes at any byte: each id is written at most once, and every attempt whose effect may have run is counted by every fold that succeeds |
| `BudgetRuns.RetryWritesNothing` | crates/maxplayer-core/src/authorize_pay.rs:926-930 | a retry or an operator completion of an authorized attempt writes nothing, whatever amount it names, and is authorized again if and only if the ledger can be read |
| `BudgetRuns.PaymentFitsExactly` | crates/maxplayer-core/src/authorize_pay.rs:576-688 | the charge of a cross-mint payment fits its plan, and its credit fits if and only if the unused reserve of the plan it settled on is at most the amount first charged, as it is on a plan no dearer than the first |
| `BudgetRuns.RetryFitsExactly` | crates/maxplayer-core/src/authorize_pay.rs:587-688 | charge, crash, retry on a fresh quote, credit: the total is exact and covers what was spent before if and only if the credit is at most the amount first charged |
| `BudgetRuns.DearerQuoteOvercredits` | crates/maxplayer-core/src/crossmint_hop.rs:642-646 | a first plan of 10 sats charged, a fresh plan of 30 settled at a cost of 6: 24 are credited, and the total falls from 100 to 86 |
| `BudgetRuns.TotalIsExact` | crates/maxplayer-core/src/authorize_pay.rs:663-688 | after every run whose credits fit their plans, a fold that succeeds is the exact sum, and covers every charge not credited |

## Left out

- WebSocket transport, the SDK client, NIP-42 authentication, timeouts, signatures and hashes: each relay call is an outcome, each event already verified.
- Quorum.RunKeepsInv: one relay's read inside a quorum read is one atomic step, as in `RelayClient`; that a paged read of a fixed store is complete is proved in `Paging`. An answer that changes between two pages is not modelled.
- Publishing.RunsAreGood: follows the commands of one run's coordinate from one home; other writers appear as deliveries. The relay client's clock reading and the command's are one.
- JoinRelays.JoinLosesExactly: the relays do not change between the reads of one command, and the caller's key publishes only memberships at its own coordinate.
- `leave` and `decide` write one event with no guard beyond their reads, and `status` and `members` only print what was read; the reads themselves are in `Roster`. The secret scan of a draft before signing is a substring search.
- Wallets, mints, the payment state machine, the hop journal and git delivery: the ledger model only uses a hop's plan and the fee it reports.
- The in-memory gate without a ledger file, the first-append directory sync, and loading the legacy total (it is a parameter).
- File permissions, symbolic links, key creation, fsync and atomic rename: a saved file is its old or its new content, except for the two append logs, where every cut point is modelled.
- The legacy format of the dropped-message list, and inbox prints that fail half way (they print again).
- Json.ReadStrings: reads lists of strings without white space or surrogate escapes; the original accepts more but refuses every such line as non-canonical, with another message.
- Option parsing, help, human and JSON output, display escaping and stderr logging.
- TOML check declarations and base-tree validation in checks.rs.
