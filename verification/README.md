# The UwUSync server, modelled

A Dafny model of what the sync server keeps and promises: the mailbox of sealed
records that devices push to and pull from, the rate limiter in front of it, the
tables of sign-in challenges, session tokens, pairing sessions, enrolment tokens
and invites beside it, and the two pieces of arithmetic and ordering that decide
which backups stay and which release is newer.

Each part comes in two forms. A function on plain values says what one request
does to the tables; a class with the source's fields does it step by step, and
its methods are proved to do what the function says. What the server promises is
proved of the functions, over single requests and over whole runs of them.

| file | what it holds |
|---|---|
| `Mailbox.dfy` | the tables of the mailbox, and what holds of them between any two statements |
| `Pushing.dfy` | a push: compare-and-set for each record, numbers, conflicts, quotas |
| `Paging.dfy` | a pull: which rows, how far a page goes, and how pages add up |
| `Housekeeping.dfy` | read cursors, revocation, what may be forgotten |
| `Store.dfy` | the mailbox as the source works on it: a class whose methods loop over rows |
| `Runs.dfy` | the mailbox as a state machine; counters and quotas over runs |
| `Replicas.dfy` | replica agreement, no lost update |
| `Origins.dfy` | where what is held and what is received comes from |
| `Tombstones.dfy` | exactly when tombstones are safe |
| `Mirrors.dfy` | what a device ends up with |
| `Restoring.dfy` | restores: numbers carried forward, and what that means for tombstones |
| `Migrating.dfy` | the migration that counts what accounts hold |
| `Limiter.dfy`, `LimiterRuns.dfy`, `AddressRuns.dfy` | the rate limiter, the history it stands for, and what addresses get of it |
| `Sessions.dfy`, `Challenges.dfy` | session tokens; challenges to sign |
| `Pairing.dfy` | the pairing relay |
| `Enrolment.dfy`, `Invites.dfy` | one-time tokens and codes |
| `Calendar.dfy`, `Stamps.dfy`, `Backups.dfy` | dates, their text, and which backups stay |
| `Versions.dfy` | comparing versions, and the newest release |
| `SemVer.dfy`, `Agreement.dfy` | Semantic Versioning, what is read of its texts, and exactly when the comparison agrees |
| `Basics.dfy`, `Sums.dfy`, `Wrappers.dfy` | what several parts share: sizes, white space, sums over maps, options and results |

`dafny verify dfyconfig.toml` checks all of it.

## What it rests on

- Every request is one step. The server holds one lock on the database for each,
  and a transaction where more than one statement must land together.
- The clock, random tokens, codes and ids are parameters. Random ones are fresh
  where the source relies on it. Hashes do not collide, so a table kept by a hash
  is kept by what was hashed.
- Numbers, sizes and cursors stay below 2^63, where the source's casts between
  signed and unsigned change nothing. The sizes the wire protocol allows
  (records and bytes in a batch, bytes in a record) are parameters; the crate that
  fixes them is not part of this model.
- An honest device starts at cursor 0, asks from the cursor of its last page,
  and receives the page it is answered. Any other device may ask from anywhere.

## What came out

- **A comment in the source promises more than the code keeps.** The cap on the
  stored cursor in `src/api/records.rs:59-63` is meant to keep a device with a
  cursor from before a restore from letting tombstones go that it never saw. The
  cap is the account's number, and a restore carries that number forward
  (`src/db/mod.rs:205-232`), so it does not hold such a cursor back. A deletion can
  be lost just when a device the backup lets in has, undeleted, a record that is
  deleted in the backup by a tombstone it has by now read past
  (`Restoring.PuttingBackLosesNoDeletionExactlyWhen`).
  `Restoring.RestoreCanCostATombstone` is a run in which one has. What the comment
  says to the letter, that no tombstone goes unseen, asks for more: that each such
  device has received them (`Restoring.PuttingBackIsSafeExactlyWhen`). Without
  restores both hold in every run (`Tombstones.TombstonesGoOnlyOnceReceived`).
- **Stamps sort as time does until the year 10000, and not past it**
  (`Stamps.StampsSortUntilYear10000`): the year is padded to four digits.
- **Versions compare as Semantic Versioning has it only while they are plain.**
  `Agreement.AgreesExactlyWhen` says for which versions they do, of all there are.
  Three things go wrong. A word that sorts before a number as text, like `10a`
  against `9`, comes out before it. Build metadata, which has no part in
  precedence, is read: behind a pre-release it sticks to the last identifier and
  makes a number text, so `1.0.0-rc.10+5` comes out before `1.0.0-rc.9`, and two
  builds of one pre-release come out as different; without a pre-release nothing is read at all, so `1.0.1+5` is as new as anything and never offered
  (`Agreement.UnreadIsNeverNewer`). And numbers from 2^64 on are text after the
  dash, and unread before it. `Versions.VersionsChainExactlyWhen` says when three
  versions do not even form an order. Versions without build metadata, with numbers
  that fit and words that begin with a letter, are fine
  (`Agreement.ComparesLikeSemVer`).

## Model

| member | source | states |
|---|---|---|
| Mailbox.BlobBytesUpdated | src/db/records.rs:157-163 | putting one version in changes the sum of blob lengths by the new length less the old one, which is what the push adds to its counter |
| Mailbox.BlobBytesSplit | src/db/records.rs:353-369 | the bytes of an account are the bytes of the rows a `WHERE` picks out and of the rest |
| Mailbox.ServerBytesUpdated | src/db/records.rs:212-217 | everybody's bytes, less an account's old ones and plus its new ones, are everybody's bytes once it has the new ones |
| Pushing.CheckedOneByOne | src/db/records.rs:125-127 | a batch passes the check just when each of its envelopes does |
| Pushing.RefusalStands | src/db/records.rs:125-127 | the first refused envelope decides what a batch is refused for, whatever follows |
| Pushing.OfferKeepsOk | src/db/records.rs:139-195 | an envelope taken or refused leaves the counters exact, numbers distinct and no larger than the account's, and blobs within the limit |
| Pushing.BatchIsSequential | src/db/records.rs:138-196 | a batch of two parts does what the parts do one after the other, in state, numbers and conflicts |
| Pushing.OutcomeAt | src/db/records.rs:138-196 | each envelope fares as a single compare-and-set on the account as the envelopes before it left it |
| Pushing.EachLandsOnce | src/db/records.rs:138-196 | each envelope is in exactly one of the two lists, at its place in batch order, with the next number or with the version held when its turn came |
| Pushing.NumbersAreConsecutive | src/db/records.rs:165-195 | accepted records are numbered one after the other from the account's number on, in batch order, and the account ends at the last |
| Pushing.HeldIsOldOrNew | src/db/records.rs:165-195 | after a batch each held version is the one from before or numbered past everything before; no record goes away |
| Pushing.RetryPassesUndisturbed | src/db/records.rs:309-327 | a conflict offered again on the base it names is taken just when the version held is still the one it reported |
| Pushing.TakenIsNewer | src/db/records.rs:165-195 | once a record is taken, every later state of the batch holds it in a version past all from before |
| Pushing.OneUpdatePerBase | src/db/records.rs:149-156 | of two envelopes in one batch that update a record from one version, one is refused |
| Pushing.LastTakenIsHeld | src/db/records.rs:165-191 | the last envelope a batch takes for a record is what is held of it: its kind, stamp, tombstone mark, nonce and blob, its number, the device that pushed and the clock as read at its place |
| Pushing.PushStores | src/db/records.rs:165-235 | an answered push leaves just that in the tables, under the number it is told as accepted |
| Pushing.PushLeavesTheRest | src/db/records.rs:197-235 | it touches no device, no other account, no record that is not on the list of the accepted, and not the vault; the number answered is the account's, and rises by one for each accepted; a refusal changes nothing |
| Pushing.PushAnswersEach | src/db/records.rs:149-196 | the answer has each envelope at its place on one of the two lists, accepted under the next number, or turned away with the version held when its turn came, field by field |
| Pushing.RefusedExactlyWhen | src/db/records.rs:64-127 | when a batch is refused before it is offered, and for which of six reasons: too many, too heavy while more than one, or what is wrong with the first envelope that is not of the vault, with a nonce of 24 bytes and something sealed that is not too large |
| Pushing.PushKeepsQuota | src/db/records.rs:198-227 | a push leaves each account, and all together, within what they may hold |
| Pushing.OnlyGrowthIsRefused | src/db/records.rs:198-227 | from any state, over-full or not: a push is refused for room just when what the account really holds grows past one of the three lines; one that raises neither count nor bytes never is |
| Paging.AfterLists | src/db/records.rs:260-268 | the query lists each record past the cursor once, in rising order |
| Paging.AfterContinues | src/db/records.rs:260-268 | asked from the number of a listed row, the query lists what followed that row |
| Paging.PageIsLongestThatFits | src/db/records.rs:257-294 | a page is a prefix of the visible rows; a prefix fits the record and byte limits just when it is no longer than the page; there is more just when the page is not all |
| Paging.PageShape | src/db/records.rs:238-294 | with the sizes `check` lets in, no page is over the byte budget, one is empty only when nothing visible waits, and `has_more` is true just when something visible lies past its cursor |
| Paging.PageHoldsWhatIsAsked | src/db/records.rs:257-294 | a limit of 0 is taken for 1 and one past the largest batch for that; so many visible records make a page, or all there are, if their bytes fit; and a page is the most of them that do |
| Paging.FewerWait | src/db/records.rs:238-289 | while there is more, a page carries something: fewer visible records wait past its cursor than past where it was asked from, manifests passed over or not |
| Paging.PageCursor | src/db/records.rs:272-294 | a page's cursor never steps back, and is where it was asked from or the number of a held record |
| Paging.PageLeavesTheRest | src/db/records.rs:257-294 | the page and what is visible past its cursor are together what was visible, manifests passed over or not |
| Paging.PageDelivers | src/db/records.rs:257-294 | a page carries exactly the visible records numbered past where it was asked from and up to its cursor, each as it is held |
| Paging.NoMoreReadsAll | src/db/records.rs:238-240 | a page without more to come has read past every record there is, seen or passed over |
| Paging.PagingIsComplete | src/db/records.rs:238-294 | asking on until there is no more ends, and yields what is visible past the start, for any limits along the way |
| Paging.PulledInOrder | src/db/records.rs:260-294 | and those are the visible records past the start, each once, in rising order |
| Housekeeping.WithoutKeepsOk | src/db/records.rs:353-369 | taking rows out leaves the counters exact, so the clamps at 0 never change a value |
| Housekeeping.PurgeWaitsForEveryDevice | src/db/records.rs:345-372 | the nightly purge takes a record just when it is a tombstone, older than ninety days, and every device that still reads has read past it, there being one; all others stay as they are |
| Housekeeping.LowestCursor | src/db/devices.rs:157-164 | the lowest cursor is that of a device that still reads, at most that of each, and 0 where none does |
| Housekeeping.RevokeKeepsOk | src/db/devices.rs:133-143 | shutting a device out and forgetting its manifests leaves the counters exact and the server holding no more than before |
| Housekeeping.RevokesExactlyWhen | src/api/devices.rs:114-124 | a device is shut out just when it is an unrevoked one of the account and another is too; it is the last device just when there are no two, else not found, and a refusal changes nothing; shutting out marks that device alone, and of the account's records takes exactly the manifests it wrote |
| Housekeeping.PurgeLeavesTheRest | src/db/records.rs:345-372 | a purge leaves every device, every other account, vault and number as they were, and brings nothing |
| Store.Database.PushWithin | src/db/records.rs:106-236 | the batch in one transaction: new state and answer are those of the fold of single offers, and any error leaves everything as it was |
| Store.Database.OfferEach | src/db/records.rs:130-196 | the loop with its running number, count and bytes does what the fold of single offers does |
| Store.Database.CheckBatch | src/db/records.rs:113-127 | the checks before the transaction, in their order, with the error each stands for |
| Store.Database.SumRecordBytes | src/db/records.rs:208-217 | adding the accounts up gives what the server holds |
| Store.Database.SelectAfter | src/db/records.rs:260-268 | taking the smallest number left, again and again, gives the rows past the cursor in order |
| Store.Database.FillPage | src/db/records.rs:269-294 | the reading loop with its running bytes and cursor, stopping at the first row that does not fit, makes the page |
| Store.Database.Pull | src/db/records.rs:250-295 | a pull answers the page of what the account holds, and changes nothing |
| Store.Database.HandlePull | src/api/records.rs:42-65 | the request makes a page of at most the limit asked for, and moves the stored cursor up to it, never down and never past the account's number |
| Store.Database.MarkSeen | src/db/devices.rs:122-128 | a stored cursor only rises; nothing else moves |
| Store.Database.ReadLowestCursor | src/db/devices.rs:157-164 | the minimum over the devices that still read |
| Store.Database.DeleteRows | src/db/records.rs:353-371 | rows go, and the counters go down by what they were |
| Store.Database.PurgeTombstones | src/db/records.rs:345-372 | just the tombstones before the time and up to the number go, and it says how many |
| Store.Database.DropManifestsOf | src/db/records.rs:378-407 | just the manifests that device wrote go |
| Store.Database.Revoke | src/db/devices.rs:133-143 | only a device of this account that still reads is marked, and its manifests go with it |
| Store.Database.HandleRevoke | src/api/devices.rs:114-124 | the last device is never shut out, a stranger's not found |
| Store.Database.PurgeAll | src/main.rs:405-435 | account by account, in whatever order, the clock read for each: each ends as its own purge alone leaves it |
| Store.NightlyPurgeTakes | src/main.rs:405-435 | after a whole night: of each account exactly the tombstones are gone that were ninety days old by the clock as read for it and that each of its unrevoked devices had read past, there being one |
| Runs.CountersAreExact | src/db/records.rs:228-231 | in every state any requests lead to, the count is the number of records and the bytes are the sum of their lengths; numbers are distinct and at most the account's |
| Runs.QuotasHoldOverRuns | src/db/records.rs:198-227 | from a state within the limits, every run of any requests by any devices stays within them |
| Runs.PullIsAnswered | src/api/records.rs:49-65 | a pull is answered as many visible records as it asks for, the largest batch where it names no limit, as far as bytes allow; the device is noted as seen and its cursor raised to where the page ends, never past the account's number; nothing else changes |
| Runs.StartsAtTheBeginning | src/db/devices.rs:42-70 | a new account is empty at number 0, and a device that joins is let in, has read nothing and received nothing |
| Runs.ShutOutStaysOut | src/auth.rs:243-252 | in every run a device that is shut out stays so, and whatever it asks for changes nothing |
| Runs.SomebodyIsAlwaysLetIn | src/api/devices.rs:115-121 | in every run without restores an account with an unrevoked device has one in every later state, whoever asks for what |
| Migrating.BackfilledIsOk | src/db/mod.rs:325-334 | counting once over what accounts hold makes the counters exact, and changes nothing else |
| Migrating.CountersAreExactOnceMigrated | src/db/mod.rs:325-334 | and exact they stay in every run after it |
| Replicas.ReplicaAgreement | src/db/records.rs:250-295 | in every run without restores, an honest device has each held record it can see, numbered up to its cursor, in exactly the version held |
| Replicas.OtherPullKeepsInStep | src/api/records.rs:59-63 | whatever cursor any other device claims, honest devices stay in step with the server |
| Replicas.PushStepKeepsInStep | src/db/records.rs:165-195 | new versions lie past every cursor handed out, so a push costs no device anything |
| Replicas.PageKeepsInStep | src/db/records.rs:269-294 | a page brings its reader up to its cursor, all of it, in the versions held |
| Replicas.NumberNamesOneVersion | src/db/records.rs:149-156 | a number names one version of one record for good, so a push taken on a base replaces just the version numbered so |
| Replicas.AtMostOneUpdatePerBase | src/db/records.rs:139-156 | once an update based on a version is taken, no other update of that record based on it ever is, whoever sends it and whatever is deleted, purged or revoked in between |
| Replicas.RunIsLater | src/db/records.rs:165-195 | along any run an account's number never falls, and what is held is old or numbered past all from before |
| Origins.WhatIsReceivedWasPushed | src/db/records.rs:165-191 | in every run: whatever an honest device has received is of its account's vault, and has the identity, kind, stamp, tombstone mark, nonce and blob of an envelope that a device of that account pushed and that was accepted under the number it carries |
| Origins.WhatIsHeldWasPushed | src/db/records.rs:165-191 | and so has whatever the server holds |
| Tombstones.TombstonesGoOnlyOnceReceived | src/main.rs:405-435 | after every run without restores, tombstones are safe: whatever is asked from then on, a record the purge takes is a tombstone, and every honest device that is let in and can see it has received it as the last word on that record; so no deletion is lost |
| Tombstones.TombstonesAreSafeExactlyWhen | src/main.rs:419-429 | from any state in which stored cursors are no further than real ones, and real ones no further than the account's number: every tombstone a purge takes in any run on was received, in that version, by each honest device that is let in and can see it, just when each has now received each it has read past |
| Tombstones.NoDeletionIsLostExactlyWhen | src/db/records.rs:338-344 | from the same states: no purge in any run on takes a tombstone whose record an honest device that is let in, and can see it, has undeleted, just when no such device now has undeleted a record whose tombstone it has read past |
| Tombstones.LackingIsLost | src/db/records.rs:338-372 | where one such device has not, there is a run after which the purge takes that tombstone while the device still has just what it had instead |
| Tombstones.GoesFromAnyWorldInStep | src/main.rs:419-429 | where all have, whatever a purge takes after any run was received |
| Mirrors.WhatIsGoneIsKnownDeleted | src/db/records.rs:338-344 | in every run: what an honest device that reads all of its account has, and the server does not hold any more, the device has as deleted, but for manifests withdrawn with a device that was shut out and not written again since |
| Mirrors.DroppedAreManifests | src/db/records.rs:374-407 | shutting a device out withdraws only manifests, and only those it wrote |
| Mirrors.CaughtUpHasAll | src/db/records.rs:238-240 | in every run: a device told that there is no more has every record the server holds and it can see, in the version held |
| Restoring.CarryNumbersForward | src/db/mod.rs:205-232 | each account of the backup goes on from the higher of both numbers, or past the gap where the replaced database does not know it; records and devices are the backup's |
| Restoring.OnlyNumbersAreCarried | src/db/mod.rs:216-230 | numbering on changes account numbers alone: to the higher of the two where the replaced database knows the account, to a million past the backup's where it does not |
| Restoring.CarriedKeepsOk | src/db/mod.rs:216-230 | what held of the backup's tables holds of the restored ones |
| Restoring.NumbersAreHandedOutOnce | src/db/mod.rs:198-204 | along any run of requests and restores, while each replaced database has the account, every number handed out later lies past every number handed out before |
| Restoring.WritesLiePastReaders | src/db/mod.rs:198-204 | and so past where every reader of the account has read |
| Restoring.TheGapCoversWhatWasLost | src/db/mod.rs:83-86 | where the replaced database does not know the account, every number handed out later lies past all that was lost, if that was no further than the gap past the backup |
| Restoring.RestoreLosesNoDeletionExactlyWhen | src/api/records.rs:59-63 | a restore loses no deletion just when no reader the backup lets in has undeleted a record that is deleted in the backup, by a tombstone it has read past; the number carried forward must not lie below where readers have read |
| Restoring.RestoreIsSafeExactlyWhen | src/api/records.rs:59-63 | under the same proviso, and in the stricter sense: every tombstone that goes was received in the version held just when each such reader has received each of the backup's tombstones it has read past |
| Restoring.PuttingBackLosesNoDeletionExactlyWhen | src/api/records.rs:59-63 | with nothing else asked for, for every run up to a backup, every run since, and that backup put back: no deletion is lost just when no reader the backup lets in has undeleted what a tombstone in the backup, that it has by now read past, deletes |
| Restoring.PuttingBackIsSafeExactlyWhen | src/api/records.rs:59-63 | and every tombstone that goes was received in the version held just when each such reader has received those |
| Restoring.WhatIsWrittenAfterARestoreIsRead | src/db/mod.rs:198-204 | in every run with restores that keep the account, from the last of them on: an honest reader has every record it can see, numbered past what that restore carried the account to and up to its cursor, in the version held |
| Restoring.NobodyIsAheadOfAnEarlierState | src/db/mod.rs:198-225 | putting an earlier state of the server back carries every account's number past each of its readers, and stored cursors stay behind real ones |
| Restoring.RestoreCanCostATombstone | src/api/records.rs:59-63 | a run, a backup, a run, and that backup put back, from where a run leads to a purge that takes a tombstone while a device that is let in has its record undeleted |
| Limiter.RateLimiter.Check | src/limits.rs:312-386 | a try from an address: sweeps, room, the coarser key or none, expiry from the front, and the count |
| Limiter.RateLimiter.CheckMember | src/limits.rs:302-310 | a try by an account or a device: never refused for want of room |
| Limiter.RateLimiter.CountUnder | src/limits.rs:364-385 | popping what expired and counting the rest, against the window |
| Limiter.RateLimiter.SweepEverything | src/limits.rs:316-322 | once a minute every table forgets just those whose last try has left its window |
| Limiter.RateLimiter.Forgive | src/limits.rs:390-394 | the latest try counted under the address itself is taken back |
| Limiter.RateLimiter.ForgiveOneDevice | src/limits.rs:396-408 | the latest try of the device is taken back |
| LimiterRuns.SweepTracks | src/limits.rs:200-209 | a sweep loses nothing that could still count |
| LimiterRuns.CountTracks | src/limits.rs:364-385 | the answer to a try is what the whole history of unexpired, unforgiven tries says |
| LimiterRuns.MembersGetTheWholeHistory | src/limits.rs:312-386 | accounts and devices get the answers of a log that is never swept, whatever any address does in between and whenever anything is swept |
| LimiterRuns.LimiterForgetsNothingThatCounts | src/limits.rs:312-408 | the same from a fresh limiter, in every run |
| LimiterRuns.TablesStayBounded | src/limits.rs:324-360 | in every run no table holds more than its addresses, its networks and one count for everybody else |
| LimiterRuns.WindowBound | src/limits.rs:369-385 | in a history where each try was allowed, no window lets more through than the bucket allows and what was forgiven in it |
| LimiterRuns.NoKeyGetsMoreThanItsShare | src/limits.rs:324-385 | in every run that is so for each key addresses are counted under: their own, a network, everybody else |
| AddressRuns.AnAddressAnswersForItself | src/limits.rs:324-386 | an address that there is room for whenever it tries gets the answers of a log of its own unforgiven tries that is never swept, whatever other addresses do |
| AddressRuns.WithRoomAnAddressAnswersForItself | src/limits.rs:324-386 | so from a fresh limiter, in every such run |
| AddressRuns.NoRoomIsAdmitted | src/limits.rs:336-348 | with no room left after the sweep, a bucket that admits lets an address through and counts it nowhere |
| AddressRuns.NoRoomIsCountedCoarser | src/limits.rs:349-356 | after any run, a bucket that coarsens answers an address there is no room for by the history of its own /24 or /48 and counts it there alone; by everybody else's once that network is not there and 25,000 entries are |
| AddressRuns.SweptOnceAMinute | src/limits.rs:316-322 | a sweep is due once a minute and no oftener, and leaves of every table exactly the keys with a try still in its window, as they were |
| Sessions.Table.IssueToken | src/auth.rs:140-175 | a new token: the device's expired ones go, its oldest while there are too many, from both tables; the tables go on agreeing |
| Sessions.Table.RetainGood | src/auth.rs:152-159 | what has run out goes from the queue and from the table with it, and nothing else |
| Sessions.Table.Drop | src/auth.rs:183-190 | a device's queue goes, and each of its tokens |
| Sessions.Table.SweepExpired | src/auth.rs:194-208 | what has run out goes from both tables, empty queues with it, and it says how many went |
| Sessions.TablesAlwaysAgree | src/auth.rs:126-131 | in every run the two tables describe one relation of tokens and devices; no queue repeats a token or is longer than eight |
| Sessions.SweepTakesExactlyTheExpired | src/auth.rs:192-208 | a sweep takes exactly what has run out, so no later lookup answers differently for it |
| Sessions.DroppedDeviceStaysOut | src/auth.rs:182-190 | once a device is dropped, none of its earlier tokens is ever found again |
| Sessions.TokenOutlivesSevenSignIns | src/auth.rs:120-175 | until it runs out a token is found through any seven later sign-ins of its device, and whatever other devices do |
| Sessions.NotFoundOnceRunOut | src/auth.rs:177-180 | from its expiry on a token is never found again, whatever happens |
| Sessions.EighthSignInCostsTheOldest | src/auth.rs:160-164 | with eight good tokens held, one more sign-in costs exactly the oldest |
| Challenges.Table.IssueOne | src/auth.rs:64-78 | a new challenge: expired ones of all devices go, and the device's oldest when there are too many |
| Challenges.Table.OutstandingOf | src/auth.rs:81-94 | a device may answer just what it was given and has not run out |
| Challenges.Table.SpendOne | src/auth.rs:98-110 | a challenge is taken out, and it says whether it was there |
| Challenges.SpendTakesOne | src/auth.rs:96-110 | spending takes that challenge of that device, if it was there, and nothing else |
| Challenges.AnsweredOnce | src/auth.rs:96-110 | however many requests carry the same answer, in whatever order with others, one wins at most |
| Challenges.CapsHold | src/auth.rs:50-78 | in every run a device has four outstanding at most, and one with none takes no room |
| Challenges.OutlivesThreeMore | src/auth.rs:50-53 | asking again in a device's name does not take its challenge away: through three later ones it stays, until it runs out or is answered |
| Challenges.AnswerableForAMinute | src/auth.rs:64-94 | through any three later ones, a new challenge may be answered for just the minute from when it was asked for |
| Challenges.NothingExpiredStays | src/auth.rs:68-71 | when one is asked for, what has run out is forgotten, of every device |
| Pairing.Pairings.OpenSession | src/pairing.rs:119-154 | expired sessions go, then both caps are looked at, then the first code not in use names a new session |
| Pairing.Pairings.AdmitTo | src/pairing.rs:159-187 | side `a` is the opener, side `b` whoever brings the claim that came first |
| Pairing.Pairings.PostTo | src/pairing.rs:190-207 | a message of allowed size goes to the end of its side's list while there is room |
| Pairing.Pairings.ReadFrom | src/pairing.rs:210-215 | what the other side said, from `after` on |
| Pairing.Pairings.Close | src/pairing.rs:232-234 | that session goes and no other, and it says whether it was there |
| Pairing.Pairings.CloseAllOpenedBy | src/pairing.rs:237-242 | just the sessions that device opened go |
| Pairing.CapsHoldInEveryRun | src/pairing.rs:119-207 | in every run: so many sessions in all, so many an account, so many messages a side, none empty or too large |
| Pairing.OpensExactlyWhen | src/pairing.rs:119-154 | a session is opened just while fewer than 1,000 unexpired ones are, and fewer than three of the account; it has nothing said, no claim, and ten minutes |
| Pairing.AdmitsExactlyWhen | src/pairing.rs:159-187 | while a session lives, side `a` is let speak just for its opener, side `b` just for the first claim, which is kept, or the same again; a claim is what was sent without space around it, of 1 to 128 bytes |
| Pairing.PostsExactlyWhen | src/pairing.rs:190-207 | a message gets in just when it is of 1 to 8,192 bytes, the session lives and its side has said fewer than four; else for which reason not |
| Pairing.ReadsExactlyWhen | src/pairing.rs:210-215 | a reader is answered what the other side said from there on, just while the session lives |
| Basics.TrimTakesTheSpace | src/pairing.rs:172-175 | trimming takes the white space off both ends and nothing else |
| Pairing.SessionOnlyGrows | src/pairing.rs:159-207 | while a session lives, opener, account and end never change, a claim once made stays, and both lists only grow at the end |
| Pairing.OneSpeakerPerSide | src/pairing.rs:156-187 | any two requests admitted to one side of one session come from the opener, or carry the same claim |
| Pairing.FromTheOpeningOn | src/api/pairing.rs:116-127 | from the opening of a session, in every run: what a reader that follows `next` has is the first messages the other side got in, none missing, none twice, none of its own; asking while the session lives brings it all there is |
| Enrolment.Database.HandleEnrol | src/api/devices.rs:61-75 | look, prove, then count the failure or spend the token and let the device in, in that order |
| Enrolment.Database.EnrolmentFailed | src/db/invites.rs:106-118 | a wrong password is counted on an unused token, and it says just when that spent it |
| Enrolment.Database.RedeemEnrolment | src/db/invites.rs:149-158 | an unused, unexpired token is spent and names its account |
| Enrolment.Database.PeekEnrolment | src/db/invites.rs:130-146 | an unused, unexpired token names its account and is left as it is |
| Enrolment.Database.DropEnrolmentsOf | src/db/invites.rs:121-126 | the unused tokens that device made go, and it says how many |
| Enrolment.Database.Purge | src/db/invites.rs:162-167 | just what expired more than thirty days ago goes |
| Enrolment.Database.CreateEnrolment | src/db/invites.rs:84-102 | a token for the account, good for ten minutes, no failures yet, tied to its maker |
| Enrolment.ATokenIsGoodForSoMuch | src/api/devices.rs:61-75 | over every run a token lets one device in at most, and the wrong passwords checked with it and that device together stay within what was left |
| Enrolment.ANewTokenIsGoodForFive | src/db/invites.rs:45-49 | from its making: at most five wrong passwords are ever checked, and after five the right one gets nobody in |
| Enrolment.SpentStaysSpent | src/db/invites.rs:148-158 | with a token that is used or gone nothing is checked and nobody gets in, ever |
| Enrolment.DroppedWithItsMaker | src/db/invites.rs:120-126 | once its maker is shut out, nothing is checked and nobody gets in with an unused token of it |
| Enrolment.NothingAfterExpiry | src/db/invites.rs:130-137 | tries from the expiry on come to nothing, and no run puts the expiry off |
| Enrolment.JoinsTheMakersAccount | src/api/devices.rs:65-75 | whoever is let in joins the account the token was made for |
| Enrolment.JoinWrites | src/api/devices.rs:65-75 | just when a join succeeds; one that does puts the device under the account its token's row names and spends that row, and touches no other; one that fails lets no device in |
| Enrolment.ADeviceIsOfItsTokensAccount | src/api/devices.rs:65-75 | in every run a device that was not there before stands under the account of the token it was let in with, then unused, unexpired and backed by that account's password |
| Enrolment.OneTokenOneDevice | src/db/invites.rs:148-158 | and one token lets in one device, once |
| Enrolment.MistypingCostsOneTry | src/api/devices.rs:62-71 | while nobody gets in with it, a token loses exactly one try for each wrong password |
| Enrolment.TheRightKeyGetsInExactlyWhen | src/api/devices.rs:61-75 | after any run from the making of a token in which nobody got in with it and nothing took it away: the right key gets in, to the account it was made for, just while fewer than five wrong ones were checked and both looks are before the expiry |
| Invites.MakeCode | src/db/invites.rs:18-28 | seventeen characters with two dashes that count as the fifteen letters drawn |
| Invites.TypedIsDrawn | src/db/invites.rs:30-36 | noise put in or left out anywhere, and case, make no difference to what a code counts as |
| Invites.NormaliseSettles | src/db/invites.rs:30-36 | what a code counts as is letters and digits, none lower-case, and counts as itself |
| Invites.Table.CreateInvite | src/db/invites.rs:52-59 | the code returned counts as the one stored, unused |
| Invites.Table.RedeemInvite | src/db/invites.rs:63-71 | a good invite is used up, anything else changes nothing |
| Invites.AnInviteIsTakenOnce | src/db/invites.rs:61-71 | over every run an invite is taken once at most, however it is spelled |
| Invites.AnInviteIsGoodUntilTaken | src/db/invites.rs:61-71 | and until it is taken or runs out it is good, whatever else is redeemed or tidied away |
| Invites.AnExpiredInviteIsNotTaken | src/db/invites.rs:63-71 | from its expiry on nobody takes it, and no run puts that off |
| Calendar.CivilIsTheCalendar | src/main.rs:604-617 | for every day the arithmetic gives the date that counting day by day from 1 January 1970 through the Gregorian calendar comes to |
| Calendar.CivilTakesTheNextDay | src/main.rs:604-617 | the day after has the date after, across months, leap days, centuries and eras |
| Calendar.YearHoldsDay | src/main.rs:608-611 | the year the four divisions name is the one whose first and last day enclose the day |
| Calendar.CivilKeepsOrder | src/main.rs:604-617 | each day has a real date of its own, and later days later ones |
| Stamps.StampKeepsOrder | src/main.rs:619-629 | before the year 10000, stamps sort as whole seconds do, and are the same only within one second |
| Stamps.StampsSortUntilYear10000 | src/main.rs:619-629 | for every limit: stamps of moments below it sort as the moments do just when the limit is no later than the start of the year 10000 |
| Stamps.StampIsRead | src/main.rs:619-629 | before the year 10000 a stamp is seventeen characters that read back as the date of its day and as hours, minutes and seconds that add up to the second of the day |
| Stamps.Year10000SortsFirst | src/main.rs:616-619 | the first stamp of the year 10000 sorts before the last of the year 9999 |
| Stamps.DateDecides | src/main.rs:616 | of two stamps with four-digit years the dates decide, and what follows decides between equal dates |
| Stamps.BeforeIsAnOrder | src/main.rs:510 | of two different texts exactly one sorts first |
| Backups.StampOfBackupName | src/main.rs:571-588 | the name a backup is written under, old or new, gives its stamp back |
| Backups.BackupsAreNamedSo | src/main.rs:568-575 | a file is a backup just when its name is one of the two prefixes, anything, and `.db` |
| Backups.OneStampTwoNames | src/main.rs:568-575 | two files of one stamp are the old name and the new one of the same second |
| Backups.SortSorts | src/main.rs:510 | sorted by stamp, the same files come oldest first |
| Backups.Directory.KeepNewest | src/main.rs:495-514 | from the newest but `keep` on back, backups are removed one by one; every other file stays |
| Backups.KeepsTheNewest | src/main.rs:494-514 | only backups go, `keep` of them stay or all there are, and none that goes has a later stamp than one that stays |
| Backups.ReadInAnyOrder | src/main.rs:496-513 | while no second has two backups, what goes does not hang on the order the directory is read in |
| Backups.KeepsTheLatest | src/main.rs:494-514 | before the year 10000, under either name, no backup that goes was written in a later second than one that stays |
| Versions.VersionsFlip | src/updates.rs:88-109 | for any text: the other way round the comparison is the other way round |
| Versions.VersionsGoOn | src/updates.rs:88-109 | on versions whose pre-release identifiers are numbers or begin with a letter the comparison is transitive, equal with equal |
| Versions.ChainsBreakExactlyWhen | src/updates.rs:97-105 | for any three identifiers: the comparison goes on from one to the next except when one is a word that lies, as text, between two numbers that are the other way round as text |
| Versions.PreChainsExactlyWhen | src/updates.rs:96-107 | for any three lists after the dash: the comparison goes on just when, where they first differ, no word is so straddled, or the rest of two equal heads mends it |
| Versions.VersionsChainExactlyWhen | src/updates.rs:88-109 | the same for any three texts a version can be read from |
| Versions.CanonicalChainsExactlyWhen | src/updates.rs:96-107 | for lists whose numbers have no plus and no leading zeros: the comparison goes on just when, where the three first differ, no word is straddled |
| Versions.ReleaseLiesBetween | src/updates.rs:92-95 | for any texts a version can be read from, whatever and however many their numbers: a release comes after its pre-releases and before what has later numbers |
| Versions.NewestIsNewest | src/updates.rs:122-131 | there is an answer just when some release is no draft, is on the channel and is newer than what runs; it is one such, and none such is newer |
| Versions.NewestIsTheLastAsNew | src/updates.rs:127-131 | of several as new as each other it is the last: whatever may be offered and follows it on the list is older |
| Versions.NewestInAnyOrder | src/updates.rs:122-131 | whatever the order of the list, the answer is as new |
| SemVer.RenderIsRead | src/updates.rs:75-86 | what is read from the text of any version of Semantic Versioning 2.0.0, behind any number of `v`s: nothing, if a number before the dash does not fit 64 bits or build metadata follows the numbers directly; else the three numbers and the identifiers after the dash, the first part of the build metadata joined to the last of them by its plus, the other parts after it |
| Agreement.AgreesExactlyWhen | src/updates.rs:88-109 | for any two such versions, build metadata and numbers of any size included: the comparison of their texts is their precedence under section 11 just when, where both are read, no pair is misread where the pre-releases first differ and build metadata makes no difference where they do not, and, where one is not read, their precedence is the same |
| Agreement.IdentifiersAgree | src/updates.rs:98-101 | of two identifiers that differ, with build metadata behind them or not: they compare the wrong way round just when text and precedence differ and one is a word or is a number that build metadata follows or that does not fit |
| Agreement.ComparesLikeSemVer | src/updates.rs:88-109 | without build metadata, with numbers that fit 64 bits and words that begin with a letter, the comparison is always the precedence |
| Agreement.UnreadIsNeverNewer | src/updates.rs:127-130 | a version that is not read compares as equal to any text, so it is never offered as a newer release, and no release is offered to a server that runs it |
| Agreement.MisreadVersionsAreWrong | src/updates.rs:97-105 | pre-releases of one version that are the same up to a misread last pair compare exactly the wrong way round |
| Agreement.BuildMisleads | src/updates.rs:97-105 | 1.0.0-rc.10+5 compares as older than 1.0.0-rc.9, and is newer |
| Agreement.BuildHides | src/updates.rs:81-91 | 1.0.1+5 compares as equal to 1.0.0, and is newer |
| Agreement.TooLargeMisleads | src/updates.rs:98-101 | the pre-release numbered 2^64 compares as older than that numbered 9, and is newer |
| Agreement.DigitsMislead | src/updates.rs:98-101 | 1.0.0-9 compares as newer than 1.0.0-10a, and is older |
| Agreement.VersionsGoRound | src/updates.rs:88-109 | 1.0.0-10 is newer than 1.0.0-9, 1.0.0-10a than 1.0.0-10, and 1.0.0-9 than 1.0.0-10a |

## Left out

- Requests over HTTP, bodies, routing, event streams, timeouts, TLS, certificates, signatures and key derivation: library calls around the steps modelled here.
- SQLite itself, its files and its log, and the file moves of a restore: a restore is one step that replaces the tables and numbers them on. Errors of the database or the disk are not modelled.
- Restoring.RestoreIsSafeExactlyWhen: asks that carried numbers lie past readers, which every restore of an earlier state of the same server sees to; where the replaced database cannot be read and had got further than the gap, new records too are numbered where readers do not look, and nothing is said of tombstones.
- What a restore does to one-time tokens, invites and quotas: runs with restores are about records, numbers and readers.
- The permit counters for requests at once (`start`, `Going`) and `src/connections.rs`: plain counters.
- The moment between authenticating a request and serving it, which take the lock separately, and commands run by a second process: one request is one step, so the account number a pull is capped at is the current one.
- Store.Database.PurgeAll: nothing is asked of the server between two accounts; in the runs of `Runs.dfy` each account's purge is a step of its own, with anything in between.
- Limiter.RateLimiter.Check: addresses are values with their parts, not text to be parsed, and keys are tagged values where the source has strings with prefixes; buckets are values, whatever their limits; the flags that keep a refusal from being logged twice are left out.
- Pairing.FromTheOpeningOn: that a reader is first admitted to its side is a step of its own, and waiting for a message is asking twice.
- Kinds of records other than manifests are told apart by a tag; the names they are stored under, and the fallback for a name that is not known, are left out.
- Backups.SortSorts: the library's stable sort is an insertion sort here. A file that cannot be removed, and a name that is not text, are left out.
- Versions.NewestIsNewest: which channel a server follows is a parameter.
- Room on the disk for a backup, the listing of backups, setup codes, configuration, health checks, fetching the list of releases, device names, and the floor for key derivation costs.
- The client's merge of what it pulls: the server never reads what is sealed.
