# Verified model of the project-management backend

The backend keeps ordered lists with fractional keys, limits request rates and
failed logins in Redis, hands out single-use links for invitations and password
resets, rewrites password hashes as their cost rises, and slides session
deadlines. Each of these stores little and promises much. This project models
those parts in Dafny, in the shape the Go, Lua and SQL sources have, and proves
what they promise over every input, every run and every interleaving.

`dafny verify dfyconfig.toml` checks everything.

## How the files fit together

- **Order keys.** `Base62` orders strings of digits and reads them as integers
  and fractions. `OrderKeys` holds the algorithm: the scan, the carry and borrow
  loops over a byte slice, the midpoints, `Between`. `OrderKeyNumbers` reads a
  key as a number and shows byte order is its order. `OrderKeyBetween` proves
  that `Between` always finds room. `OrderKeyLengths` says how short its keys
  are, and `OrderKeyGrowth` which of the short ones is taken and how slowly keys
  grow at one spot. `OrderedLists` is about whole runs of list edits.
- **Counting in Redis.** `Redis` is a small store: sorted sets, counters,
  deadlines, key names. `HitStore` ties one window's set and sequence counter to
  a plain log of hits. `RateLimit`, `RateLimitRuns`, `RateLimitLaws` and
  `RateLimitRetry` are the sliding window limiter, its refinement to the log and
  what follows for callers; `SharedWindows` and `MeantRuns` are about tiers that
  share a window. `Failures`, `FailureRuns` and `FailureWaits` are the failure
  counter, its bound under concurrent attempts and the worth of its wait.
  `LoginGuard` composes three counters, and `GuardRuns` puts its three reads into
  whole runs. `KeyExpiry` says when what either kind of counter stores may go.
- **Links and passwords.** `Invitations`, `LinkRaces` and `Passwords` interleave SQL
  statements, commits and rollbacks of any number of transactions; `LinkBodies` ties
  `LinkRaces` to both services that issue links, and `PasswordWrites` adds what a
  spent reset wrote. `RedemptionProgress` and `PasswordProgress` say when these
  transactions and rehashes get what they want.
  `IdentityTables` is the same code written as statements and transaction bodies
  over tables; `Supersession` runs each body as one step, and `LinkLifetimes` says
  for how long a link works. `Credentials` checks a password at login and rewrites
  its hash.
- **Sessions.** `Sessions` holds the deadline rules, the statements and the
  service; `SessionRuns` interleaves requests and revocations, and `SessionOwners`
  says whom a token signs in.
- **Hash strings.** `Base64` and `PasswordHash` print, scan and read the stored
  form and build hashing, verifying and rehashing on it; `HashTexts` says which
  texts read as a hash and what a check of a password answers for any text.
  `Decimal` spells numbers for key names and hash strings alike.

A state-changing method is proved equal to a specification function of the old
state; the laws are then lemmas about that function and about runs of it.

## Where the code and its comments disagree

- `backend/internal/redis/ratelimit.go:124-128` calls two tiers that share a
  window harmless, the smaller limit deciding. Each hit is then recorded once per
  sharing tier, so two limits of two admit one call
  (`SharedWindows.SharedWindowHalvesTheLimit`). Over all runs of the script,
  `MeantRuns.RunsAreMeantIff` says exactly which lists of tiers the comment holds
  for, and `SharedWindows.SharingIsHarmlessIff` gives the short form for tiers that
  all share one window. All refinement theorems cover shared windows through
  `HitStore.Weight`.
- `backend/internal/fracdex/fracdex.go:111-113` calls the next integer the
  shortest key that fits. Among negative integers a narrower integer may lie
  further up: between "Y00" and "a0" the code chooses "Y01" where "Zz" fits
  (`OrderKeyLengths.StepIsNotAlwaysShortest`). `OrderKeyLengths.StepIsShortestIff`
  gives the exact condition, and `OrderKeyLengths.BetweenIsShortestIff` one on the
  two bounds that covers every branch.
- `backend/internal/modules/identity/service/invitation.go:185-186` promises that
  one address never has two live invitations, and
  `backend/internal/modules/identity/service/passwordreset.go:131-132` as much for
  the resets of an account. With bodies that run one after the other both hold
  (`Supersession.OneUsableLink`). Two whose statements interleave may leave two
  links (`LinkBodies.BothPromisesRace`), and `LinkRaces.OneUsableIffOneFollows` says
  exactly when: unless one commits before the other starts its expire statement. Row
  locks do not help, since a statement that waits does not see rows committed
  meanwhile.
- `backend/internal/redis/failures.go:70-71` names the longest wait so that a retry
  is not refused again. Failures are recorded after their check, so several
  attempts in flight can store more than the limit, and then it is
  (`FailureWaits.WaitIsTooShort`). One attempt at a time is enough for the wait to
  hold (`FailureWaits.WaitIsEnoughAlone`), and `FailureWaits.PassesIffEnoughLeave` is
  the exact condition.
- `backend/internal/modules/identity/domain/session.go:25-28` bounds what a
  skipped write costs by an hour. That holds for requests one at a time
  (`Sessions.UsedDeadline`); a late write can put back an earlier deadline
  (`SessionRuns.LateWriteHappens`), and `SessionRuns.GraceHoldsIff` is the exact
  condition over all interleavings.

## Model

| member | source | states |
|---|---|---|
| `OrderKeys.SplitKey` | backend/internal/fracdex/fracdex.go:175-211 | the scan returns the one cut into integer part and fraction, or refuses the key |
| `OrderKeys.SplitOfParts` | backend/internal/fracdex/fracdex.go:166-211 | any well-formed integer part followed by any fraction without a trailing zero is cut exactly there |
| `OrderKeyNumbers.IntegersArePrefixFree` | backend/internal/fracdex/fracdex.go:25-32 | no integer part is a proper prefix of another |
| `OrderKeyNumbers.IntegerOrder` | backend/internal/fracdex/fracdex.go:22-36 | byte order on integer parts is the order of the integers they name, across widths and both alphabets, and no two name one integer |
| `Base62.FracOrder` | backend/internal/fracdex/fracdex.go:22-28 | byte order on fractions is numeric order; without trailing zeros each number has one spelling |
| `OrderKeyNumbers.ByteOrderIsNumericOrder` | backend/internal/fracdex/fracdex.go:22-46 | two valid keys compare as bytes exactly as the numbers they name compare, and equal numbers mean equal keys |
| `OrderKeys.CarryThrough` | backend/internal/fracdex/fracdex.go:225-250 | the in-place loop leaves the digits plus one and reports whether a carry fell out of the front |
| `OrderKeys.BorrowThrough` | backend/internal/fracdex/fracdex.go:267-290 | the in-place loop leaves the digits minus one and reports whether a borrow fell out of the front |
| `OrderKeys.IncrementInteger` | backend/internal/fracdex/fracdex.go:225-265 | stepping up, with its changes of header, is the specified successor |
| `OrderKeys.DecrementInteger` | backend/internal/fracdex/fracdex.go:267-305 | stepping down, with its changes of header, is the specified predecessor |
| `OrderKeyNumbers.IncrementIsSuccessor` | backend/internal/fracdex/fracdex.go:225-265 | the result is well formed and names exactly one more, across carries, widths and the Zz/a0 seam; only the topmost integer has no successor |
| `OrderKeyNumbers.DecrementIsPredecessor` | backend/internal/fracdex/fracdex.go:267-305 | the result is well formed and names exactly one less; it fails only at the floor |
| `OrderKeyNumbers.StepsUndoEachOther` | backend/internal/fracdex/fracdex.go:225-305 | stepping up then down, or down then up, gives the integer back |
| `OrderKeyNumbers.FloorIsLowest` | backend/internal/fracdex/fracdex.go:39-42 | no integer part lies below the bottom of the space |
| `OrderKeys.SharedDigits` | backend/internal/fracdex/fracdex.go:366-384 | the loop counts the leading digits shared with the zero-padded lower fraction |
| `OrderKeys.SharedDigitsDecideNothing` | backend/internal/fracdex/fracdex.go:309-313 | after the shared digits the rests keep their order and differ in their first digit |
| `OrderKeys.Midpoint` | backend/internal/fracdex/fracdex.go:307-330 | a fraction without trailing zero, strictly between its bounds, at most one digit longer than the longer; which one is `OrderKeyGrowth.OnlyTheMiddle` |
| `OrderKeys.MidpointAfter` | backend/internal/fracdex/fracdex.go:332-343 | a fraction strictly above its argument, at most one digit longer |
| `OrderKeyLengths.SingleDigitsHalve` | backend/internal/fracdex/fracdex.go:315-338 | where one digit fits, the digit chosen is the rounded middle of the room |
| `OrderKeyLengths.MidpointAfterIsShortest` | backend/internal/fracdex/fracdex.go:332-343 | no fraction above the argument is shorter |
| `OrderKeyLengths.MidpointIsShortest` | backend/internal/fracdex/fracdex.go:307-330 | no fraction strictly between the bounds is shorter |
| `OrderKeyLengths.SameIntegerIsShortest` | backend/internal/fracdex/fracdex.go:107-109 | between two keys of one integer no valid key is shorter than the one returned |
| `OrderKeyLengths.StepIsShortestIff` | backend/internal/fracdex/fracdex.go:111-121 | the next integer is the shortest key that fits if and only if no narrower integer lies between it and the upper bound |
| `OrderKeyLengths.NoStepIsShortest` | backend/internal/fracdex/fracdex.go:123-124 | where the step does not fit, no valid key between the bounds is shorter than the fraction taken |
| `OrderKeyLengths.PrependIsShortestIff` | backend/internal/fracdex/fracdex.go:126-152 | the key put before the first is the shortest below it if and only if that first key is no wider than "a0" or is "b00" |
| `OrderKeyLengths.AppendIsShortestIff` | backend/internal/fracdex/fracdex.go:154-164 | the key put after the last is the shortest above it if and only if that last key is at or above the width of "Zz" or has the integer "Yzz" |
| `OrderKeyLengths.BetweenIsShortestIff` | backend/internal/fracdex/fracdex.go:74-164 | for all bounds accepted, the exact condition on the two bounds under which no key inside is shorter than the one returned |
| `OrderKeyLengths.StepIsNotAlwaysShortest` | backend/internal/fracdex/fracdex.go:111-113 | the bounds at which the comment is wrong, with the shorter key |
| `OrderKeyLengths.AppendTakesNextInteger` | backend/internal/fracdex/fracdex.go:154-164 | appending takes the lowest integer above the last key whenever any integer lies above it |
| `OrderKeyLengths.PrependTakesLastInteger` | backend/internal/fracdex/fracdex.go:126-152 | prepending takes the highest integer below the first key whenever an integer key lies below it |
| `OrderKeyGrowth.MiddleHalves` | backend/internal/fracdex/fracdex.go:307-343 | in every gap of fractions, under any shared digits and any run of top digits, the digits before the last are those of the lower end and the last is the rounded middle of the room there |
| `OrderKeyGrowth.OnlyTheMiddle` | backend/internal/fracdex/fracdex.go:307-343 | a fraction is the one taken if and only if it lies in the gap, none there is shorter, and it halves the room so |
| `OrderKeyGrowth.OnlyTheMiddleKey` | backend/internal/fracdex/fracdex.go:107-124 | where no integer step fits between two keys, a key is the one returned if and only if it is valid, inside, as short as any inside and halves the room |
| `OrderKeyGrowth.FloorTakesTheMiddle` | backend/internal/fracdex/fracdex.go:126-152 | where no integer key lies below the first key, the key put before it is the lowest integer with the middle of the room there |
| `OrderKeyGrowth.CeilingTakesTheMiddle` | backend/internal/fracdex/fracdex.go:154-164 | where no integer key lies above the last key, the key put after it is its integer with the middle of the room there |
| `OrderKeyGrowth.SpotGrowth` | backend/internal/fracdex/fracdex.go:74-124 | between any two keys, however insertions pile up at one spot, each above or below the one before, the key after n others is at most 1 + n / 5 bytes longer than the longer of the two |
| `OrderKeyGrowth.GrowthIsAttained` | backend/internal/fracdex/fracdex.go:74-124 | between "a0" and "a1" that bound is reached for every n |
| `OrderKeyBetween.KeyBefore` | backend/internal/fracdex/fracdex.go:126-152 | the branches of `before` compute the specified key |
| `OrderKeyBetween.BeforeIsBelow` | backend/internal/fracdex/fracdex.go:126-152 | it never fails and gives a valid key strictly below, through both special cases at the floor |
| `OrderKeyBetween.AfterIsAbove` | backend/internal/fracdex/fracdex.go:154-164 | it gives a valid key strictly above, also at the ceiling |
| `OrderKeyBetween.BetweenTwoKeys` | backend/internal/fracdex/fracdex.go:107-124 | between any two valid ascending keys there is a valid key at most one byte longer than the longer |
| `OrderKeyBetween.BetweenKeys` | backend/internal/fracdex/fracdex.go:74-124 | the method with its early returns computes the specified function, errors included |
| `OrderKeyBetween.BetweenIsTotalAndStrict` | backend/internal/fracdex/fracdex.go:63-124 | for all strings it succeeds exactly on well-formed ascending bounds, stays strictly inside, and never reports exhaustion |
| `OrderedLists.EditKeepsOrder` | backend/internal/fracdex/fracdex.go:74-124 | an insertion or removal at any position keeps keys valid, ascending and short, and does to the list what plain editing does |
| `OrderedLists.RunsKeepOrder` | backend/internal/fracdex/fracdex.go:74-124 | after any n edits from an empty list keys are valid, strictly ascending and at most n + 1 long |
| `OrderedLists.SortingRestoresTheList` | backend/internal/fracdex/fracdex.go:74-124 | sorting the stored rows by key returns the sequence plain list editing builds |
| `OrderedLists.AppendingIsLogarithmic` | backend/internal/fracdex/fracdex.go:29-32 | the n-th append is the fraction-free key of value n, in m + 1 bytes while n < 62 + ... + 62^m |
| `Redis.KeysNeverCollide` | backend/internal/redis/ratelimit.go:191-212 | two names are equal only for equal namespace, window and key, and a set is never named like a counter |
| `Redis.MemberNameIsInjective` | backend/internal/redis/ratelimit.go:84-89 | two hits share a member name only with the same millisecond and sequence number |
| `HitStore.NewNameIsFresh` | backend/internal/redis/ratelimit.go:84-91 | the member about to be added is not in the set, even after the sequence key expired |
| `HitStore.TrimKeepsTrack` | backend/internal/redis/ratelimit.go:51-58 | trimming drops no live hit and leaves only live ones |
| `HitStore.RecordKeepsTrack` | backend/internal/redis/ratelimit.go:79-92 | a recorded hit adds exactly one to the set's account of the log |
| `HitStore.DecayKeepsTrack` | backend/internal/redis/ratelimit.go:90-91 | expiry of either key, in any combination, loses no live hit |
| `HitStore.OldestAgrees` | backend/internal/redis/ratelimit.go:58-64 | a trimmed set holds as many hits as the log has in the window, and its lowest score is the oldest of them |
| `RateLimit.SlidingWindow.AdmitOneScript` | backend/internal/redis/ratelimit.go:44-95 | the two loops of the script make exactly the specified change and verdict |
| `RateLimit.SlidingWindow.Allow` | backend/internal/redis/ratelimit.go:143-179 | without tiers everything is admitted; otherwise the script's verdict is passed on unchanged, and a call that is not answered is neither verdict, whether or not it was applied |
| `RateLimit.LongestWindow` | backend/internal/redis/ratelimit.go:181-189 | an upper bound of the windows that one of them attains |
| `RateLimit.AdmitRefinesLog` | backend/internal/redis/ratelimit.go:44-95 | one call gives the verdict a plain log gives and keeps the store in step with the log |
| `RateLimit.AdmitTouchesOneKey` | backend/internal/redis/ratelimit.go:191-212 | a call changes nothing stored for any other key or namespace |
| `RateLimitRuns.RunsRefineTheLog` | backend/internal/redis/ratelimit.go:44-95 | over every run of calls and key expiries all answers equal those of the plain log |
| `RateLimitLaws.VerdictMeansRoom` | backend/internal/redis/ratelimit.go:51-94 | a hit is admitted exactly when every tier has room; a refusal's wait is positive and at most the longest window |
| `RateLimitLaws.NothingToWaitFor` | backend/internal/redis/ratelimit.go:58-77 | with no hit in any window, only limits below one refuse, and the wait is the longest window such a limit has |
| `RateLimitLaws.NeverOverLimit` | backend/internal/redis/ratelimit.go:97-103 | over every run, for every tier and instant, the calls admitted within one window number at most the limit, also for tiers that share a window |
| `RateLimitLaws.LogIsNeverOverLimit` | backend/internal/redis/ratelimit.go:97-128 | the same bound when tiers share windows, each hit weighted by the tiers sharing it |
| `RateLimitRetry.WaitIsExact` | backend/internal/redis/ratelimit.go:58-77 | before the wait is over the verdict stays a refusal, and once it is over it is an admission |
| `RateLimitRetry.RetryAfterIsExact` | backend/internal/redis/ratelimit.go:58-77 | over whole runs every call before now + wait is refused and the first at or after it is admitted |
| `RateLimitRetry.ObedientClientIsAdmitted` | backend/internal/httpx/ratelimit.go:100-108 | a lone client that waits the rounded-up seconds is admitted |
| `RateLimitRetry.RetryAfterIsLeast` | backend/internal/httpx/ratelimit.go:100-104 | the seconds a refusal names are the least positive whole number of them that covers the wait, and no other number is |
| `RateLimitRetry.RefusalsLeaveNoTrace` | backend/internal/redis/ratelimit.go:33-37 | deleting the refused calls from a run changes no other answer, earlier or next |
| `KeyExpiry.IdleKeysFade` | backend/internal/redis/ratelimit.go:90-91 | over every run, what is stored for a key under a window may go one window after its last admitted call, however many were refused since |
| `KeyExpiry.FadedKeysGo` | backend/internal/redis/ratelimit.go:112-114 | once both names have been expired then, nothing of it is left |
| `MeantRuns.RunsAreMeantIff` | backend/internal/redis/ratelimit.go:122-134 | for every list of tiers, all runs of the script let in exactly the calls the limits say, each hit counted once, if and only if some limit is below one or no tier can be filled within its window by hits coming as fast as the limits allow |
| `MeantRuns.NoLogIsFaster` | backend/internal/redis/ratelimit.go:97-103 | in any log the limits allow, two hits lie at least as far apart as the fastest such log has them |
| `MeantRuns.GreedyIsMeant` | backend/internal/redis/ratelimit.go:97-103 | the log with every hit at its soonest instant is one the limits allow |
| `MeantRuns.PaceIsNotHarmlessness` | backend/internal/redis/ratelimit.go:122-134 | a list served as meant in every run though a log no run reaches would be refused early |
| `SharedWindows.VerdictsAreMeantIff` | backend/internal/redis/ratelimit.go:122-134 | over all logs, whether or not a run reaches them: a verdict is what the limits say exactly when each tier's weighted count is kept low by a tier with a window at least as long, or a limit refuses everything; distinct windows always are |
| `SharedWindows.SharingIsHarmlessIff` | backend/internal/redis/ratelimit.go:124-128 | over all runs of the script, tiers sharing a window answer as the smallest limit alone if and only if there is one tier or that limit is at most one |
| `SharedWindows.SharedWindowHalvesTheLimit` | backend/internal/redis/ratelimit.go:124-128 | a run of the script in which two limits of two over one window refuse the second call, where one such limit admits it |
| `Failures.FailureCounter.Check` | backend/internal/redis/failures.go:117-158 | reads the verdict of the counting script and changes nothing; a call that is not answered is neither verdict |
| `Failures.FailureCounter.Record` | backend/internal/redis/failures.go:160-181 | makes the specified change in every tier when the call arrives, and reports whether it was answered |
| `Failures.FailureCounter.Reset` | backend/internal/redis/failures.go:191-209 | deletes the set and the counter of every tier when the call arrives, and reports whether it was answered |
| `Failures.CheckReadsTheLog` | backend/internal/redis/failures.go:44-83 | stepping over aged entries answers as a plain log of failures does |
| `Failures.RecordLogsTheFailure` | backend/internal/redis/failures.go:85-115 | recording appends one failure to that log |
| `Failures.ResetEmptiesTheLog` | backend/internal/redis/failures.go:183-209 | after a reset the store agrees with an empty log |
| `Failures.OtherKeysKeepTrack` | backend/internal/redis/failures.go:170-173 | recording or resetting one key changes no other key's log |
| `FailureRuns.ChecksReadTheFailures` | backend/internal/redis/failures.go:25-32 | over every interleaving of checks, records, resets and expiries each check answers from the failures recorded since the last reset |
| `FailureRuns.StoredFailuresAreBounded` | backend/internal/redis/failures.go:25-32 | with at most C attempts in flight on a key, a tier never holds more than limit + C - 1 live failures |
| `KeyExpiry.IdleFailuresFade` | backend/internal/redis/failures.go:109-111 | over every run, what is stored for a key may go one window after the last failure recorded, however often it is checked |
| `LoginGuard.BucketKeysNeverCollide` | backend/internal/modules/identity/service/loginguard.go:194-218 | two attempts share a bucket exactly when they share that bucket's account digest, address or network; buckets of different kinds are never the same |
| `LoginGuard.PassesOnlyWithRoomEverywhere` | backend/internal/modules/identity/service/loginguard.go:124-149 | an attempt passes exactly when every counter answered and allowed it; otherwise the wait is the longest of the refusing ones |
| `LoginGuard.UnansweredFailsClosed` | backend/internal/modules/identity/service/loginguard.go:73-78 | one counter that does not answer refuses the attempt for thirty seconds, whatever the others say |
| `LoginGuard.Guard.Check` | backend/internal/modules/identity/service/loginguard.go:124-149 | three calls one after another, each finding whatever others left in Redis at its own instant; the first that is not answered refuses, and otherwise the specified decision is taken |
| `LoginGuard.Guard.RecordFailure` | backend/internal/modules/identity/service/loginguard.go:157-165 | three calls one after another: each bucket whose call arrives counts the failure at its own instant, whatever became of the others |
| `LoginGuard.Guard.Succeeded` | backend/internal/modules/identity/service/loginguard.go:180-185 | clears the account's failures and nothing else when the call arrives, and changes nothing otherwise |
| `LoginGuard.ChecksWaitPositively` | backend/internal/redis/failures.go:146-157 | a counter never refuses with a wait that is not positive, on which the guard's test for passing rests |
| `LoginGuard.RefusalStands` | backend/internal/redis/failures.go:44-83 | whatever is recorded meanwhile, a refused key stays refused until its wait is over, unless it is reset |
| `FailureWaits.PassesIffEnoughLeave` | backend/internal/redis/failures.go:62-76 | with nothing recorded or forgotten meanwhile, a later check passes if and only if in every tier enough of the failures live at the first one have left |
| `FailureWaits.WaitIsEnoughAlone` | backend/internal/redis/failures.go:70-76 | with at most one attempt in flight at a time, the check at the end of the named wait passes, whatever was only checked or forgotten meanwhile |
| `FailureWaits.WaitIsTooShort` | backend/internal/redis/failures.go:25-32 | a run with two attempts in flight after which the check at the end of the named wait is refused again |
| `GuardRuns.ReadIsACheckStep` | backend/internal/modules/identity/service/loginguard.go:127-142 | each of the guard's reads is a check step of the run, answered from the state it finds |
| `GuardRuns.MethodDecidesInRuns` | backend/internal/modules/identity/service/loginguard.go:124-149 | the guard's method decides as the run theorems say when each of its calls finds what the run has left |
| `GuardRuns.GuardPassesIffRoom` | backend/internal/modules/identity/service/loginguard.go:112-149 | over every run, with anything happening between the three reads, an attempt passes exactly when each bucket that has tiers answered and had room in all of them at its own instant |
| `GuardRuns.DecidingBucket` | backend/internal/modules/identity/service/loginguard.go:114-117 | a wait the guard names is the wait of one refusing bucket |
| `GuardRuns.RefusedBucketStands` | backend/internal/modules/identity/service/loginguard.go:139-146 | a bucket that refused keeps out every later attempt that reads it before its wait is over, counted from its own read, unless it was reset since |
| `GuardRuns.GuardRefusalStands` | backend/internal/modules/identity/service/loginguard.go:114-149 | until the named wait has passed since the first read, every later attempt is refused, unless the account's failures were forgotten |
| `LoginGuard.ShippedLimitsHold` | backend/internal/modules/identity/service/loginguard.go:48-71 | with C attempts in flight per bucket, every bucket stays at or below limit + C - 1 failures in both of its windows, where the limits are 5 and 20, 30 and 200, 300 and 2,000 over the windows shipped |
| `Invitations.StepKeepsConsistent` | backend/internal/modules/identity/service/invitation.go:270-335 | every statement, commit and rollback keeps row locks, the pairing of stamps with accounts, and one live account per address |
| `Invitations.CommitKeepsPairs` | backend/internal/modules/identity/service/invitation.go:232-241 | a commit publishes a stamp and an account with that invitation's address and role together |
| `Invitations.RedemptionsAreSingleUse` | backend/internal/modules/identity/repository/invitations.sql.go:14-28 | in every interleaving a row is stamped exactly when one account came from it, by exactly one committed redemption |
| `Invitations.AddressesAreUnique` | backend/internal/modules/identity/service/invitation.go:433-438 | in every interleaving two live accounts never share a lower-cased address |
| `Invitations.LowerAgreesIff` | backend/internal/modules/identity/repository/users.sql.go:68-73 | two addresses are one exactly when they differ at most in the case of letters |
| `RedemptionProgress.UndisturbedRedemption` | backend/internal/modules/identity/service/invitation.go:270-335 | uninterrupted, a redemption creates the account its invitation promises if and only if the row is open, its address is free and no other transaction holds either; otherwise no row and no account changes |
| `Passwords.StepKeepsConsistent` | backend/internal/modules/identity/service/passwordreset.go:215-291 | every statement of confirmations and rehashes keeps each stored hash verifying the last chosen password |
| `Passwords.StoredHashVerifiesTheChosen` | backend/internal/modules/identity/service/credentials.go:119-149 | in every interleaving the stored hash verifies the last committed chosen password and no other |
| `Passwords.StaleRehashChangesNothing` | backend/internal/modules/identity/repository/users.sql.go:248-268 | a rehash that read a hash the account no longer has changes no account |
| `Passwords.OneRehashWins` | backend/internal/modules/identity/repository/users.sql.go:248-268 | of all rehashes that read one hash of an account at most one replaces it; that one does is `PasswordProgress.ExactlyOneRehashWins` |
| `PasswordProgress.SwapWritesIff` | backend/internal/modules/identity/repository/users.sql.go:248-255 | a rehash replaces the hash if and only if the account is live, no confirmation holds it and its hash is still the one read |
| `PasswordProgress.UndisturbedLogin` | backend/internal/modules/identity/service/credentials.go:119-149 | uninterrupted, a login leaves a hash of its own, of the same password at the cost of the moment, if and only if the password verified, the stored hash was cheaper and nothing held the account |
| `PasswordProgress.RehashKeepsItsHash` | backend/internal/modules/identity/service/credentials.go:129-144 | over every run, what a login writes, whenever it does, is the hash it made when it hashed, at the cost of that moment |
| `PasswordProgress.RehashesAreDearer` | backend/internal/modules/identity/service/credentials.go:119-132 | over every run a rehash only ever makes a hash dearer |
| `PasswordProgress.ExactlyOneRehashWins` | backend/internal/modules/identity/repository/users.sql.go:262-268 | of any number of rehashes that read one hash, with nothing else writing the account, exactly one wins once one of them runs unblocked, and stays the winner in every continuation |
| `PasswordProgress.UndisturbedConfirmation` | backend/internal/modules/identity/service/passwordreset.go:215-291 | uninterrupted, a confirmation stores its hash and spends its reset if and only if the reset is open, its account is live and no other transaction holds either; otherwise no account and no reset changes |
| `Passwords.ResetsAreSingleUse` | backend/internal/modules/identity/repository/password_resets.sql.go:116-132 | a reset is stamped exactly when one confirmation of it committed, for the account the row names |
| `PasswordWrites.SpentMeansWritten` | backend/internal/modules/identity/service/passwordreset.go:177-185 | in every interleaving a reset is spent exactly when a hash made for it was written to an account |
| `PasswordWrites.OneWritePerReset` | backend/internal/modules/identity/repository/password_resets.sql.go:124-132 | all hashes ever written for one reset are one hash, of the account the reset names |
| `PasswordWrites.EveryWriteSpendsAReset` | backend/internal/modules/identity/service/passwordreset.go:248-265 | no account ever holds a confirmation's hash without a spent reset of its own behind it |
| `IdentityTables.Database.ExpireOpenInvitationsForEmail` | backend/internal/modules/identity/repository/invitations.sql.go:99-115 | ends the open rows of the lower-cased address at now and touches no other row |
| `IdentityTables.Database.AcceptInvitation` | backend/internal/modules/identity/repository/invitations.sql.go:14-35 | stamps one open row or none, and reports which |
| `IdentityTables.Database.CreateUser` | backend/internal/modules/identity/repository/users.sql.go:14-22 | inserts unless the id or a live account's address is taken |
| `IdentityTables.Database.ExpireOpenPasswordResetsForUser` | backend/internal/modules/identity/repository/password_resets.sql.go:61-75 | ends the open resets of the account at now and leaves spent ones alone |
| `IdentityTables.Database.UsePasswordReset` | backend/internal/modules/identity/repository/password_resets.sql.go:116-139 | stamps one open row or none, and reports which |
| `IdentityTables.Database.SetUserPasswordHash` | backend/internal/modules/identity/repository/users.sql.go:183-212 | replaces the hash of a live account, or finds none |
| `IdentityTables.Identity.Create` | backend/internal/modules/identity/service/invitation.go:177-206 | the statements in order, rolled back on every failure, amount to the specified body |
| `IdentityTables.Identity.Accept` | backend/internal/modules/identity/service/invitation.go:270-338 | the stamp and the account are one transaction: both or neither |
| `IdentityTables.Identity.Request` | backend/internal/modules/identity/service/passwordreset.go:114-154 | supersedes and inserts for a live account, and does nothing for any other address |
| `IdentityTables.Identity.Confirm` | backend/internal/modules/identity/service/passwordreset.go:215-291 | the stamp, the hash and the deletion of sessions are one transaction, all or none; when it succeeds is `LinkLifetimes.UsableResetsConfirm` |
| `Supersession.StepKeepsConsistent` | backend/internal/modules/identity/service/invitation.go:177-203 | every body keeps unique addresses, only the last link of each address and account usable, and no address both live and invited |
| `Supersession.OneUsableLink` | backend/internal/modules/identity/service/invitation.go:185-189 | after any run, at any later moment, an address has at most one usable invitation and an account one usable reset, each the last issued, and no address has both a live account and a usable invitation |
| `Supersession.LinksOnlyClose` | backend/internal/modules/identity/repository/invitations.sql.go:107-115 | over any run rows keep their identity, deadlines only move earlier, and a stamped row never changes again |
| `Supersession.NewLinkEndsEarlierOnes` | backend/internal/modules/identity/service/invitation.go:185-189 | once an address is invited again its earlier links never work again |
| `Supersession.NewResetEndsEarlierOnes` | backend/internal/modules/identity/service/passwordreset.go:131-135 | once an account asks again its earlier resets never work again |
| `Supersession.LinksWorkOnce` | backend/internal/modules/identity/service/passwordreset.go:248-257 | a link that worked is refused as not usable for ever after |
| `Supersession.UsableLinksRedeem` | backend/internal/modules/identity/service/invitation.go:293-335 | with bodies run as one step, following a link creates its account exactly when it is usable: the address is never taken; afterwards the address has no usable link |
| `Supersession.ConfirmingTouchesOneAccount` | backend/internal/modules/identity/service/passwordreset.go:177-191 | a confirmed reset replaces one live account's hash, deletes all its sessions, and touches no other account, session or link |
| `LinkLifetimes.UsableResetsConfirm` | backend/internal/modules/identity/service/passwordreset.go:236-282 | a confirmation succeeds if and only if its reset is unspent, before its deadline and of a live account; in every other case it gives one answer and changes nothing |
| `LinkLifetimes.FollowingHasThreeAnswers` | backend/internal/modules/identity/service/invitation.go:293-332 | whatever the tables hold: not usable unless the invitation is open, then address taken if there is an account for it, and otherwise the account is created; a refusal changes nothing |
| `LinkLifetimes.AskingRevealsNothing` | backend/internal/modules/identity/service/passwordreset.go:114-151 | asking for a reset succeeds for every address; for one with a live account it adds one open reset of that account, for any other it changes nothing |
| `LinkLifetimes.InvitingIssues` | backend/internal/modules/identity/service/invitation.go:177-203 | an invitation is issued if and only if its address has no account, with the address, role and deadline asked for; otherwise the answer is that the address is taken |
| `LinkLifetimes.ResetsWorkForAnHour` | backend/internal/modules/identity/service/passwordreset.go:215-291 | over every run, a reset that was issued replaces its account's password and signs every device out if and only if it is followed within the hour, its account has not asked again or been masked, and it is unspent |
| `LinkLifetimes.InvitationsWorkForAWeek` | backend/internal/modules/identity/service/invitation.go:270-335 | over every run, an invitation that was issued creates an account of its address and role if and only if it is followed within seven days, its address was not invited again and it is unredeemed |
| `LinkLifetimes.MaskingFreesTheAddress` | backend/internal/modules/identity/repository/users.sql.go:226-238 | masking a live account gives it an address no other masked account has and leaves its own address to be registered again; masking twice is masking once |
| `IdentityTables.Database.UpdateUserPasswordHash` | backend/internal/modules/identity/repository/users.sql.go:248-275 | replaces the hash of a live account that still has the hash expected, or none, and reports which |
| `Credentials.Service.Authenticate` | backend/internal/modules/identity/service/credentials.go:81-112 | reads, verifies and answers from one moment, and writes to whatever the accounts have become since |
| `Credentials.SignsInIff` | backend/internal/modules/identity/service/credentials.go:75-112 | a login signs in exactly the live account that has the address and whose hash the password verifies, under its stored address, name and role |
| `Credentials.RehashLandsIff` | backend/internal/modules/identity/service/credentials.go:119-149 | the exact condition for a login to change an account, whatever happened between its read and its write; the new hash verifies the password and is not due again, and nothing else ever changes |
| `Credentials.RehashedAnswersAlikeIff` | backend/internal/modules/identity/service/credentials.go:114-149 | a rehashed account answers an attempt as before if and only if the attempt is too long for both hashes, or shares the key of the password under both or under neither |
| `Credentials.LoginsChangeNoAnswer` | backend/internal/modules/identity/service/credentials.go:114-149 | over every run of logins that overlap in any way, with any salts and lost writes, accounts differ in nothing but their hashes, and no password typed gets another answer |
| `Credentials.LoginsChangeNobody` | backend/internal/modules/identity/service/credentials.go:114-149 | whoever an address and password sign in at the start of such a run they sign in at its end |
| `LinkRaces.StepKeepsSound` | backend/internal/modules/identity/service/invitation.go:177-203 | every statement, commit and rollback of any number of issues keeps: a link ends only by one that followed it, and what followed it has ended it or will |
| `LinkRaces.UsableIffNotFollowed` | backend/internal/modules/identity/repository/invitations.sql.go:99-115 | in every schedule a committed invitation or reset is usable until its deadline if and only if no committed transaction for its address or account started its expire statement after the link was committed |
| `LinkRaces.OneUsableIffOneFollows` | backend/internal/modules/identity/service/invitation.go:185-189 | of two committed links of one address or account at most one is usable if and only if one transaction committed before the other started its expire statement |
| `LinkRaces.RaceLeavesTwo` | backend/internal/modules/identity/service/invitation.go:185-189 | a schedule of twelve steps after which one holder has two usable links for the whole window |
| `LinkBodies.BothPromisesRace` | backend/internal/modules/identity/service/passwordreset.go:131-135 | that schedule for an invited address, over seven days, and for an account's resets, over an hour |
| `LinkBodies.UninterruptedIsCreate` | backend/internal/modules/identity/service/invitation.go:177-203 | uninterrupted, the statements do to invitations exactly what Create's body run as one step does |
| `LinkBodies.UninterruptedIsRequest` | backend/internal/modules/identity/service/passwordreset.go:114-151 | uninterrupted, the statements do to resets exactly what Request's body run as one step does |
| `Sessions.SessionStore.TouchSession` | backend/internal/modules/identity/repository/sessions.sql.go:248-268 | moves the deadline of an existing row and creates none |
| `Sessions.SessionStore.GetSessionByTokenHash` | backend/internal/modules/identity/repository/sessions.sql.go:142-195 | finds the row of a token only while its account is live |
| `Sessions.SessionStore.DeleteOtherSessionsForUser` | backend/internal/modules/identity/repository/sessions.sql.go:81-101 | deletes every session of the account but one and counts them |
| `Sessions.SessionService.Issue` | backend/internal/modules/identity/service/session.go:67-90 | stores a new session with the idle deadline |
| `Sessions.SessionService.Authenticate` | backend/internal/modules/identity/service/session.go:111-159 | answers the specified account or none, and leaves the specified deadline whether or not its write succeeds; which account that is over whole runs is `SessionOwners.TokensSignInTheirOwner` |
| `Sessions.SessionService.Revoke` | backend/internal/modules/identity/service/session.go:182-196 | afterwards the token finds nothing, and a malformed one changes nothing |
| `Sessions.SessionService.RevokeByID` | backend/internal/modules/identity/service/session.go:249-277 | ends the caller's own session; a missing one and another's are one answer and change nothing |
| `Sessions.SessionService.RevokeOthers` | backend/internal/modules/identity/service/session.go:279-302 | ends every other session of the caller and counts them |
| `Sessions.UsedDeadline` | backend/internal/modules/identity/domain/session.go:16-29 | over any uses one at a time the deadline never passes the ceiling, and after a use at t it is at least min(t + 14 days, ceiling) less an hour |
| `Sessions.WritesMoveTheDeadline` | backend/internal/modules/identity/domain/session.go:102-107 | every renewal write moves the deadline by more than an hour |
| `Sessions.WritesAreBounded` | backend/internal/modules/identity/domain/session.go:20-28 | a session costs at most as many renewal writes as hours and a millisecond fit between its first deadline and its ceiling |
| `Sessions.RenewalWritesAreBounded` | backend/internal/modules/identity/domain/session.go:20-28 | for every session as issued, 1,823 bounds its renewal writes if and only if the row was created within 1,824 ms of the clock read that set its first deadline |
| `Sessions.HourlyUseWritesEveryTime` | backend/internal/modules/identity/domain/session.go:20-28 | for every session the bound is attained by uses just over an hour apart |
| `Sessions.RegularUseLasts` | backend/internal/modules/identity/domain/session.go:9-15 | a session used with gaps under 14 days less an hour is accepted every time until an hour before its ceiling, whatever the delay between clock read and insert |
| `Sessions.RequestsAreUses` | backend/internal/modules/identity/service/session.go:111-180 | requests one at a time do to the stored row exactly what these uses do |
| `Sessions.UseEnds` | backend/internal/modules/identity/domain/session.go:87-100 | however it is used, a session is refused from 90 days after issue |
| `SessionRuns.StepKeepsSound` | backend/internal/modules/identity/service/session.go:111-180 | reads, judgements, late writes and deletions in any order keep every row within its ceiling and 14 days of the last use |
| `SessionRuns.DeadlinesAreBounded` | backend/internal/modules/identity/domain/session.go:77-100 | in every interleaving a deadline is at most 90 days from issue and 14 from the last accepted use |
| `SessionRuns.AcceptedUseIsRecent` | backend/internal/modules/identity/service/session.go:136-149 | a use is accepted only within 14 days of the one before it and 90 of issue, however stale the row it read |
| `SessionRuns.DeletedStaysDeleted` | backend/internal/modules/identity/repository/sessions.sql.go:103-140 | over any run a deleted session stays deleted, and requests still holding its row had read it before |
| `SessionRuns.DeletedIsNeverAccepted` | backend/internal/modules/identity/repository/sessions.sql.go:108-116 | a request that reads after the deletion is refused, and no late write brings the row back |
| `SessionRuns.RevokingEndsExactly` | backend/internal/modules/identity/repository/sessions.sql.go:61-140 | each of the four deletions ends exactly the sessions it names |
| `SessionRuns.UninterruptedIsAuthenticate` | backend/internal/modules/identity/service/session.go:111-180 | the three steps of a request, uninterrupted, are one Authenticate |
| `SessionOwners.TokensSignInTheirOwner` | backend/internal/modules/identity/service/session.go:111-159 | in every run a token signs in the account its session was issued for and no other, and does so if and only if the session is not deleted, its stored deadline is not reached and the account is registered and not masked |
| `SessionOwners.RequestsSignInTheOwner` | backend/internal/modules/identity/service/session.go:111-159 | whatever runs between its steps, a request that is let in is let in as that account |
| `SessionOwners.ReadsFindLiveOwners` | backend/internal/modules/identity/repository/sessions.sql.go:142-195 | a request finds a row if and only if, as it reads, the session is stored and its account registered and not masked |
| `SessionOwners.IssuedKeepsCreation` | backend/internal/modules/identity/domain/session.go:77-100 | a session is stored with fourteen days to its deadline from the clock it was issued by, and in every run its ninety days count from its insert |
| `SessionRuns.GraceHoldsIff` | backend/internal/modules/identity/domain/session.go:25-28 | in every interleaving the deadline is within an hour of the promise if and only if the write that landed last was computed for a use at most an hour before the last one, or for one with the ceiling within that hour |
| `SessionRuns.LateWriteShortens` | backend/internal/modules/identity/service/session.go:167-180 | of two racing renewals, in order the hour's grace holds; the other way round it holds if and only if the two uses, or the ceiling, are within the hour |
| `SessionRuns.LateWriteHappens` | backend/internal/modules/identity/service/session.go:167-180 | a run of eight steps after which the deadline is eight hours short |
| `Base64.DecodeOfEncode` | backend/internal/modules/identity/domain/password.go:204-209 | printing then reading gives the bytes back |
| `Base64.DecodedIsNearlyPrinted` | backend/internal/modules/identity/domain/password.go:250-256 | a text that reads as some bytes is, line breaks aside, their printed form but for its last symbol |
| `Base64.ReadsIff` | backend/internal/modules/identity/domain/password.go:250-256 | a text reads if and only if, line breaks aside, it holds symbols of the alphabet only and not one more than a multiple of four |
| `Base64.ReadAlikeIff` | backend/internal/modules/identity/domain/password.go:250-256 | two texts read as the same bytes if and only if, line breaks and the spare bits of the last symbol aside, they are one text |
| `Base64.GroupsSpellTheBytes` | backend/internal/modules/identity/domain/password.go:201-209 | every three bytes and the four symbols printed for them are one number of 24 bits |
| `PasswordHash.ScanOfParameters` | backend/internal/modules/identity/domain/password.go:235-237 | the scan reads back printed numbers within their widths and ignores what follows them |
| `PasswordHash.SpaceBeforeNumbers` | backend/internal/modules/identity/domain/password.go:223-237 | the scan skips space before a number and fails on a line feed in it |
| `PasswordHash.DecodeOfEncode` | backend/internal/modules/identity/domain/password.go:201-266 | reading a printed hash returns its parameters, salt and key exactly when they are within bounds, and is otherwise unreadable |
| `PasswordHash.DecodedIsReadable` | backend/internal/modules/identity/domain/password.go:243-265 | whatever the text, what is read is within bounds and prints as something that reads the same |
| `PasswordHash.EncodeIsInjective` | backend/internal/modules/identity/domain/password.go:201-209 | two hashes print alike only if every part is equal |
| `PasswordHash.StoredCostsVerify` | backend/internal/modules/identity/domain/password.go:142-180 | a hash made at any affordable cost and size keeps verifying, and verifies exactly the texts with its key; the answer to every other text is `HashTexts.PrintedHashesAnswer` |
| `PasswordHash.AcceptedPasswordsVerify` | backend/internal/modules/identity/domain/password.go:117-199 | an accepted password verifies in every spelling with its normal form and in none with another key, and a fresh hash never needs a rehash |
| `PasswordHash.AcceptedLengths` | backend/internal/modules/identity/domain/password.go:39-115 | whatever its characters, a normal form of 12 to 256 is accepted and one of more than 1024 refused as too long; too short is answered exactly below 12, so the two refusals never compete |
| `PasswordHash.RefusedTextsAtLogin` | backend/internal/modules/identity/domain/password.go:154-163 | a text refused as too long verifies against no stored hash, and one refused as too short still verifies against a hash made of it earlier |
| `PasswordHash.RehashIsDue` | backend/internal/modules/identity/domain/password.go:182-199 | a printed hash is due for a rehash exactly when it is out of bounds or made cheaper than today |
| `HashTexts.DecodesIff` | backend/internal/modules/identity/domain/password.go:211-266 | every text: it reads as some parts if and only if it is the name of the algorithm and four more fields that spell version 19 and those parts, within the bounds given as numbers |
| `HashTexts.VersionScansIff` | backend/internal/modules/identity/domain/password.go:222-233 | a version field is accepted if and only if it begins "v=" and goes on with 19, after any space, sign and leading zeros; what follows is not looked at |
| `HashTexts.CostsScanIff` | backend/internal/modules/identity/domain/password.go:235-237 | a cost field reads as three numbers if and only if it spells them under their names, each within its width |
| `HashTexts.ChecksHaveThreeAnswers` | backend/internal/modules/identity/domain/password.go:142-180 | for every stored text and every attempt: unreadable if the text does not read, verified if and only if the attempt is at most 1,024 bytes and has the stored key, and a mismatch otherwise |
| `HashTexts.PrintedHashesAnswer` | backend/internal/modules/identity/domain/password.go:142-180 | the same three answers for every hash this server printed |
| `HashTexts.FreshHashes` | backend/internal/modules/identity/domain/password.go:117-140 | a fresh hash is the PHC string of today's costs, the salt and a key of 32 bytes |
| `HashTexts.PrintedIsShortestText` | backend/internal/modules/identity/domain/password.go:201-209 | of all texts that read as some parts none is shorter than the one printed |
| `HashTexts.Utf8LengthIsTheLength` | backend/internal/modules/identity/domain/password.go:98-104 | the length limited is that of the normal form in UTF-8 |

## Left out

- HTTP handlers, routing, logging, mail, authorization, configuration, address
  parsing: plumbing and finite tables.
- The error texts wrapped around each error kind: only the kind is modelled.
- Bytes of order keys: keys are strings of characters, a superset of byte strings; every character of a valid key is ASCII.
- Two concurrent insertions into one gap get the same key: `Between` is
  deterministic, and nothing is claimed about them.
- `RateLimit.SlidingWindow.Allow`: window lengths are whole milliseconds, not negative, as the scripts receive them; the part of a duration below a millisecond is dropped before that. What is proved of runs asks for at least one millisecond: a shorter window forgets a hit as it is recorded.
- `RateLimitRetry.ObedientClientIsAdmitted`: Retry-After is computed on whole milliseconds with an exact ceiling; the floating-point seconds in between are not modelled.
- Lua prints the clock as a number, exactly up to 10^14 milliseconds; larger clocks are outside the model.
- A Redis database is two maps, of sorted sets and of counters; names of the two
  kinds never coincide, so nothing depends on the separation.
- Key expiry is an event that may happen at or after the deadline, in any order
  with calls; eviction under memory pressure and lost replicas are not modelled.
- A Redis outage is a call without an answer, applied or not; the whole-run
  theorems are about the steps that were applied.
- `FailureRuns.ChecksReadTheFailures`: an attempt whose record is lost leaves no record step; nothing is claimed about failures nobody could count.
- `PasswordResets.allowed` (service/passwordreset.go:300-316): one call of the
  limiter with the same fail-closed branch as the login guard.
- `FailureRuns.StoredFailuresAreBounded`: a limit below one refuses every check, and records without a preceding passed check are outside the bound.
- The digest of an e-mail address in a bucket key is a parameter; SHA-256,
  random tokens, Argon2id and NFKC are parameters or fresh identifiers. Timing
  and the decoy hash are not modelled.
- A token and its digest are one number naming a row; malformed tokens appear
  only where the service treats them apart from unknown ones.
- `Invitations.RedemptionsAreSingleUse`: superseding is a step that may expire any open row at any time, which allows more than the service does; what superseding guarantees is in `Supersession`.
- `Passwords.StoredHashVerifiesTheChosen`: verification is perfect and salts never repeat; the sessions a confirmation deletes are in `IdentityTables.Identity.Confirm` instead.
- `LinkRaces.UsableIffNotFollowed`: redemptions and confirmations are not part of these schedules, and a statement takes all its row locks at once, so lock-order deadlocks are not modelled.
- Transactions are at READ COMMITTED: a statement that would wait for a lock is a
  step that changes nothing and may be tried again. Deadlocks, crashes, lock
  timeouts and replication are not modelled.
- `lower()` in SQL is modelled on ASCII letters; collations are not.
- Normalising e-mail addresses and names, and the check that a role may be
  invited, happen before the transactions and are left out.
- Real clock skew: each model has non-decreasing clocks, with the service's clock
  read at or after its transaction began.
- `Sessions.SessionService.Issue`: the user agent column and its truncation are left out, and so is listing sessions.
- `IdentityTables.Identity.Create`: the lookup by address assumes the unique index on live lower-cased addresses, as does `IdentityTables.Identity.Request`; every body keeps it (`Supersession.StepKeepsConsistent`).
- A row id drawn at random that was drawn before is a refused insert.
- `Credentials.LoginsChangeNoAnswer`: for passwords none of which shares a key with another by accident; without that assumption `Credentials.RehashedAnswersAlikeIff` is the exact condition for one login.
- `Credentials.Service.Authenticate`: the time zone of the caller, a failed look-up and the log are left out.
- `PasswordHash.DecodeOfEncode`: texts are characters, not bytes, so invalid UTF-8 in a stored hash is not modelled.
