# Verified model of the Leapmotor cloud client

A Dafny model of the protocol core of `leapmotor_cloud`, a Python client for one car maker's cloud, and proofs
about it. `dafny verify dfyconfig.toml` checks the whole project; there is nothing to build or run.

Hashes, network answers, clock readings, certificate checks, the file system's state and the interpreter's number
and date syntax are inputs, so every theorem holds for all of them. Code that loops or updates fields is a method
or a class proved against a specification function, and the theorems are about that function. Lemmas that speak of
runs quantify over arbitrary sequences of events.

| file | models | main results |
|---|---|---|
| `AccountPassword.dfy` | the resolver's keyed block transform and password derivation | inverse by reversed keys; mixing is a bijection; one changed key changes every block; a password shows exactly 90 bits |
| `AccountMaterial.dfy` | the candidate list and the loop that tries it | duplicate-free first occurrences; the cut-off never skips one |
| `Base64.dfy`, `Signing.dfy` | canonical base64 (RFC 4648 sections 4 and 5) and the XOR key | the strict decoder accepts exactly the encodings; key material is recoverable |
| `Sessions.dfy`, `CloudReads.dfy` | sessions, their store, and readers interleaved with writers | what the store holds, characterised over every interleaving; one session per read |
| `Authentication.dfy` | login and renewal with stages and effects | lifetimes, certificate pair and costs over every chain |
| `Certificates.dfy` | the certificate manager | leases, directories, revocation and failure rate over every run |
| `History.dfy`, `HistoryReads.dfy` | bounded pagination, calendar windows, and listings as reads of the store | complete if and only if the server was coherent; honest servers are listed in full; what a listing asks for is what it sends |
| `Scheduling.dfy` | wall time to instant with the `fold` of PEP 495 | accepted if and only if exactly one instant shows the time |
| `Payloads.dfy`, `Permissions.dfy`, `CommandContracts.dfy`, `CommandAcceptance.dfy`, `CommandLaws.dfy` | the command contracts | exactly what each command takes, and on which permission; idempotence, shape, monotonicity in capabilities |
| `VehicleData.dfy` | the weekday mask read back from the car | accepted masks are exactly the readable ones |
| `B10Planner.dfy` | the offline planner of one model | what each payload means and when it is emitted; every one is a fixpoint of the contracts |
| `MaterialCleanup.dfy` | retirement of certificate directories | when exactly it is all-or-nothing, and what is gone when it is not |

## Where the code keeps less than it says

- Retirement says that it validates the whole manifest before it removes anything. That does not make it
  all-or-nothing: validation walks and compares paths as they are spelled, before any directory is gone. A directory
  listed under two spellings (`MaterialCleanup.AliasesBreak`), or a path such as `generation-a/../generation-b` listed
  after `generation-a` (`MaterialCleanup.PathsThroughRetiredBreak`), passes, and the removal stops halfway.
  `MaterialCleanup.RetiredIffOrderly` proves that an accepted manifest is carried out in full if and only if no path
  that leads to a directory, repetitions aside, names or passes through one listed before it. A path that leads to
  nothing is skipped and is no fault.
- Retirement refuses a generation that is still referenced, but compares spellings. On storage that takes several
  spellings for one name, such as a FAT disk, `generation-ABC` passes while `generation-abc` is active, and the active
  generation is removed (`MaterialCleanup.ActiveUnderAnotherName`). `MaterialCleanup.ActiveStayUnlessRenamed` proves
  that active generations stay if and only if no path carried out reaches one under another spelling of its name;
  `MaterialCleanup.ActiveGenerationsStay` that they always stay where names are exact.
- The certificate manager's cooldown bounds failures only between invalidations, and only while the clock has a time
  zone: a successful invalidation clears the cooldown (`Certificates.InvalidationEndsTheCooldown`), and a failed call
  after which the clock's reading is refused never starts it (`Certificates.UnarmedCallsAreUnbounded`).
  `Certificates.UnsuccessfulCallsAreBounded` counts `T / cooldown + 1` unsuccessful calls plus one for each of either,
  which is the plain bound when there is none.
- A calendar window is meant to hold the seconds of its dates. `History.WindowHoldsItsDates` proves that a window that
  is not refused does so if and only if no transition skips over or repeats around one of its two midnights;
  `History.SkippedMidnightLosesTime` shows one that does not.
- Planner and contracts are meant to decide alike. `B10Planner.AvailabilityParity` says exactly when the planner's gate
  is open: it also asks for a climate ability that the contracts know to be no usable gate, so it can refuse what they
  permit (`B10Planner.OwnedCarWithoutClimateAbility`). The reasons differ besides for a shared car without lists
  (`B10Planner.SharedCarWithoutLists`); `B10Planner.WherePlannerAndContractDiffer` has all cases.

## Model

| member | source | states |
|---|---|---|
| `AccountPassword.AcceptedSboxIsPermutation` | leapmotor_cloud/account_password.py:13-16 | the constructor's length, range and set-size checks admit only an S-box that holds every byte exactly once |
| `AccountPassword.AcceptedParametersAreKept` | leapmotor_cloud/account_password.py:13-20 | exactly which parameters are accepted, and that they are kept as they are |
| `AccountPassword.TransformBlock` | leapmotor_cloud/account_password.py:24-32 | the loop over the round keys computes the specified transform, for any number of keys and any S-box |
| `AccountPassword.DiffusedBits` | leapmotor_cloud/account_password.py:30 | bit i of a diffused word is the parity of bits i, i-2, i-10, i-18 and i-24 modulo 32 |
| `AccountPassword.SubstitutedBytes` | leapmotor_cloud/account_password.py:29 | byte k of a substituted word is the S-box at byte k |
| `AccountPassword.BytesAreDigits` | leapmotor_cloud/account_password.py:25 | the bytes of a word are its base-256 digits, the most significant first |
| `AccountPassword.MixingIs` | leapmotor_cloud/account_password.py:28-30 | what a round mixes in is the substituted word, diffused |
| `AccountPassword.TransformIsTheRecurrence` | leapmotor_cloud/account_password.py:24-32 | the transform starts from the four words of the block, makes each word from the four before it and the next key, and gives the last four in reverse |
| `AccountPassword.PackIsSum` | leapmotor_cloud/account_password.py:29 | joining the four substituted bytes by their bits is the sum of the shifted bytes that the code takes |
| `AccountPassword.RoundUndone` | leapmotor_cloud/account_password.py:27-31 | a round run on the reversed words with the same key undoes itself, whatever the mixing function |
| `AccountPassword.TransformIsInverted` | leapmotor_cloud/account_password.py:24-32 | running the transform on its own output with the round keys reversed gives back the block: any block, any keys, any S-box |
| `AccountPassword.DiffuseIsBijective` | leapmotor_cloud/account_password.py:30 | the XOR of a word with its four rotations is a bijection on 32-bit words, with a stated inverse |
| `AccountPassword.MixIsBijective` | leapmotor_cloud/account_password.py:28-30 | with an accepted S-box the mixing of a round is injective and reaches every word |
| `AccountPassword.RoundShowsItsKey` | leapmotor_cloud/account_password.py:27-31 | from one state, two different round keys give two different output words |
| `AccountPassword.OneKeyChangesEveryBlock` | leapmotor_cloud/account_password.py:24-32 | two key schedules that differ in one place transform every block differently |
| `AccountPassword.EveryOtherAt` | leapmotor_cloud/account_password.py:41 | which characters the stride-two slices of digest and uid contain, and how many |
| `AccountPassword.PasswordShowsNinetyBits` | leapmotor_cloud/account_password.py:43-44 | the password has 15 symbols, and two transformed blocks give the same one if and only if their first 90 bits agree |
| `AccountPassword.PasswordSymbols` | leapmotor_cloud/account_password.py:43-44 | each symbol is that of the standard alphabet for its six bits of the block |
| `AccountPassword.DerivedPassword` | leapmotor_cloud/account_password.py:34-44 | exactly which inputs are refused; every other derivation gives 15 symbols, and of the uid only every other character matters |
| `AccountPassword.WhatIsDerived` | leapmotor_cloud/account_password.py:34-44 | the password shows the transform of the first half of the hash of a text given character by character: the digest of the account, every other digit of it, every other character of the uid |
| `AccountMaterial.Candidates` | leapmotor_cloud/account_password.py:46-55 | the accumulated list is the specified sources without repetition, and is refused exactly when a source is |
| `AccountMaterial.SourcesInOrder` | leapmotor_cloud/account_password.py:46-54 | the explicit text comes first, the derived one next and the fallbacks last; exactly which are refused; `id` stands in only where there is no `accountId` |
| `AccountMaterial.DeduplicatedKeepsFirsts` | leapmotor_cloud/account_password.py:55 | nothing is lost, added or repeated, and the order is that of first occurrence |
| `AccountMaterial.NeverMoreThanEight` | leapmotor_cloud/account_password.py:17-20 | with accepted fallbacks there are never more than eight candidates |
| `AccountMaterial.PickPair` | leapmotor_cloud/account_material.py:36-45 | among the first eight candidates, the first that opens the container, is overlong or crashes the reader decides; wrong passwords and containers without a pair are passed over |
| `AccountMaterial.WhatACandidateDecides` | leapmotor_cloud/account_material.py:39-44 | which candidates are passed over, and what any other decides |
| `AccountMaterial.PickFromResolver` | leapmotor_cloud/account_material.py:36-46 | with the resolver's candidates the cut-off skips none: a pair is picked if and only if some candidate opens the container and all before it are passed over |
| `Base64.DecodeEncode` | leapmotor_cloud/signing.py:32-35 | every encoding is well padded and decodes to its bytes, in both alphabets |
| `Base64.SymbolsAreTheTables` | leapmotor_cloud/signing.py:32-53 | the symbols are those of tables 1 and 2 of RFC 4648, in order |
| `Base64.QuantumIsOneNumber` | leapmotor_cloud/signing.py:32-53 | four six-bit values are the digits of the number that three bytes are |
| `Base64.SextetsAreByGroups` | leapmotor_cloud/signing.py:32-53 | each value comes from its own group of three bytes, the last filled up with zero bytes |
| `Base64.UnpaddedIsInjective` | leapmotor_cloud/signing.py:47-53 | unpadded encodings are equal if and only if the bytes are |
| `Signing.DecodesExactlyTheEncodings` | leapmotor_cloud/signing.py:29-37 | the strict decoder returns some bytes if and only if the text is their canonical encoding, bounded, and they are not empty |
| `Signing.XorRecovers` | leapmotor_cloud/signing.py:55 | XOR with two of the inputs recovers the third up to the shortest length |
| `Signing.XoredBits` | leapmotor_cloud/signing.py:55 | bit k of byte i of a key is the parity of that bit of the three inputs |
| `Signing.TextsAreBounded` | leapmotor_cloud/signing.py:23-26 | a text of signing material has 1 to 16384 characters |
| `Signing.SegmentMeans` | leapmotor_cloud/signing.py:18 | a segment is one URL-safe symbol or more and at most two `=` |
| `Signing.KeysNeedThreeSegments` | leapmotor_cloud/signing.py:23-44 | a key comes only from a token of three segments and bounded texts |
| `Signing.KeyMaterialIsRecoverable` | leapmotor_cloud/signing.py:40-55 | an accepted key has the shortest of three lengths, its parts are canonical, and any two of them give back the head of the third |
| `Signing.CompactTokensAreAccepted` | leapmotor_cloud/signing.py:40-55 | every compact token with canonical parameters yields its key: nothing well formed is refused |
| `Sessions.SessionsHaveWholeKeys` | leapmotor_cloud/session.py:82-108 | a session forms only from canonical parts whose shortest has 32 bytes, and its key gives back the head of the token's signature |
| `Sessions.ShortKeysAreRefused` | leapmotor_cloud/session.py:82-83 | key material of any other length forms no session |
| `Sessions.WholeKeysFormSessions` | leapmotor_cloud/session.py:78-108 | every compact token with canonical parameters whose shortest part has 32 bytes forms a session with just these fields, when the other fields pass their checks |
| `Sessions.FormedSessionsAreAsGiven` | leapmotor_cloud/session.py:78-108 | every field of a formed session, what it was made from and which checks it passed |
| `Sessions.PrintableMeans` | leapmotor_cloud/session.py:79-81 | a field is 1 to 16384 characters from `!` to `~` |
| `Sessions.BoundDevices` | leapmotor_cloud/session.py:32-41 | a user name of four parts or more binds the token to its third, unless that is empty; an unusable third is refused |
| `Sessions.UnboundDevices` | leapmotor_cloud/session.py:35-44 | without a user name, or with one of fewer parts, the fallback stands |
| `Sessions.SessionsEndAtTheirExpiry` | leapmotor_cloud/session.py:114-117 | a session is good for the seconds before its expiry, and without one for all |
| `Sessions.RefreshTokensRenew` | leapmotor_cloud/session.py:119-123 | a session is renewable with a refresh token up to the expiry of that, if it has one |
| `Sessions.SessionStore.constructor` | leapmotor_cloud/session.py:127-129 | a store starts empty |
| `Sessions.SessionStore.Replace` | leapmotor_cloud/session.py:134-138 | the store then holds the very object given |
| `Sessions.SessionStore.Get` | leapmotor_cloud/session.py:140-146 | the held object if it is unexpired at the reading, and otherwise which of the two refusals applies |
| `Sessions.SessionStore.Invalidate` | leapmotor_cloud/session.py:148-154 | drops the session only if the rejected object is the one held |
| `CloudReads.WhatResponsesMean` | leapmotor_cloud/cloud.py:123-148 | status 401 asks to drop the session, 403 to authenticate; exactly which responses are accepted; all others fail |
| `CloudReads.StoreHoldsTheLastInstalled` | leapmotor_cloud/session.py:134-154 | over every interleaving: a session is held if and only if the last installation put it there and no 401 came back since to a request that carried it |
| `CloudReads.LostOnlyToItsOwnRejection` | leapmotor_cloud/cloud.py:126-128 | a session leaves the store only by a replacement or by a 401 to a request carrying that very session |
| `CloudReads.ReplacementsSurvive` | leapmotor_cloud/session.py:148-154 | a late 401 to an older session leaves the replacement alone, and a 403 never changes the store |
| `CloudReads.ReadsKeepOneSession` | leapmotor_cloud/cloud.py:98-128 | over every interleaving a read sends at most 101 requests, numbered in order, all with its one session, each only while that was unexpired at its own clock reading |
| `CloudReads.CapturedAtItsStart` | leapmotor_cloud/cloud.py:167-170 | the session a read uses is the one stored, and unexpired, when the read began |
| `CloudReads.BeginsIfAvailable` | leapmotor_cloud/cloud.py:167-170 | a read begins exactly if the store holds a session unexpired by its reading |
| `CloudReads.SendsIfReady` | leapmotor_cloud/cloud.py:98-109 | a ready read sends exactly if its session is unexpired and the request passes its checks |
| `CloudReads.AnswersLetReadsGoOn` | leapmotor_cloud/history.py:45-46 | an answer lets a read go on exactly if more is wanted, and never changes the store |
| `CloudReads.NothingAfterTheEnd` | leapmotor_cloud/history.py:45-51 | once a read has ended by an error or its last page it sends nothing more and never changes again |
| `CloudReads.ErrorsEndTheRead` | leapmotor_cloud/cloud.py:123-148 | from the first response that is not accepted on, a read sends nothing through the rest of every run |
| `HistoryReads.ListingsSendWhatTheyAskFor` | leapmotor_cloud/history.py:38-46 | over every interleaving a listing of any server sends the route request and no more page requests than the pagination asks for, exactly as many when it finishes, all with its one session |
| `HistoryReads.HonestListingsAskForEveryPage` | leapmotor_cloud/history.py:38-79 | a finished listing of an honest server has sent the route request and one request for every page its rows fill, up to the limit |
| `Scheduling.TryBothFolds` | leapmotor_cloud/scheduling.py:13-20 | the loop over both folds computes the specified answer |
| `Scheduling.WhatAnInstantShows` | leapmotor_cloud/scheduling.py:16 | an instant shows its UTC second plus the offset of the latest transition |
| `Scheduling.PlainTime` | leapmotor_cloud/scheduling.py:14-20 | where both folds look up the same offset they denote the one instant that shows the time |
| `Scheduling.GapHasNone` | leapmotor_cloud/scheduling.py:16-19 | in a skipped interval no instant shows the wall time |
| `Scheduling.OverlapHasTwo` | leapmotor_cloud/scheduling.py:18-19 | in a repeated interval exactly two instants do, those of the two folds |
| `Scheduling.AcceptedIffUnique` | leapmotor_cloud/scheduling.py:11-20 | a wall time is accepted if and only if exactly one instant shows it, and that instant is returned |
| `Scheduling.RefusedInIntervalsOnly` | leapmotor_cloud/scheduling.py:18-22 | it is refused if and only if it lies in a skipped or repeated interval |
| `Scheduling.WholeTimeDivides` | leapmotor_cloud/history.py:25-26 | a wall time that no transition skips over or repeats around divides all instants: those from its instant on show it or later, the others less |
| `Scheduling.SplitTimeMisplaces` | leapmotor_cloud/history.py:25-26 | for any other wall time some instant is on the wrong side |
| `History.WhichPagesAreUsable` | leapmotor_cloud/history.py:47-54 | exactly which pages are usable, for what, and which are refused, why |
| `History.WhatIsSeen` | leapmotor_cloud/history.py:46 | a page is checked for the number it was asked for |
| `History.PagesAreFilled` | leapmotor_cloud/history.py:71 | the page count expected of a total is the least that holds it, twenty to a page |
| `History.TakePage` | leapmotor_cloud/history.py:46-78 | one turn with its accumulator, seen-sets and baseline decides exactly what the pages so far imply |
| `History.ListPages` | leapmotor_cloud/history.py:39-79 | the loop returns the specified outcome after the specified number of requests, for any server |
| `History.ListHistory` | leapmotor_cloud/history.py:34-79 | the same behind the bounds on the page limit |
| `History.WhenListingsStop` | leapmotor_cloud/history.py:55-78 | for each of the reasons, exactly which pages make a listing stop with it, and which let it go on |
| `History.ListingsStopAtTheFirst` | leapmotor_cloud/history.py:45-79 | pages are asked for in order up to the first that is unanswered, refused or stops the listing, which is reported; else the limit is |
| `History.RepeatsMeans` | leapmotor_cloud/history.py:56 | a page repeats exactly if it has rows and an earlier page has the same fingerprints in the same order |
| `History.CompleteIffCoherent` | leapmotor_cloud/history.py:45-79 | a listing is complete if and only if pages 1 to the last agree, hold as many distinct rows as declared and are as many as that takes; it then has all their rows in order and asked for exactly them |
| `History.RecordsAreThePages` | leapmotor_cloud/history.py:42-58 | whatever the reason for stopping, the records are the rows of the pages asked for, in order |
| `History.CompleteIsTheWholeSet` | leapmotor_cloud/history.py:45-79 | if the rows of the pages asked for come from a set of the declared size, a complete listing is a permutation of that set |
| `History.HonestServersAreListed` | leapmotor_cloud/history.py:45-79 | an honest server's rows are all returned after as many requests as they fill pages, or cut at the limit |
| `History.PlainPageIsUsable` | leapmotor_cloud/history.py:47-54 | a page that states its number, size and totals and lists objects passes the checks as it stands |
| `History.MidnightDividesIffWhole` | leapmotor_cloud/history.py:25-26 | a midnight separates the instants before and from its date on if and only if no transition interval has it strictly inside |
| `History.WindowHoldsItsDates` | leapmotor_cloud/history.py:19-31 | a calendar window that is not refused holds exactly the seconds that show one of its dates if and only if its two midnights are whole; dates in between may be skipped |
| `History.SkippedMidnightLosesTime` | leapmotor_cloud/history.py:25-26 | a well-formed zone and a window that lacks a second of its day |
| `History.RefusedRangesShowNothing` | leapmotor_cloud/history.py:29-30 | a range is refused if it is in disorder or no second shows one of its dates |
| `History.DatesAreDays` | leapmotor_cloud/history.py:25-26 | the date of an instant is the number of whole days of 86400 seconds in what it shows |
| `History.WindowsJoin` | leapmotor_cloud/history.py:25-31 | neighbouring windows join into that of the joined range without overlap, whichever of them may be empty |
| `History.DaysTileTheWindow` | leapmotor_cloud/history.py:19-31 | each second of a range lies in the window of exactly one of its days, when their midnights are whole, or when the zone moves forward by at most a day at a time and transitions are a day apart |
| `History.WholeMidnightsAreOrdered` | leapmotor_cloud/history.py:25-26 | a whole midnight comes before every later one |
| `History.TameMidnightsAreOrdered` | leapmotor_cloud/history.py:25-26 | in a zone that moves forward by at most a day at a time, with transitions a day apart, so does every midnight before the next |
| `Certificates.AccountCertificateManager.Create` | leapmotor_cloud/certificates.py:37-56 | a manager exists if and only if margin and cooldown are acceptable, and starts without a lease |
| `Certificates.AccountCertificateManager.EnsureLease` | leapmotor_cloud/certificates.py:64-91 | the method's answer, object identity and whole new state are those of the specified step |
| `Certificates.AccountCertificateManager.InvalidateLease` | leapmotor_cloud/certificates.py:142-152 | succeeds exactly for the object in use on an open manager; otherwise nothing changes |
| `Certificates.AccountCertificateManager.CloseManager` | leapmotor_cloud/certificates.py:136-140 | removes every generation once and leaves the lease field alone |
| `Certificates.LeasesAreUnexpired` | leapmotor_cloud/certificates.py:70-91 | a lease handed out outlasts the last clock reading the call took, in every state |
| `Certificates.LastingLeasesAreHandedOut` | leapmotor_cloud/certificates.py:64-91 | whenever the lease in use outlasts the deciding reading, an open manager hands out a lease, that very one unless a new one was issued; it fails only when closed or when none lasts |
| `Certificates.WhenTheProviderIsAsked` | leapmotor_cloud/certificates.py:66-77 | the provider is asked exactly if no lease lasts beyond the margin and no cooldown runs |
| `Certificates.WhenALeaseIsIssued` | leapmotor_cloud/certificates.py:79-103 | a lease is issued exactly for a good certificate, and what each outcome leaves behind |
| `Certificates.LastRefreshFailed` | leapmotor_cloud/certificates.py:84-90 | over every run the last refresh counts as failed exactly if a call failed with no lease issued since |
| `Certificates.DiskHoldsTheLeases` | leapmotor_cloud/certificates.py:122-140 | over every run: until close the generations on disk are exactly those of the leases handed out, after close there are none |
| `Certificates.ClosedNeverLeases` | leapmotor_cloud/certificates.py:66-67 | after a close every call fails and the provider is not asked |
| `Certificates.InvalidatedNeverReturns` | leapmotor_cloud/certificates.py:142-152 | over every run a successfully invalidated lease is never handed out again |
| `Certificates.StaleInvalidationIsInert` | leapmotor_cloud/certificates.py:148-152 | over every run, an invalidation that does not name the lease in use leaves every later state and answer as if it had not been asked |
| `Certificates.NextCallWaits` | leapmotor_cloud/certificates.py:72-84 | with no invalidation in between, the next provider call after a failure starts at least the cooldown after it, whatever the clock does |
| `Certificates.CallsAreSpaced` | leapmotor_cloud/certificates.py:72-84 | so does every later call that does not start before a call in between |
| `Certificates.CooldownStartsIffAware` | leapmotor_cloud/certificates.py:81-84 | an unsuccessful provider call starts the cooldown if and only if the reading taken in handling it has a time zone; otherwise nothing changes |
| `Certificates.FailuresAreBounded` | leapmotor_cloud/certificates.py:72-84 | failures that start a cooldown number at most T / cooldown + 1 over a span T, plus one for each invalidation |
| `Certificates.UnsuccessfulCallsAreBounded` | leapmotor_cloud/certificates.py:72-87 | over any stretch whose failures span T, all unsuccessful calls number at most that, plus one for each that met a clock without a time zone |
| `Certificates.UnarmedCallsAreUnbounded` | leapmotor_cloud/certificates.py:81-83 | with such a clock any number of unsuccessful calls can be made at one instant |
| `Certificates.InvalidationEndsTheCooldown` | leapmotor_cloud/certificates.py:148-152 | a run with two failures at one instant, an invalidation between them |
| `Certificates.InvalidationCallsAtOnce` | leapmotor_cloud/certificates.py:148-152 | after a successful invalidation the next call with an aware reading asks the provider at once |
| `Authentication.StatedSeconds` | leapmotor_cloud/authentication.py:23-35 | an absent lifetime states none, a whole number of seconds within a month states itself, and every other value is refused |
| `Authentication.TermsAreTheEarlier` | leapmotor_cloud/authentication.py:118-131 | exactly which answers offer terms, and that these end at the earlier of stated or default lifetime and token expiry |
| `Authentication.EngineIsFaithful` | leapmotor_cloud/session.py:95-108 | sessions formed from login data carry the pair, expiry and refresh material they were given |
| `Authentication.Login` | leapmotor_cloud/authentication.py:143-218 | the staged login has the specified result and effects |
| `Authentication.Refresh` | leapmotor_cloud/authentication.py:60-141 | the staged renewal has the specified result and effects |
| `Authentication.WhenTermsAre` | leapmotor_cloud/authentication.py:165-201 | terms come from exactly the readable answers whose codes are all zero and whose data offer them |
| `Authentication.WhenLoginsGrant` | leapmotor_cloud/authentication.py:143-215 | exactly when a login grants a session, and which |
| `Authentication.WhenRenewalsGrant` | leapmotor_cloud/authentication.py:60-137 | exactly when a renewal grants one, and which |
| `Authentication.WhereLoginsFail` | leapmotor_cloud/authentication.py:147-218 | which stage a login reports for every way to fail |
| `Authentication.WhereRenewalsFail` | leapmotor_cloud/authentication.py:77-141 | which stage a renewal reports |
| `Authentication.RenewalsKeepTheLoginsPair` | leapmotor_cloud/authentication.py:133-135 | through any number of renewals the session in hand keeps the pair of the login that began the chain |
| `Authentication.HeldWasGrantedLast` | leapmotor_cloud/authentication.py:138-141 | failed attempts neither replace nor drop the session in hand |
| `Authentication.GrantsEndInTime` | leapmotor_cloud/authentication.py:120-125 | every session granted ends after its observation, exactly at the earlier of stated lifetime (or 1800 s) and token expiry |
| `Authentication.LoginsEndUnexpired` | leapmotor_cloud/authentication.py:206-215 | a granted login's session is unexpired at the last reading and carries the provider's pair |
| `Authentication.OneRequestPerCall` | leapmotor_cloud/authentication.py:96-98 | an attempt sends at most one request, first of all, with the right certificate, and none exactly if refused before |
| `Authentication.ProviderRunsAfterValidation` | leapmotor_cloud/authentication.py:196-206 | the provider is called if and only if it is a login whose answer already forms a session |
| `Authentication.ChainsAreCheap` | leapmotor_cloud/authentication.py:60-215 | over any chain requests never outnumber calls, nor provider calls the logins or the requests |
| `MaterialCleanup.Validate` | leapmotor_cloud/material_cleanup.py:17-30 | the first loop accepts exactly the acceptable manifests, changes nothing, and lists the directories reached, each spelling once, in order |
| `MaterialCleanup.WhichPathsAreSelected` | leapmotor_cloud/material_cleanup.py:20-29 | exactly which paths are selected and which are passed over |
| `MaterialCleanup.RemoveGeneration` | leapmotor_cloud/material_cleanup.py:33-34 | unlinking the listed files and the directory removes just that directory, and fails, changing nothing, exactly if the spelled path no longer leads to it |
| `MaterialCleanup.RemoveSelected` | leapmotor_cloud/material_cleanup.py:32-34 | the second loop removes the directories up to the first whose path an earlier removal took away |
| `MaterialCleanup.RetireGenerations` | leapmotor_cloud/material_cleanup.py:8-35 | the two loops give the specified outcome and file system |
| `MaterialCleanup.RetiredIffOrderly` | leapmotor_cloud/material_cleanup.py:8-35 | a rejected manifest changes nothing; an accepted one removes exactly its existing directories, each counted once, if and only if no new path that leads to a directory names, or passes through, one listed before it; otherwise exactly the directories before the first such path are gone; on any storage |
| `MaterialCleanup.ActiveStayUnlessRenamed` | leapmotor_cloud/material_cleanup.py:16-34 | active generations stay as they are if and only if no path carried out reaches one under another spelling of its name |
| `MaterialCleanup.ActiveGenerationsStay` | leapmotor_cloud/material_cleanup.py:16-34 | where names are exact, no active generation is removed or altered |
| `MaterialCleanup.RenamedActiveIsRemoved` | leapmotor_cloud/material_cleanup.py:22 | an active generation listed under another spelling of its name is accepted and removed |
| `MaterialCleanup.ActiveUnderAnotherName` | leapmotor_cloud/material_cleanup.py:22 | the same for one concrete manifest |
| `MaterialCleanup.OnlyGenerationsGo` | leapmotor_cloud/material_cleanup.py:20-29 | whatever is removed was listed by a name with the prefix and is a directory that holds nothing but its own regular, singly linked certificate and key |
| `MaterialCleanup.RepeatingRetiresNothing` | leapmotor_cloud/material_cleanup.py:23-35 | repeating a completed retirement is accepted, returns 0 and changes nothing |
| `MaterialCleanup.AliasesBreak` | leapmotor_cloud/material_cleanup.py:30-34 | a directory listed under two spellings, of its parent or its name, is accepted, removed, and then the removal stops |
| `MaterialCleanup.TwoSpellingsOfOneName` | leapmotor_cloud/material_cleanup.py:30-34 | the same for one concrete manifest that differs in case |
| `MaterialCleanup.PathsThroughRetiredBreak` | leapmotor_cloud/material_cleanup.py:20-34 | so it does for a path spelled through a directory listed before it; listed the other way round both are removed |
| `MaterialCleanup.ThroughGenerationA` | leapmotor_cloud/material_cleanup.py:20-34 | the same for one concrete manifest |
| `MaterialCleanup.BlockedPathsAreSkipped` | leapmotor_cloud/material_cleanup.py:23 | a path through a directory that is not there is passed over even if what it resolves to is there |
| `Permissions.PermitsMeans` | leapmotor_cloud/command_contracts.py:70-92 | a permission is the ability unless none gates the command, the right and the control module unless an owner's entry omits their list |
| `Permissions.RequireMeans` | leapmotor_cloud/command_contracts.py:70-92 | the same of a command's own rule, and of one ability in its place |
| `Permissions.WhyPermissionIsDenied` | leapmotor_cloud/capabilities.py:24-35 | exactly which permission is denied for which reason |
| `Permissions.WhatIsDeclared` | leapmotor_cloud/command_contracts.py:62-67 | a car declares what its list reads as if all of it is readable, and without a list what was parsed |
| `Permissions.RulesTo190` | leapmotor_cloud/command_contracts.py:26-27 | the documented right and abilities of commands 110 to 190 |
| `Permissions.Rules192To301` | leapmotor_cloud/command_contracts.py:28-29 | of 192 to 301 |
| `Permissions.Rules320To361` | leapmotor_cloud/command_contracts.py:29 | of 320 to 361 |
| `Permissions.RulesFrom370` | leapmotor_cloud/command_contracts.py:30 | of 370 and 440 |
| `Permissions.RuleOfSentry` | leapmotor_cloud/command_contracts.py:36 | of 220 |
| `Permissions.OtherCommandsHaveNone` | leapmotor_cloud/command_contracts.py:25-37 | no other command has a rule |
| `Permissions.DeclaredGrows` | leapmotor_cloud/command_contracts.py:62-67 | readable codes added to a readable list take away no declared code |
| `Permissions.PermitsGrows` | leapmotor_cloud/capabilities.py:24-35 | a vehicle with more codes is permitted all it was permitted before |
| `Payloads.DigitsOfDecimal` | leapmotor_cloud/command_contracts.py:53-59 | the decimal text of a number reads back as that number |
| `Payloads.WhichValuesArePositive` | leapmotor_cloud/command_contracts.py:53-59 | exactly which values read as a positive whole number |
| `Payloads.WhichValuesAreNumbers` | leapmotor_cloud/command_contracts.py:95-101 | integers and finite floats are numbers; flags, lists, objects and nothing are not |
| `Payloads.DecimalsAreNumbers` | leapmotor_cloud/command_contracts.py:98 | short decimal texts read as the number they write |
| `CommandContracts.EachPart` | leapmotor_cloud/command_contracts.py:204-232 | the loop prepares every part under its own key, in any order, unless one is refused |
| `CommandContracts.PrepareBundle` | leapmotor_cloud/command_contracts.py:201-232 | the looping bundle computes the specified one |
| `CommandContracts.EachEntry` | leapmotor_cloud/command_contracts.py:239-263 | the loop prepares every entry in its place, unless one is refused or repeats an identifier |
| `CommandContracts.PrepareAppointment` | leapmotor_cloud/command_contracts.py:235-263 | the looping appointment computes the specified one |
| `CommandAcceptance.WhatIsSent` | leapmotor_cloud/command_contracts.py:266-302 | a payload is sent exactly if its command has a rule, it is permitted with the abilities it asks for, and its body is accepted |
| `CommandAcceptance.AbilitiesAskedFor` | leapmotor_cloud/command_contracts.py:269-276 | which abilities a payload asks for |
| `CommandAcceptance.KindsOfCommands` | leapmotor_cloud/command_contracts.py:286-297 | which commands take windows, seats and climate |
| `CommandAcceptance.KindsOfLists` | leapmotor_cloud/command_contracts.py:300-301 | which take appointments and bundles |
| `CommandAcceptance.KindsOfPlans` | leapmotor_cloud/command_contracts.py:298-299 | which take navigation and a charge plan |
| `CommandAcceptance.FixedFields` | leapmotor_cloud/command_contracts.py:277-279 | the field and texts of the commands with one field |
| `CommandAcceptance.MoreFixedFields` | leapmotor_cloud/command_contracts.py:280-281 | the same of the others |
| `CommandAcceptance.OthersAreNotFixed` | leapmotor_cloud/command_contracts.py:277-281 | no other command is of this kind |
| `CommandAcceptance.FixedCommandsTake` | leapmotor_cloud/command_contracts.py:282-285 | such a command takes exactly an object of that field and one of the texts |
| `CommandAcceptance.WindowsTake` | leapmotor_cloud/command_contracts.py:286-292 | windows take exactly the decimal text of a position on the declared scale |
| `CommandAcceptance.SeatsTake` | leapmotor_cloud/command_contracts.py:293-296 | seat commands take exactly a named front seat and a level from 0 to 3 |
| `CommandAcceptance.VentilationAbilities` | leapmotor_cloud/command_contracts.py:270-274 | ventilation of the driver's seat is ability 42 and of the other 43, on either driving side |
| `CommandAcceptance.ClimateTakes` | leapmotor_cloud/command_contracts.py:136-151 | the climate takes exactly a bare `off` and full bodies of documented texts, a fan level of the car, and 16 to 32 degrees |
| `CommandAcceptance.NavigationTakes` | leapmotor_cloud/command_contracts.py:154-160 | exactly which destinations are accepted |
| `CommandAcceptance.ClockTimesAreTimes` | leapmotor_cloud/command_contracts.py:185 | times of day are those from 00:00 to 23:59 |
| `CommandAcceptance.ChargePlansTake` | leapmotor_cloud/command_contracts.py:163-188 | exactly which charge plans are accepted, the mask read as the configuration reader does |
| `CommandAcceptance.BundleItemsTake` | leapmotor_cloud/command_contracts.py:208-230 | an item of a bundle is accepted exactly with the permission of its own command, seats by their own ability |
| `CommandAcceptance.BundlePartsTake` | leapmotor_cloud/command_contracts.py:206-231 | a part must be enabled, and stays so |
| `CommandAcceptance.BundlesTake` | leapmotor_cloud/command_contracts.py:201-232 | a bundle is accepted exactly if it is not empty and all its parts are, each under its own key |
| `CommandAcceptance.StartsAreUniqueAndAhead` | leapmotor_cloud/command_contracts.py:250-253 | a start is the wall time of exactly one instant, which lies ahead unless the appointment repeats |
| `CommandAcceptance.EntryFramesTake` | leapmotor_cloud/command_contracts.py:241-254 | what every appointment needs |
| `CommandAcceptance.KeysOfEntries` | leapmotor_cloud/command_contracts.py:241-243 | the keys of either kind of appointment |
| `CommandAcceptance.ClimateEntriesTake` | leapmotor_cloud/command_contracts.py:256-258 | what a climate appointment needs besides, and what it carries |
| `CommandAcceptance.BundleEntriesTake` | leapmotor_cloud/command_contracts.py:259-261 | what a preparation appointment needs besides, and what it carries |
| `CommandAcceptance.AppointmentsTake` | leapmotor_cloud/command_contracts.py:235-263 | at most twenty accepted entries with identifiers of their own, each sent in its place |
| `CommandAcceptance.OnlyControlsAreAppointments` | leapmotor_cloud/command_contracts.py:236-238 | nothing but an object with a list of controls makes appointments |
| `CommandLaws.AirSettles` | leapmotor_cloud/command_contracts.py:128-151 | a climate body settles in one pass and keeps its keys |
| `CommandLaws.BundleSettles` | leapmotor_cloud/command_contracts.py:201-232 | so does a bundle, part by part |
| `CommandLaws.AppointmentSettles` | leapmotor_cloud/command_contracts.py:235-263 | so does a list of appointments, entry by entry, identifiers included |
| `CommandLaws.SeatSettles` | leapmotor_cloud/command_contracts.py:191-198 | so does a seat command, which names the same physical seat again |
| `CommandLaws.PrepareIsIdempotent` | leapmotor_cloud/command_contracts.py:266-302 | an accepted payload's output is accepted again and comes back identical, for every command, vehicle and fixed time |
| `CommandLaws.PrepareKeepsShape` | leapmotor_cloud/command_contracts.py:266-302 | what is sent has the payload's keys and list lengths at every level and differs only in the named corrections |
| `CommandLaws.BundleGrows` | leapmotor_cloud/command_contracts.py:201-232 | more declared codes keep every accepted bundle accepted with the same output |
| `CommandLaws.AppointmentGrows` | leapmotor_cloud/command_contracts.py:235-263 | and every accepted list of appointments |
| `CommandLaws.PrepareGrows` | leapmotor_cloud/command_contracts.py:266-302 | and every accepted payload of every command, the wider window range included |
| `CommandLaws.ClimateIsCorrected` | leapmotor_cloud/command_contracts.py:136-151 | a body goes out with `off` exactly if `off` or `close` was asked, never with `close` or an active `wind`, and otherwise as written |
| `CommandLaws.SeatsArePhysical` | leapmotor_cloud/command_contracts.py:191-198 | seat commands name a physical seat, and the driver's is on the side of the wheel |
| `CommandLaws.FanLevelsFollowTheCar` | leapmotor_cloud/command_contracts.py:118-143 | levels 1 to 7 pass on every car, 8 and 9 exactly within a readable declared range |
| `CommandLaws.WindowsFollowTheDeclaredScale` | leapmotor_cloud/command_contracts.py:286-292 | a window position passes exactly up to the top of the scale the car declares |
| `VehicleData.MaskReadsBack` | leapmotor_cloud/vehicle_data.py:136-142 | a mask written from seven flags reads back as those flags |
| `VehicleData.AcceptedMasksAreReadable` | leapmotor_cloud/command_contracts.py:186 | the charge contract accepts exactly the masks the configuration reader can read, and they are the canonical ones |
| `VehicleData.EnabledPlansHaveADay` | leapmotor_cloud/command_contracts.py:186-187 | an accepted plan that is switched on charges on some day the configuration will show |
| `B10Planner.DeclaredIsAny` | leapmotor_cloud/command_contracts.py:62-67 | declaring any of several codes is declaring one of them, whether the entry has a list or not |
| `B10Planner.AvailabilityParity` | leapmotor_cloud/capabilities.py:38-60 | for a known owner, the planner's gate is open exactly if the snapshot is current, the contract permits the command and the ability is declared |
| `B10Planner.WherePlannerAndContractDiffer` | leapmotor_cloud/capabilities.py:24-35 | on a current snapshot, exactly when planner and contract decide alike and exactly when they give the same reason, for every command |
| `B10Planner.OwnedCarWithoutClimateAbility` | leapmotor_cloud/command_contracts.py:44 | an owned car without the climate ability: the planner finds it unsupported, the contract available |
| `B10Planner.SharedCarWithoutLists` | leapmotor_cloud/command_contracts.py:77-92 | a shared car without either list: the planner calls the control module missing, the contract denied |
| `B10Planner.TriedBodies` | leapmotor_cloud/b10_payloads.py:17-59 | every payload tried on the car is a fixpoint of its command's body rule, on every vehicle |
| `B10Planner.WhenPayloadsAreEmitted` | leapmotor_cloud/b10_planner.py:19-47 | exactly when a plan carries a payload, and which |
| `B10Planner.CommandsOfActions` | leapmotor_cloud/b10_planner.py:30-31 | the command behind each action |
| `B10Planner.DoorsCarryTheWord` | leapmotor_cloud/b10_payloads.py:26-29 | a door payload carries the very word asked for |
| `B10Planner.TrunksCarryTheFlag` | leapmotor_cloud/b10_payloads.py:30-33 | a trunk payload says "true" to open and "false" to close |
| `B10Planner.WindowsCarryTenths` | leapmotor_cloud/b10_payloads.py:22-25 | ten times what a window payload reads as is the percentage asked for |
| `B10Planner.SeatsCarryPositionAndLevel` | leapmotor_cloud/b10_payloads.py:34-38 | a seat payload names the seat asked for and its level |
| `B10Planner.WheelsCarryTheFlag` | leapmotor_cloud/b10_payloads.py:39-42 | a wheel payload says "2" to heat and "1" to stop |
| `B10Planner.ClimateWords` | leapmotor_cloud/b10_payloads.py:43-54 | what each climate word sends |
| `B10Planner.ClimateBodies` | leapmotor_cloud/b10_payloads.py:53-54 | what a tried climate body holds |
| `B10Planner.OnlyTheseClimateWords` | leapmotor_cloud/b10_payloads.py:49-56 | there are no other climate words |
| `B10Planner.NothingElseIsTried` | leapmotor_cloud/b10_payloads.py:20-58 | nothing is tried for other actions, nor for a position where none is due |
| `B10Planner.PlannedPayloadsAreAccepted` | leapmotor_cloud/b10_planner.py:19-47 | every payload the planner emits is accepted unchanged by the contract of the same car |
| `B10Planner.OperatingMeans` | leapmotor_cloud/operating_availability.py:26-43 | the operating gate opens exactly for a car known to be parked, seen at a valid time, recently or with stale readings allowed |
| `B10Planner.WhatStatesSay` | leapmotor_cloud/operating_availability.py:26-43 | why a car's state lets a command through or does not |
| `B10Planner.WhatSnapshotsSay` | leapmotor_cloud/capabilities.py:38-60 | when a snapshot is unknown, why, and what it decides from otherwise |
| `B10Planner.WhenVentilationIsLetThrough` | leapmotor_cloud/operating_availability.py:46-66 | ventilation is let through for a front seat by the seat's own ability, when parked |
| `B10Planner.PlansOnlyForParkedCars` | leapmotor_cloud/b10_planner.py:41-47 | a payload is emitted only for such a car, on current capability data of a known owner |

## Left out

- MD5, SHA-256, HMAC and the signed message: arbitrary functions; only digest lengths are used.
- TLS, the transport, URL checks, nonce syntax and header assembly: verdicts given from outside; a response is arbitrary.
- PKCS#12 and X.509 parsing, chains and extensions: each check is a verdict; what is modelled is when it is asked.
- JSON text: payloads, answers and pages start as parsed values, and a row's fingerprint is any function of the row.
- Directory privacy on POSIX and Windows: one verdict per directory.
- Error wording, HTTP status and API codes in errors, and `repr`: only the kind of refusal or its stage is kept.
- Bundles and appointments refuse with one kind of error, so the order in which several faults are found is not modelled.
- Locks: a method of a class is one atomic step, which is what its lock makes it.
- Exceptions that are no `Exception`, and clean-up that itself fails, in the certificate manager and in retirement.
- Path resolution: for each spelling of a parent it is given whether it resolves to the root, which of the root's
  directories a walk along it passes through, and whether the rest of it can be walked; for each spelling of a last
  component, which entry it reaches.
- Concurrent changes of the directories during a retirement: the code asks for quiescent users.
- The files the material provider writes after it has picked a pair.
- Parameters and inputs of the wrong Python type, except where the code answers them differently from wrong values.
- UTF-8 failures of candidates with unpaired surrogates.
- Base64 completed to more than two `=`, on which interpreters differ: any verdict is allowed there.
- Sub-second time, the range of dates, and time zone names that do not exist beyond a missing zone.
- AcceptedIffUnique: is proved for zones whose skipped and repeated intervals do not meet, because where two meet a
  fold lookup sees only one of them.
- FailuresAreBounded: and UnsuccessfulCallsAreBounded assume a clock that never runs back, since a span of readings
  bounds the time between calls only then; NextCallWaits does not.
- PlannedPayloadsAreAccepted: takes a vehicle from which the contract reads the abilities the snapshot lists; how the
  snapshot was made from the same cloud entry is not modelled.
- HonestServersAreListed: takes rows with distinct fingerprints, because equal ones are refused as repeated.
- `cloud.freeze` and `_freeze`, which make values immutable; the model's values are.
- Message, consumption and route reads beyond their requests, and sensor tables.
- `mate_compat.py`, `commands.py`, `pin.py`, `b10_reads.py`, `b10_commands.py` and the catalog: tables and thin wrappers.
- Anything about what a car does when it receives a payload.
