# S/Key demo: verified model

A Dafny model of the S/Key login system (client and server) and of the small C and C++ headers it ships
that contain real algorithms, with proofs about whole runs, all inputs and all interleavings.
`dafny verify dfyconfig.toml` checks everything.

## What is modelled

**The hash chain and the protocol.** `HashChain` has `PasswdToMD5` with its two loops, the chain it
computes, and the laws of the chain. MD5 is a parameter: an arbitrary function from strings to 16 bytes.
No result assumes that MD5 never collides (no such function exists); where distinctness matters the
hypothesis is `CollisionFree` on a finite set of strings that is named in the statement.
`AccountStore` is the database: the `account` and `password` tables, the statements `DataBase` issues, and
the FROZEN trigger. `SKeyServer` has both ends of registration and login; a server procedure is cut where it
sends a message and waits, giving an offer and a finish. `PasswordHistory` has both ends of a password
change. `SKeyWorld` puts any number of users, logins and password changes that wait at the same time into one
state machine, and `SKeyRuns` proves exactly when all records stay good throughout a run. `SKeyReplay` says exactly when a
reply is accepted twice, `SKeyOverlap` has runs in which a stored reply spoils a record, `PasswordRuns` says when
a password comes back too early; `LoginPolicy` and `LoginBound` treat blocking, freezing and forced changes
over the same machine, and `RequestTable` the administrator's requests.

A ghost part of the state says whose password each record was made from (`owner`, `pastOwner`), and the same
of the records a waiting session has read (`reader`, `compared`). Runs are described by what clients do
(`Honest`: an accepted reply is computed from the password the session was opened under) and, apart from that,
by when it is stored (`InTime`). `SKeyRuns.RunKeepsInvIff` says that the second is exactly what the records
need. What happens in other runs is stated too: `SKeyReplay`, `LoginPolicy` and most of `PasswordRuns` do not
assume that replies are stored in time.

**Locks.** `RwLock` and `TryLock` are state machines over the micro-steps of any number of threads, in any
order, with one-step memory (each read or write is a step of its own and all threads see it). A thread that
holds the read lock several times counts as several threads.

**Fast forms.** `Bytes` is the reference reading of bytes, `ByteOrder` and `BigEndian` the loads and stores,
`TrailingSpace` the two fast space trimmers. C's fixed widths are written out as remainders.

**The rest.** `AnyValue` is `boost::any` with explicit ownership, `Deadline` the timeout arithmetic,
`SslOptions` the option switch, `LogTransfer` the log download, `PasswordRule` the password check and
`DecimalKeys` the printed row numbers.

## Where the code does less than it promises

- A login checks the row it read and stores over the row that is there. A session opened before a reply is
  stored accepts that reply again: `SKeyReplay.StoredReplyAcceptedIff` and `SKeyReplay.ReplayIff` are exact, and
  `SKeyOverlap.OverlapLocksOut` shows one reply accepted twice and the owner locked out afterwards.
  `SKeyRuns.CommitKeepsRecordIff` and `SKeyRuns.ReseedKeepsRecordIff` say exactly when a record survives, and
  `SKeyRuns.RunKeepsInvIff` when all do throughout a run;
  `SKeyOverlap.OldPasswordReturns` is a run in which a replaced password comes back.
- The count of wrong replies is restarted by what a session read when it was opened.
  `LoginPolicy.GuessesUnbounded` shows any number of wrong replies without a block; `LoginPolicy.UsesOneIff` is the
  exact test that would prevent it, `LoginPolicy.TimelyIsFive` the bound it gives, and
  `LoginPolicy.WrongRepliesBounded` the bound the code does give, in terms of the sessions open;
  `LoginBound.BoundIsReached` shows that it is the least.
- Overlapping password changes and repeated resets can repeat a password: `PasswordRuns.TwoChangesRepeat` and
  `PasswordRuns.TwoResetsRepeat`. `PasswordRuns.StepKeepsDistinctIff` and
  `PasswordRuns.ReplacementKeepsDistinctIff` are exact, the second in terms of what the server holds.
- The comparison of a new password with the old ones is made on strings the client has computed, so it binds
  honest clients only: `PasswordHistory.OnlyHonestAnswersAreBound`.
- The log download loses everything from a NUL byte to the end of its block, doubles line ends, and reads
  back as text only up to a byte 26; `LogTransfer.DeliveredIff` and `LogTransfer.FileIff` are exact.
- The message next to the password box promises more than the check enforces; `PasswordRule.MessageIff` and
  `PasswordRule.MoreLenientThanMessage` say where they differ. The model follows the code.

## Model

The server's own source files (ServerProcessed.cpp and DataBase.cpp in ISEMCourseDesignServer) are stored in a
legacy Chinese encoding. Rows about the server cite the declaration, the client's end of the exchange or the
documentation, and name the server lines they were modelled from at the end.

| member | source | states |
|---|---|---|
| `HashChain.HexAt` | ISEMCourseDesignClient/ISEMCourseDesignClientDlg.cpp:271-273 | each byte prints as two digits at its place, the high one first |
| `HashChain.UnhexOfHex` | ISEMCourseDesignClient/ISEMCourseDesignClientDlg.cpp:271-273 | the printed digest determines the digest |
| `HashChain.HexOfUnhex` | ISEMCourseDesignClient/ISEMCourseDesignClientDlg.cpp:271-273 | every even-length lowercase hex string is the print of the bytes read from it |
| `HashChain.PasswdToMD5` | ISEMCourseDesignClient/ISEMCourseDesignClientDlg.cpp:258-280 | the loops compute the recursive iterate; no round leaves the seed, and each round prints the digest of what the round before it gave (server side: ServerProcessed.cpp:38-60) |
| `HashChain.OneRound` | ISEMCourseDesignClient/ISEMCourseDesignClientDlg.cpp:269-277 | one round character by character: 32 characters, for each byte of the digest from the first on its high and then its low digit, as '0' to '9' and 'a' to 'f' (server side: ServerProcessed.cpp:47-55) |
| `HashChain.LinkIsPrinted` | ISEMCourseDesignClient/ISEMCourseDesignClientDlg.cpp:269-277 | each link is the printed digest of the link before it (server side: ServerProcessed.cpp:47-55) |
| `HashChain.ChainShape` | ISEMCourseDesignClient/ISEMCourseDesignClientDlg.cpp:269-277 | after at least one round the result is 32 lowercase hex characters |
| `HashChain.ChainAdditive` | ISEMCourseDesignClient/ISEMCourseDesignClientDlg.cpp:269-277 | hashing a times and then b times is hashing a + b times (server side: ServerProcessed.cpp:38-60) |
| `HashChain.ChainRestart` | ISEMCourseDesignClient/ISEMCourseDesignClientDlg.cpp:258-280 | the server's call with an empty random continues the client's chain (server side: ServerProcessed.cpp:191-195) |
| `HashChain.ChainInjective` | ISEMCourseDesignClient/ISEMCourseDesignClientDlg.cpp:269-277 | chains that meet after equally many links began at the same string, if MD5 does not collide on their links (server side: ServerProcessed.cpp:38-60) |
| `HashChain.ChainsMeet` | ISEMCourseDesignClient/ISEMCourseDesignClientDlg.cpp:258-280 | for seeds that are not 32 characters long, all links of all chains are different (server side: ServerProcessed.cpp:38-60) |
| `PasswordRule.CheckPassword` | ISEMCourseDesignClient/ISEMCourseDesignClientDlg.cpp:282-311 | true exactly when the length is 8 to 20 and some prefix of permitted characters shows all three kinds |
| `PasswordRule.AcceptableMeans` | ISEMCourseDesignClient/ISEMCourseDesignClientDlg.cpp:282-311 | what is accepted, in lengths and characters alone |
| `PasswordRule.MessageIff` | ISEMCourseDesignClient/ISEMCourseDesignClientDlg.cpp:844-847 | on letters and digits the check is exactly the rule of the message |
| `PasswordRule.MoreLenientThanMessage` | ISEMCourseDesignClient/ISEMCourseDesignClientDlg.cpp:295-307 | two accepted passwords that break the rule of the message |
| `DecimalKeys.DecimalInjective` | ISEMCourseDesignClient/ISEMCourseDesignClientDlg.cpp:121-122 | different row numbers give different keys |
| `DecimalKeys.DecimalLength` | ISEMCourseDesignClient/ISEMCourseDesignClientDlg.cpp:109-121 | a row number fits the five-byte buffer exactly below 10000 |
| `DecimalKeys.DecimalIsNoWord` | ISEMCourseDesignClient/ISEMCourseDesignClientDlg.cpp:118-122 | no row key is one of the word keys |
| `DecimalKeys.DecimalIff` | ISEMCourseDesignClient/ISEMCourseDesignClientDlg.cpp:120-123 | the key of a row is the one string of digits without leading zero that reads as its number from left to right |
| `AccountStore.OneUserOnly` | ISEMCourseDesignServer/Server.h:18-25 | a statement about one user leaves every other user's row and past rows as they were (server side: DataBase.cpp:83-215) |
| `AccountStore.ReplacedIsArchived` | ISEMCourseDesignServer/Server.h:18-25 | a replaced record is appended to the history for its user, and nothing else ever is (server side: DataBase.cpp:83-100, 181-190) |
| `AccountStore.NothingIsLost` | ISEMCourseDesignServer/Server.h:18-25 | over any statements: no user disappears, the history only grows at its end, other users keep everything (server side: DataBase.cpp:83-215) |
| `AccountStore.OthersKeepVerifier` | ISEMCourseDesignServer/Server.h:21-25 | flags, counted errors, rejected requests and unfreezing leave the record alone (server side: DataBase.cpp:133-215) |
| `AccountStore.FieldsAfter` | ISEMCourseDesignServer/Server.h:18-25 | field by field: which statement about a known user sets it and to what, the two request flags and the three dates included (server side: DataBase.cpp:83-215) |
| `AccountStore.UnknownAfter` | ISEMCourseDesignServer/Server.h:20-20 | a statement about an unknown user does nothing but add one, with a full fresh row (server side: DataBase.cpp:119-131) |
| `AccountStore.TriggerKeepsRange` | ISEM.sql:59-66 | through any statements every error count stays below three |
| `AccountStore.TriggerFiresIff` | ISEM.sql:59-66 | the trigger fires on the third counted error and at no other time |
| `AccountStore.PastRowsAreNewest` | ISEMCourseDesignServer/Server.h:23-23 | the user's newest four past rows, or all there are, in falling order, none missing and none of another user (server side: DataBase.cpp:151-160) |
| `SKeyServer.Server.LoginOffer` | ISEMCourseDesignClient/ISEMCourseDesignClientDlg.cpp:648-681 | who is refused and with which code, unknown users included; what is offered and kept for the finish (server side: ServerProcessed.cpp:77-173) |
| `SKeyServer.Login` | ISEMCourseDesignClient/ISEMCourseDesignClientDlg.cpp:634-728 | both ends of a login: let in are exactly known users, neither blocked nor frozen, with the right password; each refusal has its code; the record stays the owner's whatever is typed (server side: ServerProcessed.cpp:62-258) |
| `SKeyServer.Server.LoginFinish` | ISEMCourseDesignClient/ISEMCourseDesignClientDlg.cpp:693-728 | one more hash decides; the whole row after a good and after a wrong reply (server side: ServerProcessed.cpp:185-258; DataBase.cpp:92-99, 139-149) |
| `SKeyServer.Server.RegisterFinish` | ISEMCourseDesignClient/ISEMCourseDesignClientDlg.cpp:879-915 | the insertion fails exactly when another registration came first (server side: ServerProcessed.cpp:312-364) |
| `SKeyServer.Enrol` | ISEMCourseDesignClient/ISEMCourseDesignClientDlg.cpp:870-915 | both ends of a registration: a known user keeps everything, a new one has a full fresh row with a record of the chosen password and is offered a login with no change due (server side: ServerProcessed.cpp:260-364; DataBase.cpp:119-131) |
| `SKeyServer.EnrolAndLogin` | ISEMCourseDesignClient/ISEMCourseDesignClientDlg.cpp:634-915 | registering and logging in on the same day answers plain access (server side: ServerProcessed.cpp:62-364) |
| `SKeyServer.ClientLogin` | ISEMCourseDesignClient/ISEMCourseDesignClientDlg.cpp:663-692 | the reply at the offered count, and a fresh value one link further for a new seed |
| `SKeyServer.HonestReplyAccepted` | ISEMCourseDesignClient/ISEMCourseDesignClientDlg.cpp:663-672 | the owner's reply passes the check (server side: ServerProcessed.cpp:191-198) |
| `SKeyServer.ReplyIsHashed` | ISEMCourseDesignClient/ISEMCourseDesignClientDlg.cpp:666-672 | the reply is 32 characters of hash and never the password with its random part |
| `SKeyServer.AdvanceHolds` | ISEMCourseDesignServer/Server.h:18-19 | storing the reply with the count reduced keeps the record exactly while the count is above one (server side: ServerProcessed.cpp:246-250) |
| `SKeyServer.ReseedHolds` | ISEMCourseDesignClient/ISEMCourseDesignClientDlg.cpp:674-691 | storing a fresh value keeps the record whatever the row was (server side: ServerProcessed.cpp:251-257) |
| `SKeyServer.AcceptedIsHonest` | ISEMCourseDesignClient/ISEMCourseDesignClientDlg.cpp:663-672 | any accepted reply is the owner's, unless MD5 collides on the two (server side: ServerProcessed.cpp:191-198) |
| `SKeyServer.SameIteration` | ISEMCourseDesignServer/Server.h:18-18 | equal stored values mean the same count and the same seed (server side: DataBase.cpp:96-99) |
| `SKeyServer.StaleCommitIff` | ISEMCourseDesignServer/Server.h:18-18 | under one seed, storing a reply to a row read earlier keeps the record if and only if the stored value has not changed (server side: ServerProcessed.cpp:108-115, 246-250) |
| `SKeyServer.StaleReseedIff` | ISEMCourseDesignClient/ISEMCourseDesignClientDlg.cpp:674-691 | where a new seed starts, if and only if the new value is made from the owner's present password (server side: ServerProcessed.cpp:251-257) |
| `SKeyServer.WrongPasswordRefused` | ISEMCourseDesignClient/ISEMCourseDesignClientDlg.cpp:663-672 | no other password's reply is accepted, unless MD5 collides on the two chains (server side: ServerProcessed.cpp:191-215) |
| `PasswordHistory.ComparedAre` | ISEMCourseDesignServer/Server.h:23-23 | the rows compared are the present one and the newest four past ones, in order (server side: ServerProcessed.cpp:722-748) |
| `PasswordHistory.MakeOffer` | ISEMCourseDesignClient/ISEMCourseDesignClientDlg.cpp:217-237 | every compared row under its number, and the new seed (server side: ServerProcessed.cpp:726-761) |
| `PasswordHistory.ClientUpdatePassword` | ISEMCourseDesignClient/ISEMCourseDesignClientDlg.cpp:217-240 | for each row the new password's value one link past the row's count, and the fresh value |
| `PasswordHistory.FinishUpdate` | ISEMCourseDesignClient/ISEMCourseDesignClientUpdateDlg.cpp:83-95 | refused exactly when some answer equals its stored value, otherwise committed (server side: ServerProcessed.cpp:775-829) |
| `PasswordHistory.UpdatePassword` | ISEMCourseDesignClient/ISEMCourseDesignClientDlg.cpp:190-256 | both ends: changed unless the new password reproduces a compared value (server side: ServerProcessed.cpp:704-831) |
| `PasswordHistory.ReuseIsNoticed` | ISEMCourseDesignClient/ISEMCourseDesignClientUpdateDlg.cpp:93-95 | every reuse is noticed, whatever MD5 is (server side: ServerProcessed.cpp:781-788) |
| `PasswordHistory.OnlyReuseIsRefused` | ISEMCourseDesignClient/ISEMCourseDesignClientUpdateDlg.cpp:93-95 | only reuse is refused, if MD5 does not collide on the chains compared (server side: ServerProcessed.cpp:781-788) |
| `PasswordHistory.OnlyHonestAnswersAreBound` | ISEMCourseDesignClient/ISEMCourseDesignClientDlg.cpp:217-240 | for every password, the present one included, some complete answer is not refused and stores a record of it (server side: ServerProcessed.cpp:779-798) |
| `SKeyRuns.ResetHolds` | ISEMCourseDesignServer/Server.h:25-25 | the reset record is the record of the password 123456, given its constant (server side: DataBase.cpp:189) |
| `SKeyRuns.EventIssues` | ISEMCourseDesignServer/Server.h:18-25 | each event of a run issues the one statement the server's procedure issues, or none (server side: ServerProcessed.cpp:185-258, 312-340, 790-798, 900-905) |
| `SKeyRuns.EventSessions` | ISEMCourseDesignClient/ISEMCourseDesignClientDlg.cpp:634-728 | an offer opens a session, any answer closes it, nothing else touches it (server side: ServerProcessed.cpp:62-258) |
| `SKeyRuns.AcceptedIsTyped` | ISEMCourseDesignClient/ISEMCourseDesignClientDlg.cpp:663-672 | whoever sends it, an accepted reply is the one computed from the password behind the row that was read, unless MD5 collides (server side: ServerProcessed.cpp:191-198) |
| `SKeyRuns.CommitKeepsRecordIff` | ISEMCourseDesignServer/Server.h:18-18 | under one seed an accepted reply keeps the record if and only if the row still shows the value read (server side: ServerProcessed.cpp:102-115, 246-250) |
| `SKeyRuns.ReseedKeepsRecordIff` | ISEMCourseDesignClient/ISEMCourseDesignClientDlg.cpp:674-691 | an accepted reply that starts a new seed keeps the record if and only if its new value was made from the owner's present password, however the row has changed (server side: ServerProcessed.cpp:251-257) |
| `SKeyRuns.StepKeepsInvIff` | ISEMCourseDesignClient/ISEMCourseDesignClientDlg.cpp:613-916 | a step of honest clients keeps all records, past rows and waiting sessions good if and only if an accepted reply is stored in time (server side: ServerProcessed.cpp:62-364) |
| `SKeyRuns.RunKeepsInvIff` | ISEMCourseDesignClient/ISEMCourseDesignClientDlg.cpp:613-916 | in every run of honest clients, any number of users and sessions: everything stays good throughout if and only if every accepted reply is stored in time (server side: ServerProcessed.cpp:62-364, 704-831) |
| `SKeyRuns.OwnerCanAlwaysLogIn` | ISEMCourseDesignClient/ISEMCourseDesignClientDlg.cpp:663-692 | so in every such run stored in time the stored value is one hash past the owner's reply, which is accepted (server side: ServerProcessed.cpp:184-258) |
| `SKeyRuns.ReaderStays` | ISEMCourseDesignClient/ISEMCourseDesignClientDlg.cpp:674-691 | a reply that starts a new seed is in time as long as no step has replaced the password, whatever else has happened to the row (server side: ServerProcessed.cpp:251-257) |
| `SKeyRuns.StepUnderSeed` | ISEMCourseDesignServer/Server.h:18-19 | in any state, while a seed lasts a step leaves the record or stores the accepted reply one count down (server side: ServerProcessed.cpp:246-250) |
| `SKeyRuns.LoginsAreCounted` | ISEMCourseDesignServer/Server.h:18-19 | in every run at all the count left is the count at the start less the logins accepted (server side: DataBase.cpp:96-99) |
| `SKeyReplay.StoredReplyAcceptedIff` | ISEMCourseDesignClient/ISEMCourseDesignClientDlg.cpp:663-692 | after a reply is stored, another waiting session accepts it if and only if that session has read the same seed at the same count (server side: ServerProcessed.cpp:102-115, 184-198) |
| `SKeyReplay.RepliesEqualIff` | ISEMCourseDesignClient/ISEMCourseDesignClientDlg.cpp:663-692 | in every run of one seed, overlapping or not, two accepted replies are equal if and only if their sessions had read the same count (server side: ServerProcessed.cpp:184-258) |
| `SKeyReplay.ReplayIff` | ISEMCourseDesignClient/ISEMCourseDesignClientDlg.cpp:663-692 | in a run of one seed some reply is accepted twice if and only if some reply is stored over a row that no longer shows what its session had read (server side: ServerProcessed.cpp:102-115, 245-250) |
| `SKeyReplay.RepliesCountDownIff` | ISEMCourseDesignClient/ISEMCourseDesignClientDlg.cpp:663-692 | exactly then the accepted replies are the chain counted down from the present count, and at most that many (server side: ServerProcessed.cpp:184-258) |
| `SKeyOverlap.OverlapLocksOut` | ISEMCourseDesignClient/ISEMCourseDesignClientDlg.cpp:634-672 | from every good state offering a login: one reply accepted twice under one seed, and the owner refused afterwards (server side: ServerProcessed.cpp:102-258) |
| `SKeyOverlap.OldPasswordReturns` | ISEMCourseDesignClient/ISEMCourseDesignClientDlg.cpp:674-691 | from every good state at the last count: a login overtaken by a password change puts the old password back (server side: ServerProcessed.cpp:102-115, 251-257) |
| `SKeyRuns.ComparedHold` | ISEMCourseDesignServer/Server.h:23-23 | in every good state the compared rows are those of the user's recent passwords (server side: ServerProcessed.cpp:722-748) |
| `PasswordRuns.ChangeIff` | ISEMCourseDesignClient/ISEMCourseDesignClientUpdateDlg.cpp:83-95 | whatever happened since it was opened, a change goes through exactly when the password is none of the five that were then the last (server side: ServerProcessed.cpp:775-798) |
| `PasswordRuns.StepKeepsDistinctIff` | ISEMCourseDesignClient/ISEMCourseDesignClientUpdateDlg.cpp:93-95 | every step of any run, stale changes and resets included, keeps the last five different exactly when it puts back none of the last four (server side: ServerProcessed.cpp:790-798; DataBase.cpp:183-190) |
| `PasswordRuns.ReplacementKeepsDistinctIff` | ISEMCourseDesignClient/ISEMCourseDesignClientUpdateDlg.cpp:93-95 | comparing again with the rows present when it is stored finds exactly the repetitions, for changes and resets (server side: ServerProcessed.cpp:781-798; DataBase.cpp:183-190) |
| `PasswordRuns.RunKeepsDistinctIff` | ISEMCourseDesignClient/ISEMCourseDesignClientUpdateDlg.cpp:93-95 | the last five stay different throughout a run if and only if no new password, chosen or reset, reproduces one of the four rows the server holds to compare it with (server side: ServerProcessed.cpp:775-798; DataBase.cpp:183-190) |
| `PasswordRuns.RunKeepsDistinct` | ISEMCourseDesignClient/ISEMCourseDesignClientUpdateDlg.cpp:93-95 | so they are different at all times where every change is stored against up-to-date rows and no reset reproduces a row (server side: ServerProcessed.cpp:775-798) |
| `PasswordRuns.OpensUpToDate` | ISEMCourseDesignClient/ISEMCourseDesignClientDlg.cpp:217-240 | rows are up to date when a change is offered (server side: ServerProcessed.cpp:717-748) |
| `PasswordRuns.StaysUpToDate` | ISEMCourseDesignClient/ISEMCourseDesignClientUpdateDlg.cpp:83-95 | rows stay up to date through logins of the same user and everything but a replaced password (server side: ServerProcessed.cpp:722-798) |
| `PasswordRuns.TwoChangesRepeat` | ISEMCourseDesignClient/ISEMCourseDesignClientUpdateDlg.cpp:83-95 | two changes opened on the same rows both store one new password (server side: ServerProcessed.cpp:722-798) |
| `PasswordRuns.TwoResetsRepeat` | ISEMCourseDesignServer/Server.h:25-25 | so do two approved resets (server side: DataBase.cpp:183-190) |
| `LoginPolicy.UsesOneIff` | ISEMCourseDesignServer/Server.h:22-22 | a counted error lowers what is left of five in every window around it exactly when the present row is not blocked and the count is not restarted over one that still counts (server side: ServerProcessed.cpp:118-125, 201; DataBase.cpp:139-149) |
| `LoginPolicy.TimelyIsFive` | ISEM.sql:59-66 | with that test at most five wrong replies are looked at in any five minutes, for any number of open sessions (server side: ServerProcessed.cpp:118-139) |
| `LoginPolicy.WrongRepliesBounded` | ISEM.sql:59-66 | in every run, five minutes let through at most 3n + 2 wrong replies where at most n sessions of the user are open at a time; five for one (server side: ServerProcessed.cpp:118-139, 198-215) |
| `LoginBound.BoundIsReached` | ISEM.sql:59-66 | from a count of zero that expires as the window opens, for every n some run reaches 3n + 2, so that bound is the least (server side: ServerProcessed.cpp:118-139, 198-215) |
| `LoginPolicy.FreshCounter` | ISEM.sql:59-66 | 3n from an expired counter; three for one (server side: ServerProcessed.cpp:118-139, 198-215) |
| `LoginPolicy.GuessesUnbounded` | ISEMCourseDesignServer/Server.h:22-22 | sessions opened together on an expired counter take any number of wrong replies without a block (server side: ServerProcessed.cpp:122, 201; Server.cpp:62-75) |
| `LoginPolicy.CountsStayInRange` | ISEM.sql:59-66 | in every run each account's error count is at most two between steps |
| `LoginPolicy.NoneOpensWhileBlocked` | ISEM.sql:59-66 | while an account is blocked no session of it is opened, whatever the open ones answer (server side: ServerProcessed.cpp:123-139) |
| `LoginPolicy.DatesOfRun` | README.md:69-69 | after every run the block, login and change dates of any user, known from the start, registered in the run or unknown, are those of the last event that counts for each (server side: DataBase.cpp:83-215) |
| `LoginPolicy.OfferAfterRun` | README.md:40-69 | after every run: refused as unknown exactly without a registration, blocked exactly five minutes from the last third error, frozen exactly when the period has passed since the last visit or unfreezing, a change due exactly when its period has passed (server side: ServerProcessed.cpp:79-82, 117-156, 222-227) |
| `LoginPolicy.ResetForcesChange` | README.md:49-52 | after an approved reset every offer demands a new password until one is set, through any run (server side: DataBase.cpp:189) |
| `RequestTable.ChooseRows` | ISEMCourseDesignClient/ISEMCourseDesignClientSecurityDlg.cpp:141-157 | the counted array is filled exactly with the chosen IDs, in order |
| `RequestTable.ChosenRowByRow` | ISEMCourseDesignClient/ISEMCourseDesignClientSecurityDlg.cpp:141-157 | the chosen IDs are those of the rows that are selected or checked, one after another |
| `RequestTable.GetJson` | ISEMCourseDesignClient/ISEMCourseDesignClientDlg.cpp:105-130 | fails exactly above 10000 rows; otherwise row i lies under the decimal numeral of i, beside "type" and "number", and nothing else is there |
| `RequestTable.EncodesOne` | ISEMCourseDesignClient/ISEMCourseDesignClientDlg.cpp:118-123 | an object encodes one list only |
| `RequestTable.ServerProcess` | ISEMCourseDesignServer/Server.h:25-25 | the server's loop processes the encoded list in order (server side: ServerProcessed.cpp:891-913) |
| `RequestTable.PassChosen` | ISEMCourseDesignClient/ISEMCourseDesignClientSecurityDlg.cpp:138-160 | from table to database: every chosen known user has the request decided field by field, all others keep everything, and nothing is sent for an empty choice (server side: ServerProcessed.cpp:885-956; DataBase.cpp:181-215) |
| `RequestTable.OthersUntouched` | ISEMCourseDesignServer/Server.h:25-25 | users not chosen keep their rows (server side: ServerProcessed.cpp:900-913) |
| `RequestTable.ChosenAreDecided` | ISEMCourseDesignServer/Server.h:25-25 | what each pair of type and mode leaves in the row of a chosen user, field by field, however often the list names him (server side: DataBase.cpp:181-215) |
| `RequestTable.ResetsAreArchived` | ISEMCourseDesignServer/Server.h:25-25 | one past row for each time an approved reset names a known user, the replaced record among them; none otherwise (server side: DataBase.cpp:183-190) |
| `RequestTable.ServerGetRequest` | ISEMCourseDesignServer/Server.h:24-24 | the fetched rows under the decimal numerals of their numbers (server side: ServerProcessed.cpp:852-864) |
| `RequestTable.FetchTable` | ISEMCourseDesignClient/ISEMCourseDesignClientDlg.cpp:173-187 | the client's rows are the server's rows, in order |
| `LogTransfer.BlocksIsLeast` | ISEMCourseDesignClient/ISEMCourseDesignClientDlg.cpp:55-55 | the count is the least number of blocks that covers the length |
| `LogTransfer.Strlen` | ISEMCourseDesignClient/ISEMCourseDesignClientDlg.cpp:77-83 | the offset of the first NUL (server side: ServerProcessed.cpp:1009) |
| `LogTransfer.SendLog` | ISEMCourseDesignClient/ISEMCourseDesignClientDlg.cpp:52-58 | each block is sent up to its first NUL (server side: ServerProcessed.cpp:979-1019) |
| `LogTransfer.PieceAt` | ISEMCourseDesignClient/ISEMCourseDesignClientDlg.cpp:52-58 | piece k comes from bytes 1024 k onward, 1024 of them or as many as there are (server side: ServerProcessed.cpp:1005-1019) |
| `LogTransfer.TextModeOfOne` | ISEMCourseDesignClient/ISEMCourseDesignClientDlg.cpp:70-90 | the text-mode file: a newline becomes two bytes, every other byte is written as it is |
| `LogTransfer.TextModeAppend` | ISEMCourseDesignClient/ISEMCourseDesignClientDlg.cpp:77-97 | writing piece after piece is writing their concatenation |
| `LogTransfer.ReceiveLog` | ISEMCourseDesignClient/ISEMCourseDesignClientDlg.cpp:52-97 | the file is everything received, in text mode, or nothing when the counts differ |
| `LogTransfer.TransferLog` | ISEMCourseDesignClient/ISEMCourseDesignClientDlg.cpp:27-103 | both ends agree on the count and the file is what was sent (server side: ServerProcessed.cpp:960-1036) |
| `LogTransfer.DeliveredIff` | ISEMCourseDesignClient/ISEMCourseDesignClientDlg.cpp:77-97 | every byte arrives once and in order if and only if the log has no NUL (server side: ServerProcessed.cpp:1005-1019) |
| `LogTransfer.TextRoundTrip` | ISEMCourseDesignClient/ISEMCourseDesignClientDlg.cpp:70-90 | read as text, the file is what was delivered up to its first byte 26 |
| `LogTransfer.FileIff` | ISEMCourseDesignClient/ISEMCourseDesignClientDlg.cpp:70-97 | the file is the log, as text if and only if there is neither a NUL nor a byte 26, as bytes if and only if there is neither a NUL nor a newline |
| `RwLock.StepKeepsInv` | include/thr_rwlock.h:72-131 | every micro-step of every thread keeps the invariant |
| `RwLock.InvIsSafe` | include/thr_rwlock.h:117-131 | the flag is up only under a writer, unlock reads its own mode, a writer excludes all others |
| `RwLock.EveryRunIsSafe` | include/thr_rwlock.h:52-131 | the same in every run of any number of threads |
| `RwLock.StepRefines` | include/thr_rwlock.h:72-131 | each micro-step is a step of a lock that knows its holders, released in the mode it was taken |
| `RwLock.TryBusyIff` | include/thr_rwlock.h:82-115 | a try call is refused exactly when a conflicting holder is inside |
| `RwLock.NativeRwLock.constructor` | include/thr_rwlock.h:52-62 | free, with the flag down |
| `RwLock.NativeRwLock.RdLock` | include/thr_rwlock.h:72-80 | the whole call is its micro-step |
| `RwLock.NativeRwLock.TryRdLock` | include/thr_rwlock.h:82-91 | succeeds exactly when no writer is inside, otherwise changes nothing |
| `RwLock.NativeRwLock.WrLock` | include/thr_rwlock.h:93-102 | the whole call is its two micro-steps |
| `RwLock.NativeRwLock.TryWrLock` | include/thr_rwlock.h:104-115 | succeeds exactly when nobody is inside, otherwise changes nothing |
| `RwLock.NativeRwLock.Unlock` | include/thr_rwlock.h:117-131 | removes exactly the caller, in whichever mode it holds the lock |
| `TryLock.StepKeepsInv` | include/thr_mutex.h:78-114 | every micro-step keeps owner and count in agreement with what threads hold |
| `TryLock.ZeroIffFree` | include/thr_mutex.h:88-104 | trylock answers 0 exactly when the section was free, and then holds it once |
| `TryLock.BusyChangesNothing` | include/thr_mutex.h:88-104 | every EBUSY leaves owner and count as they were, also for the owner |
| `TryLock.TryKeepsHeldOnce` | include/thr_mutex.h:88-114 | without plain lock calls no thread comes to hold the mutex twice |
| `TryLock.EveryRunExcludes` | include/thr_mutex.h:78-114 | mutual exclusion in every run; with trylock alone the count is one between calls |
| `Bytes.BytesOfValue` | include/byte_order_generic.h:83-89 | reading and writing back changes no byte |
| `Bytes.ValueOfBytes` | include/byte_order_generic.h:83-89 | writing and reading back changes no value that fits |
| `Bytes.LeByteAt` | include/byte_order_generic.h:83-89 | byte i of a value is the value shifted down by i bytes |
| `Bytes.BeByteAt` | include/big_endian.h:77-85 | with the high byte first, shifted down by the bytes that follow |
| `ByteOrder.KorrIsLe` | include/byte_order_generic.h:38-69 | each unsigned load of 2, 3, 4, 5, 6 or 8 bytes is the low-byte-first value |
| `ByteOrder.Sint24korr` | include/byte_order_generic.h:20-36 | the 2- and 4-byte signed loads are the unsigned ones in two's complement |
| `ByteOrder.SignedIs` | include/byte_order_generic.h:20-36 | the signed reading lies in its range and differs from the unsigned one by nothing or the whole modulus |
| `ByteOrder.Sint3IsSigned` | include/my_byteorder.h:31-43 | so is the 3-byte one, built with bitwise or |
| `ByteOrder.Int2store` | include/byte_order_generic.h:76-81 | writes the two low bytes, low byte first, and nothing else |
| `ByteOrder.Int3store` | include/my_byteorder.h:77-82 | writes the three low bytes |
| `ByteOrder.Int4store` | include/byte_order_generic.h:83-89 | writes the four bytes |
| `ByteOrder.Int5store` | include/my_byteorder.h:84-91 | writes the five low bytes |
| `ByteOrder.Int6store` | include/my_byteorder.h:93-101 | writes the six low bytes |
| `ByteOrder.Int8store` | include/byte_order_generic.h:91-97 | two four-byte stores write the eight bytes |
| `ByteOrder.MachineStore` | include/byte_order_generic_x86.h:40-56 | the pointer-cast store on a little-endian machine, with the same effect |
| `ByteOrder.CastLoadsAgree` | include/byte_order_generic_x86.h:22-38 | the pointer-cast loads agree with the shift-and-add ones |
| `ByteOrder.LoadOfStore` | include/my_byteorder.h:45-101 | store then load is the identity on every value of the width |
| `ByteOrder.StoreOfLoad` | include/my_byteorder.h:45-101 | load then store is the identity on every memory |
| `ByteOrder.SignedRoundTrip` | include/my_byteorder.h:31-43 | signed values of 2, 3, 4 and 8 bytes come back |
| `ByteOrder.Int3storeOfSigned` | include/my_byteorder.h:77-82 | casting to 32 bits first loses nothing within 24 bits |
| `BigEndian.Ulongget` | include/big_endian.h:70-76 | the copied object is the high-byte-first value |
| `BigEndian.Longget` | include/big_endian.h:63-69 | the same in two's complement |
| `BigEndian.ShortIsBe` | include/big_endian.h:57-62 | the short loads are the high-byte-first value |
| `BigEndian.Shortstore` | include/big_endian.h:77-80 | writes the two bytes of any signed value, high byte first |
| `BigEndian.Longstore` | include/big_endian.h:81-85 | writes the four bytes, shifting negative values arithmetically |
| `BigEndian.ShortRoundTrip` | include/big_endian.h:60-80 | store then get on every 16-bit value |
| `BigEndian.LongRoundTrip` | include/big_endian.h:63-85 | store then get on every 32-bit value |
| `BigEndian.GetThenStore` | include/big_endian.h:60-85 | get then store on every byte string of two or four bytes |
| `TrailingSpace.SkipBytes` | include/m_string.h:304-306 | the least end after which there are only spaces |
| `TrailingSpace.TrimIs` | include/m_string.h:304-306 | that end in bytes: only 0x20 after it, another byte just before it |
| `TrailingSpace.WordIffSpaces` | include/m_string.h:279-286 | a word equals the space word exactly when every byte is a space |
| `TrailingSpace.BlockIffSpaces` | include/m_string.h:317-322 | the same for the eight-byte block |
| `TrailingSpace.SkipAlignedWords` | include/m_string.h:276-307 | the aligned version returns the least end, reads only the buffer and meets its assertion |
| `TrailingSpace.SkipBlocks` | include/m_string.h:314-326 | the block version returns the least end and reads only the buffer |
| `TrailingSpace.AllAgree` | include/m_string.h:276-327 | all versions agree for every buffer, address and word size |
| `AnyValue.Any.Empty` | include/boost/any.hpp:40-43 | an empty object |
| `AnyValue.Any.FromValue` | include/boost/any.hpp:72-81 | an object with its own new holder |
| `AnyValue.Any.Copy` | include/boost/any.hpp:57-60 | the same value in a holder of its own |
| `AnyValue.Any.Move` | include/boost/any.hpp:64-68 | takes the value over and leaves the other empty |
| `AnyValue.Any.Destroy` | include/boost/any.hpp:84-87 | frees exactly its own holder, which is live |
| `AnyValue.Any.Swap` | include/boost/any.hpp:91-97 | exchanges the values, also with itself |
| `AnyValue.Any.CopyAssign` | include/boost/any.hpp:119-123 | takes the value of any object, itself included |
| `AnyValue.Any.MoveAssign` | include/boost/any.hpp:126-131 | takes the value and empties the source, itself included |
| `AnyValue.Any.ValueAssign` | include/boost/any.hpp:134-143 | holds the new value, the old holder is freed |
| `AnyValue.Any.Clear` | include/boost/any.hpp:153-156 | empty, the old holder is freed |
| `AnyValue.Any.AnyCast` | include/boost/any.hpp:250-258 | the held value for its type, null for another type or an empty object |
| `AnyValue.Execute` | include/boost/any.hpp:40-156 | one operation on any of the objects keeps single ownership and has the plain meaning |
| `AnyValue.AfterAt` | include/boost/any.hpp:40-156 | the plain meaning, entry by entry, for each of the ten operations |
| `AnyValue.ExecuteAll` | include/boost/any.hpp:40-156 | any sequence of operations: nothing freed twice, values as in the plain semantics, and nothing left on the heap once no object is left |
| `Deadline.GetMilliseconds` | include/thr_cond.h:53-83 | the longest wait within the cap that ends by the deadline; infinite without one |
| `Deadline.CapNeverBinds` | include/thr_cond.h:73-78 | with a clock that does not go back the cap cuts nothing off |
| `Deadline.WaitFor` | include/thr_cond.h:60-83 | set then read: never longer than asked for whatever the clock does, never negative or infinite |
| `Deadline.SetNsec` | include/my_global.h:701-709 | always normalised and never later than asked for; its seconds and nanoseconds in every case, overflow and cap included; exact if and only if neither occurs |
| `Deadline.SetSec` | include/my_global.h:723-726 | whole seconds are exact if and only if their nanoseconds fit 64 bits and, for a short time_t, the sum is below the cap |
| `Deadline.CmpIsOrder` | include/my_global.h:735-751 | the comparison is the order of total nanoseconds |
| `Deadline.DiffExactIff` | include/my_global.h:753-761 | the difference is exact if and only if the first time is not earlier and the gap fits |
| `Deadline.DiffIs` | include/my_global.h:753-761 | in general the difference is reduced to 64 bits without a sign |
| `Deadline.GetMillisecondsOf` | include/thr_cond.h:84-95 | within one millisecond of what is left below the range of the result, and zero once the deadline has passed |
| `Deadline.WaitForStruct` | include/thr_cond.h:84-95 | set then read in the struct form: follows the clock, and waits longer than asked for when the clock goes back |
| `SslOptions.Options.GetOneOption` | include/sslopt-case.h:22-62 | each option clamps the mode into a range that depends on the option and the explicit flag alone |
| `SslOptions.Options.SetClientSslOptions` | include/sslopt-vars.h:44-64 | CA arguments are passed on exactly from VERIFY_CA upward; the warning is printed exactly when a mode was named and given arguments were dropped |
| `SslOptions.RunIsClamp` | include/sslopt-case.h:22-62 | every sequence of options clamps the mode into a range that does not depend on it |
| `SslOptions.RunIsMonotone` | include/sslopt-case.h:22-62 | a stricter start never ends less strict |
| `SslOptions.CaUsedIff` | include/sslopt-vars.h:58-64 | from the initial state CA arguments are used exactly when the options force verification |
| `SslOptions.ExplicitIgnoresCa` | include/sslopt-case.h:45-50 | after an explicit mode the CA options have no effect on the outcome |

## Left out

- MFC dialogs, sockets, JSON text, the INI file and the audit log: input and output only; messages are maps keyed as in the JSON objects, and each arrives whole.
- MD5 itself, and the random strings: parameters. The two facts used are that a random part has eight characters and that the reset constant is two rounds over 123456123456.
- SQL text, buffer sizes of queries and messages, character set and column widths: each statement is a function on the tables.
- The client's requests for a reset or an unfreeze: only the flag they set; the test for a request already made and the fixed 30 days of the unfreeze request are answers that change nothing.
- AdminLogin: the same offer and finish on the administrator table, without blocking and freezing.
- GetRandomString: seeds from the clock; that two seeds may coincide is covered, since no result needs them different.
- A session that answers to an empty object after an unknown message code, and a user who was never logged in asking for a password change: the code dereferences a missing row there.
- LogTransfer.SendLog: an empty piece is counted as delivered, while a socket would make the client wait for the next one.
- SKeyRuns.OwnerCanAlwaysLogIn: stated for runs whose accepted replies are stored in time; SKeyRuns.RunKeepsInvIff shows that the others are exactly the runs in which some record is spoiled (SKeyOverlap.OverlapLocksOut, SKeyOverlap.OldPasswordReturns).
- SKeyRuns.RunKeepsInvIff: an accepted reply that starts a new seed carries a value made from the password the session was opened under, and password changes and registrations carry values made from the chosen password; other values are covered one step at a time by SKeyRuns.ReseedKeepsRecordIff and PasswordHistory.OnlyHonestAnswersAreBound.
- PasswordRuns.RunKeepsDistinct: assumes that no other change or reset of the user comes between the offer and the answer of a change, and that a reset does not put the reset password back; the exact condition is PasswordRuns.RunKeepsDistinctIff.
- The database connection and its result buffer are shared by the server's threads, and a password change and a registration are stored without the mutex: each procedure's statements count as one step here.
- rw_pr locks, safe_mutex, condition variables, and the pthread branches: only declarations are visible or the call is passed on.
- Floating-point byte order and the memcpy forms of longlongget and longlongstore.
- type_info and overload selection of any: a type is a tag. The held value is not changed through the pointer any_cast returns. Allocation does not fail.
