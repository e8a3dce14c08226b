# Verification of ZeroAuth's protocols, chains and codecs

A Dafny model of the stateful core of ZeroAuth's server, verifier and sensor
bridge, with proofs of what it guarantees over all inputs, schedules and runs.

| files | what they model |
|---|---|
| `Pairing`, `PairingSafety`, `PairingExpiry`, `PairingCalls`, `LoginChecks`, `BigIntCompare` | the QR proof-pairing protocol: each SQL statement one step, any number of submits, creates and sweeps interleaved; the BigInt checks; the same calls without interleaving, as methods |
| `Json`, `JsonText`, `HashedText`, `AuditChain`, `AuditWriters` | canonical JSON (section 3.2 of RFC 8785) and what it looks like, the texts that are hashed, the hash-chained audit log, its replay, and concurrent writers with crashes |
| `VerifierLog` | the verifier's own log: a table, two variables in memory, restarts and failed inserts |
| `Registration`, `RegistrationSafety`, `CeremonyChecks`, `CeremonyStore`, `LoginAgreement`, `EndToEnd` | the three-QR signup ceremony, and its agreement with login |
| `Devices`, `DeviceStore`, `EnrollmentCode` | the devices table under all of its writers, and the codes |
| `R307`, `R307Commands` | the fingerprint sensor's packet codec, its incremental parser, template transfer and the commands around it |
| `Cbor`, `CborCodec`, `CborTruncated` | the CBOR reader, the encodings it inverts (section 3 of RFC 8949), and the cut-off inputs it accepts |
| `Otp`, `RateLimit`, `TenantLimit`, `RingBuffer` | the one-time-password store, both rate limiters, the log ring |
| `JsText`, `Runtime`, `Numbers`, `Sequences`, `Octets`, `Tenancy` | JavaScript's numerals and `BigInt(string)`, what is taken from its runtime, small shared notions |

SHA-256, Poseidon, the Groth16 verifier, UTF-8 decoding and case mapping are
function parameters. A result that needs one of them to be free of collisions, or field
sized, says so in a `requires` clause. Protocols that interleave are transition
systems whose steps are total functions (a step that is not enabled changes
nothing); results about them quantify over every sequence of steps. Objects and
tables that one call updates at a time are classes, whose methods are proved
against the same functions. Ids, codes, nonces and tokens come in as arguments,
fresh where the source draws them at random; the clock is an argument too.

## What the code does that its texts do not say

Each of these is proved, by the member named.

- `timingSafeBigIntEqual` drops the last digit of a number with an odd count of
  more than 64 hexadecimal digits, so a 65-digit signal can equal a 64-digit
  value (`BigIntCompare.CompareWithFieldElement`,
  `BigIntCompare.LongerNumberAccepted`). Among field-sized numbers it is
  equality, and the safety results do not assume signals are field sized.
- A registered commitment of digits only is read as decimal although the phone
  sends hexadecimal; the honest phone then fails (`LoginAgreement.HonestPhoneCompletes`,
  `LoginAgreement.DigitsOnlyRefused`).
- Metadata holding `undefined` is hashed as such but stored without it, so the
  committed row fails replay; `pairing.claimed` does that unless the client sends
  all three of its optional values. The chain itself stays whole, and every window
  is reported at its first such row (`AuditChain.CommittedRowReplays`,
  `AuditChain.ClaimedRowReplays`, `AuditWriters.ReachableTablesReplay`).
- `canonicalize` writes nothing for an undefined array item, so `[undefined]` and
  `[]` have one text and one hash. Apart from that it is injective, and no value
  read back from the table contains `undefined` (`Json.LoneUndefinedCollides`,
  `Json.CanonicalizeExact`, `AuditChain.UndefinedItemUnseen`).
- Replay skips rows whose hash columns are NULL, so nulling them hides a change;
  and a window cannot show that its first or last row was deleted
  (`AuditChain.ReplacedRowVerdict`, `AuditChain.DeletedChainRowVerdict`). The comment at
  src/services/audit.ts:240-243 leaves out the `|` between payload and hash, and the
  file's header puts the lock on (tenant, environment) where the code locks the
  tenant.
- The cap of 50 open sessions is exceeded by overlapping calls: with k in flight
  49 + k is reached and never passed (`PairingSafety.OpenSessionCap`,
  `PairingSafety.CapIsReached`).
- The consuming statement looks at the state and not at the clock, so a submit
  that passed the gate in time consumes the session after its expiry, unless a
  sweep came first (`PairingExpiry.LateConsumptionIff`,
  `PairingExpiry.LateConsumptionHappens`).
- A revoked device's fingerprint cannot be claimed on a new slot, although the
  comment at src/services/platform.ts:513-516 says it can; the registration upsert
  re-enrolls the old row instead (`Devices.BoundFingerprintNotClaimed`,
  `Devices.UpsertReenrolls`).
- Both limiters are called sliding windows and are fixed windows: 2 max, or
  2 limit - 1, pass within two milliseconds. The tenant limiter's
  `retryAfterSeconds` can name the last instant of the same window
  (`TenantLimit.RetryAfterIfFractional`).
- The CBOR reader accepts input that stops short inside its last text string, as
  `decodeProofQr` never compares its offset with the length; it loses a
  `__proto__` key and rounds integers from 2^53 on (`CborTruncated.TruncatedIff`,
  `CborCodec.FaithfulIffRepresentable`).

## Model

| member | source | states |
|---|---|---|
| PairingSafety.ReplayExclusion | src/services/proof-pairing.ts:611-639 | over every interleaving, one value of public signal 1 never passes the nonce checks of two sessions of one tenant, in either environment, at whatever two moments of the run and whatever becomes of the submits later; rests on UNIQUE (tenant_id, nonce_hex), hex decoding and Poseidon2 separating nonces |
| PairingSafety.SingleUse | src/services/proof-pairing.ts:618-685 | a session is consumed if and only if some submit won it, at most one ever does, and the row names the user that was on file under that submit's own tenant, environment and DID when it looked |
| PairingSafety.ConsumedWasChecked | src/services/proof-pairing.ts:500-671 | whoever consumed a session gave that session's own tenant and environment and a token that is there, not empty, and hashes to the stored hash, passed the commitment, nonce and verifier checks against that very row, and against the user on file under its DID at a moment between its gate and its claim |
| PairingSafety.CheckedAgainstOwnUser | src/services/proof-pairing.ts:618-641 | over every run, with users changing at any point: each submit waiting for the verifier, claiming or successful was checked against the user stored under its tenant, environment and DID in the step of its lookup, after its gate and before its claim |
| PairingSafety.TerminalIsFinal | src/services/proof-pairing.ts:260-275 | consumed, failed and expired never change again in any continuation of any run, nor do the bound user and the session's identity |
| PairingSafety.FailedAtThree | src/services/proof-pairing.ts:260-275 | the failure count is the number of submits whose failure was counted, and the session is failed exactly from the third on |
| PairingSafety.LateSubmitNeverVerified | src/services/proof-pairing.ts:527-541 | a submit that has not loaded when its session is failed, consumed or expired never reaches the verifier, whatever is scheduled afterwards, and can only be answered with that state's code or not-found |
| PairingSafety.OpenSessionCap | src/services/proof-pairing.ts:418-458 | with at most k createSession calls in flight a (tenant, environment) never has more than 49 + k sessions that are issued and not over |
| PairingSafety.CapIsReached | src/services/proof-pairing.ts:418-458 | the bound is exact: for every k >= 1 and every supply of fresh ids and nonces some run with at most k calls in flight reaches 49 + k |
| Pairing.RunKeepsInv | src/services/proof-pairing.ts:486-771 | every step of every schedule keeps the whole invariant: row states, nonce uniqueness, what each submit has established, winners, counted failures; and every row only evolves |
| PairingCalls.AcceptedIffAcceptable | src/services/proof-pairing.ts:486-771 | the steps of a submit that nothing interrupts accept exactly the acceptable requests, answer all others with the error of the first check that fails, and change the table as said: consumed for the user, or one failure more for the five kinds of failure that count, or nothing |
| PairingExpiry.WinnersGatedInTime | src/services/proof-pairing.ts:535-541 | over every run, whoever consumed a session passed the gate before the session's expiry |
| PairingExpiry.OpenedForFiveMinutes | src/services/proof-pairing.ts:418-458 | over every run a session appears only by the insert of a call that counted, for its tenant and environment, with an id and a nonce its tenant does not have yet, and lasts five minutes |
| PairingExpiry.OverdueNeverVerified | src/services/proof-pairing.ts:527-541 | a submit not past the gate once the clock has reached the expiry never reaches the verifier in any continuation, swept or not, and counts nothing |
| PairingExpiry.IssuedIff | src/services/proof-pairing.ts:926-933 | over every run, a session is still issued exactly when no submit won it, fewer than three failures were counted and no sweep found it overdue |
| PairingExpiry.LateConsumptionIff | src/services/proof-pairing.ts:643-652 | a claim at or after the expiry consumes the session if and only if no sweep came between expiry and claim and nobody won or locked the session; the gate was passed in time either way |
| PairingExpiry.LateConsumptionHappens | src/services/proof-pairing.ts:643-652 | a reachable run for every delay: a session is consumed that much after it was opened |
| PairingCalls.SessionTable.SubmitProof | src/services/proof-pairing.ts:486-771 | accepted if and only if acceptable; the answer in every other case, an absent, empty or wrong token among them; the whole new table in each case |
| PairingCalls.SessionTable.FirstFailure | src/services/proof-pairing.ts:550-642 | checks 3 to 8 pass exactly when the policy does, the token is there, not empty, and hashes to the stored hash, and user, signals and verifier pass; and else give the first failure |
| PairingCalls.SessionTable.CreateSession | src/services/proof-pairing.ts:406-458 | refused exactly at 50 sessions that are issued and not over, or when the id or the tenant's nonce is taken; otherwise one new session of five minutes |
| PairingCalls.SessionTable.IncrementFailureCount | src/services/proof-pairing.ts:260-275 | the new count, and failed from the third on; 0 when no row matches, -1 when the column would overflow, and then no change |
| PairingCalls.SessionTable.ExpireOverdueSessions | src/services/proof-pairing.ts:926-933 | same sessions; an issued one becomes expired if and only if it is overdue; nothing else changes in any row; the live sessions of every tenant are what they were |
| LoginChecks.SignalFixesNonce | src/services/proof-pairing.ts:623-639 | equal signals accepted against two stored nonces mean equal nonces, for any two users |
| LoginChecks.CheckVerdicts | src/services/proof-pairing.ts:618-641 | which verdict checks 5 to 7 give in which case: a malformed input is reported only if no comparison failed before it was read |
| LoginChecks.NonceInjective | src/services/proof-pairing.ts:186-197 | different stored nonces are different field elements |
| BigIntCompare.TimingSafeExact | src/services/proof-pairing.ts:199-206 | the comparison of non-negative numbers is equality of what it keeps: all digits unless there are more than 64 and an odd number of them, then all but the last |
| BigIntCompare.CompareWithNatural | src/services/proof-pairing.ts:199-206 | no negative number is accepted against a non-negative one, and a non-negative one exactly when what the comparison keeps of both is equal |
| BigIntCompare.CompareWithFieldElement | src/services/proof-pairing.ts:199-206 | against a 32-byte number, any BigInt is accepted exactly when equal, or when it has 65 hexadecimal digits that begin with the other's 64 |
| BigIntCompare.LongerNumberAccepted | src/services/proof-pairing.ts:199-206 | against every number of 64 hexadecimal digits, the number with any one digit more is accepted |
| BigIntCompare.FieldSizedEqual | src/services/proof-pairing.ts:199-206 | among 32-byte numbers it is equality |
| Json.CanonicalizeExact | src/services/audit.ts:75-91 | two values have the same canonical text if and only if they are the same value once every [undefined] is read as []; without such arrays, if and only if they are the same value |
| Json.LoneUndefinedCollides | src/services/audit.ts:79-81 | the collision: join writes nothing for an undefined item, so [undefined] and [] are both [] |
| Json.SameValueSameReading | src/services/audit.ts:82-90 | the reading is a function of the value: insertion order never shows |
| Json.FramingDecodable | src/services/audit.ts:96-105 | canonical object text followed by anything splits in one way only, up to that same identification |
| Json.StringifyPrefix | src/services/audit.ts:75-91 | among values without [undefined], no text is a proper prefix of another where more text may follow |
| Json.NumberInjective | src/services/audit.ts:76-78 | number texts determine the number, in plain, small and exponent form |
| JsonText.KeyOrder | src/services/audit.ts:82-83 | keys are ordered by their UTF-16 code units: the first unit in which two differ is smaller, or the one is a proper prefix of the other |
| JsonText.ObjectText | src/services/audit.ts:82-90 | the text of an object lists each of its properties once, neighbouring keys in that order |
| JsonText.ObjectTextIs | src/services/audit.ts:82-90 | and whoever lists the properties in that order has the text, from whatever order they were given in |
| JsonText.TwoKeys | src/services/audit.ts:82-90 | of two keys given in the wrong order, the smaller one is written first |
| JsonText.OtherTexts | src/services/audit.ts:76-81 | arrays keep their order, with commas between and nothing for an undefined item; null, true and false |
| JsonText.QuoteIsRead | src/services/audit.ts:76-78 | a JSON reader (section 7 of RFC 8259) reads the quoted string back |
| JsonText.EscapesAreShortest | src/services/audit.ts:76-78 | exactly quotes, backslashes and control characters are escaped, and in the shortest way (section 3.2.2.2 of RFC 8785) |
| JsonText.NumberTextMeans | src/services/audit.ts:76-78 | the text of a number is a JSON number of its sign and value without a zero too many, with an exponent exactly from 10^21 on and below 10^-6 |
| HashedText.EventHashIs | src/services/audit.ts:96-105 | what is hashed for an event: its ten columns under their names in key order, a bar, the previous hash; written with 0x before it |
| HashedText.EntryHashIs | verifier/src/audit-log.ts:236-250 | what is hashed for a row of the verifier's log: its thirteen columns under their names in key order, and the previous hash |
| HashedText.NaturalText | verifier/src/audit-log.ts:236-250 | a natural number below 10^21 is written as its decimal numeral |
| AuditChain.EventLinkBinds | src/services/audit.ts:96-105 | with a collision-free hash, equal event hashes mean equal previous hashes and payloads equal in all the hash covers (metadata as a value, [undefined] read as []), and no event hash is 'genesis' |
| AuditChain.SamePayloadIsEqual | src/services/audit.ts:96-105 | payloads without [undefined] that are equal in all the hash covers are equal as values |
| AuditChain.UndefinedItemUnseen | src/services/audit.ts:79-81 | an event with [undefined] in its metadata and the same event with [] have the same hash, whatever the hash function |
| AuditChain.SamePayloadSameHash | src/services/audit.ts:96-105 | payloads equal in what the hash covers have the same hash, whatever the hash function |
| AuditChain.VerifyAuditChain | src/services/audit.ts:247-322 | the replay loop returns the verdict of the replay function on the selected window: of the rows of that tenant and environment with an id of at least startId, in id order, the first limit |
| AuditChain.WindowRows | src/services/audit.ts:256-274 | the window holds no other rows, and every such row up to the limit |
| AuditChain.ReplayExact | src/services/audit.ts:276-319 | replay passes exactly the logs in which every hashed row recomputes and names its predecessor's hash; otherwise it reports the first row that does not, for its previous hash if that is wrong and else for its event hash |
| AuditChain.AppendKeepsChain | src/services/audit.ts:160-186 | committing any event behind the head, hashed as given and read back as stored, keeps the chain genuine, over any number of rows from before the chain |
| AuditChain.HeadIs | src/services/audit.ts:112-125 | the previous hash is the event hash of the last hashed row of that tenant and environment, rows of others in between or not, and 'genesis' if there is none |
| AuditChain.WindowVerdict | src/services/audit.ts:276-322 | every slice of a genuine chain: intact if and only if none of its events was given an undefined, and otherwise broken at the first such row, for its event hash |
| AuditChain.WindowsVerdict | src/services/audit.ts:247-274 | the same verdict for every window a startId and a limit select |
| AuditChain.HashesDistinct | src/services/audit.ts:96-105 | all event hashes of a genuine chain differ, whatever was logged |
| AuditChain.AuditTamperEvidence | src/services/audit.ts:232-322 | two fully hashed logs that pass replay and end in the same event hash agree row by row from the end; if both start at 'genesis' they have the same length; for logs as read from the table the agreement is equality of values |
| AuditChain.TamperEvidence | src/services/audit.ts:276-322 | the same for any link that binds payload and previous hash |
| AuditChain.ReplacedRowVerdict | src/services/audit.ts:276-322 | the exact verdict for every replacement of one row of any intact window, rows from before the chain included: reported there and why, reported at the next row for its previous hash, or unnoticed (hash columns nulled, or self-consistent and named by the next hashed row, if any) |
| AuditChain.AlteredRowReported | src/services/audit.ts:304-317 | in any intact window, changing what the hash of a hashed row covers while leaving the stored hash is reported at that row |
| AuditChain.DeletedRowVerdict | src/services/audit.ts:276-322 | the exact verdict for deleting one row of any intact window: reported at the next row, for its previous hash, exactly when both neighbours are there, hashed, and do not fit each other |
| AuditChain.DeletedChainRowVerdict | src/services/audit.ts:276-322 | in an intact window of a genuine chain that is: exactly when the deleted row was neither first nor last of the window nor first of the chain, and came after the rows older than the chain |
| AuditChain.CommittedRowReplays | src/services/audit.ts:164-184 | a committed row passes replay if and only if nothing in its metadata was undefined |
| AuditChain.ClaimedRowReplays | src/services/proof-pairing.ts:716-722 | the committed pairing.claimed row passes replay exactly when the client sent proofMs, platform and playIntegrityVerdict, whatever their values |
| AuditChain.StoredReading | src/services/audit.ts:75-91 | the hash input of the stored metadata is that of the metadata given exactly when nothing in it was undefined |
| AuditChain.StoredMeaning | src/services/audit.ts:180-181 | metadata survives the JSONB column with its meaning exactly when it holds no undefined |
| AuditChain.StoredValue | src/services/audit.ts:180-181 | what the JSONB column returns: undefined properties are gone, undefined items are null, the rest is unchanged |
| AuditWriters.NoForks | src/services/audit.ts:141-237 | any number of writers with begin, lock, head read, insert, commit and abort interleaved, with any metadata and any hash function: each committed row is what append makes of its event behind its immediate predecessor in id order of its own (tenant, environment) |
| AuditWriters.EachRowNamesItsPredecessor | src/services/audit.ts:141-237 | after every run each hashed row holds an event some call submitted, its hash is made of that event and its previous hash, and that is the event hash of the hashed row with the greatest smaller id of its own tenant and environment, or 'genesis' |
| AuditWriters.GivenWasSubmitted | src/services/audit.ts:141-186 | the event on record for a committed row is one that some call of the run submitted |
| AuditWriters.ReachableTablesReplay | src/services/audit.ts:141-322 | the exact verdict on every window of every reachable table: intact if and only if no event in it was given an undefined, otherwise broken at the first row whose event was |
| AuditWriters.CleanRunsReplay | src/services/audit.ts:247-322 | as long as no caller passes an undefined, every window of every reachable table is intact |
| AuditWriters.RunKeepsInv | src/services/audit.ts:141-237 | the invariant of table, locks and open transactions over every run |
| AuditWriters.OneWriterPerTenant | src/services/audit.ts:147-154 | two writers past the advisory lock never work on one tenant, even when lock keys collide |
| AuditWriters.NoStaleLocks | src/services/audit.ts:147-237 | over every run each lock is held by an open transaction of its key: commits, rollbacks and crashes free it |
| AuditWriters.AppendAlone | src/services/audit.ts:141-186 | an append whose lock is free commits its row under the next id behind the head, and leaves nothing else behind |
| VerifierLog.AcceptedTablesEqual | verifier/src/audit-log.ts:236-302 | two accepted tables with the same last entry hash are equal, if the hash has no collisions and never gives the all-zero value |
| VerifierLog.SerialLinkBinds | verifier/src/audit-log.ts:236-250 | serialisation and concatenation with the previous hash bind all thirteen columns and the previous hash |
| VerifierLog.WalkExact | verifier/src/audit-log.ts:266-302 | the walk counts every row of a good chain and else stops at the first bad row with its sequence |
| VerifierLog.AcceptedIsGood | verifier/src/audit-log.ts:266-302 | accepted if and only if every row links and recomputes |
| VerifierLog.VerifyRows | verifier/src/audit-log.ts:266-302 | the loop is that walk |
| VerifierLog.AuditLog.Init | verifier/src/audit-log.ts:115-152 | after a start, on an empty or a filled table or repeated, the in-memory sequence and hash are those of the table; a start that fails leaves the log open, and in order if and only if the table is empty |
| VerifierLog.AuditLog.InsertGenesisRow | verifier/src/audit-log.ts:154-179 | one system row at sequence 0 with the columns and the hash the source gives it, or nothing |
| VerifierLog.AuditLog.AppendEvent | verifier/src/audit-log.ts:185-210 | whatever the memory holds: the event's row at the sequence and behind the hash in memory, which are the table's unless a start failed; or no change of table or memory, and that only on a closed log, a failing engine or a key already there |
| VerifierLog.StaleAppendIsCaught | verifier/src/audit-log.ts:266-302 | an event appended after a failed start over a filled table makes the next verification stop after one row at sequence 0, in whichever order the two rows at sequence 0 are read |
| VerifierLog.SecondStartIsCaught | verifier/src/audit-log.ts:266-302 | the same for any table that reads as starting twice, whatever follows |
| VerifierLog.AuditLog.InsertRow | verifier/src/audit-log.ts:212-226 | the row is added at the end or nothing changes; ids and entry hashes stay unique; it is refused only for a failing statement or a key already there |
| VerifierLog.AuditLog.Restart | verifier/src/audit-log.ts:115-120 | a restart forgets the memory, not the table |
| VerifierLog.AuditLog.VerifyChain | verifier/src/audit-log.ts:266-302 | on any table reached this way the answer is ok with all rows checked, whatever the memory holds; no answer on a closed log |
| RegistrationSafety.CeremonyShape | src/services/registration.ts:325-332 | in every reachable state the stage fixes which one code is outstanding and which of device, DID, commitment, nonce and user are set |
| RegistrationSafety.StagesMoveForward | src/services/registration.ts:865-878 | stages only move forward or to abandoned, and final ones never change |
| RegistrationSafety.CodesAreSingleUse | src/services/registration.ts:397-464 | each minted code advances at most one session once, the session and step it was minted for, before it expires; the advances on record are, session by session, the forward moves of its stage in the run, one for each stage it has left |
| RegistrationSafety.RecordedAdvancesAreMoves | src/services/registration.ts:397-464 | the record of a session is exactly the sequence of its forward stage moves, each with the code presented and the time |
| RegistrationSafety.OneUserPerCompletedSession | src/services/registration.ts:757-791 | completed sessions and ceremony users correspond one to one |
| CeremonyChecks.CompletedHonestly | src/services/registration.ts:626-791 | over every run each completed session was completed by a step with the right code, the nonce given out at its commitment, a first signal that reads as the stored commitment, and a proof the verifier accepts over its signals; the commitment and DID by a step with the right code before that; the device by a step with the first code and a valid fingerprint |
| CeremonyChecks.StartVerdict | src/services/registration.ts:311-340 | a session starts awaiting its device, for half an hour, with a code for fifteen minutes |
| CeremonyChecks.PairVerdict | src/services/registration.ts:376-464 | each error with its check, in order; else the device row and the session, column by column |
| CeremonyChecks.SubmitVerdict | src/services/registration.ts:516-571 | each error with its check, in order; else the session, column by column |
| CeremonyChecks.CompleteVerdict | src/services/registration.ts:626-791 | each error with its check, in order, the verifier's among them; else the user and the session, column by column |
| CeremonyChecks.AbandonVerdict | src/services/registration.ts:858-882 | only the session's own tenant and environment abandon it; codes and nonce go |
| CeremonyChecks.DidShape | src/services/registration.ts:525-527 | the shape of a DID, character by character |
| EndToEnd.CeremonyUsersLogIn | src/services/proof-pairing.ts:331-353 | end to end: a login under the DID of a completed session's user is checked against that very user, and passes the commitment and nonce checks exactly with three signals denoting the element c the server read and Poseidon2(Poseidon1(c), nonce), for elements of any size; and c is the element sent unless digits only were sent |
| EndToEnd.ConsumedByItsOwner | src/services/proof-pairing.ts:500-685 | every run of logins beside every run of ceremonies: a consumed session is bound to the ceremony user of a completed signup who owns the DID its one winning submit presented, and that submit's proof verified over three signals denoting this user's element and its fold with this session's nonce |
| EndToEnd.CeremonyUserIsFound | src/services/db.ts:217-218 | by the unique index on (tenant, environment, did), the lookup by a ceremony user's DID finds that very user in every reachable state |
| EndToEnd.StoredValues | src/services/registration.ts:743-755 | every reachable user's metadata holds the decimal commitment and Poseidon fold of the element the server read |
| EndToEnd.UsersStay | src/services/registration.ts:757-791 | no user the ceremony created ever goes or changes in later steps of it |
| RegistrationSafety.CeremonyDevicesUnique | src/services/registration.ts:425-449 | with the ceremony among the writers, one device per fingerprint in a tenant and environment |
| RegistrationSafety.RunKeepsInv | src/services/registration.ts:311-878 | every transaction, and every other writer of devices, keeps the ceremony invariant |
| CeremonyStore.CeremonyTables.StartRegistration | src/services/registration.ts:311-340 | the tables afterwards, column by column, which are those of the specified step |
| CeremonyStore.CeremonyTables.PairDevice | src/services/registration.ts:376-464 | tables and error, check by check: code, expiries, upsert, next code; they are those of the specified step |
| CeremonyStore.CeremonyTables.SubmitCommitment | src/services/registration.ts:516-571 | tables and error, check by check: shapes, code, normalised DID and commitment, next code and nonce |
| CeremonyStore.CeremonyTables.CompleteRegistration | src/services/registration.ts:626-791 | completed if and only if code, challenge, commitment and proof are right and the database takes the user; the error of each failing check, in order; all columns written |
| CeremonyStore.CeremonyTables.AbandonRegistration | src/services/registration.ts:858-882 | codes and nonce cleared, by the own tenant and environment only; a completed session stays completed |
| CeremonyStore.CeremonyTables.LockSession | src/services/registration.ts:542-555 | the session is found exactly when code, stage and both expiries match |
| LoginAgreement.RegistrationLoginAgreement | src/services/proof-pairing.ts:611-639 | login accepts the registered user's signals exactly when they denote the registered element, of any size, and its Poseidon fold with the nonce; plain equality for field-sized elements and signals |
| LoginAgreement.RegisteredAsSent | src/services/registration.ts:196-223 | the server reads the element the phone sent if and only if the text has a 0x prefix or a letter, or the element is below ten |
| LoginAgreement.HonestPhoneCompletes | src/services/registration.ts:231-236 | an honest decimal signal passes the commitment check of /complete exactly then |
| LoginAgreement.DigitsOnlyRefused | src/services/registration.ts:196-223 | an input: sixteen written with 32 digits is read as ten, and the honest phone is refused |
| LoginAgreement.CommitmentOfDecimal | src/services/registration.ts:214-219 | a decimal numeral is read back as its number |
| LoginAgreement.CommitmentShape | src/services/registration.ts:528-530 | the shape of a commitment, character by character |
| LoginAgreement.ParseCommitmentIs | src/services/registration.ts:196-223 | how a commitment is read: hexadecimal with a 0x prefix or a letter from a to f of either case, anything else as BigInt reads it |
| Devices.OneDevicePerFingerprint | src/services/platform.ts:428-476 | two devices of one tenant and environment never share a fingerprint hash, however claims, creates and upserts race |
| Devices.CodeExactlyOnPending | src/services/platform.ts:289-307 | a code hash is present exactly on pending rows, and those have no fingerprint |
| Devices.BoundFingerprintNotClaimed | src/services/platform.ts:440-460 | a fingerprint bound to any device, revoked ones included, cannot be claimed for another slot |
| Devices.UpsertReenrolls | src/services/registration.ts:425-449 | the registration upsert re-enrolls that same device |
| Devices.StepKeepsInv | src/services/db.ts:152 | every writer keeps the table invariant under the unique constraint |
| Devices.LockedRowStays | src/services/platform.ts:420-476 | from the find of a claim to its end no other writer changes the row it holds, over every run |
| Devices.OthersGoOn | src/services/platform.ts:341-616 | and no other row: a writer whose row no claim holds does what it would do without any claim |
| DeviceStore.DeviceTable.CreateDevice | src/services/platform.ts:192-226 | exactly when it is done, and then an enrolled row with all its columns; else no change |
| DeviceStore.DeviceTable.IssueEnrollmentCode | src/services/platform.ts:270-307 | exactly when it is done, and then a pending row with all its columns, claimable by its code for fifteen minutes |
| DeviceStore.DeviceTable.RegenerateEnrollmentCode | src/services/platform.ts:341-366 | only pending rows; a new code for fifteen minutes, by which and no other the row can be claimed |
| DeviceStore.DeviceTable.ClaimDeviceWithCode | src/services/platform.ts:407-476 | which outcome, and the row written, column by column: each error exactly or only under its condition, nothing changed on error |
| DeviceStore.DeviceTable.RevokeDevice | src/services/platform.ts:518-537 | the row is revoked and retired and loses its code; no code claims it |
| DeviceStore.DeviceTable.UpdateDevice | src/services/platform.ts:579-616 | each column given is written, each one not given stays, blank names and locations counting as not given; state, codes and fingerprint stay |
| DeviceStore.ClaimIsItsStatements | src/services/platform.ts:420-476 | an uninterrupted claim is its three statements in a row |
| DeviceStore.FindIs | src/services/platform.ts:407-436 | the first statement of a claim takes what may be claimed and is free, and nothing else |
| EnrollmentCode.NormaliseRecognises | src/services/device-enrollment.ts:83-91 | for every upper-case mapping like Unicode's, a typed text is taken for a generated code exactly when they agree up to case, blanks and hyphens; generated codes are fixed points |
| EnrollmentCode.NormaliseIdempotent | src/services/device-enrollment.ts:83-91 | normalising twice is normalising once |
| EnrollmentCode.NormaliseIs | src/services/device-enrollment.ts:83-91 | ten characters that begin with ZA are put in groups, anything else is left bare |
| EnrollmentCode.AlphabetIs | src/services/device-enrollment.ts:57 | the alphabet: digits from 2 and capital letters without I, L, O and U |
| EnrollmentCode.GenerateEnrollmentCode | src/services/device-enrollment.ts:61-73 | ZA-XXXX-XXXX over the alphabet, the letters the random indices pick |
| R307.ChunkingIndependent | iot/src/sensor.ts:196-205 | for every stream and every way of cutting it into chunks the emitted packets and the rest are those of one-shot parsing |
| R307.BuiltStreamParses | iot/src/sensor.ts:105-155 | built packets with header-free noise before, between and after them parse to exactly those packets |
| R307.BuildPacket | iot/src/sensor.ts:105-122 | byte by byte: header, address, packet id, length, payload, and as checksum the sum of all bytes from the packet id on, modulo 65536; refused exactly above 65533 bytes |
| R307.PacketBytesAre | iot/src/sensor.ts:105-122 | the same of the packets the other results speak of |
| R307.TryParsePacket | iot/src/sensor.ts:135-155 | the packet behind the first header if all of it is there, field by field, and nothing otherwise |
| R307.ParserIsIncremental | iot/src/sensor.ts:135-155 | a packet that parses still parses the same with more bytes behind it, and every packet consumes bytes |
| R307.R307Sensor.OnData | iot/src/sensor.ts:196-205 | terminates; the buffer is the undrained rest, and the packets go to the oldest waiters in order, extra ones are dropped |
| R307.TemplateRoundTrip | iot/src/sensor.ts:409-462 | a template written in data packets and received in any chunks is reassembled to itself |
| R307.WriteTemplate | iot/src/sensor.ts:438-462 | refused exactly for empty, oddly sized or oversized data; else the wire bytes of the data packets |
| R307.DataPacketsAre | iot/src/sensor.ts:451-458 | pieces of one size in order, flagged 02 and the last one 08, which make up the data |
| R307Commands.DownloadCharacteristic | iot/src/sensor.ts:438-462 | nothing is sent for bad lengths; then the command; data follow only a positive acknowledgement, and then exactly the data packets; each failure with its answer |
| R307Commands.TransferArrives | iot/src/sensor.ts:438-462 | the other end of the wire, in any chunks, gets the command and packets that reassemble to the template |
| R307Commands.Cmd | iot/src/sensor.ts:250-258 | the verdict on the answer, each with its condition: time-out, wrong kind, no code, refused, confirmed |
| R307Commands.CommandBytesAre | iot/src/sensor.ts:250-258 | the command packet, byte by byte |
| R307.UploadCharacteristic | iot/src/sensor.ts:416-425 | the reading loop is the reassembly function, wrong packet kinds included |
| R307.ReassembleIs | iot/src/sensor.ts:416-425 | what is received: the payloads up to the first packet flagged 08, or that another packet came first, or nothing yet |
| R307.DecodeBitmaps | iot/src/sensor.ts:305-312 | the three loops list the set positions of every page, whatever the bitmaps' lengths |
| R307Commands.ReadIndexTable | iot/src/sensor.ts:297-315 | the bytes sent are the commands for pages 0, 1, 2, ... up to the first that is not confirmed, which is reported; else the slots of all the bitmaps received |
| R307Commands.PageCommandsAre | iot/src/sensor.ts:297-304 | the command for each page, byte by byte |
| R307.IndexTableExact | iot/src/sensor.ts:305-312 | on 32-byte pages that is exactly the marked slots, 256 a page and 8 a byte, ascending |
| R307.BitSetIs | iot/src/sensor.ts:305-312 | bit i of a byte is that of its i-th power of two |
| CborCodec.ReadIffEncoded | src/routes/demo-portal.ts:507-575 | a read that stays inside the buffer gives value v and end e if and only if the bytes up to e are a well-formed encoding of v |
| CborCodec.EncodeThenRead | src/routes/demo-portal.ts:513-548 | reading an encoding with any bytes behind it returns the value and consumes exactly the encoding |
| CborTruncated.TruncatedIff | src/routes/demo-portal.ts:521-526 | a read that ends past the buffer succeeds if and only if the bytes there are a well-formed encoding with some bytes of its last text missing, however deeply that text is nested, and gives the value with that text cut short |
| CborTruncated.ClaimedEnd | src/routes/demo-portal.ts:524 | the offset is then where the whole encoding would have ended |
| CborCodec.FaithfulIffRepresentable | src/routes/demo-portal.ts:519-543 | with distinct keys the value read is the value encoded exactly when every integer is a double and no key is __proto__ |
| Cbor.ReadItem | src/routes/demo-portal.ts:513-548 | a successful read starts inside the buffer and consumes at least one byte |
| Cbor.LargeStaysLarge | src/routes/demo-portal.ts:520-527 | rounding never brings a length of 2^53 or more below 2^53 |
| Cbor.ToNumberRounds | src/routes/demo-portal.ts:519-527 | the number of a length is the double nearest to it, ties to even |
| Cbor.HeadErrors | src/routes/demo-portal.ts:513-574 | which error a head gives that is not of the subset or not all there |
| Cbor.ItemErrors | src/routes/demo-portal.ts:527-544 | lists and maps fail with the error of their first item that fails, or for a key that is not a text |
| Cbor.CborReader.Read | src/routes/demo-portal.ts:513-548 | the object's method terminates on every input and is the specified reader |
| Cbor.CborReader.ReadArray | src/routes/demo-portal.ts:527-532 | the array loop |
| Cbor.CborReader.ReadMap | src/routes/demo-portal.ts:533-544 | the map loop |
| Cbor.CborReader.ReadLength | src/routes/demo-portal.ts:557-574 | head arguments of 0, 1, 2, 4 and 8 bytes |
| Cbor.CborReader.ReadByte | src/routes/demo-portal.ts:550-555 | takes the first of the remaining bytes off, or fails at the end without moving |
| Otp.ConsumedWasVerified | iot/src/otp.ts:125-189 | over every run, a consumed token was minted for the same address and kind at most two minutes before, by the code issued less than five minutes before that, after fewer than five earlier comparisons |
| Otp.OneTokenOneUse | iot/src/otp.ts:180-189 | no token is consumed twice, no code mints two tokens, no two mintings share a token |
| Otp.FiveGuesses | iot/src/otp.ts:139-155 | no issued code is ever compared more than five times |
| Otp.KindAlwaysMatches | iot/src/otp.ts:135-137 | in every reachable store an entry's kind agrees with its key, so kind_mismatch is never answered |
| Otp.ConsumeRecorded | iot/src/otp.ts:180-189 | true is answered exactly when a use is recorded, and the token is gone either way |
| Otp.VerifiedIff | iot/src/otp.ts:125-171 | in every reachable store: Verified if and only if an entry that is not over is pending there with the hash of the code, and then with the token and expiry now stored; and the one reason of each other answer |
| Otp.KeyInjective | iot/src/otp.ts:105 | map keys determine address and kind, whatever the address contains |
| Otp.RunKeepsInv | iot/src/otp.ts:103-195 | the invariant relating both maps to the record, over every run, with any clock |
| Otp.OtpStore.Request | iot/src/otp.ts:103-123 | refused for thirty seconds after the last one, with the time left; else a new entry for five minutes |
| Otp.OtpStore.Verify | iot/src/otp.ts:125-171 | the answer in each case, and both maps and the record afterwards |
| Otp.OtpStore.ConsumeSession | iot/src/otp.ts:180-189 | true exactly for a token that is there, not over, and of that address and kind; it is gone either way |
| Otp.OtpStore.Gc | iot/src/otp.ts:191-195 | exactly the entries past their expiry go, in both maps |
| RateLimit.AdmittedIffEarly | src/middleware/rate-limit.ts:106-164 | with a clock that does not run back, cleanups included, a request is admitted exactly when fewer than max came before it under its key prefix in its window, and is told how many are left |
| RateLimit.WindowBound | src/middleware/rate-limit.ts:81-97 | at most max requests of an identity are admitted per window |
| RateLimit.IntervalBound | src/middleware/rate-limit.ts:106-164 | at most 2 max in any closed interval of window length |
| RateLimit.TwiceWithinTwoMilliseconds | src/middleware/rate-limit.ts:81-83 | that bound is reached within two milliseconds |
| RateLimit.RetryAfterIsExact | src/middleware/rate-limit.ts:151-160 | Retry-After is the least number of seconds that ends in a later window, and the request made then is admitted |
| RateLimit.SameBucket | src/middleware/rate-limit.ts:95-97 | two requests of a route share a bucket exactly when they share identity and window, colons in identities notwithstanding |
| RateLimit.BucketKeyInjective | src/middleware/rate-limit.ts:95-97 | a bucket key determines its prefix and its window |
| RateLimit.BucketTable.Request | src/middleware/rate-limit.ts:109-163 | bucket, count, remaining, reset and Retry-After, from the last multiple of the window length |
| RateLimit.BucketTable.Cleanup | src/middleware/rate-limit.ts:171-173 | exactly the buckets whose window is over go, the others keep their counts, and no window still running loses a request |
| TenantLimit.FewerThanTwice | src/middleware/tenant-auth.ts:82-101 | in any closed interval of 15 minutes at most 2 limit - 1 calls of a tenant are admitted |
| TenantLimit.PerWindow | src/middleware/tenant-auth.ts:82-101 | each window admits at most the limit |
| TenantLimit.AlmostTwiceAtOnce | src/middleware/tenant-auth.ts:85-91 | 2 limit - 1 is reached, within two milliseconds |
| TenantLimit.RetryAfterIfFractional | src/middleware/tenant-auth.ts:92 | waiting retryAfterSeconds exactly gets the next call admitted if and only if the rest of the window is not a whole number of seconds; one millisecond more always does |
| TenantLimit.TenantWindows.Call | src/middleware/tenant-auth.ts:83-101 | a new window more than 900,000 milliseconds after the last began, else one call more in it; refused above the limit with the seconds left |
| RingBuffer.LogRingBuffer.Tail | src/services/log-ring-buffer.ts:166-184 | the last min(n, capacity) entries since the last clear, oldest first, at every wrap-around position |
| RingBuffer.LogRingBuffer.Push | src/services/log-ring-buffer.ts:125-134 | appends the redacted entry to the history and keeps the slots in step |
| RingBuffer.LogRingBuffer.Size | src/services/log-ring-buffer.ts:110-112 | min(pushes since the last clear, capacity) |
| RingBuffer.LogRingBuffer.Clear | src/services/log-ring-buffer.ts:201-205 | empty history, every slot released |
| RingBuffer.RedactMeta | src/services/log-ring-buffer.ts:72-80 | same keys in order; values under banned keys replaced, all others untouched, for any lower-case mapping |
| RingBuffer.BannedAre | src/services/log-ring-buffer.ts:55-80 | which keys are banned, and what replaces their values |
| RingBuffer.RedactionIdempotent | src/services/log-ring-buffer.ts:72-80 | redacting twice is redacting once |
| RingBuffer.SlotsDiffer | src/services/log-ring-buffer.ts:125-134 | fewer than capacity consecutive positions fall on different slots |
| RingBuffer.OldestSlot | src/services/log-ring-buffer.ts:166-184 | the start index computed from head and count is the slot of the oldest entry held |
| JsText.TrimIs | src/services/platform.ts:82-86 | trimming takes the blanks at both ends and nothing else |
| JsText.BigIntIs | src/services/proof-pairing.ts:213-226 | BigInt of a text: sign, radix prefix, digits, and None for anything else |

## Left out

- R307Commands.DownloadCharacteristic: how long the driver waits for an answer, and the serial port; the length test of a chunk is the 16-bit field that `writeUInt16BE` enforces.
- R307Commands.ReadIndexTable: page numbers above 255, which the sensor's library never reaches, are sent modulo 256 as `Buffer.from` does.
- R307.R307Sensor.OnData: waiters are numbers; time-outs and rejections that remove a waiter are not modelled, and neither are finger polling and the other commands.
- Cbor.ReadItem: offsets are exact; the double addition behind an offset past 2^53, which only a text claiming that many bytes reaches, is not rounded, and nothing reads at such an offset.
- VerifierLog.AuditLog.VerifyChain: as a method over tables in sequence order, so not after an append that followed a failed start; there the verdict is VerifierLog.StaleAppendIsCaught.
- R307.UploadCharacteristic: its command and acknowledgement, which are those of R307Commands.Cmd.
- AuditWriters.NoForks: other tables, deletions and foreign-key updates of audit rows are not modelled; metadata is a well-formed JSON object with `undefined` allowed anywhere below it.
- PairingSafety.ReplayExclusion: signals are strings; a number or bigint given to parseBigIntFromSignal cannot arrive in a JSON body as a bigint and is not modelled.
- RateLimit.IntervalBound: one window length for all routes, as in the repository (60 seconds); the request's clock and the database's are one clock, and the counter is bumped in the step that reads it.
- RateLimit.BucketTable.Request: the identity is resolved and the store answers; the fail-open branches are not modelled.
- DeviceStore.DeviceTable.UpdateDevice: metadata is its JSON text; created_at, updated_at, device_type and attestation_kind are left out of all device rows; an unparsable timestamp is rejected before the update.
- CeremonyStore.CeremonyTables.PairDevice: the upsert waits for a row lock in the source; in a single call there is none, and in the interleaved model a locked row is left alone until a later attempt.
- Otp.OtpStore.Verify: SHA-256 is a function of the code; its constant-time comparison is equality.
- The tables of the pairing protocol and of the concurrent audit writers are values in a transition system rather than objects, because what matters there is the interleaving of statements; PairingCalls has the same calls as methods on a table.
- The proof_hash update after a claim, token issuing, and audit writes inside submitProof; an audit failure after the claim leaves the session consumed.
- Play Integrity policy: one boolean per submit (src/services/play-integrity.ts is a finite table).
- subscribeStream, getSession and getSessionPublicMinimal only read; latency padding and constant-time behaviour are about time.
- EndToEnd.CeremonyUserIsFound: users are those of the ceremony, whose metadata names the DID of their row; other writers of tenant_users, profile fields and the demo code cache of the ceremony are not modelled.
- The claim-token map and decodeProofQr's shape checks in src/routes/demo-portal.ts: one-shot tokens are the pattern proved for the one-time passwords, the rest are straight-line checks, around gzip and base64.
- JavaScript strings are sequences of Unicode scalar values: no lone surrogates, and lengths and slices count characters where JavaScript counts UTF-16 units, which differs for characters above U+FFFF in a fingerprint, a typed code or a session id; blanks are JavaScript's white space. Upper-casing is taken character by character, as Unicode defines it; all that is assumed of it is in `Runtime.UpperCases`, and nothing is assumed of lower-casing. NaN, infinities and -0 do not occur in JSON values here. latency_us is a natural number.
- Objects are lists of distinct keys: integer-like keys that JavaScript moves to the front, `__proto__` as a key of audit or log metadata, and prototype lookups after a `__proto__` assignment in the CBOR reader are not modelled; neither is the depth of its call stack.
- JSONB's own normalisation of numbers and of the NUL character.
- LogRingBuffer's rejection of a bad capacity, its listeners and the logging transport.
- SMTP, HTTP routing, cookies, CORS, dashboards, blockchain anchoring, API keys, webhooks and usage counters: plumbing without a deep invariant.
