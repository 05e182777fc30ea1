# go-spark: verified model

go-spark is a starter for web applications in Go. This project models the parts of it that keep
state over time, and proves what their comments and tests promise.

* **Email outbox** (`EmailOutbox`, `OutboxProtocol`, `OutboxDelivery`, `OutboxMessages`,
  `OutboxRedelivery`, `OutboxProgress`, `OutboxPruning`, `OutboxWorker`, `Utf8`). Workers claim rows
  under a lease, send, and mark them, while rows are enqueued and pruned. The SQL statements are the
  atomic steps of a protocol; its theorems hold for every interleaving. The worker's delivery cycle
  is a method that other steps may interrupt between any two of its statements, and it is proved to
  be a run of the protocol.
* **Rate limiter** (`RateLimiter`, `RateLimitPolicies`, `ForwardedFor`). The fixed-window limiter as
  a class, how many calls it lets through in any span of time, and why its lazy expiry and its
  sweeps change no decision; the resolution of policies; the scan of `X-Forwarded-For`.
* **Accounts** (`Accounts`, `AccountsEffects`, `AccountsSafety`, `AuthService`, `AccountsCleanup`,
  `CleanupJob`). Registration, verification, email change, password reset, sessions and deletion as
  transactions over tables; where verified addresses come from, single use of tokens, the age of
  sessions; why the cleanup job cannot be noticed.
* **TOTP** (`Totp`, `TotpEffects`, `TotpSafety`, `BackupCodes`). Time steps are never replayed,
  backup codes are used once, and a typed code matches a printed one under exactly the variations
  allowed.
* **Codecs** (`Text`, `Base64`, `PasswordHasher`, `SignedValue`). Base64 by bits, the Argon2id hash
  string, signed values and the pending-login cookie.

`Common` holds what they share. Times are integers (seconds, or nanoseconds where the code needs
them), strings are sequences of characters, and byte strings are `seq<byte>`. `dafny verify
dfyconfig.toml` checks everything.

How to read the model:

* A table is a map from its key to rows. Each statement or transaction is a function on tables; the
  store classes run them as methods that update their fields, and are proved equal to the function.
  What the function replies and does is then told once more, in terms of the rows before and after
  it, by the lemmas of `AccountsEffects`, `TotpEffects` and `OutboxMessages`.
* History that no row records (which enqueue a row came from, sends, accepted steps, used tokens)
  is kept beside the tables in a `World`, and only theorems read it.
* Hashes, MACs, Argon2id, the one-time-code generator, IP parsing and the trusted networks are
  function parameters. Randomness, clock readings and failures of I/O are arguments of the step.
* New tokens and hashes are fresh, the clock does not run backwards, all workers share one
  configuration, and user ids are never reused. Rowids of the outbox may be reused.

Where the code and its prose differ, the model follows the code. The comment on the limiter says
that a caller can make a short burst of twice the limit around a reset. In fact only a span of a
whole window, both ends included, can hold that many; in a shorter one the call that opened the
window before the reset is missing. `SlidingWindowBound` and `BoundIsReached` give the exact
maximum for every length of span.

Results about the code that a reader might not expect:

* Delivery is at most once for a message whose lease is kept from its successful send to its mark
  (`AtMostOnce`); the last moment of the lease is already too late (`LateMarkDeliversTwice`).
  `DeliveredForGood` says exactly which messages can still be delivered, for the first time or again.
* `RevokeSessionByID` is the only operation that can notice cleanup, since its delete ignores
  expiry: `CleanupIsUnobservable` says exactly when, `RevocationSeesPruning` gives a case.
* Resetting a password spends the token first. If hashing or storing the new password then fails,
  the token is gone and the password is the old one (`Service.ResetPasswordWithToken`).

## Model

| member | source | states |
|---|---|---|
| EmailOutbox.SelectionIsFirst | internal/db/generated/email.sql.go:14-35 | A claim selects exactly min(limit, eligible) rows, and they precede all other eligible rows by (available_at, id). |
| EmailOutbox.FirstIsUnique | internal/db/generated/email.sql.go:20-33 | Only one set of rows answers that description, so the claim is determined. |
| OutboxMessages.ClaimTakesDue | internal/db/generated/email.sql.go:20-33 | Every row a claim takes is pending and available, or has a lease that has run out; it leaves such a row only when its batch is full of rows that come before by (available_at, id). |
| OutboxMessages.ClaimLeases | internal/db/generated/email.sql.go:14-19 | The statement writes status, claim times and token of those rows, and nothing else anywhere. |
| OutboxMessages.RetryIsDelayed | internal/email/processor.go:136-136 | A message put off by a mark is in no batch whose clock is sampled before the retry delay is over, until it is marked again. |
| OutboxMessages.NothingIsGarbled | internal/email/processor.go:119-119 | In every run each row, each claimed message and each Send carries exactly the message given to the enqueue it comes from. |
| OutboxProtocol.RunKeepsInv | internal/email/processor.go:100-172 | Every step of every worker, enqueue and prune keeps the protocol's invariant, over whole runs. |
| OutboxProtocol.MatchingMarkIsCurrent | internal/db/generated/email.sql.go:176-188 | In every reachable state a mark whose (id, token) matches finds the row still sending, with the attempts and the message that were read at the claim. |
| OutboxProtocol.AttemptsBound | internal/email/processor.go:120-145 | In every reachable state attempts are at most maxAttempts, and a row has used all of them exactly when it is failed. |
| OutboxProtocol.SentWasDelivered | internal/db/generated/email.sql.go:274-284 | In every reachable state a sent row was sent successfully under the very token it was marked with. |
| OutboxProtocol.MarkReleases | internal/db/generated/email.sql.go:225-237 | A mark moves at most the row it owns: a delivered message is sent at the mark's time; a refused one has one attempt more and the truncated error, and has failed if the attempts read at the claim make it the last, else is due after the retry delay. The lease columns are cleared. |
| OutboxDelivery.AtMostOnce | internal/email/processor.go:118-157 | For each message and every run in which that message's successful sends and marks stay inside the lease, however late others are: it is sent successfully at most once, and once if its row is sent. |
| OutboxDelivery.LateMarkDeliversTwice | internal/email/processor.go:118-157 | For every configuration a message delivered in time but not marked when its lease ends is delivered twice by some run all of whose further steps are at that very moment. |
| OutboxRedelivery.DeliveredForGood | internal/email/processor.go:118-157 | From any reachable state a message's deliveries grow in no continuation if and only if its row is sent, failed or gone and no cycle in flight still has it to send. |
| OutboxProgress.WorkStep | internal/email/processor.go:118-157 | The sum of remaining attempts over unfinished rows: claims, sends and prunes leave it, an enqueue adds maxAttempts, a mark that takes effect lowers it. |
| OutboxProgress.MarksAreBounded | internal/email/processor.go:118-157 | In every reachable state the marks that took effect number at most maxAttempts times the rows enqueued. |
| OutboxProgress.TerminalRowsAreFinal | internal/db/generated/email.sql.go:315-334 | A sent or failed row stays as it is through every run, until it is pruned, and its message never returns. |
| OutboxProgress.AheadNeverGains | internal/email/processor.go:136-136 | Until a due row is itself marked, the unfinished rows before it never gain a member, in any run with claims, reclaims, crashes, retries and enqueues. |
| OutboxProgress.BoundedWaiting | internal/db/generated/email.sql.go:20-33 | For any unfinished row: the claims that could take it but do not, times the batch size, are at most the unfinished rows before it plus the rows before it that cycles in flight lose by being abandoned or reclaimed; meanwhile nothing gets ahead of it. Other claims may happen at any time. |
| OutboxProgress.PromptWaiting | internal/db/generated/email.sql.go:20-33 | If the cycles holding rows before it keep their leases there are no such losses, so at most rank / batch size claims that could take the row do not, be it pending or left behind by a crashed worker. |
| OutboxPruning.PruningIsUnobservable | internal/db/generated/email.sql.go:315-338 | For every run, with pruning anywhere in it and rowids reused after it: the same steps without the pruning are a run too, and up to rowids every batch, send, mark and unfinished row is the same. |
| OutboxPruning.RunIsRenamed | migrations/00001_initial_schema.sql:67-83 | Reuse of rowids is invisible: every run is, up to rowids, one whose rowids count the enqueues, since a claim's order by rowid is the order of the enqueues. |
| OutboxPruning.PruningPreventsNothing | internal/db/generated/email.sql.go:315-338 | Conversely every run without pruning is possible, with the same results, with pruning steps anywhere in it. |
| OutboxWorker.EmailOutboxStore.Enqueue | internal/database/email_outbox_store.go:25-39 | Adds one pending row with that message and time, no attempts and no lease, under an id above every present one, and changes no other row; this is a step of the protocol. |
| OutboxWorker.EmailOutboxStore.ClaimPending | internal/database/email_outbox_store.go:41-81 | Fails without effect on a non-positive limit or ttl, a failed draw or a rejected statement; otherwise leases exactly the selected rows under one token, and returns each once, as read, or fails while reading them with the leases in place. |
| OutboxWorker.EmailOutboxStore.MarkSent | internal/database/email_outbox_store.go:83-93 | Marks the row if id and token match, reports whether they did, and touches nothing else. |
| OutboxWorker.EmailOutboxStore.MarkFailed | internal/database/email_outbox_store.go:95-106 | The same for a failure to retry. |
| OutboxWorker.EmailOutboxStore.MarkFailedPermanently | internal/database/email_outbox_store.go:108-119 | The same for the last failure. |
| OutboxWorker.Processor.ProcessPending | internal/email/processor.go:100-172 | Whatever other workers do between its statements, a cycle is a run of the protocol, and what the sender was handed meanwhile is what the run says this worker sent. On normal return that is the message of every row selected at its claim, once and in order; each counter counts the marks of its kind, only mails that were taken are counted sent, and the four add up to the rows claimed. |
| OutboxWorker.Processor.SendClaimed | internal/email/processor.go:119-119 | Hands exactly the claimed message to the sender, once, and goes on with the answer it gave. |
| OutboxWorker.Processor.MarkMessage | internal/email/processor.go:118-157 | Chooses among sent, retry and permanent failure by the send's outcome and the attempts read at the claim, with the retry delay and the truncated error. |
| Utf8.TruncateLastError | internal/email/processor.go:174-183 | Short texts are unchanged; of a longer one the loop returns the longest valid UTF-8 prefix of at most 1024 bytes. |
| Utf8.ValidMeansEncoded | internal/email/processor.go:179-181 | A byte string is valid exactly when it is the encoding of some sequence of scalar values (section 4 of RFC 3629). |
| Utf8.TruncationDropsAtMostThree | internal/email/processor.go:174-183 | Valid text loses at most three bytes below the limit. |
| RateLimiter.FixedWindowRateLimiter.Allow | internal/server/rate_limit.go:60-98 | The method changes its map and counter, and decides, as the step function the theorems below are about. |
| RateLimiter.FixedWindowRateLimiter.CleanupExpired | internal/server/rate_limit.go:100-106 | Removes exactly the entries whose window is over. |
| RateLimiter.CapacityIsKept | internal/server/rate_limit.go:19-25 | A call leaves the table within its capacity of 50000. |
| RateLimiter.CapacityIsNeverExceeded | internal/server/rate_limit.go:19-25 | So do all calls of any run. |
| RateLimiter.SlidingWindowBound | internal/server/rate_limit.go:39-42 | For any key and any run, calls accepted in a span d number at most maxRequests * (ceil(d / window) + 1), and one less unless d is a whole number of windows. |
| RateLimiter.BoundIsReached | internal/server/rate_limit.go:39-42 | That is the exact maximum: for every limit and every d a run from the empty limiter reaches it. |
| RateLimiter.SameDecisionUnlessFull | internal/server/rate_limit.go:68-80 | One call decides as the limiter that never deletes unless the table is full, exactly then it differs, and then it is refused for one window. |
| RateLimiter.CleanupIsUnobservable | internal/server/rate_limit.go:60-106 | In every run all decisions and retry times equal those of the limiter that never deletes if and only if no call finds the table full. |
| RateLimiter.RetryAfterIsExact | internal/server/rate_limit.go:88-97 | A refused caller that comes back, whatever calls came in between, is let through exactly if the time it was told is over, unless the table is full then. |
| RateLimiter.ExpiredAreSwept | internal/server/rate_limit.go:64-68 | Within 256 limited calls every entry that had run out when they began is gone. |
| RateLimitPolicies.Resolve | internal/ratelimit/ratelimit.go:101-116 | The result has every name; each field is the override's where that is positive and the default's otherwise. |
| RateLimitPolicies.CeilingsAreCoarser | internal/ratelimit/ratelimit.go:67-97 | Each default per address allows more calls than the one per email that it is laid over, and over a window no shorter. |
| RateLimitPolicies.ResolvedPoliciesLimit | internal/ratelimit/ratelimit.go:74-116 | Every resolved policy is an active limit. |
| RateLimitPolicies.ResolvingIsIdempotent | internal/ratelimit/ratelimit.go:99-116 | Resolving resolved policies changes nothing. |
| ForwardedFor.ClientIPFromForwardedFor | internal/server/rate_limit.go:234-255 | The loop from the right returns the client of the specification the lemmas below are about. |
| ForwardedFor.HeaderIsDecided | internal/server/rate_limit.go:234-255 | For every header, of one entry or many: the rightmost entry that is not the address of a trusted proxy decides, by its printed address or by nothing if it is none. |
| ForwardedFor.HeaderOfTrusted | internal/server/rate_limit.go:234-255 | If every entry is a trusted proxy the result is the leftmost one's address. |
| ForwardedFor.EmptyHeader | internal/server/rate_limit.go:235-238 | An empty header names nobody. |
| ForwardedFor.ScanIsDecided | internal/server/rate_limit.go:234-255 | The rightmost entry that is not a parseable trusted proxy decides alone: its address, or nothing if it does not parse. |
| ForwardedFor.ScanOfTrusted | internal/server/rate_limit.go:234-255 | If every hop is a trusted proxy the result is the leftmost. |
| ForwardedFor.PrefixIndependence | internal/server/rate_limit.go:234-255 | If the part after some comma holds such an entry, the result is the same for every string put before it. |
| Text.SplitOfConcat | internal/server/rate_limit.go:240-240 | Splitting distributes over concatenation at a separator. |
| Text.JoinOfSplit | internal/server/rate_limit.go:240-240 | Splitting loses nothing and leaves no separator in a part. |
| Text.SplitOfJoin | internal/server/auth.go:335-338 | Splitting undoes joining when no part holds the separator. |
| Text.CutAtFirst | internal/server/signed_value.go:25-28 | Cutting finds the first separator. |
| Text.Trimmed | internal/server/rate_limit.go:235-235 | Trimming takes all white space off both ends and nothing else. |
| Text.AsciiSpaces | internal/server/rate_limit.go:235-235 | The white space among the ASCII characters. |
| Text.PrintedInDecimal | internal/auth/password_hasher.go:70-78 | Numbers are printed in base ten without leading zeros. |
| Text.ParsePrinted | internal/auth/password_hasher.go:153-167 | Parsing a printed natural gives it back exactly when it is within the width asked for. |
| Text.ParseIntPrinted | internal/server/auth.go:340-353 | Parsing a printed integer gives it back exactly within 64 signed bits. |
| Base64.RoundTrip | internal/auth/password_hasher.go:74-78 | Decoding undoes encoding, for every byte string and both alphabets (sections 3.2, 4 and 5 of RFC 4648). |
| Base64.CanonicalRoundTrip | internal/auth/password_hasher.go:126-133 | Encoding undoes decoding exactly on texts without line breaks and with zeros for left-over bits. |
| Base64.GroupsKeepTheirBits | internal/auth/password_hasher.go:67-68 | Each group of three bytes becomes, in order, the four values of the same 24 bits (section 4 of RFC 4648). |
| Base64.RestKeepsItsBits | internal/auth/password_hasher.go:67-68 | One or two bytes left over become two or three values, filled up with zero bits. |
| Base64.EncodedLength | internal/auth/password_hasher.go:67-68 | Three bytes take four characters, one takes two and two take three: there is no padding. |
| Base64.AlphabetsAreThoseOfTheStandard | internal/server/signed_value.go:14-22 | The characters of the values are those of tables 1 and 2 of RFC 4648, written out. |
| PasswordHasher.ParseArgon2idParams | internal/auth/password_hasher.go:140-168 | The loop that fills the map parses as its specification does; a repeated key keeps its last value. |
| PasswordHasher.LastEntryCounts | internal/auth/password_hasher.go:140-168 | An entry is split at its first = and the last entry of a name counts. |
| PasswordHasher.DecodedIsUsable | internal/auth/password_hasher.go:107-138 | Whatever string decodes has six parts, says argon2id and version 19, and has parameters in range and a salt and hash that are not empty and are what its parts hold. |
| PasswordHasher.HashRoundTrip | internal/auth/password_hasher.go:60-79 | Decoding a printed hash returns its parameters, salt and key, for all in range. |
| PasswordHasher.NewHasher | internal/auth/password_hasher.go:36-58 | Configured values are kept, unset ones take the defaults, and the parameters are usable. |
| PasswordHasher.VerifyAgainstHash | internal/auth/password_hasher.go:81-99 | A hasher with other parameters but the same pepper accepts a password exactly if it gives the stored key, both passwords being keyed with the pepper if there is one and taken as they are if not; so it accepts the one that was hashed. |
| PasswordHasher.VerifyAgainstAny | internal/auth/password_hasher.go:81-89 | A stored string that does not decode is an error; one that does accepts exactly the passwords that give its key under its own salt and parameters. |
| PasswordHasher.HashIsPrinted | internal/auth/password_hasher.go:60-79 | The stored string, part by part: argon2id, version 19, the parameters by name, salt and key. |
| SignedValue.SignedVerifies | internal/server/signed_value.go:14-43 | Verifying undoes signing, for every key, payload and MAC. |
| SignedValue.VerifiedMeansSigned | internal/server/signed_value.go:24-43 | A value verifies exactly when it is a decodable payload, a dot and the decodable MAC of that payload. |
| SignedValue.PendingRoundTrip | internal/server/auth.go:293-359 | A pending login is read back unchanged exactly if the user id is positive and until 300 seconds after the whole second of issue, and otherwise not at all. |
| SignedValue.PendingIsRead | internal/server/auth.go:324-359 | From any cookie a login is read exactly if it is a signed value with three fields, a positive user id, a boolean and a second at most 300 seconds ago. |
| SignedValue.PayloadIsPrinted | internal/server/auth.go:293-299 | The payload is the user id, true or false, and the Unix second, in this order. |
| BackupCodes.NormaliseAcceptsVariations | internal/auth/totp.go:293-298 | What is typed normalises to a code exactly when it is the code up to dashes, white space and case, whatever the table of upper-case letters. |
| BackupCodes.PrintedCodeNormalises | internal/auth/totp.go:275-291 | The printed code normalises to its hexadecimal digits. |
| BackupCodes.PrintedInGroups | internal/auth/totp.go:284-284 | A code is printed in four groups of eight digits with dashes between. |
| BackupCodes.HexIsReadBack | internal/auth/totp.go:283-283 | The digits of a code can be decoded to its random bytes, so different bytes make different codes. |
| BackupCodes.HexDigits | internal/auth/totp.go:283-283 | The digits are 0 to 9 and A to F, in order. |
| BackupCodes.GenerateBackupCodes | internal/auth/totp.go:275-291 | Every variation of a generated code has the hash that is stored for it. |
| Totp.VerifyWithCounter | internal/totp/totp.go:48-73 | Succeeds exactly if the trimmed code has six characters, all three windows around now/30 generate a code and one of them is the code typed; the step is then the earliest such one. |
| TotpEffects.AcceptedIsTyped | internal/auth/totp.go:24-35 | A call accepts a time step only if it is newer than the last and generates the code typed, a backup code only if the typed one hashes to an unused one of the user, and rejects only if neither is so. |
| TotpEffects.BeginSetupEffect | internal/db/generated/totp.sql.go:166-170 | A setup stores the new secret, disabled, and keeps the last step. |
| TotpEffects.ConfirmSetupEffect | internal/auth/totp.go:97-128 | Confirming enables the row, records the step and leaves exactly the new codes, unused; each refusal and what it leaves is told. |
| TotpEffects.DisableEffect | internal/auth/totp.go:130-165 | Disabling removes the row and every code of the user and touches nobody else. |
| TotpEffects.RegenerateEffect | internal/auth/totp.go:167-202 | Regenerating leaves exactly the new codes, unused, and records the step. |
| TotpEffects.LoginEffect | internal/auth/totp.go:235-263 | A login enters the accepted step or code and nothing else. |
| TotpEffects.ReplacementEffect | internal/auth/totp_store.go:80-96 | New codes are stored exactly if they are distinct and nobody else has one of them. |
| Totp.TotpService.ClaimTOTPCounter | internal/auth/totp_store.go:125-134 | Claims a step exactly if the row exists and its last step is earlier. |
| Totp.TotpService.ConsumeTOTPBackupCode | internal/auth/totp_store.go:110-123 | Consumes a code exactly if it is the user's and unused. |
| Totp.TotpService.ReplaceBackupCodes | internal/auth/totp_store.go:80-96 | Replaces all codes of the user, or none when a hash is taken. |
| Totp.TotpService.EnableTOTPWithBackupCodes | internal/auth/totp_store.go:52-78 | Enables the row and stores the codes, or does neither. |
| Totp.TotpService.VerifyTOTPCode | internal/auth/totp.go:24-35 | Accepts a code exactly if its step is newer than the last one, and then records the step. |
| Totp.TotpService.ConfirmTOTPSetup | internal/auth/totp.go:97-128 | The statements come to the atomic call of the theorems below. |
| Totp.TotpService.DisableTOTP | internal/auth/totp.go:130-165 | The same, with a time step or a backup code. |
| Totp.TotpService.RegenerateBackupCodes | internal/auth/totp.go:167-202 | The same. |
| Totp.TotpService.VerifyTOTPLogin | internal/auth/totp.go:235-263 | The same. |
| TotpSafety.RunKeepsInv | internal/auth/totp.go:24-35 | Every call keeps, over whole runs, the accepted steps increasing and recorded and the codes counted, for the lives and generations that are over as for those that are not. |
| TotpSafety.HistoryIsComplete | internal/auth/totp.go:24-35 | Every accepted step and code is in the history that the next results speak of, and nothing is taken out of it. |
| TotpSafety.StepsAreNeverReplayed | internal/db/generated/totp.sql.go:13-18 | In every run the steps accepted during every life of a row strictly increase, also through a new setup and up to and including the step that disables it (section 5.2 of RFC 6238). |
| TotpSafety.AcceptanceRate | internal/totp/totp.go:48-73 | Acceptances during a life between times T1 and T2, the one that ends it included, number at most T2/30 - T1/30 + 3. |
| TotpSafety.NextAcceptanceIsNew | internal/auth/totp.go:24-35 | After every run, a step that any next call accepts is later than all before it, and a backup code it accepts was not accepted before. |
| TotpSafety.BackupCodeLifecycle | internal/auth/totp_store.go:52-120 | In every run a user has eight codes while enabled and none otherwise; unused and accepted add up; none is accepted twice in its generation, the call that ends the generation included, and only codes of the generation are. |
| Accounts.ConfirmIsAllOrNothing | internal/auth/auth_store.go:507-579 | Confirming a change succeeds exactly under the named conditions; it either changes nothing or spends the token, installs and verifies the address and ends the user's sessions, touching no other user. |
| Accounts.ConfirmFailures | internal/auth/auth_store.go:507-579 | Which failure is reported when. |
| AccountsEffects.VerifyEmailEffect | internal/auth/auth_store.go:389-410 | A token that is there, unconsumed and unexpired, of a user that exists, is consumed and verifies exactly that user; any other changes nothing. |
| AccountsEffects.RegisterEffect | internal/auth/auth_store.go:87-126 | A registration succeeds exactly for a free address and then adds an unverified user, the token and the mail to that address. |
| AccountsEffects.ReadEffect | internal/auth/auth.go:715-726 | A resend is decided on the user as it is when it begins. |
| AccountsEffects.ResendEffect | internal/auth/auth_store.go:352-376 | A resend adds the token and the mail, or nothing. |
| AccountsEffects.RequestChangeEffect | internal/auth/auth_store.go:313-337 | A change request adds a token for the new address and the mail to it, or nothing. |
| AccountsEffects.RequestResetEffect | internal/auth/auth_store.go:288-311 | A reset request adds the token and the mail, or nothing. |
| AccountsEffects.ResetTokenEffect | internal/db/generated/password_reset.sql.go:76-88 | A reset token is valid exactly while unconsumed and unexpired, and consuming it then names its user. |
| AccountsEffects.SetPasswordEffect | internal/auth/auth_store.go:233-248 | The password is the new one, address and verification stay, and exactly the user's sessions are gone. |
| AccountsEffects.DeleteAccountEffect | internal/auth/auth_store.go:376-387 | The user and all tokens and sessions of the user are gone, and nothing else. |
| AccountsEffects.DeleteAccountKeeps | internal/auth/auth_store.go:376-387 | What is left of tokens and sessions is unchanged. |
| AccountsEffects.SessionAnswersItsUser | internal/auth/auth_store.go:146-166 | A new session answers with its user exactly until it expires. |
| AccountsEffects.LookupEffect | internal/db/generated/auth.sql.go:225-232 | A lookup answers a user exactly if the session is that user's and live. |
| AccountsEffects.ListEffect | internal/db/generated/auth.sql.go:297-303 | The list holds exactly the user's live sessions. |
| AccountsEffects.LogoutEffect | internal/db/generated/auth.sql.go:139-142 | Logging out removes the session with that token and nothing else. |
| AccountsEffects.RevokeOthersEffect | internal/db/generated/auth.sql.go:99-103 | Revoking the others leaves exactly the caller's session and those of other users. |
| AccountsEffects.RevokeByIDEffect | internal/auth/auth.go:429-461 | Revoking by id removes the user's session with that id unless it is the caller's, and says which of the three cases it was. |
| Accounts.AuthStore.CreateUserWithEmailVerification | internal/auth/auth_store.go:87-126 | User, token and mail together; rolled back to nothing if the address or the hash is taken, the mail insert or the commit fails. |
| Accounts.AuthStore.ResendEmailVerification | internal/auth/auth_store.go:352-376 | Token and mail together, or nothing after any failure, the commit's included. |
| Accounts.AuthStore.VerifyEmailByTokenHash | internal/auth/auth_store.go:389-410 | Consumes the token and verifies the user, or does neither. |
| Accounts.AuthStore.RequestEmailChange | internal/auth/auth_store.go:313-337 | Token and mail to the new address together, or nothing after any failure, the commit's included. |
| Accounts.AuthStore.ConfirmEmailChange | internal/auth/auth_store.go:507-527 | Rolls back after any failure, the commit's included. |
| Accounts.AuthStore.ConsumeAndApply | internal/auth/auth_store.go:538-579 | The statements inside that transaction, and the state each failure leaves for the rollback. |
| Accounts.AuthStore.RequestPasswordReset | internal/auth/auth_store.go:288-311 | Token and mail together, or nothing after any failure, the commit's included. |
| Accounts.AuthStore.ConsumePasswordResetToken | internal/db/generated/password_reset.sql.go:14-20 | Consumes a token that is unused and not expired, and no other. |
| Accounts.AuthStore.SetPasswordAndRevokeSessions | internal/auth/auth_store.go:233-248 | Sets the password and ends all sessions of the user, or does neither. |
| Accounts.AuthStore.DeleteSessionByIDAndUserIDAndTokenHashNot | internal/db/generated/auth.sql.go:118-123 | Deletes the user's session with that id unless it is the caller's, and reports a positive count exactly if there was one. |
| AccountsSafety.RunKeepsInv | internal/auth/auth.go:493-750 | Every operation keeps the invariant behind the results below, over whole runs. |
| AccountsSafety.VerifiedEmailProvenance | internal/auth/auth_store.go:389-410 | In every reachable state, if a user's address is verified, a token mailed to exactly that address was accepted for that user. |
| AccountsSafety.AcceptedMeansVerified | internal/auth/auth_store.go:389-410 | Conversely, once its token is accepted a user is verified, and in every continuation stays so as long as the account exists. |
| AccountsSafety.VerificationUseIsRecorded | internal/auth/auth_store.go:389-410 | A verification token that becomes consumed is in the history as used by its user. |
| AccountsSafety.ResetUseIsRecorded | internal/db/generated/password_reset.sql.go:14-20 | So is a reset token. |
| AccountsSafety.ChangeUseIsRecorded | internal/auth/auth_store.go:538-579 | So is an email change token. |
| AccountsSafety.CredentialHistoryIsComplete | internal/auth/auth_store.go:233-248 | Every password set and every changed password or address is in the history that the next results speak of. |
| AccountsSafety.SessionHistoryIsComplete | internal/auth/auth_store.go:146-166 | Every new session is in it as inserted now, with its user's credentials. |
| AccountsSafety.HistoryOnlyGrows | internal/auth/auth_store.go:233-248 | Nothing is taken out of it. |
| AccountsSafety.SessionsAreNewerThanCredentials | internal/auth/auth_store.go:233-248 | In every reachable state a live session was inserted after the last change of its user's password or email, when both were what they are now. |
| AccountsSafety.TokensAreSingleUse | internal/db/generated/email_change.sql.go:14-20 | In every run no token is accepted twice. |
| AccountsSafety.UsedTokensAreRefused | internal/db/generated/email_verification.sql.go:14-20 | Every later attempt to use an accepted token fails without effect. |
| AccountsSafety.RevokedStaysRevoked | internal/db/generated/auth.sql.go:225-232 | A session that is gone is not accepted at any later time in any run. |
| AccountsSafety.EmailsStayUnique | migrations/00001_initial_schema.sql:2-12 | No run gives two users the same address. |
| AuthService.Service.RevokeSessionByID | internal/auth/auth.go:429-461 | Deletes the named session, tells the caller who names the current one so, and reports everything else as an invalid target. |
| AuthService.Service.ResetPasswordWithToken | internal/auth/auth.go:631-677 | Spends the token exactly if it is usable and the password acceptable; if hashing or storing the password then fails, the token stays spent and the password is the old one. |
| AuthService.Service.ChangePassword | internal/auth/auth.go:463-491 | Succeeds exactly with the current password and an acceptable, different new one; otherwise nothing changes. |
| AuthService.Service.RequestEmailChange | internal/auth/auth.go:493-547 | Refuses a wrong password, an invalid and an unchanged address, in this order and without effect; for a taken address feigns success and writes nothing; otherwise writes token and mail. |
| AuthService.ResetTakesEffect | internal/auth/auth.go:631-654 | After a reset the new password is in place, no session of the user is left, the token is spent and other users are as before. |
| AccountsCleanup.RunsStaySame | internal/jobs/cleanup.go:73-116 | Over every run the pruned tables lack only expired rows and consumed tokens of the unpruned ones. |
| AccountsCleanup.CleanupIsUnobservable | internal/jobs/cleanup.go:73-116 | After every run the next call gets the same reply with and without pruning, except exactly when a session is revoked by id that has expired and was pruned. |
| AccountsCleanup.RevocationSeesPruning | internal/auth/auth.go:440-446 | The exception occurs, for a caller with a live session. |
| CleanupJob.Job.Run | internal/jobs/cleanup.go:73-131 | Six statements in order, stopping at the first that fails; those on the outbox are protocol steps, so workers can go on; on success the total is the number of rows removed. |
| CleanupJob.Job.PruneSessionsAndTokens | internal/jobs/cleanup.go:82-104 | The first four of them, with their cutoffs. |
| CleanupJob.Job.PruneOutbox | internal/jobs/cleanup.go:106-116 | The last two, with their cutoffs. |
| CleanupJob.JobIsUnobservable | internal/jobs/cleanup.go:73-116 | However far a run of the job gets, no later account call can tell it from none, and the outbox stays, up to rowids, the unpruned one without finished rows. |
| CleanupJob.CompleteRun | internal/database/cleanup_store.go:22-53 | A complete run keeps, unchanged, exactly the live sessions, the tokens usable or recently used, and the messages unfinished or recently finished. |
| CleanupJob.PartialRun | internal/jobs/cleanup.go:82-116 | A run that stops early has done the statements before, in this order, and none after. |

## Left out

- HTTP handlers, templates, cookies as such, CSRF, flash messages, configuration, start-up, the job ticker and logging: plumbing.
- Rendering of messages, the SMTP and log senders: a send is an arbitrary success or failure.
- WebAuthn, passkeys and the projects example: the former is a library's, the latter plain scoped updates.
- Argon2id, HMAC, SHA-256, HOTP, AES-GCM and the encryption of TOTP secrets: parameters, of which only determinism is used.
- SQLite's text comparison of timestamps and the one-second grain of CURRENT_TIMESTAMP: times are integers, and all clocks of a call read the same value.
- The width of time.Time and time.Duration: no wrap-around.
- Invalid UTF-8 in strings of characters: only the error text of the outbox is kept as bytes.
- The order of session lists and of the rows a claim returns: the former is a map, the latter any order.
- withRateLimits, the bucket keys and isValidEmail: straight-line code around the limiter, and library calls.
- CreateVerifiedUser and CreateEmailVerificationToken: they verify or issue without a mail, and no production code calls them.
- Login: that a password checked before a concurrent change can still lead to a session after it. Insertion order is what the theorem on sessions is about.
- Accounts.Apply: each store transaction and each single statement is one step; what a service method read before it wrote is carried along only where it matters, for resending.
- AuthService.Service.ResetPasswordWithToken: no other call comes between consuming the token and setting the password; the theorems of `AccountsSafety` allow any.
- OutboxProgress.AheadNeverGains: enqueues stamp and marks sample a time not before the row's own; earlier times would put rows ahead of it.
- OutboxProgress.BoundedWaiting: the same.
- Totp.TotpService.ConfirmTOTPSetup: each service call is one atomic step, since the code does not guard the statements inside it against each other.
- Totp.TotpService.VerifyTOTPLogin: the session created after an accepted code, and its failure, which leaves the step or code spent.
- RateLimiter.SlidingWindowBound: calls come in time order under one policy for the key; the code reads its clock before it takes the lock.
- CleanupJob.Job.Run: no other call comes between its statements; the theorems on runs allow pruning statements anywhere.
