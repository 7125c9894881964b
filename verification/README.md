# XeronMX: a verified model of its mail path

XeronMX is a backup mail exchanger. It accepts mail while the primary is away, keeps it on an encrypted spool,
delivers it when the primary is back, and seals it with ARC so that the primary can trust what was checked on the
way. This project models that path in Dafny and proves what each part promises.

| part | files |
|---|---|
| bytes and text | `Text.dfy` |
| ARC sealing and validation (RFC 8617, RFC 6376) | `ArcCanon.dfy`, `ArcTags.dfy`, `ArcChain.dfy`, `ArcVerify.dfy`, `ArcSeal.dfy` model the code; the other `Arc*.dfy` files prove its laws |
| the encrypted spool | `Blob.dfy` (functions and laws), `BlobStore.dfy` (store and reader objects) |
| taking mail in | `Intake.dfy` (spool and queue together, as a run of the protocol) |
| the delivery queue | `Queue.dfy` (the statements), `QueueProtocol.dfy` (every run, crashes included), `SenderPass.dfy` (the loop ends), `Outbound.dfy` (one attempt), `Attempts.dfy` (an attempt as a step of a run) |
| the webhook outbox | `Webhook.dfy`, `WebhookRuns.dfy` |
| configuration import and export | `Recipients.dfy`, `Config.dfy`, `ConfigApply.dfy`, `ConfigLaws.dfy`, `ConfigNames.dfy`, `ConfigExport.dfy`, `ConfigMeaning.dfy`, `ConfigRestore.dfy` |
| limiters and health | `RateLimit.dfy`, `IssuanceGuard.dfy`, `Probe.dfy` |

`dafny verify dfyconfig.toml` checks everything.

## How it is built

Code that loops or changes state is a method or a class, proved against a function of its inputs or of its old state;
the laws are lemmas about those functions. The queue and the outbox are also state machines whose steps are single
database or spool writes, any of which may fail, with a crash possible between any two of them.

Foreign functions are parameters with stated laws: the digest, base64, signatures and key lookup of ARC
(`ArcVerify.Crypto`), the cipher of the spool (`Blob.Aead`), the SMTP peer (`Outbound.Peer`), the password rule, the
clock, random jitter, and the random salts and ids (fresh when they have to be).

Hypotheses carried by the main results, and where they come from:

- A sealed message holds a line feed or no carriage return, and does not start with a space or tab (`ArcFraming.Spooled`):
  the trace header put in front of every spooled message gives both.
- The published key is the sealer's, and base64 and the digest behave (`ArcRoundTrip.KeyPublished`, `EncodingLaws`). For
  soundness signatures cannot be forged and digests do not collide (`ArcSoundness.Unforgeable`, `CollisionFree`); the key
  may sign mail with DKIM besides, as the code does (`ArcSoundness.SignedElsewhere`).
  `ArcSoundness.SignsNothingElse` shows that the list of signed inputs used there is all the sealer ever asks for, and
  `ArcInstance.HypothesesMet` that all of this can hold together.
- Of what a reader could open, only the sealed chunks do, and each salt seals chunks of one body, however many of them the
  store came to (`Blob.Ideal`, which `Blob.IdealExists` shows can be met; `Blob.SealsNothingElse` and `BlobStore.SealBody`
  show that the chunks counted there are all the store seals). Secrets are sealed under the same keys with random nonces,
  which are taken to be none of a reader's (`Blob.CounterNonce`). Claims about the reader end at its first error.
- An attempt in direct mode keeps its context until the last domain. Without that recipients are lost:
  `Outbound.DirectConserves`, `Outbound.AbandonedDropped` and `QueueProtocol.SettlingNeedsEveryone` say exactly when.
- No administrator requeues a failed, expired or quarantined row other than a queued one, or deletes a row by hand.
- Documents name domains without surrounding spaces or a trailing dot. `ConfigNames.SecondImportRefused` says what happens
  otherwise, for every domain an import created. For export a node's rows are in order (`ConfigExport.NodeOk`), which
  imports keep, and accounts may send as existing domains.

## What turned out to be false

- A message without any header field the sealer signs is sealed with an empty `h=`, which the validator refuses:
  `ArcTheorems.SealThenVerify` gives the verdict in both cases, `ArcInstance.UnsignedMessageFails` an input.
- A failed chain is not always beyond repair: one that only lacks fields passes when another server adds them
  (`ArcIrreparable.MissingFieldsCanCome`). `ArcRepair.RepairableExactly` says which messages can still come to pass: all
  but those with a malformed or repeated ARC field, a seal with the wrong cv, cv=fail among them, or a seal, or a message
  signature of instance 50, that could verify under no keys. Under the same keys a seal that does not verify stays so.
- Stored times are compared as text, and within one second the text of a time with a fraction sorts before the text of
  the full second. So a row deferred by less than a second may be claimed again at once. `Clock.LaterInText` and
  `Queue.DeferredIsLater` give the exact condition: the retry base must be at least two seconds.
- The name of a body is not sealed with it: a spool file replaced by the file of another body reads cleanly
  (`Blob.OtherFileReadsCleanly`). A clean end means that the store wrote the file, not that it is the one asked for.
- When the name drawn for a new message is taken, the refused intake removes the body of the message that has it, unless
  it is refused before the spool is touched or the removal fails (`Intake.Session.Data`). Names are random and long; the
  other results take them to be fresh.
- After the attempt's context ends, `sendDirect` leaves the recipients of the domains not yet tried in no list
  (`Outbound.SecondDomainLost`). If somebody was deferred, `settle` narrows the row to the deferred ones; if somebody was
  accepted and nobody deferred, it marks the row delivered and deletes the body. Only when nobody was accepted or
  deferred does the failed row still name everyone.
- A recipient that a peer only put off may be given up as if it had been refused: when one recipient of a transaction is
  accepted, another answered 450 and the message then refused with 550, the error of DATA replaces all answers
  (`Outbound.PutOffAndGivenUp`). `Outbound.TransmitGivesUp`, `DirectGivesUp` and `RelayGivesUp` say that these are the only
  transactions in which that happens and the only recipients it happens to, and `Attempts.PutOffRecipientLost` that such a
  recipient can end in no row. So `QueueProtocol.NoRecipientLost` holds but for the recipients wronged in this way, and
  without exception in runs that have no such attempt (`QueueProtocol.FairRunsLoseNobody`).
- An account may be allowed to send as "a.b." where the domain is "a.b": the node accepts and exports this, and an empty
  node refuses the export (`ConfigExport.ExportPlansOnEmpty`, `ConfigExport.TrailingDotRefused`).
- A webhook delivery whose outcome cannot be recorded is tried again without being counted, a successful one too
  (`Webhook.TriesBounded`).

## Model

| member | source | states |
|---|---|---|
| ArcCanon.NormalizeLineEndings | internal/arc/canon.go:22-43 | The loop gives every line ending as CRLF, and leaves bytes without a line feed alone |
| ArcCanon.SplitMessage | internal/arc/canon.go:45-80 | Head and body split at the first blank line; continuation lines join the field before them; lines without a name are dropped |
| ArcCanon.CompressWSP | internal/arc/canon.go:82-101 | The byte loop turns every run of blanks into one space |
| ArcCanon.CanonBody | internal/arc/canon.go:116-136 | The loops give the canonical body, simple or relaxed; what that is say the rules of module ArcBodyRules |
| ArcCanon.ParseTags | internal/arc/canon.go:140-158 | A tag list read part by part, refused for a part without a name or a name given twice |
| ArcCanonLaws.NormalizedTwice | internal/arc/canon.go:22-43 | Normalising twice is normalising once |
| ArcCanonLaws.NormalizedPrepend | internal/arc/canon.go:22-43 | Normalisation commutes with CRLF-terminated header lines put in front, exactly when the rest has a line feed or no carriage return |
| ArcCanonLaws.SplitPrepend | internal/arc/canon.go:45-80 | Splitting a message with header lines in front only puts their fields in front; body and other fields stay |
| ArcCanonLaws.CanonBodyTwice | internal/arc/canon.go:116-136 | Body canonicalisation is idempotent |
| ArcCanonLaws.CanonBodyTrailingBlank | internal/arc/canon.go:116-136 | It is blind to any number of trailing blank lines |
| ArcBodyRules.BlankRunIsOneSpace | internal/arc/canon.go:82-101 | Relaxed: a run of spaces and tabs counts as one space, wherever it stands in a body (RFC 6376, section 3.4.4) |
| ArcBodyRules.BlanksBeforeLineEnd | internal/arc/canon.go:121-125 | Relaxed: blanks at the end of a line do not count |
| ArcBodyRules.BlanksAtEnd | internal/arc/canon.go:121-125 | Relaxed: nor do those at the very end |
| ArcBodyRules.RelaxedFormExactly | internal/arc/canon.go:116-136 | Relaxed: a canonical body is empty or whole lines, the last one not empty, without tabs, double spaces or spaces at the end of a line; and a body is its own canonical form exactly if it is one of these |
| ArcBodyRules.SimpleExactly | internal/arc/canon.go:116-136 | Simple: only the empty lines at the end change, and the body gets a line end if it has none (RFC 6376, section 3.4.3) |
| ArcBodyRules.BlankLinesCut | internal/arc/canon.go:126-135 | Every body is of the kind that rule speaks of |
| ArcHeaderRules.LineEndIsCRLF | internal/arc/canon.go:22-43 | In a text with a line feed a lone carriage return or line feed counts as CRLF |
| ArcHeaderRules.NormalFormExactly | internal/arc/canon.go:22-43 | A text is left alone exactly if it has no line feed, or CRLF as its only line ends, and what is normalised is such a text |
| ArcHeaderRules.ParsedBack | internal/arc/canon.go:45-80 | Whatever fields, folded ones included, and whatever body are written as a message, the parser gives them back |
| ArcHeaderRules.HeaderLineEnds | internal/arc/canon.go:103-114 | Relaxed: line ends inside a header value do not count (RFC 6376, section 3.4.2) |
| ArcHeaderRules.HeaderBlankRun | internal/arc/canon.go:107-114 | Relaxed: a run of blanks in a value counts as one space |
| ArcHeaderRules.HeaderEnds | internal/arc/canon.go:107-114 | Relaxed: blanks around a value do not count |
| ArcHeaderRules.HeaderName | internal/arc/canon.go:107-114 | Relaxed: neither the letter case of a name counts, nor blanks behind it |
| ArcHeaderRules.HeaderFixed | internal/arc/canon.go:107-114 | Relaxed: a field that none of these rules changes is its own canonical form |
| ArcHeaderRules.HeaderSimple | internal/arc/canon.go:107-114 | Simple: the bytes of a field as they are |
| Text.TrimExactly | internal/arc/canon.go:111-112 | Trimming takes the six spaces of ASCII, and nothing else, from both ends |
| Text.LowerExactly | internal/arc/canon.go:111-112 | Lower case is that of the 26 letters |
| ArcTags.ParseRendered | internal/arc/arc.go:107-123 | Parsing the tag list the sealer writes gives back its tags, each once |
| ArcTags.StripRendered | internal/arc/canon.go:169-175 | Stripping the signature of a written list empties the b tag and changes nothing else |
| ArcTagRules.TagsExactly | internal/arc/canon.go:140-158 | A tag list is accepted exactly if every part is blank or reads name=value, with spaces and line ends wherever it likes, and no name comes twice; its tags are exactly what its parts say (RFC 6376, section 3.2) |
| ArcTagRules.StripExactly | internal/arc/canon.go:169-175 | A part loses what is behind its equals sign exactly if it reads blanks, b, blanks, equals |
| ArcTagRules.StripParts | internal/arc/canon.go:169-175 | And the parts of a value are stripped one by one |
| ArcTagRules.InstanceExactly | internal/arc/canon.go:177-200 | A results field has instance n exactly if its first part says i=n, with n from 1 to 50 |
| Text.RemoveSpacesExactly | internal/arc/canon.go:160-167 | Blanks and line ends inside a base64 tag do not count, wherever they stand |
| Text.AtoiExactly | internal/arc/canon.go:177-200 | An instance number is an optional sign and at least one digit |
| ArcChain.Collect | internal/arc/verify.go:49-92 | The collecting loop succeeds exactly when the ARC fields are complete sets 1..n without repetition, n at most 50, and returns those sets |
| ArcChain.RepresentsOnce | internal/arc/verify.go:49-92 | A message has at most one chain |
| ArcChain.ChainExtended | internal/arc/verify.go:49-92 | Putting set n+1 in front of a message with chain n gives the chain of n+1 sets |
| ArcVerify.SelectFields | internal/arc/verify.go:176-188 | The bottom-up loop with marks on used fields; what it selects says ArcMeaning.SelectedExactly |
| ArcVerify.VerifyAMS | internal/arc/verify.go:145-191 | The checks of a message signature, in order, each with its error |
| ArcVerify.VerifySeal | internal/arc/verify.go:193-208 | The checks of one seal |
| ArcVerify.SealInput | internal/arc/verify.go:210-226 | The bytes a seal covers |
| ArcVerify.Verify | internal/arc/verify.go:102-143 | The verdict on a message: no chain, pass at its length, or the first failure with its instance |
| ArcMeaning.PassExactly | internal/arc/verify.go:102-290 | A pass spelled out: n complete sets, each seal with its tags, the cv of its place and a signature that verifies under the key at s._domainkey.d over the sets up to it, and the newest message signature with its tags, the digest of the body, cut at l=, and a signature that verifies; no chain exactly if there is no ARC field (RFC 8617, section 5.2) |
| ArcMeaning.KeyNameIs | internal/arc/verify.go:277-278 | The DNS name of a key, with the dot at the end of the domain left out |
| ArcMeaning.MarkedFailedReported | internal/arc/verify.go:117-119 | What a failure reports, first: the newest seal says fail |
| ArcMeaning.WrongCVReported | internal/arc/verify.go:120-132 | Then the first seal that does not parse or has the wrong cv |
| ArcMeaning.BadSignatureReported | internal/arc/verify.go:134-136 | Then the message signature |
| ArcMeaning.BadSealReported | internal/arc/verify.go:137-141 | And last the newest seal that does not verify |
| ArcMeaning.SelectedExactly | internal/arc/verify.go:176-188 | The fields a list of names selects: the first listing of a name takes the lowest field that carries it, the next the one above, and a listing too many takes none |
| ArcSeal.ListSigned | internal/arc/arc.go:96-105 | The backward loops list each signed name as often as a field carries it, with the bytes those fields give |
| ArcSeal.Seal | internal/arc/arc.go:57-132 | What the sealer writes for every input, or why it writes nothing |
| ArcWritten.SealWrites | internal/arc/arc.go:57-132 | Every byte of a sealed message: three lines with their tags in order, cv=none on a first set, the host and results as given or else the sealer's domain and none, the digest of the canonical body, the listed names, what each signature signs, and the original bytes |
| ArcWritten.ResultsWritten | internal/arc/arc.go:84-90 | In particular the third line holds the host and the results as they were given, or the domain and none |
| ArcWritten.FormatIntRead | internal/arc/arc.go:107-123 | A written time reads back as the same number |
| ArcFraming.SealedMessage | internal/arc/arc.go:125-131 | The validator's view of a sealed message is the three new fields in front of the fields and body the sealer saw |
| ArcSelection.SelectListed | internal/arc/verify.go:176-188 | Re-selecting the listed names takes exactly the fields the backward loops took |
| ArcSelection.SelectionAgrees | internal/arc/arc.go:96-105 | From the sealed message the validator selects exactly the fields the sealer signed |
| ArcTheorems.SealThenVerify | internal/arc/arc.go:57-132 | Sealing then validating: with no chain, or a validated one below 50 sets, the sealer refuses nothing but a signer's failure, and the result passes at the next instance exactly when the message has a field to sign |
| ArcPermanence.SealRefusesExactly | internal/arc/arc.go:63-82 | The sealer writes nothing exactly for a malformed, failed, full or unvouched chain, or when the signer fails |
| ArcPermanence.RefusalReasons | internal/arc/arc.go:63-82 | And which refusal it is: a chain nobody validated, a full one, or a failed one |
| ArcPermanence.FailedFails | internal/arc/verify.go:102-119 | A malformed chain or one whose newest seal says fail never passes, whatever keys are published |
| ArcPermanence.FailedStaysFailed | internal/arc/arc.go:63-82 | Any failed message, one with missing ARC fields included, fails at every later hop that adds trace lines or seals with this sealer, which refuses it |
| ArcPermanence.SealedFailIsFailed | internal/arc/arc.go:72-82 | Sealing an existing chain with cv=fail gives a failed message |
| ArcIrreparable.FailureIsPermanent | internal/arc/verify.go:94-134 | A malformed or repeated ARC field, or a seal whose cv is not the one its instance must have, makes the message fail at every later hop, whatever header fields the hops put in front, ARC sets included, and whatever keys are published (RFC 8617, section 5.2.1) |
| ArcIrreparable.BrokenSealIsPermanent | internal/arc/verify.go:136-142 | Nor does a chain with a seal that does not verify ever pass again under the same keys, whatever sets are added |
| ArcIrreparable.SealedFailNeverPasses | internal/arc/arc.go:72-82 | A message sealed with cv=fail never passes at any later hop (RFC 8617, section 5.1.2) |
| ArcIrreparable.FailedIsIrreparable | internal/arc/verify.go:49-119 | A failed message is one of these, unless its ARC fields are sound and only some are missing |
| ArcIrreparable.MissingFieldsCanCome | internal/arc/verify.go:76-92 | Missing fields can come later: a message that fails passes once the other two fields of its set are put in front |
| ArcIrreparable.SealPrepends | internal/arc/arc.go:125-131 | Sealing is a hop of this kind: it only puts header lines in front |
| ArcRepair.RepairableExactly | internal/arc/verify.go:49-226 | Header lines of later hops, ARC sets included, and some keys make a message pass if and only if none of its ARC fields is malformed or repeated, every seal has the cv of its place, and each seal, and a message signature of the last possible set, could verify under keys of the types they name |
| ArcParsed.MessageParsed | internal/arc/canon.go:45-80 | Every parsed field keeps its name and folds only in front of a blank |
| ArcDecoding.StreamUnique | internal/arc/canon.go:107-114 | A stream of canonical header lines decodes in only one way |
| ArcTagDecoding.TightPart | internal/arc/canon.go:169-175 | A part whose signed canonical text is a tag without spaces is that tag |
| ArcTagAgree.AgreedTag | internal/arc/canon.go:140-175 | Two tag lists with the same signed canonical text agree on every tag without spaces |
| ArcSoundness.InputsSplit | internal/arc/verify.go:176-190 | Verified bytes split into header stream and signature line in one way, even under simple canonicalisation |
| ArcSoundness.SignsNothingElse | internal/arc/arc.go:57-149 | The sealer asks for two signatures only; a signer that answers them alike gives the same result |
| ArcPassSound.PassIsSound | internal/arc/verify.go:145-191 | A pass is sound: the body, the list of names and the selected header fields of a passing message are those of a message that was sealed, as the same instance, even though the key signs DKIM too |
| ArcSealSound.SealsAreSound | internal/arc/verify.go:193-226 | Every seal of a passing message that was made with the key covers, line by line, the earlier sets as a run of the sealer found them, and the results and signature fields that run added |
| ArcInstance.HypothesesMet | internal/arc/arc.go:57-132 | The hypotheses of the ARC theorems can be met together: for every message without a chain that has a field to sign there is toy cryptography under which its seal passes |
| ArcInstance.UnsignedMessageFails | internal/arc/verify.go:150-153 | The empty message, which has no field to sign, is sealed and fails for its empty list of names |
| Blob.IdealExists | internal/blob/blob.go:96-107 | The cipher assumption can be met, whatever bodies were sealed and however far each was |
| Blob.NonceInjective | internal/blob/blob.go:109-116 | A nonce tells the chunk number and the last flag, below 2^64 chunks |
| Blob.NonceExactly | internal/blob/blob.go:109-116 | A nonce is three zero bytes, the chunk number in eight bytes and the last flag |
| Blob.NoncesDiffer | internal/blob/blob.go:162-187 | No nonce is used twice within a file |
| Blob.FileSize | internal/blob/blob.go:154-187 | A file is the header, the body, and one tag for each chunk, the last chunk being empty on a boundary |
| Blob.FormatExactly | internal/blob/blob.go:145-180 | A file starts with XMXB, version 1 and the salt; every chunk but the last holds 65536 bytes, in order, and only the last has the last flag |
| Blob.DecodeTampered | internal/blob/blob.go:274-306 | From any chunk on, whatever bytes follow, the reader yields a prefix of what was sealed of the body, and a clean end means that all of it was and that the bytes are untouched |
| Blob.RoundTrip | internal/blob/blob.go:118-199 | A stored body of any length is read back whole and ends cleanly |
| Blob.TamperEvident | internal/blob/blob.go:201-226 | For any file, what is read before the first error is a prefix of what was sealed under its salt, and the end is clean exactly when a whole body was and the file is the one written; stores that stopped half-way are covered |
| Blob.CleanMeansWritten | internal/blob/blob.go:260-306 | A file ends cleanly exactly when the store wrote it out to its end |
| Blob.OtherFileReadsCleanly | internal/blob/blob.go:201-226 | In its place the file of another body reads as the right one exactly when the bodies are equal |
| Blob.SealsNothingElse | internal/blob/blob.go:162-187 | What a store has written, whole or stopped half-way, depends on the cipher only at the chunks it sealed |
| Blob.UnfinishedFile | internal/blob/blob.go:162-187 | The bytes of a store that stopped half-way read as all that was sealed and then an error, so the bound on what is read is the best |
| BlobStore.SealBody | internal/blob/blob.go:162-187 | The writing loop gives the file of the body, or stops at a read error or past the limit with the count so far and exactly the chunks sealed until then |
| BlobStore.Store.Put | internal/blob/blob.go:118-199 | A body is stored whole under a new valid name, or no file changes; either way it is recorded which chunks were sealed under the salt |
| BlobStore.Store.Get | internal/blob/blob.go:201-226 | Opening refuses a bad header; the reader it gives has the decoding of the file ahead |
| BlobStore.Reader.Next | internal/blob/blob.go:274-306 | Opening a block keeps what is ahead, and an error means nothing more was to come |
| BlobStore.Reader.Read | internal/blob/blob.go:260-272 | A read hands over the next bytes of what is ahead, at least one if it may; its errors are the end or corruption |
| BlobStore.ReadAll | internal/blob/blob.go:260-272 | Any sequence of positive buffer sizes reads the same bytes to the same end |
| BlobStore.Fetch | internal/blob/blob.go:201-272 | Store, reader and laws together, over all that was ever sealed: a clean end exactly for a file the store wrote out, with its body, and before an error a prefix of what was sealed |
| Intake.Session.Data | internal/smtpd/smtpd.go:374-578 | Success means exactly that the whole body is on the spool and a queued row names every recipient, with the clock, the domain's retention or else the queue's, and the verdicts in its fields, not overdue before its time; a refusal leaves no row, and no body unless it could not be removed, and says why; trouble of our own is answered as temporary; every outcome is a run of the queue protocol |
| Intake.Session.Offer | internal/smtpd/smtpd.go:411-560 | The part from the spool to the row: what is stored, which verdict refuses, and when the row is held back |
| Intake.AcceptRefines | internal/smtpd/smtpd.go:411-543 | From every reachable state that mirrors spool and queue, an acceptance leads to a reachable state that mirrors them again, with the message accepted |
| Intake.RefusalRefines | internal/smtpd/smtpd.go:411-543 | The same for a refusal, whether or not the body could be removed: nothing was accepted or entered |
| Intake.AcceptedIsNeverLost | internal/smtpd/smtpd.go:411-543 | Whatever happens after an acceptance, crashes included, every recipient it named stays accounted for, unless the sender gives it up without a refusal; without exception if no attempt does that |
| Clock.LaterInText | internal/store/store.go:245-247 | A stored time is later than every clock reading exactly when it is at least a second later |
| Queue.QueueStore.Enqueue | internal/store/queue.go:19-44 | A new row is queued with no attempts, unless its id is taken |
| Queue.QueueStore.ClaimBatch | internal/store/queue.go:123-188 | Claims rows that are queued, due, not held, of an enabled domain, and of its kind: inbound of a domain that is up, outbound, or bounces; each once, up to the limit, the earliest stored retry times first; what may be claimed is left only when there is no room, and nothing else changes |
| Clock.StoredOrder | internal/store/store.go:245-247 | Stored times, compared as text, are ordered |
| Queue.QueueStore.MarkDelivered | internal/store/queue.go:190-196 | That row is delivered and its claim ended, its recipients kept, no other row touched; an absent row is reported |
| Queue.QueueStore.MarkFailed | internal/store/queue.go:198-204 | That row is failed with one attempt more and its claim ended, no other row touched; an absent row is reported |
| Queue.QueueStore.Reschedule | internal/store/queue.go:206-213 | That row waits again until the given delay has passed, its claim ended, no other row touched; an absent row is reported |
| Queue.QueueStore.SetRecipients | internal/store/queue.go:215-221 | Only the recipients of that row change; an absent row is reported |
| Queue.QueueStore.Quarantine | internal/store/filters.go:145-150 | Holds back a row that is not held yet, and nothing else changes |
| Queue.QueueStore.ExpireOverdue | internal/store/queue.go:241-262 | Exactly the queued overdue rows that are not held expire, and are returned |
| Queue.QueueStore.ReleaseOrphanedClaims | internal/store/queue.go:264-275 | Exactly the old claims go back to the queue |
| Queue.QueueStore.PurgeDelivered | internal/store/queue.go:382-391 | Exactly the old finished rows are removed |
| Queue.DeferredIsLater | internal/store/queue.go:206-239 | For every attempt, jitter and clock reading a deferred row is later than now, exactly when the retry base is at least two seconds |
| Queue.DelayDoubles | internal/store/queue.go:223-239 | The delay starts at the base, doubles with every attempt, and stops at the maximum or after 33 attempts |
| QueueProtocol.StepKeeps | internal/sender/sender.go:138-252 | Every single write, failed write, claim, release, expiry, purge and crash keeps the queue's invariant |
| QueueProtocol.NoRecipientLost | internal/sender/sender.go:138-252 | In every run each recipient of an accepted message was taken or really refused, is named by a failed or expired row, or is still named by a pending row whose body is on the spool, unless it was given up without being refused |
| QueueProtocol.BodilessWereRefused | internal/sender/sender.go:212-252 | A pending row whose body is gone names only recipients that were really refused, but for those given up without it, so delivered mail is never reported lost |
| QueueProtocol.FairRunsLoseNobody | internal/sender/sender.go:138-252 | In runs whose attempts give up only whom a peer refused, both hold without exception |
| QueueProtocol.SingleHolder | internal/sender/sender.go:56-136 | In every run no message is in two hands, what is being transmitted is claimed, and a claim takes none that is in hand |
| QueueProtocol.UntouchedWhileSending | internal/store/queue.go:241-275 | Releases of orphans, expiry, purges and the writes for other messages leave the row of a message in transmission as it is; an administrator may hold it |
| QueueProtocol.HeldWhileSending | internal/store/queue.go:264-275 | A message that stays in transmission stays claimed, with the recipients it was read with |
| QueueProtocol.SettlingNeedsEveryone | internal/sender/sender.go:212-252 | Once all writes after an attempt are done, a recipient is accounted for exactly when it was accepted, deferred or really refused, or when nobody was accepted or deferred, so that the failed row still names everyone |
| QueueProtocol.GivingUpNeedsTheRow | internal/sender/sender.go:177-193 | After a permanent error the failed row names everyone if it could be written; if not, only those really refused are accounted for |
| QueueProtocol.BouncePlanned | internal/sender/sender.go:257-265 | A plan holds a bounce exactly for a message with a sender that is authenticated or sent through here, of which somebody failed for good, and at most one |
| QueueProtocol.BouncesGoToTheSender | internal/sender/sender.go:262-311 | No backscatter: in every run a bounce is written only for such a message; it goes to its sender alone, has no sender of its own, and is kept for the retention |
| QueueProtocol.BodyGoesLast | internal/sender/sender.go:155-252 | The body goes as the last thing, exactly when nobody is left to send it to |
| QueueProtocol.AttemptRecorded | internal/sender/sender.go:155-252 | What an attempt adds to the history of the runs: who took the mail, who is given up, who was refused |
| QueueProtocol.UnheldIsClaimable | internal/store/filters.go:152-160 | A message that an administrator lets go is claimable at once, if its domain is enabled and up or it is outbound |
| SenderPass.BouncesEnd | internal/sender/sender.go:262-311 | Whatever becomes of a bounce, no bounce follows it |
| SenderPass.Deliver | internal/sender/sender.go:138-252 | One delivery takes the steps of the queue protocol, each write done or failed; if none fails, the row is delivered, or queued again for exactly the deferred with one attempt more at now plus the delay, or failed, and a bounce, if one is due, is a new row addressed to the sender; it adds at most one row, without sender, and its own is not ready afterwards |
| SenderPass.DeliveredWeight | internal/sender/sender.go:262-311 | So the waiting mail grows by one at most, and only for a message that had a sender |
| SenderPass.ClaimRound | internal/sender/sender.go:95-114 | The claims of a round are disjoint and take off the rows what their messages weigh; a failed first claim ends the pass, a failed second one does not |
| SenderPass.Pass | internal/sender/sender.go:90-136 | A pass at a fixed clock ends after at most as many rounds as the waiting mail weighs, whatever the peers answer and whichever writes and claims fail, with nothing claimable left unless a claim of the last round failed; and what it does to the table is a run of the queue protocol |
| SenderPass.BackoffIsPatient | internal/store/queue.go:223-239 | Its hypothesis holds for every jitter once the retry base is two seconds |
| Outbound.Transmit | internal/sender/outbound.go:316-361 | The transaction as a function of the peer's answers |
| Outbound.TransmitConserves | internal/sender/outbound.go:316-361 | Without an error the three lists are a permutation of the recipients, each in envelope order and where the answer to its own command puts it |
| Outbound.TransmitExactly | internal/sender/outbound.go:316-361 | What a transaction comes to, reply by reply: the error of MAIL, of a broken RCPT or of DATA, or three lists in which every recipient is where its own answer puts it, rejected for a code from 500 to 599 |
| Outbound.SendTo | internal/sender/outbound.go:210-247 | The first host that answers decides; unreachable ones only leave their error |
| Outbound.HostsExactly | internal/sender/outbound.go:210-247 | The error of the look-up, the transaction with the first host that is reached, or the error of the last one |
| Outbound.Group | internal/sender/outbound.go:168-183 | Malformed recipients are set aside and the others grouped by lower-cased domain, in order |
| Outbound.AddressExactly | internal/sender/outbound.go:168-183 | An address has its domain behind its last @, in any letter case; without one or with nothing behind it, it is malformed |
| Outbound.SendDirect | internal/sender/outbound.go:162-208 | The loop over the domains, with the stop after a failed one when the context has ended |
| Outbound.DirectLists | internal/sender/outbound.go:185-206 | The accepted and those put off, domain by domain, an error that is not permanent putting all of a domain off |
| Outbound.GroupingConserves | internal/sender/outbound.go:168-183 | Grouping loses nobody and doubles nobody |
| Outbound.DirectConserves | internal/sender/outbound.go:162-208 | Direct mode keeps every recipient exactly when the context does not end at a failed domain before the last one |
| Outbound.AbandonedDropped | internal/sender/outbound.go:203-205 | Otherwise somebody is in no list |
| Outbound.SecondDomainLost | internal/sender/outbound.go:203-205 | For any two recipients of different domains, a failed first domain with a dead context leaves the second in no list |
| Outbound.SecondDomainLostExample | internal/sender/outbound.go:203-205 | Such an envelope, a@x and b@y |
| Outbound.RelayConserves | internal/sender/outbound.go:138-151 | The second try of a refused null sender keeps the recipients too |
| Outbound.RelayExactly | internal/sender/outbound.go:138-158 | The relay gets a second try only for a null sender that MAIL refused for good, on a connection that could be reset |
| Outbound.TransmitGivesUp | internal/sender/outbound.go:316-361 | Whom a transaction gives up, by its lists or its error, the peer refused or only put off; the latter happens exactly when DATA is refused after one recipient was accepted and another put off, and to exactly those put off |
| Outbound.DirectGivesUp | internal/sender/outbound.go:162-208 | The recipients direct mode rejects are the malformed, the refused and the wronged ones, each once, and nobody is wronged exactly when no transaction the loop comes to is of that kind |
| Outbound.RelayGivesUp | internal/sender/outbound.go:138-151 | The same for the transaction of the relay that counts, the second one after a refused null sender |
| Outbound.PutOffAndGivenUp | internal/sender/outbound.go:196-202 | For any two recipients of one domain, of whom the first is accepted, the second answered 450 and the message 550, both are rejected, and only the first was refused |
| Outbound.PutOffAndGivenUpExample | internal/sender/outbound.go:344-360 | Such an envelope, a@x and b@x |
| Attempts.TransmitAttempt | internal/sender/sender.go:155-193 | A transaction with any answers is a step of the queue, which gives up only the refused unless DATA overrules an answer, and then, for distinct recipients, does not |
| Attempts.DirectAttempt | internal/sender/sender.go:155-193 | The same for direct mode, while its context lives |
| Attempts.PutOffRecipientLost | internal/sender/sender.go:212-252 | With a third recipient deferred, the one only put off is not accounted for once all writes are done |
| Webhook.Dispatcher.Begin | internal/webhook/webhook.go:104-120 | The tailer starts at the stored cursor, or the first time at the head of the log, if that can be saved |
| Webhook.Dispatcher.Drain | internal/webhook/webhook.go:122-157 | A drain writes the rows of its batch in order up to the one that fails, and moves the stored cursor only when all of it succeeds |
| Webhook.Dispatcher.Tick | internal/webhook/webhook.go:92-100 | The cursor in memory stays equal to the stored one |
| WebhookRuns.BeginTaken | internal/webhook/webhook.go:104-120 | The start of the dispatcher object is the step of the runs |
| Webhook.TriesBounded | internal/webhook/webhook.go:239-295 | At most the configured number of tries is counted, and a delivery waits exactly while no recorded try settled it and some are left; tries that could not be recorded count for nothing |
| Webhook.TriesExactly | internal/webhook/webhook.go:239-295 | What becomes of a delivery: it waits with every recorded try counted, has failed at the last one allowed, or the first try that settles it decides: the subscription gone or disabled, a 2xx, or a 4xx other than 408 and 429 |
| Webhook.Backoff | internal/webhook/webhook.go:297-315 | The doubling loop gives the base times a power of two, capped, plus the jitter |
| Webhook.DelayDoubles | internal/webhook/webhook.go:297-315 | The first delay is the base, 30 seconds if none is set; each next one is twice as long, up to the maximum |
| WebhookRuns.BatchExactly | internal/webhook/webhook.go:122-129 | A drain takes on the first 200 events behind the cursor, or all of them |
| WebhookRuns.CountOf | internal/webhook/webhook.go:136-151 | A whole drain enqueues every event once for each subscription it is due to, and nothing else |
| WebhookRuns.StepKeeps | internal/webhook/webhook.go:78-157 | Recording, purging, changing subscriptions, starting, draining with faults and crashing keep the outbox's invariant |
| WebhookRuns.TickTaken | internal/webhook/webhook.go:92-157 | A tick of the dispatcher object is the step of the runs |
| WebhookRuns.EveryEventEnqueued | internal/webhook/webhook.go:78-157 | In every run an event between start and stored cursor was purged unseen, or enqueued at least once for each subscription that was enabled at its drain and lists its kind or lists none, exactly once if nothing failed |
| WebhookRuns.NothingElseEnqueued | internal/webhook/webhook.go:122-157 | Without a failure a row belongs to such an event and such a subscription |
| Recipients.SortedUnique | internal/api/recipients.go:29-30 | A strictly sorted list is determined by its elements |
| Recipients.ValidRecipients | internal/api/recipients.go:13-31 | The loop normalises, drops empty addresses, and refuses an address outside the domain |
| Recipients.ValidExactly | internal/api/recipients.go:13-31 | A list is accepted exactly if it has at most 100000 addresses and each, trimmed and in lower case, is empty or something@domain without blanks, brackets, commas and semicolons; what comes out is strictly sorted and holds exactly those that are not empty |
| Recipients.LessExactly | internal/api/recipients.go:29-30 | The order is that of the bytes |
| Recipients.ValidIsNormal | internal/api/recipients.go:13-31 | What is accepted is strictly sorted and holds exactly the cleaned addresses |
| Recipients.NormalIsFixed | internal/api/recipients.go:13-31 | A list in that form is accepted unchanged |
| Recipients.NormalIsKept | internal/store/recipients.go:32-57 | Storing it keeps it as it is |
| Recipients.KeptExactly | internal/store/recipients.go:32-57 | What is stored of any list is strictly sorted, trimmed, in lower case, and holds nothing empty |
| Config.DomainFromRequest | internal/api/handlers.go:701-773 | The merge of a request over an existing domain or the defaults, and its three errors |
| ConfigMeaning.RequestExactly | internal/api/handlers.go:701-773 | A request field by field: present fields are set, absent ones keep their value or get the default (port 25, opportunistic TLS, no limits, the queue's retention, enabled); refused exactly as a renaming, an invalid domain, or a loop |
| ConfigMeaning.KeyExactly | internal/store/domains.go:373-375 | A domain is looked up under its name in lower case without the dot at its end |
| Config.PlanImport | internal/api/configio.go:237-363 | The planner's loops give, entry by entry, what is created, updated, left alone or skipped, or the first error |
| ConfigMeaning.AcceptedExactly | internal/api/configio.go:237-363 | A document can be planned exactly if its version is known, every entry has a name of its own, makes a good request and lists recipients of its domain, and every account has a name of its own without blanks, sends as known domains, and is old, without a password, or with a strong one |
| ConfigApply.Node.ApplyImport | internal/api/configio.go:365-404 | The five loops carry the plan out in some order of the two maps and stop at the first failure |
| ConfigLaws.EntrySettled | internal/api/configio.go:260-302 | An entry planned against tables that hold its own plan is unchanged |
| ConfigLaws.ApplySucceeds | internal/api/configio.go:365-404 | For normalised names carrying out a plan succeeds, with a result that does not depend on the order of the maps |
| ConfigMeaning.ImportMeans | internal/api/configio.go:237-404 | What an import of normalised names does to every domain and account, and what it reports: rows merged field by field, lists replaced by the cleaned ones or left alone, accounts created switched on or only switched, and nothing that the document does not name touched |
| ConfigLaws.ImportSettlesDomains | internal/api/configio.go:168-200 | After one import no domain was removed and planning the document again changes none |
| ConfigLaws.ImportTwiceSettlesAll | internal/store/users.go:329-345 | After two imports nothing at all is left to change; a new account marked disabled needs the second |
| ConfigLaws.AccountsAfterOne | internal/store/users.go:329-345 | Planned again after one import, the accounts still to change are exactly those that were new and marked disabled |
| ConfigLaws.OrderIrrelevant | internal/api/configio.go:376-402 | Two orders of the maps give the same tables |
| ConfigNames.SecondImportRefused | internal/api/handlers.go:718-724 | For every domain an import created, the next import of its document succeeds exactly when the name has no space around it and no dot at its end; otherwise it is refused as a renaming, or with two dots planned as new again and stopped by the taken name |
| ConfigExport.ExportConfig | internal/api/configio.go:67-106 | The loops write one entry for each domain and account |
| ConfigExport.ImportKeepsNode | internal/api/configio.go:365-404 | Imports of normalised names keep a node in order, as the export laws need it |
| ConfigExport.ExportChangesNothing | internal/api/configio.go:67-123 | Applying a node's own export changes nothing, however its accounts write the domains they may send as |
| ConfigExport.ExportPlansOnEmpty | internal/api/configio.go:315-328 | An export can be planned on an empty node exactly when every account writes its domains by their own names; otherwise it is refused for an unknown domain |
| ConfigExport.AcceptedByApi | internal/api/handlers.go:1148-1153 | Every name that the accounts API lets an account send as is one the planner knows, so the export laws cover it |
| ConfigExport.TrailingDotRefused | internal/api/configio.go:315-328 | Such a node: domain a.b, and an account that may send as a.b with a dot at its end |
| ConfigExport.TrailingDotAccepted | internal/api/configio.go:315-345 | The planner accepts that account, and it is stored as written |
| ConfigExport.ExportRebuilds | internal/api/configio.go:168-200 | Applied to an empty node an export gives the same domains and recipients, and the same domain section is exported there |
| ConfigRestore.PlansWithPasswords | internal/api/configio.go:109-117 | An export with passwords put in can be planned on an empty node exactly if the export can and the passwords are strong |
| ConfigRestore.RestoresNode | internal/api/configio.go:67-123 | Then it gives the same domains, recipients and accounts, the accounts switched on |
| ConfigRestore.RestoresNodeFully | internal/api/configio.go:365-404 | And imported a second time it restores the node in full |
| RateLimit.Compact | internal/ratelimit/ratelimit.go:28-33 | The in-place compaction keeps the times inside the window, in order |
| RateLimit.Limiter.Allow | internal/ratelimit/ratelimit.go:21-48 | Grants exactly when fewer than the maximum of the key's grants since its last reset lie inside the window, eviction included |
| RateLimit.GrantedExactly | internal/ratelimit/ratelimit.go:21-48 | A call is granted exactly if fewer than the maximum of the key's grants since its last reset are less than a window old |
| RateLimit.Limiter.Evict | internal/ratelimit/ratelimit.go:40-46 | Exactly the keys without a grant as recent as the cutoff are deleted, and no later answer changes |
| RateLimit.Limiter.Reset | internal/ratelimit/ratelimit.go:50-54 | Forgets the grants of one key |
| RateLimit.LimitHolds | internal/ratelimit/ratelimit.go:21-48 | Over any run, no stretch of a window between resets holds more grants than the maximum |
| RateLimit.Replay | internal/ratelimit/ratelimit.go:21-54 | Over any run the limiter answers as the full history would |
| IssuanceGuard.ZeroMeansToken | internal/acme/guard.go:41-76 | Zero is returned exactly when a token was consumed, even by a clock that goes back |
| IssuanceGuard.TakenExactly | internal/acme/guard.go:41-76 | A call in full: a token for every whole 120 seconds since the last filling, at most 120, one taken if there is one, and else the wait until the next, at most 30 seconds |
| IssuanceGuard.TakenEarlier | internal/acme/guard.go:41-76 | A clock that went back earns nothing and takes nothing back |
| IssuanceGuard.PatientCallers | internal/acme/guard.go:41-76 | Whoever waits a whole interval between calls is never refused |
| IssuanceGuard.BurstGranted | internal/acme/guard.go:41-76 | As many calls as there are tokens are granted, whenever they come |
| IssuanceGuard.Guard.Take | internal/acme/guard.go:41-76 | The bucket, the wait and the warnings after a call |
| IssuanceGuard.GrantsSinceCreation | internal/acme/guard.go:41-76 | Grants since creation are at most 120 and one for every full refill interval |
| IssuanceGuard.GrantsInRun | internal/acme/guard.go:41-76 | Grants between two times of a run are at most that and one more |
| Probe.StatusTable.RecordProbe | internal/store/domains.go:136-198 | The row after a probe with its stamps, and whether it is reported; without a row nothing changes |
| Probe.StampsAreReports | internal/store/domains.go:178-190 | For every history the stamps are the times of the last changes reported up and down |
| Probe.CountersAreRuns | internal/store/domains.go:160-176 | For every history the counters are the length of the run of results at its end |
| Probe.UpExactly | internal/store/domains.go:160-176 | Up exactly when enough successes in a row came since enough failures in a row last did |
| Probe.ReportedExactly | internal/store/domains.go:160-190 | A probe is reported exactly if it changes the state, or fails as the first of all |
| Probe.ReportsAlternate | internal/store/domains.go:160-176 | Reported changes alternate, the newest is the present state, and a first failing probe is the initial down |

## Left out

- Bytes are characters, spaces and letter case are those of ASCII: Go's Unicode spaces and case folding are not modelled.
- ARC: parsing of the published key record, the context and the errors of the resolver; a lookup gives a key or none.
- ARC: `strconv.Atoi` overflow, because every value it concerns is refused by the range checks that follow.
- ArcSeal.Seal: the random failure of the writer, because a partial write gives an error to the same caller.
- Real cryptography and encodings (AES-GCM, HKDF, SHA-256, RSA, Ed25519, base64, PEM, YAML, JSON).
- Blob: `Seal` and `Unseal` of small secrets, directories, permissions, and what a reader returns after its first error.
- BlobStore.Store.Put: does not say where a disk error happens, because every one of them leaves the store as it was.
- Queue: text columns that decide nothing (subject, last error, spam score), and sizes.
- Queue: `Backoff` in whole nanoseconds instead of floating point; jitter is any value of its range.
- QueueProtocol: the workers' steps interleave freely and a bounce's row may be written later than the code writes it, which allows more runs than the code has.
- Intake: the commands before DATA, SPF, and how filters, spam and malware checks reach their verdicts; the trace header is a parameter.
- QueueProtocol: filters, spam and malware checks between spooling and enqueueing are one nondeterministic refusal.
- SenderPass.Pass: delivers a batch one message after the other, because each worker writes only its own row and new ones; the context stays alive.
- SMTP, TLS, DNS and HTTP: foreign calls, seen through their answers.
- Webhook: signing, posting and the list of failures kept on a subscription; delivery rows are kept as history, their purge is left out.
- Config: Argon2id hashes, warnings, the texts of errors, and database errors other than a taken or missing name.
- ConfigExport.ExportRebuilds: says of accounts only that they are skipped, because an export holds no passwords; ConfigRestore.RestoresNode puts them in.
- IssuanceGuard: `RoundTrip`, which goes ahead after its wait without taking a token, so the bounds hold for `take` only.
- Routes, DKIM signing, sending limits, users, roles, tokens, alerts, metrics, clustering and the web interface: they would mostly add short proofs.
