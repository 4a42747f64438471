# A verified model of ccmux's attachment store and chat ledger

ccmux supervises agent sessions on a machine and carries mail between them. Three parts of it keep promises that
a reader cannot get from one function: the attachment store, the chat ledger with everything that is a position
in it, and the admission of PNG files. This project models them in Dafny and proves those promises.

`dafny verify dfyconfig.toml` checks everything.

## How it is built

**Attachments.** Two things survive a crash: a JSON index, replaced as a whole, and one byte file per record.
`AttachmentMachine` is the machine of micro-steps over the two; a step is one change of one of them, under the
guard the code has established when it makes that change. A crash is a run that stops anywhere, so what holds
along every run holds at every crash point. `AttachmentInvariant` proves what every run keeps. `AttachmentSpec`
says as functions what one uninterrupted transaction body answers and leaves; `AttachmentTransaction` and
`AttachmentService` are the code itself, writing its micro-steps into the ghost trace of a `Disk` that only
accepts legal runs, and proved equal to those functions. `AttachmentPromises` proves what callers rely on,
`AttachmentPinning` that pins and forks are legal steps, `AttachmentTombstones` that an id is live or cancelled and
never both, `AttachmentRetries` what asking again answers once the sweep of that moment has run, and
`AttachmentRoundTrip` upload and read-back over runs in which others take any
steps between two calls. `Base64` is the text form of a chunk, `AttachmentPreview` the bounded cache of verified
files.

**Chat.** `ChatIdentity` has the durable keys, `ChatLetters` the envelope, `ChatCursors` the cursor file with its
two writers, `ChatSettlement` and `ChatCoalesce` the choice of what is pushed next and how much of it at once,
`ChatExternal` the letters that wait for an answer from outside, `ChatBasis` the receipts a correspondence stands
on, `Jsonl`, `ChatFeed` and `FeedCursor` the resumable feed. `AppMachine` and `AppDelivery` are delivery to Codex
App threads: again a machine over what survives a crash, and the code that walks it while everybody else changes
the same files, delivery to managed sessions included.

**PNG.** `PngGeometry` is the exact size of an interlaced image (section 2.6 of RFC 2083) and `PngChunks` the
chunk walk (layout of section 3.2 of RFC 2083).

Results that say the code does less than its comments:

- The commit half of finalize compares bytes, not the digest. The reference it makes carries the digest of those
  bytes exactly when the row still declares the digest it was read under
  (`AttachmentPromises.CommitDescribesTheDecodedBytes`), which holds for every row that lived through the decode
  (`AttachmentPromises.CommitOfALivingRowIsCorrect`) and fails when the id was swept and begun again meanwhile
  (`AttachmentRetries.ReusedIdCommitsAnotherDigest`). A retained row is always right, because pinning hashes again.
- Beginning again is the same upload, and a cancel is final, only until the sweep at the start of a later call has
  taken the row or the tombstone: `AttachmentRetries.BeginIsIdempotent` and `AttachmentRetries.CancelIsFinal` say
  exactly until when, `AttachmentRetries.BegunStaysBegun` and `AttachmentRetries.CancelledStaysCancelled` the same
  after anything else has happened in between, `AttachmentRetries.ExpiredUploadIsBegunAnew` and
  `AttachmentRetries.CancelledIdIsBegunAgain` give the calls after that.
- `src/chat/localMessages.ts:19` says the ack log tells which retry the far side accepted. `src/fleet/flush.ts:126`
  and `:152` write the same ack for a letter that is given up, so a correspondence can be opened by a letter that
  nobody received: `ChatBasis.ReachedButNotLanded` says exactly when, `ChatBasis.GivenUpLetterIsContinued` builds
  one.
- The receiver never compares an arriving letter's sender with its own machine, so mail can arrive in the name of a
  local sender with a receipt nobody here issued (`ChatBasis.ImpersonatedMailIsNotGrounded`). That is the only way
  for a local record to stand on nothing (`ChatBasis.EveryRecordIsGrounded`).
- `src/chat/logFeed.ts:60` says a malformed cursor is refused. `parseInt` ignores what follows a number:
  `FeedCursor.AcceptedIsPrinted` says exactly which accepted texts are not what was printed,
  `FeedCursor.MalformedIsAccepted` gives a family of them.
- An answer from outside is matched on name, NUL and task, and the name schema admits NUL, so an answer for one owner
  can close the letter to another: exactly when one name continues the other after a NUL
  (`ChatExternal.WrongLetterIsClosedExactly`, `ChatExternal.KeysAreNameAndTask`).
- A letter that waits for its turn does not wait for a bounded number of deliveries: immediate mail to the same
  session goes first, also what is written meanwhile (`ChatCoalesce.NoLetterStarves`).
- Arming lost cursors at the present settles exactly the mail to managed sessions; App mail would be pushed again
  (`ChatCursors.ArmingSettlesManagedMail`).
- The number of scanlines of an interlaced image is the sum its halvings suggest exactly when the image is at
  least five pixels wide or empty (`PngGeometry.ScanlineCount`).

## Model

| member | source | states |
|---|---|---|
| AttachmentInvariant.StepKeepsSound | src/attachments/store.ts:30-44 | Every micro-step of every operation keeps the store sound: schema, all quotas, no file without its row or beyond its declared size, every retained or pinned image present with its length and digest. |
| AttachmentInvariant.StepFreezesRetained | src/attachments/pins.ts:62-69 | No step of any operation changes a retained row or its file. |
| AttachmentInvariant.EveryStateIsSound | src/attachments/store.ts:60-105 | At every crash point of every run the store is sound. |
| AttachmentInvariant.HeldForever | src/attachments/pins.ts:35-84 | Once an image is held, every later state of every run holds it with the very same bytes. |
| AttachmentInvariant.StepMovesForward | src/attachments/upload.ts:128-134 | A step never changes a living row's identity, declaration, finished reference or acknowledged bytes, and moves its count and phase only forward; a fully received file never changes. |
| AttachmentInvariant.LivingRowMovesForward | src/attachments/finalize.ts:53-85 | The same between any two states of a run between which the row was always there. |
| AttachmentInvariant.DiskUseBounded | src/attachments/upload.ts:39-53 | At every crash point all byte files together stay within the host quota. |
| AttachmentTransaction.Transaction.Persist | src/attachments/store.ts:80-87 | The index is swapped as a whole or left, refused only for its serialised size; the schema check can never refuse. |
| AttachmentTransaction.Transaction.ReapExpired | src/attachments/store.ts:30-44 | Expired rows that nothing protects lose file and row, old tombstones go, everything else stays; whatever is unlinked is unlinked before the index drops it. |
| AttachmentTransaction.Transaction.EnsureUploadFile | src/attachments/upload.ts:26-37 | A missing file is recreated only for an upload of which nothing is acknowledged. |
| AttachmentTransaction.Transaction.BeginUpload | src/attachments/upload.ts:55-98 | Tombstone, ownership, repeated declaration, quotas, then a durable reservation before the file, whose creation can no longer be refused. |
| AttachmentTransaction.Transaction.AppendUpload | src/attachments/upload.ts:100-138 | The whole outcome of a chunk in its text form: refused unless the text is the encoding of its bytes, then with the unacknowledged tail cut, written in any number of short writes and acknowledged last. |
| AttachmentTransaction.Transaction.CancelUpload | src/attachments/service.ts:74-129 | Cancel once: tombstone, file, row, in one index swap; never for a retained or cited row. |
| AttachmentTransaction.Transaction.CommitFinalized | src/attachments/finalize.ts:53-85 | The re-check under the lock and the row it commits. |
| AttachmentTransaction.Transaction.RetainExactRows | src/attachments/pins.ts:64-69 | Every cited file is hashed again before its row is marked, and the first that differs stops it. |
| AttachmentTransaction.Transaction.PinMessageImages | src/attachments/pins.ts:36-84 | Rows and pin become durable in one swap, and only then is the callback called that accepts the message; an abort or a refusal after that keeps the pin. |
| AttachmentTransaction.Transaction.InheritPins | src/attachments/pins.ts:138-186 | A fork copies every source pin the destination lacks, in one swap, or refuses and changes nothing. |
| AttachmentService.BeginAttachmentUpload | src/attachments/service.ts:30-48 | Parse, sweep, session check and body in this order, with the state each refusal leaves. |
| AttachmentService.AppendAttachmentChunk | src/attachments/service.ts:50-72 | The same for a chunk of an owned row, parsed by length, pattern and offset before anything is touched. |
| AttachmentService.CancelAttachmentUpload | src/attachments/service.ts:74-129 | The same for a cancel. |
| AttachmentService.FinalizeAttachmentUpload | src/attachments/finalize.ts:15-100 | With any transactions of others between its own, a reference made here describes exactly the bytes this call decoded, with their digest if and only if the row kept its own, and an earlier reference is repeated; a refused call, a failed decode included, only sweeps. |
| AttachmentService.EveryCrashPoint | src/attachments/files.ts:109-124 | Every durable state a disk has been in is sound and within the quota. |
| AttachmentService.PinnedThenIsPinnedNow | src/attachments/pins.ts:93-135 | What was pinned at any earlier state of a disk resolves now to the same images. |
| AttachmentPromises.AppendAcceptsExactly | src/attachments/upload.ts:105-128 | A chunk is accepted if and only if it continues the acknowledged bytes within the declaration and the index size, or repeats a part of them. |
| AttachmentPromises.AppendIsAppend | src/attachments/upload.ts:119-134 | An accepted chunk extends the acknowledged bytes by exactly itself or changes nothing; a refused one changes none of them. |
| AttachmentPromises.EveryChunkCanBeSent | src/attachments/schema.ts:23-30 | Every chunk of one to 24 KiB has a text the schema admits, and that text arrives as the chunk. |
| AttachmentPromises.OnlyTheSpellingIsRefused | src/attachments/upload.ts:105-111 | Of a chunk the schema admits the length checks cannot fail: it is refused as its encoding exactly when its last group leaves bits over. |
| Base64.EncodeThenDecode | src/attachments/upload.ts:105-111 | Encoding gives a text of the schema's pattern that decodes to what was encoded. |
| Base64.ReEncoded | src/attachments/upload.ts:105-111 | A text of that pattern is the encoding of its bytes if and only if its last group leaves no bits over. |
| AttachmentPromises.CancelLeaves | src/attachments/service.ts:86-127 | The first cancel leaves a tombstone of its scope and takes exactly the row and its file: every other row, every pin and every other tombstone stay; a repeated one changes nothing. |
| AttachmentTombstones.EveryIdIsLiveOrCancelled | src/attachments/upload.ts:61-64 | At every state of every run an id has at most one tombstone, and none while it has a row. |
| AttachmentTombstones.TombstoneStays | src/attachments/store.ts:37-44 | A tombstone is there at every later state of a run until a sweep comes at or after its expiry. |
| AttachmentRetries.BeginIsIdempotent | src/attachments/upload.ts:61-76 | Beginning again at any later time, its sweep included, answers the same receipt and changes nothing else if and only if the sweep passes and the row has not expired. |
| AttachmentRetries.BegunStaysBegun | src/attachments/upload.ts:61-76 | At any later state of a run in which the row is still there, it answers that row, of the same declaration and no less received, if and only if the sweep passes, the row has not expired and its file is there or was never written to. |
| AttachmentRetries.ExpiredUploadIsBegunAnew | src/attachments/store.ts:34-44 | The repeat that is not one: at any time after the upload lifetime the same begin answers another receipt. |
| AttachmentRetries.CancelIsFinal | src/attachments/service.ts:87-127 | At any later time, the sweep included, beginning a cancelled id is refused as cancelled, and cancelling it again is a no-op, if and only if the sweep passes and the tombstone has not expired. |
| AttachmentRetries.CancelledStaysCancelled | src/attachments/service.ts:87-127 | The same at any later state of a run whose sweeps so far came before the expiry, whatever else happened. |
| AttachmentRetries.CancelledIdIsBegunAgain | src/attachments/store.ts:37-44 | Begun, cancelled while it lives, and begun again at any time after the lifetime of its tombstone. |
| AttachmentRetries.ReusedIdCommitsAnotherDigest | src/attachments/finalize.ts:67-81 | Any image sent in one chunk and read at any time before its row expires; then expiry, a second upload of the same bytes under the same id with any other digest, each call with its sweep: the commit of the first decode records the second digest. |
| AttachmentPromises.RefusedPinsLeaveTheIndex | src/attachments/pins.ts:57-80 | A refused pin leaves the store as it was, or, refused by the abort or the callback after it, with the very pin that was asked for. |
| AttachmentPromises.CommitDescribesTheDecodedBytes | src/attachments/finalize.ts:63-81 | A committed reference carries the decoded bytes; their digest if and only if the declared digest did not change since the read. |
| AttachmentPromises.CommitOfALivingRowIsCorrect | src/attachments/finalize.ts:28-85 | For a row that lived through the decode the committed digest is that of the decoded bytes. |
| AttachmentPromises.FinalizeIsIdempotent | src/attachments/finalize.ts:35-36 | Finalizing again at any later point of the row's life answers the first reference. |
| AttachmentPromises.PinnedMessageResolvesForever | src/attachments/pins.ts:93-135 | Once pinned, a message resolves under its registration to the same images at every later state of every run, crash points included. |
| AttachmentPromises.PinningMakesResolvable | src/attachments/pins.ts:35-84 | On any sound store, a pin that was accepted, or made durable before a refusal, resolves. |
| AttachmentPinning.PinnedKeepsSound | src/attachments/pins.ts:62-77 | Re-hashing, retaining and pinning keep the store sound, whatever comes after. |
| AttachmentPinning.ForkedKeepsSound | src/attachments/pins.ts:138-186 | So does copying the pins of a source: it cites nothing the source did not hold. |
| AttachmentPromises.ForkExtendsReach | src/attachments/pins.ts:138-186 | After a fork every message the source resolved resolves at the destination to the same images, and still at the source. |
| AttachmentRoundTrip.QuietKeepsTheBytes | src/attachments/upload.ts:128-132 | Between two calls for a living row, with any steps of others and any chunks that crashed before they were acknowledged, its acknowledged bytes stay, unless its file is gone. |
| AttachmentRoundTrip.UploadsAgreeWithTheImage | src/attachments/upload.ts:100-138 | Over any run in which the row lives, with chunks in any order, repeats, refusals, losses and crashes, what is acknowledged is a prefix of the image sent. |
| AttachmentRoundTrip.ReadingReturnsTheFile | src/attachments/service.ts:131-160 | Following `nextOffset` until `complete`, each read at a state of its own, ends, and collects exactly the rest of the file if that is the only content ever seen. |
| AttachmentRoundTrip.UploadThenReadIsIdentity | src/attachments/service.ts:131-160 | Over any run in which the row lives: if parts of an image were all acknowledged, finalize reads exactly the image, and after any commit of it reads at any later states collect exactly the image, as long as the file is there. |
| AttachmentRoundTrip.HeldImageReadsBack | src/attachments/service.ts:131-160 | An image a message holds reads back at any later states of any run as the file it had. |
| AttachmentPreview.Cache.ExactRead | src/attachments/preview.ts:15-25 | Short reads are continued; of a file that holds still the answer is exactly the range, or a refusal past its end. |
| AttachmentPreview.Cache.EnsureVerified | src/attachments/preview.ts:36-58 | What the file showed when it was stamped hashes to the reference, remembered or hashed now; a still file is refused only if it does not. |
| AttachmentPreview.Cache.PreviewBytes | src/attachments/preview.ts:27-68 | Over any run of hits, misses, changes and evictions a served range comes from content that hashes to the reference, and a still file is answered as by hashing every time; at most 64 entries. |
| ChatIdentity.PrincipalKeysAreRoutes | src/chat/identity.ts:74-81 | Two principals share a key exactly when all routing fields agree; CLI and service of one machine are one, the App display name counts for nothing. |
| ChatIdentity.TargetKeysAreDestinations | src/chat/identity.ts:83-87 | Two targets share a key exactly when they are one destination; owner, external, managed and App keys never collide. |
| ChatIdentity.TargetMeetsPrincipal | src/chat/identity.ts:74-87 | A target's key is a principal's key exactly when the target is that principal. |
| ChatIdentity.SenderKeysAreSessions | src/chat/identity.ts:93-114 | Two principals are one sender exactly when they are one named session under one runtime, or one route. |
| ChatIdentity.SamePrincipalIsSameSender | src/chat/identity.ts:89-114 | Equal principals are always equal senders. |
| ChatCursors.Furthest | src/chat/cursors.ts:97-104 | The loop computes the join of two position maps, in whatever order entries come. |
| ChatCursors.JoinIsLeast | src/chat/cursors.ts:97-104 | The merge is the least map neither side is ahead of. |
| ChatCursors.JoinLaws | src/chat/cursors.ts:97-104 | The merge is idempotent, commutative and associative. |
| ChatCursors.ArmedCursors | src/chat/cursors.ts:40-45 | Exactly the managed recipients of the ledger are armed, at its length, for reading and delivery alike. |
| ChatCursors.ArmingSettlesManagedMail | src/chat/cursors.ts:32-45 | Of everything written before, arming settles exactly the letters to managed sessions. |
| ChatCursors.CursorFile.SaveCursors | src/chat/cursors.ts:81-83 | The daemon's fields replace the file's, read positions are merged with it; an unreadable file is left and nothing saved. |
| ChatCursors.CursorFile.MarkRead | src/chat/cursors.ts:86-95 | An inbox mark changes one read position, forward, and nothing else. |
| ChatCursors.ReadEndsAsTheMaximum | src/chat/cursors.ts:72-95 | In every interleaving of passes and marks each read position ends as the maximum of all claims, and every other field as the daemon last saved it. |
| ChatCursors.ReadNeverDecreases | src/chat/cursors.ts:72-95 | No write moves anybody's read position back. |
| ChatCursors.AMarkMayComeAnyTime | src/chat/cursors.ts:72-95 | A mark made at any moment of the daemon's work has the effect of one made after all of it. |
| ChatSettlement.PickPendingDelivery | src/chat/settlement.ts:57-82 | Immediate mail in order from the cursor on, past any conditional mail; only without any, the oldest due and unresolved conditional letter; nothing only if neither track has one. |
| ChatCoalesce.Coalesce | src/chat/coalesce.ts:44-67 | The two loops select a greedy batch of the waiting letters, for any ledger. |
| ChatCoalesce.BatchIsWhatIsPromised | src/chat/coalesce.ts:27-67 | A list is the selected batch if and only if it keeps the promises: written order, the oldest in, at most 8, within the bytes unless alone, an agent's letter only if every person's is in, nothing held back that would fit. |
| ChatCoalesce.PickLeadsTheBatch | src/chat/deliver.ts:266-273 | The letter the delivery gates were decided on is the first of the batch that travels. |
| ChatCoalesce.WaitingIsDistinct | src/chat/messageSchema.ts:31-31 | Ids unique in the ledger are unique among the waiting letters. |
| ChatCoalesce.NoLetterStarves | src/chat/deliver.ts:203-303 | A due letter at position p is settled within p + 1 passes that deliver, batch or single, and one more for every immediate letter of its recipient from the cursor on, those written meanwhile included. |
| ChatExternal.OutstandingExternal | src/chat/external.ts:77-103 | The two counting loops compute the open letters, restricted to one sender after matching. |
| ChatExternal.NewestAreOpen | src/chat/external.ts:81-101 | Per key exactly the newest letters are open, in ledger order, as many as letters exceed answers. |
| ChatExternal.OneMoreRecord | src/chat/external.ts:66-103 | What any one more record does per key: a letter opens, unless more answers than letters were recorded; an answer closes the oldest open one, if there is one, and no other; a record that is both does the one and then the other. |
| ChatExternal.KeysAreNameAndTask | src/chat/external.ts:87-93 | For two owners the key stands for name and task, a missing task being the empty one, if and only if they are one or neither name continues the other after a NUL. |
| ChatExternal.WrongLetterIsClosedExactly | src/chat/external.ts:81-101 | An answer for one owner can close the letter to another if and only if one name continues the other after a NUL. |
| ChatExternal.AdmittedNamesShadow | src/chat/identitySchema.ts:54-60 | Two such owners whose names the schema admits. |
| ChatExternal.UnscopedIsEverything | src/chat/external.ts:99-100 | Asked about nobody in particular, nothing is left out. |
| ChatBasis.LocalMessageIndex | src/chat/localMessages.ts:21-39 | The index filled from both files answers, for every id, what the merge rule says. |
| ChatBasis.LookupAnswers | src/chat/localMessages.ts:7-36 | A record exactly when one of that id is held, one that is held, and reached exactly when some record of that id was, whatever the order of attempts. |
| ChatBasis.EveryRecordIsGrounded | src/chat/communicationBasis.ts:30-93 | In every history, a letter of a local sender with a receipt has its opening letter on record: same sender and recipient keys, task and receipt, an opening basis; a continuation's predecessor counted as reached; a quoted permission stands in the letter it quotes. This holds if and only if it holds of the mail that arrived in the name of local senders. |
| ChatBasis.ImpersonatedMailIsNotGrounded | src/commands/receiveChat.ts:34-99 | Mail the receiver takes in the name of a local sender, with a receipt whose root nobody has. |
| ChatBasis.ComposedIsGrounded | src/chat/compose.ts:46-53 | A newly composed letter is grounded in the records it was resolved against. |
| ChatBasis.ReachedButNotLanded | src/fleet/flush.ts:22-29 | A letter sent abroad counts as reached if and only if an attempt was answered for on record or it was given up; so one that never landed counts as reached if and only if it was given up. |
| ChatBasis.GivenUpLetterIsContinued | src/fleet/flush.ts:118-162 | For any local sender and any session of another machine there is a history in which a correspondence continues a letter nobody received. |
| Jsonl.Reader.ReadJsonl | src/util/jsonl.ts:71-158 | A read that resumes from what it remembers answers what decoding the whole file answers, over any appends, replacements and other decoders in between. |
| Jsonl.PiecesAreWholeLines | src/util/jsonl.ts:110-121 | Cutting at the last newline and splitting gives exactly the finished lines. |
| ChatFeed.RowsAfter | src/chat/logFeed.ts:190-208 | The two loops emit ledger lines, then outbox lines, past the cursor, each frame with the cursor that has just consumed it. |
| ChatFeed.Follower.Drain | src/chat/logFeed.ts:218-230 | A wake-up emits what appeared after the cursor and leaves the cursor behind it. |
| ChatFeed.StreamIsExactlyOnce | src/chat/logFeed.ts:22-39 | However the files grow between drains, of each file every readable line past the start is emitted exactly once, in order. |
| ChatFeed.RestartRepeatsTheRest | src/chat/logFeed.ts:180-208 | Restarting from any frame's cursor emits exactly the frames behind it. |
| ChatFeed.RestartLosesNothing | src/chat/logFeed.ts:22-39 | Restarting from any frame at any later time tells of each file exactly what the lost stream would have told. |
| FeedCursor.PrintThenParse | src/chat/logFeed.ts:53-88 | A printed cursor of this generation is read back as itself, of any other is refused. |
| FeedCursor.AcceptedIsPrinted | src/chat/logFeed.ts:57-88 | An accepted text is a printed cursor exactly when its three parts are plain numbers. |
| FeedCursor.MalformedIsAccepted | src/chat/logFeed.ts:68-70 | Any three parts that begin with digits, the first with this generation, are accepted as those numbers: whatever follows that is no digit and no dot is ignored, and so are leading zeros; only without both is the text what was printed. |
| AppMachine.StepKeepsAccounted | src/chat/deliverApp.ts:53-57 | Every change of cursors, acks, ledger or provider keeps each accepted turn of an App thread accounted for, any change of what belongs to managed sessions included. |
| AppMachine.EveryTurnIsAccountedFor | src/chat/deliverApp.ts:73-158 | At every point of every history, whatever delivery to managed sessions does to the same file, no message id has two turns, every turn of an App thread is behind its barrier or settled, and no cursor of one has passed an immediate letter that is neither. |
| AppMachine.OfferedWasNeverAccepted | src/chat/deliverApp.ts:126-129 | A letter still offered to a recipient without a barrier has no turn, which is why its first submission asks for no proof. |
| AppMachine.TurnsOfARecipientAreSequential | src/chat/deliverApp.ts:75-107 | Two turns of one recipient are for two letters, and between them the first was accepted, acknowledged if conditional, and only then its barrier dropped. |
| AppDelivery.DeliverCodexAppMessage | src/chat/codexApp.ts:48-98 | At most one turn is started, none if the proof finds one; what is reported delivered has been accepted, a refusal or a lost reply is not. |
| AppDelivery.ThreadIsIdle | src/chat/codexApp.ts:67-81 | The answer is yes exactly when the thread as last read is idle and takes input; one that was not loaded is read again after resuming, and nothing is started. |
| AppDelivery.Daemon.NextDelivery | src/chat/settlement.ts:92-109 | The pick, with the recipient's cursor caught up to it and nothing passed that is undelivered. |
| AppDelivery.Daemon.ArmAndSave | src/chat/turnProgress.ts:157-177 | Barrier and cursor become durable together before any submission. |
| AppDelivery.Daemon.ArmAndSubmit | src/chat/deliverApp.ts:119-144 | Delivered means accepted, acknowledged on its track and the barrier dropped; anything else leaves the barrier standing. |
| AppDelivery.Daemon.DeliverFirst | src/chat/deliverApp.ts:108-157 | What is delivered is the next letter of its recipient, re-read as unacknowledged right before. |
| AppDelivery.Daemon.FinishPickup | src/chat/turnProgress.ts:184-201 | Only an accepted barrier is closed: acknowledged or passed, dropped, saved. |
| AppDelivery.Daemon.DeliverRetained | src/chat/deliverApp.ts:75-107 | A barrier that survived is closed only after proof or a new acceptance of its own letter, and no other is submitted. |
| AppDelivery.Daemon.Pass | src/chat/deliver.ts:130-319 | A whole pass from what is on disk, delivery to managed sessions first on the same copy of the cursors, only adds legal steps, so it may follow a pass stopped anywhere. |
| AppDelivery.Daemon.ManagedPass | src/chat/undeliverable.ts:49-91 | So does a sweep between passes that settles only managed recipients. |
| AppPickup.FileContains | src/agent/codex/appPickup.ts:5-14 | Searching chunk by chunk, carrying only the end, finds exactly what searching the whole file finds. |
| PngGeometry.PngInflatedBytes | src/attachments/imageValidation.ts:28-58 | The loop over the passes computes their total size, or the plain size without interlace; any other method is refused. |
| PngGeometry.ExactlyOnePass | src/attachments/imageValidation.ts:37-45 | Every pixel lies in exactly one pass. |
| PngGeometry.StepsEnumerate | src/attachments/imageValidation.ts:53-54 | A pass counts exactly the columns or rows of the image that belong to it. |
| PngGeometry.PassesHoldEveryPixel | src/attachments/imageValidation.ts:46-57 | Pass widths times heights sum to the image's area. |
| PngGeometry.ScanlineCount | src/attachments/imageValidation.ts:53-55 | The scanlines are never more than H and its three halvings, and exactly that many if and only if the image is five wide or empty. |
| PngGeometry.SizeBetween | src/attachments/imageValidation.ts:46-57 | Over any passes the size lies between the raw bits and those plus fifteen bits for each scanline. |
| PngGeometry.InterlacedSize | src/attachments/imageValidation.ts:28-58 | So does the size of an interlaced image. |
| PngGeometry.InflationCeiling | src/attachments/imageValidation.ts:94-97 | Under the dimension limits nothing inflates beyond 134246528 bytes, interlaced or not. |
| PngChunks.WalkChunks | src/attachments/imageValidation.ts:78-93 | The walk reads only inside the buffer, ends, and answers the IDAT payloads of the scan in order. |
| PngChunks.WalkAcceptsExactly | src/attachments/imageValidation.ts:81-93 | The scan answers a chunk list if and only if the file is its serialisation: gapless, one IEND, empty, at the last byte. |
| PngChunks.ScanInvertsSerialise | src/attachments/imageValidation.ts:81-92 | Serialising any complete chunk list and scanning it returns that list. |
| PngChunks.HeaderIsBounded | src/attachments/imageValidation.ts:17-26 | An accepted header bounds dimensions, depth, channels and the inflated size. |
| PngChunks.ValidatePng | src/attachments/imageValidation.ts:60-106 | Accepted or refused, nothing is inflated before its size is known and bounded, nothing is decoded unless it inflated to exactly that size, and a file is accepted exactly when the decoder then finds the dimensions of the header. |

## Left out

- File permissions, ownership, symbolic links and fsync: the file system is a map from path to bytes beside an atomically replaced index.
- The locks themselves (`withLock`): a locked section is one uninterrupted stretch of the run that may be cut short by a crash; the locks of session registry and decoder are not modelled apart.
- AttachmentTransaction.Transaction.AppendUpload: takes a text of the pattern the schema has checked; how the host decodes any other text is not modelled.
- AttachmentTransaction.Transaction.Persist: the size of the serialised index is a function of the host; JSON itself is not modelled.
- Ids, digests and peer keys are numbers compared for equality inside the attachment store, sha256 is an arbitrary function, the clock is any natural number at each call, and `createdAt` is not kept.
- Rows and pins are values that a transaction replaces in its list; that the source shares one object between list and variable is not modelled.
- `last-failure.json`, receipts' ISO timestamps, data URLs and the base64 form of what is read back: text that no decision reads.
- AttachmentService.FinalizeAttachmentUpload: the decoder's answer is a parameter, chosen before the call; subprocess and deadline are not modelled, cancellation only right before the commit.
- AttachmentRoundTrip.UploadThenReadIsIdentity: session checks and the sweep of each call are steps of the run between the states named; a chunk that crashed after it was acknowledged is a turn like any other.
- JPEG parsing, zlib, pngjs and jpeg-js: foreign decoders are parameters of `ValidatePng`; JPEG admission would add only easy members.
- ChatIdentity.PrincipalKeysAreRoutes: holds for values the identity schema admits; of a UUID only its alphabet and length are used.
- ChatCursors.CursorFile.SaveCursors: every writer but the inbox is the one daemon, as the source has it; two daemons would overwrite each other's fields.
- ChatCoalesce.BatchIsWhatIsPromised: needs message ids to be unique in the ledger, as the message schema says they are; `Coalesce` itself is stated for any ledger.
- ChatCoalesce.NoLetterStarves: counts passes that delivered and acknowledged what they picked; a pass held by a busy pane, a rate limit or a human typing is not one.
- Lengths are counted in Unicode scalar values where the source counts UTF-16 code units (the receipt budget), and byte lengths are those of UTF-8.
- ChatBasis.ReachedButNotLanded: the routing table is not modelled, so a retry may find its peer unaddressable at any time; the retry window and the number of attempts per tick only leave retries out.
- The texts of references: a reference is either prose or already two ids; the pattern of a UUID is not modelled.
- Jsonl.Reader.ReadJsonl: a file rewritten in place with the same last 256 bytes at the same offset is the one case the fingerprint cannot see; the contract excludes exactly that.
- ChatFeed.RestartLosesNothing: per file; across drains a restarted stream may interleave the two files differently, because each drain emits the ledger first.
- `boundFrame`, labels, row rendering, watchers and timers of the feed: a row is whatever its line renders to.
- FeedCursor.PrintThenParse: numbers are unbounded; digits beyond 2^53, which the host language cannot hold, are not modelled.
- AppDelivery.Daemon.Pass: what delivery to managed sessions does is any change of what belongs to them, not its tmux and native-runtime rules; the cursor file is present, because losing it replays App mail (`ArmingSettlesManagedMail`).
- AppDelivery.DeliverCodexAppMessage: the persisted proof is exact when it can be read, the App Server accepts a turn or does not, and its answer may be lost; rate limits and message text are arbitrary.
- Ledger parsing of foreign generations, `admitOnce` and its comparison of turn options, letter counts, hold explanations, framing and CLI dispatch: single-branch members that would add little.
