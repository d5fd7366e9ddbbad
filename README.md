# Queue terminals: token-to-transition pipeline

This project models the two Python terminal scripts of a tricycle-queue system.
Each terminal polls a camera and reads a QR code. It decrypts the code into
`key: value` lines and looks up the driver named by the `uid` line. The entry
terminal (`join_queue`) charges the terminal fee and puts the driver in the
barangay's queue. The exit terminal (`exit_queue`) takes the driver out of the
queue. Each transition writes a row to the driver's `queueing-transactions` and
a row to the global `queueing_history`, and then signals the actuator.

Modules:

- `Records` (records.dfy): the documents (`Account`, `QueueEntry`, `Txn`, `HistoryRow`) and the actuator signals.
- `Payload` (payload.dfy): `parse_qr_data`, which is the same code in both scripts.
- `QueueStore` (queue_store.dfy): the store as a value `State`, the join and leave transitions as functions
  `AfterJoin` / `AfterExit`, their invariants, and the class `Store`. Its methods `JoinQueue` and
  `ExitQueue` update the fields in place, in the order the scripts write, and are proved equal to those functions.
- `Dedupe` (dedupe.dfy): the one-slot filter (`prev_data` / `prev`) as class `Filter`, and for each terminal
  the positions in a sequence of reads at which the pipeline runs.
- `ExitTerminal` / `EntryTerminal`: the pipeline run for one admitted read, one pass of the main loop
  (`Cycle`), and the loop run over a finite sequence of reads (`PollLoop`).

The store invariant `ValidState` says four things:
- every user document's `uid` is its id;
- no balance is negative;
- a queue document `barangays/{b}/queue/{uid}` exists exactly when the user has `inQueue`, and `b` is that user's barangay;
- every queue document names its user.

Both transitions preserve it, and so does every session of either loop.

Parameters stand in for what the scripts get from outside:
- `decrypt: string -> Option<string>` is base64 + AES-ECB + unpad + UTF-8 (None = an exception);
- `frames: seq<string>` is what the QR detector returned on each polled frame ("" = nothing detected);
- `commitOk` / `commits(i)` says whether the store accepts the batch commit.

The exit transition is not atomic: its two log rows are written outside the batch. Neither script
inspects what the commit returns, but a commit that raises skips the success signal. The two terminals
signal differently. The model follows the scripts:

- The exit terminal writes the transaction row and the history row directly, before the batch commit. A
  failed commit therefore leaves both rows written while the user stays in the queue
  (`ExitCommitFailureIsPartial`). The entry terminal's four writes are one batch.
- A batch commit either returns or raises. A commit that raises goes to the transition's exception
  handler before the success signal. On the exit terminal that handler lights red; on the entry terminal
  it only logs.
- The entry terminal never lights an LED. It buzzes on every rejection and on success, and it sends
  nothing for a payload without a uid or for an unknown uid.
- A missing terminal fee raises `TypeError` at `user_balance - terminal_fee`. That line comes after the
  existence check, so an unknown user still gets the buzzer. A known user gets no write and no signal.
- On the entry terminal a read that does not decrypt buzzes nothing. The handler in `decrypt` calls
  `trigger_buzzer_on_esp32()` without its session argument, which raises. `prev = data` is then skipped, so
  the same unreadable code runs the pipeline again on every frame it stays in view
  (`EntryUndecryptableRefires`). On the exit terminal such a read buzzes and is remembered.
- Blank frames never reset either slot, so a code that disappears and reappears is not processed again.
- The queue document's key, and the barangay of the history row, come from the first read of the user.
  The name and tricycle number come from the re-read inside the transition.

## Model

| member | source | states |
|---|---|---|
| Records.BarangayOf | exit-scanner.py:129 | the user's barangay when the document has one, else "default_barangay" (the entry terminal does the same at modified-entrance-scanner.py:71) |
| Payload.Split | exit-scanner.py:198 | `split("\n")` yields at least one piece and no piece contains a newline |
| Payload.JoinSplit | exit-scanner.py:198 | joining the pieces with newlines gives back the text |
| Payload.SplitJoin | exit-scanner.py:198 | splitting a newline-join of newline-free lines gives back the lines |
| Payload.FindSep | exit-scanner.py:198 | the index found is an occurrence of ": " and no earlier index is; None means the line has no ": " |
| Payload.Entry | exit-scanner.py:198 | a line without ": " contributes nothing; otherwise line == key + ": " + value with no ": " in key (split at the first separator; the value may contain ": ") |
| Payload.KeyValueRoundTrip | exit-scanner.py:198 | reading back `key + ": " + value` recovers key and value for any key without ": " |
| Payload.ParseQr | exit-scanner.py:197-198 | no parsed key contains ": " and no parsed key or value contains a newline; the empty token parses to the empty dict |
| Payload.ParsedKeyIsLastLine | exit-scanner.py:197-198 | every key of the parsed dict comes from a line, and its value is that of the last line with that key |
| Payload.LastLineIsParsed | exit-scanner.py:197-198 | the last line with a given key supplies that key's value (a later duplicate overwrites an earlier one) |
| Payload.UnkeyedIsAbsent | exit-scanner.py:197-198 | a key no line carries is absent from the dict |
| Payload.SeparatorFreeLineIgnored | modified-entrance-scanner.py:152-153 | removing a line without ": " does not change the dict |
| Payload.ParseRenderedLines | modified-entrance-scanner.py:152-153 | parsing rendered `key: value` lines gives `dict(fields)` (later pairs win) |
| Payload.ParseQrRoundTrip | modified-entrance-scanner.py:152-153 | parsing the newline-joined rendering of a non-empty field list gives `dict(fields)` (the empty token is covered by ParseQr's own contract) |
| Payload.TokenUid | exit-scanner.py:231-234 | a uid is found exactly when the parsed dict has a non-empty "uid" value, and it is that value |
| QueueStore.Lookup | exit-scanner.py:82-89 | a user read gives the stored document exactly when the id is present |
| QueueStore.TerminalFee | modified-entrance-scanner.py:42-48 | the fee is None when the fee document or its "fee" field is missing, else the stored value |
| QueueStore.JoinDecision | modified-entrance-scanner.py:80-102 | checks in order: absent user, then missing fee (raises), then in queue (before balance), then balance < fee; success exactly when all pass and the commit goes through |
| QueueStore.JoinSignals | modified-entrance-scanner.py:84-149 | the entry terminal only ever buzzes, at most once per join; it sends nothing exactly when the fee is missing or the commit fails |
| QueueStore.AfterJoin | modified-entrance-scanner.py:69-149 | the fee document and the set of user ids are unchanged; other users are unchanged; the signals of the outcome are appended; one history row is appended exactly when the join succeeds, and earlier rows are kept |
| QueueStore.JoinRejectedWritesNothing | modified-entrance-scanner.py:76-149 | a rejected, raising or uncommitted join leaves users, queue, transactions, history and fee untouched; absent user, in-queue and low-balance rejections buzz once, and a missing fee or a failed commit sends nothing |
| QueueStore.JoinSuccessEffect | modified-entrance-scanner.py:104-146 | on success from balance B >= F: balance B - F >= 0, inQueue true, other account fields and other users unchanged; queue entry {uid, name, tricycleNumber, inQueue true} at (barangay, uid); exactly one {F, "Queue Entry"} transaction and one join history row with amount F; buzzer |
| QueueStore.JoinPreservesValid | modified-entrance-scanner.py:104-143 | a join preserves the store invariants (queue document exists iff inQueue, balances non-negative) |
| QueueStore.ExitDecision | exit-scanner.py:139-193 | absent user, then not in queue, are rejections; success exactly when the user is in the queue and the commit goes through |
| QueueStore.ExitSignals | exit-scanner.py:139-193 | every exit signals; the first signal is green exactly on success and red otherwise; the buzzer sounds in every case except a failed commit |
| QueueStore.AfterExit | exit-scanner.py:127-193 | the fee document, the set of user ids and every balance are unchanged; other users are unchanged; the signals of the outcome are appended; one history row is appended exactly when the user was found in the queue (whether or not the commit then succeeds) |
| QueueStore.ExitRejectedWritesNothing | exit-scanner.py:139-151 | an exit for an absent user or a user not in the queue changes nothing and signals red then buzzer |
| QueueStore.ExitSuccessEffect | exit-scanner.py:153-184 | on success inQueue becomes false and the queue document is deleted; balance and other fields unchanged; exactly one {0, "Left Queue"} transaction and one leave history row without amount; green then buzzer |
| QueueStore.ExitCommitFailureIsPartial | exit-scanner.py:162-193 | when the exit's batch commit fails, users, queue and the fee document are unchanged, but exactly the {0, "Left Queue"} transaction row and the leave history row are written for that user (no other user's rows change), and only red is signalled |
| QueueStore.ExitPreservesValid | exit-scanner.py:153-180 | an exit preserves the store invariants |
| QueueStore.JoinThenExit | exit-scanner.py:157-159 | a join followed by an exit restores the queue collection and the user's document except for the fee paid |
| QueueStore.FeeTwentyFromHundred | modified-entrance-scanner.py:98-121 | fee 20, balance 100: join succeeds with balance 80 and inQueue; the following exit succeeds, balance stays 80 |
| QueueStore.FeeTwentyFromFive | modified-entrance-scanner.py:98-102 | fee 20, balance 5: join rejected for balance, balance stays 5, no queue entry, buzzer |
| QueueStore.Store.constructor | exit-scanner.py:20 | the store client starts out holding the given state |
| QueueStore.Store.FetchUser | exit-scanner.py:82-89 | a user document is returned exactly when the id is present, and it is the stored one |
| QueueStore.Store.FetchTerminalFee | modified-entrance-scanner.py:42-48 | a fee is returned exactly when the fee document and its "fee" field exist, and it is the stored value |
| QueueStore.Store.TriggerBuzzer | exit-scanner.py:100-107 | appends one buzzer signal and changes nothing else |
| QueueStore.Store.JoinQueue | modified-entrance-scanner.py:69-149 | the outcome follows JoinDecision on the re-read user and fee; the new store is AfterJoin of the old; invariants preserved for a snapshot that agrees on the barangay |
| QueueStore.Store.ExitQueue | exit-scanner.py:127-193 | the outcome follows ExitDecision on the re-read user; the new store is AfterExit of the old; invariants preserved |
| Dedupe.Filter.constructor | exit-scanner.py:203 | the slot starts empty |
| Dedupe.Filter.Remember | exit-scanner.py:246 | the slot now holds the read |
| Dedupe.LastNonBlank | exit-scanner.py:226-246 | the exit slot's value is "" or one of the reads |
| Dedupe.LastNonBlankIsLast | exit-scanner.py:226-246 | the exit slot is "" exactly when every read so far was blank; otherwise it equals a read after which only blank reads follow |
| Dedupe.ExitFiringsOrdered | exit-scanner.py:224-246 | the exit pipeline runs at strictly increasing positions, each a non-blank read |
| Dedupe.ExitFiresIff | exit-scanner.py:226-246 | read i runs the exit pipeline iff it is non-blank and differs from the last non-blank read before it (blank frames do not reset the slot) |
| Dedupe.ExitSixReads | exit-scanner.py:226 | on reads A, A, A, B, B, A the exit pipeline runs at positions 0, 3, 5 |
| Dedupe.ExitSteadyTokenOnce | exit-scanner.py:226 | a code seen on n >= 1 consecutive frames runs the exit pipeline once |
| Dedupe.ExitBlankGapNoRefire | exit-scanner.py:224-246 | blank frames between two sightings of a code do not make it run again |
| Dedupe.LastDecrypted | modified-entrance-scanner.py:179-191 | the entry slot's value is "" or a read that decrypts |
| Dedupe.LastDecryptedIsLast | modified-entrance-scanner.py:179-191 | the entry slot is "" exactly when no read so far was a non-blank read that decrypts; otherwise it equals such a read and every later read is blank or does not decrypt |
| Dedupe.EntryFiringsOrdered | modified-entrance-scanner.py:177-191 | the entry pipeline runs at strictly increasing positions, each a non-blank read |
| Dedupe.EntryMatchesExitWhenAllDecrypt | modified-entrance-scanner.py:179-191 | when every non-blank read decrypts, the entry slot and firings equal the exit terminal's |
| Dedupe.EntryFiresIff | modified-entrance-scanner.py:179-191 | read i runs the entry pipeline iff it is non-blank and differs from the last earlier read that decrypted |
| Dedupe.EntrySteadyTokenOnce | modified-entrance-scanner.py:179-191 | a decryptable code seen on n >= 1 frames runs the entry pipeline once |
| Dedupe.EntryUndecryptableRefires | modified-entrance-scanner.py:29-32 | an undecryptable code in view for n frames runs the entry pipeline on all n frames, and the slot stays empty |
| Dedupe.EntrySixReads | modified-entrance-scanner.py:179-191 | with decryptable codes, reads A, A, A, B, B, A run the entry pipeline at 0, 3, 5 |
| ExitTerminal.Pipeline | exit-scanner.py:228-244 | one admitted read leaves the fee document, the user ids and all balances unchanged; it keeps every earlier history row and feedback signal and adds at most one history row; it signals something unless the plaintext is empty |
| ExitTerminal.UnresolvedTokenOnlyBuzzes | exit-scanner.py:228-244 | an undecryptable read, a payload without uid, or a uid with no user document only buzzes: no store write |
| ExitTerminal.PipelinePreservesValid | exit-scanner.py:229-238 | handling one read preserves the store invariants |
| ExitTerminal.Session | exit-scanner.py:206-246 | a session of the exit loop leaves the fee document, the user ids and all balances unchanged; it keeps every earlier history row and signal and adds at most one history row per read |
| ExitTerminal.SessionPreservesValid | exit-scanner.py:206-246 | a whole session of the exit loop preserves the store invariants |
| ExitTerminal.Cycle | exit-scanner.py:224-246 | the read runs the pipeline iff admitted; the slot takes the read exactly then; the store changes by the pipeline exactly then |
| ExitTerminal.PollLoop | exit-scanner.py:200-253 | the reads processed are ExitFirings(frames); the store ends in the session's state; invariants preserved |
| EntryTerminal.Pipeline | modified-entrance-scanner.py:181-189 | one admitted read leaves the fee document and the user ids unchanged, adds at most one history row and at most one buzzer; it changes the store only when it decrypts to a known uid |
| EntryTerminal.UnresolvedTokenIsSilent | modified-entrance-scanner.py:181-189 | an undecryptable read, a payload without uid or an unknown uid changes nothing and signals nothing |
| EntryTerminal.PipelinePreservesValid | modified-entrance-scanner.py:182-189 | handling one read preserves the store invariants |
| EntryTerminal.Session | modified-entrance-scanner.py:161-191 | a session of the entry loop leaves the fee document and the user ids unchanged; it keeps every earlier history row and signal; it adds at most one history row and one signal per read, and every added signal is the buzzer |
| EntryTerminal.SessionPreservesValid | modified-entrance-scanner.py:161-191 | a whole session of the entry loop preserves the store invariants |
| EntryTerminal.Cycle | modified-entrance-scanner.py:177-191 | the read runs the pipeline iff admitted; the slot takes the read only when it was admitted and decrypts |
| EntryTerminal.PollLoop | modified-entrance-scanner.py:155-200 | the reads processed are EntryFirings(frames); the store ends in the session's state; invariants preserved |

## Left out

- Decryption: base64 decoding, AES-ECB and PKCS#7 unpadding are library calls and become the `decrypt` parameter, so no cipher round trip is stated.
- Image capture and QR detection (HTTP `/capture`, `cv2.imdecode`, `detectAndDecode`) become the sequence of reads.
- The main loop's non-200, undecodable-frame and timeout branches, and all sleeps, are left out: they consume no read and change no state.
- The loops run forever; the model runs them over a finite sequence of reads.
- Actuator HTTP calls are recorded as a signal log; their delivery failures are only logged by the scripts and are left out. The entry terminal's display calls are all commented out.
- `print` logging is left out.
- Store failures other than the batch commit are left out on both terminals: a raising user read, a raising direct row write on the exit terminal, and a read error that the fetch functions turn into None.
- Server timestamps, auto-generated row ids, and durability of commits are left out. Rows are appended to sequences.
- User documents are taken to carry `uid`, `name`, `tricycleNumber`, an integer `balance` and a boolean `inQueue`. Python's `None` for absent fields, and the `KeyError`/`TypeError` that absent `uid` or `balance` would raise, are not modelled.
- Integer-only amounts: Firestore numbers that are floats are not modelled.
- Concurrency between the two terminals (and the stale-snapshot race) is left out. The invariant results assume the snapshot agrees with the store on the barangay, as it does right after the read.
- Process set-up (Firebase credentials, `db` client, ESP32 address) and the commented-out performance instrumentation are left out.
- entranceScannerCamera/lcd_display.h and exitScannerCamera/oled_display.h declare display functions only, so they are not part of this model.
