# solx: a verified model of its vault, input handling, transfers and settings

This project models the parts of `solx` that decide whether a wallet file stays whole, what a user's
input becomes, and what gets signed. The core is the vault: an in-memory record that is edited in place,
a byte format, an encrypted envelope, and a commit protocol by which any number of processes replace one
file. Around it stand the line editor and the secret reader, decimal amounts, the packing of close
transactions, the approve-refresh-sign protocol, and the settings menus.

Code that changes state in the program changes state here: `Vault`, `LockedBytes`, `Reader`, `EditLine`,
`CommandHistory`, `Terminal`, `Wallet`, `Editor`, `Directory`, `Input` and `App` are classes, and loops are
loops. Each is proved against a function of its inputs, and what the program promises is proved of those functions.

How the modules build on each other:

- `Prelude`, `Utf8`, `Text`, `Configuration`: integers, byte fields, UTF-8 (section 4 of RFC 3629), string
  operations and what they mean character by character, settings and their validation rules.
- `VaultValue`, `Vault`, `History`, `Audit`: the operations on a vault as functions, the class that performs
  them in place, and what holds along whole histories of edits.
- `LockedBytes`, `Codec`, `Serializer`, `Envelope`: the byte format as a relation, the reader and writer that
  implement it, and the authenticated file around it.
- `Commit`, `CommitSafety`, `CommitProgress`, `CommittedHistory`: the save protocol as a system of steps of many
  processes over one directory, with failure, crash and power loss between any two steps; its invariant; and what the chain
  of commits means. `lineage` in a state is a history variable that influences no step.
- `Sessions`, `SaveRefinement`: one process's sequential view of the same protocol, the commands that ask for
  approval before they change the vault, and why a sequential save is a run of the step system. Which actions
  succeed, and what the others leave under the vault name whenever they may run, are any sequences at all.
- `Zipper`, `EditLine`, `CommandHistory`, `Keys`, `LineEditor`, `Secret`, `BoundedLine`: input.
- `Amounts`, `Instructions`, `Batches`: what is sent.
- `Traces`, `Heard`, `Signing`, `SendProgress`: how it comes to be signed. Replies and answers are any sequence at all. `Traces`
  says what a complete transaction looks like, `Heard` when a sequence of replies contains one, and `Signing`
  runs the program against them, with a log in which no reply can be skipped or made up; `SendProgress` shows
  that replies which agree are always signed over.
- `SettingsEditor`, `SettingsLines`: the nested menus, refined to one flat machine over the user's answers; and
  what lines typed there do to the draft.

Code the program calls but does not define is a field of the record `Configuration.World`: key derivation,
address computation, JSON, URL and hash parsing, the password hash and the cipher. `World.Lawful` lists all
that is assumed of it: settings survive printing and parsing and print to something, and a cipher text is 16
bytes longer than its plain text and decrypts to it under the same key, nonce and header (RFC 8452). Nothing is
assumed about fresh nonces. Randomness, clock readings, replies, typed answers and failures are inputs.

Two places where a natural reading of the program is not what it does:

- For ALL, the fee that is displayed and approved is asked for separately from the fee the amount is computed
  from, and only the latter is asked again before the display. So amount and approved fee need not make up
  the balance (`Signing.ApprovedFeeMayDiffer` is such a run; `Signing.ApprovedFeeAddsUp` says exactly when they do).
- A settings draft is not always valid: after choosing a custom cluster it lacks a genesis hash until one is
  set (`SettingsEditor.CustomClusterAwaitsItsHash`).

## Model

| member | source | states |
|---|---|---|
| `VaultValue.EditKeepsInvariant` | `src/vault.rs:472-596` | Adding, deriving, importing, deleting, remembering and changing settings all keep the vault consistent: at most 32 phrases, 128 wallets and 256 recipients, valid and distinct names, references and counters in range, every stored secret having its stored address |
| `VaultValue.MasterIsAdded` | `src/vault.rs:517-535` | A new phrase adds exactly one wallet, at index 0 of that phrase, with counter 1; everything earlier stays |
| `VaultValue.DerivedIsAdded` | `src/vault.rs:537-572` | A derived wallet shares its source's phrase, its index is above every index in use for that phrase, all copies of the phrase count past it, and no other counter or wallet changes |
| `VaultValue.ImportedIsAdded` | `src/vault.rs:574-583` | An imported key adds exactly one wallet with that key and leaves the phrases alone |
| `VaultValue.NameErrorIff` | `src/vault.rs:585-596` | The name error is, in this order, a bad name, a name some wallet has, or 128 wallets already; there is none exactly when the name is free |
| `VaultValue.MasterIsAddedIff` | `src/vault.rs:517-535` | A phrase is added exactly when the name is free, there are fewer than 32 phrases, and entropy of a legal length derives an address at index 0 |
| `VaultValue.DerivedIsAddedIff` | `src/vault.rs:537-572` | A wallet is derived exactly when the name is free, the source comes from a phrase, and the largest counter of the phrase's copies is below 2^31 and derives an address |
| `VaultValue.ImportedIsAddedIff` | `src/vault.rs:574-583` | A key is imported exactly when the name is free and the key is 64 bytes that have an address |
| `VaultValue.RememberIff` | `src/vault.rs:508-515` | A recipient goes to the end exactly when it is new and fewer than 256 are stored; otherwise nothing changes |
| `VaultValue.PhraseUseIff` | `src/vault.rs:453-470` | A wallet's phrase counts as used elsewhere exactly when another derived wallet has the same entropy, as unused exactly when none has, and as no phrase exactly for an imported key |
| `VaultValue.HighWater` | `src/vault.rs:549-556` | The next index is the largest counter over all copies of the phrase, attained by one of them |
| `VaultValue.RemoveIsExact` | `src/vault.rs:453-507` | Deletion succeeds exactly when some wallet has the name and, with erasure, it is derived and no other derived wallet has the same entropy; survivors keep name, order, address, phrase, index and counter; erasure removes every copy of the phrase and no other phrase; the two errors are told apart |
| `VaultValue.RemoveKeepsInvariant` | `src/vault.rs:472-507` | After the reference remapping no wallet refers to a missing or different phrase |
| `Vault.Vault.constructor` | `src/vault.rs:188-199` | A new vault is empty, with default settings, no recorded edit and no file behind it |
| `Vault.Vault.EnsureNewName` | `src/vault.rs:585-596` | The name checks report an error exactly as specified: bad name, taken name, account limit |
| `Vault.Vault.AddMaster` | `src/vault.rs:517-535` | In place: the specified new vault, or an error and nothing changed |
| `Vault.Vault.AddDerived` | `src/vault.rs:537-572` | In place, with the loop over the phrase's copies: the specified new vault, or an error and nothing changed |
| `Vault.Vault.AddImported` | `src/vault.rs:574-583` | In place: the specified new vault, or an error and nothing changed |
| `Vault.Vault.RememberRecipient` | `src/vault.rs:508-515` | A recipient is remembered once, while there is room |
| `Vault.Vault.RemoveAccount` | `src/vault.rs:472-507` | In place: the specified vault without the wallet, or an error and nothing changed |
| `Vault.Vault.MarkCopies` | `src/vault.rs:483-488` | Exactly the copies of the deleted wallet's phrase are marked |
| `Vault.Vault.EraseMasters` | `src/vault.rs:493-505` | The reverse removal loop with its nested decrement removes exactly the marked phrases and rebases every reference |
| `Vault.Vault.LowerReferences` | `src/vault.rs:498-503` | Exactly the references above the removed position drop by one |
| `Audit.RecordEditIff` | `src/vault.rs:169-186` | An edit is recorded exactly when the clock is set, not before the last edit and not past the year 9999, and the counter is not at its maximum; it then counts one more and keeps the time |
| `History.HighWaterNeverFalls` | `src/vault.rs:537-572` | While any copy of a phrase is stored, no edit lowers its high-water counter |
| `History.IndicesAreFresh` | `src/vault.rs:537-572` | Over any history of edits: an index handed out is above every index that any wallet of the phrase ever had, deleted ones included, unless the phrase was erased in between; only entering a phrase anew repeats index 0 |
| `History.WhatIsIssued` | `src/vault.rs:517-572` | A new phrase hands out its index 0, a derived wallet the largest counter of its source's phrase, every other or failing edit nothing; what is handed out is then held |
| `History.OnlyErasureForgets` | `src/vault.rs:472-507` | Only a deletion with erasure makes a stored phrase disappear, and then no wallet uses it |
| `History.RunAppend` | `src/vault.rs:472-596` | Edits compose: a history is its first part followed by the rest |
| `LockedBytes.LockedBytes.constructor` | `src/secret.rs:210-216` | A buffer of the given capacity, empty and all zero |
| `LockedBytes.LockedBytes.ExtendFromSlice` | `src/secret.rs:230-247` | Appends exactly when there is room, and keeps every byte past the length zero |
| `LockedBytes.LockedBytes.Truncate` | `src/secret.rs:251-256` | Keeps a prefix and zeroes the rest |
| `Prelude.FieldRoundTrip` | `src/vault.rs:681-714` | A little-endian field reads back as the number written |
| `Prelude.FieldIsCanonical` | `src/vault.rs:735-825` | A little-endian field has one encoding |
| `Prelude.FieldBytes` | `src/vault.rs:681-714` | The i-th byte of a field is the number over 256 to the i, modulo 256 |
| `Codec.DecodeIsExact` | `src/vault.rs:717-805` | A byte string decodes to a vault and audit exactly when it is their layout around some settings text that parses to the vault's settings, and vault, settings and audit obey every rule of the decoder |
| `Codec.LayoutOfSmallVault` | `src/vault.rs:683-713` | The layout byte by byte for one phrase, a derived and an imported wallet and one recipient: the counts' widths, the order of lists and fields, the kind tags, the settings length, the two audit numbers |
| `Codec.NamesAreUtf8` | `src/vault.rs:687-691` | Names are written as their UTF-8 encoding |
| `Codec.DecodeIsPrefixFree` | `src/vault.rs:717-805` | No accepted byte string is a strict prefix of another |
| `Codec.EncodeRoundTrip` | `src/vault.rs:644-805` | A consistent vault is encoded exactly when its settings and audit are valid and its settings fit 64 KiB, and decoding gives the same vault and audit |
| `Codec.ReencodeKeepsBytes` | `src/vault.rs:644-805` | Encoding what was decoded changes nothing outside the settings text and its length field |
| `Serializer.SizeIsExact` | `src/vault.rs:656-680` | The size computed in advance is the size written, and the enveloped file stays below 1 MiB |
| `Serializer.EncodeWithAudit` | `src/vault.rs:644-715` | The serializer writes exactly the specified bytes into a buffer that is left with exactly 16 spare bytes; no write overflows |
| `Serializer.Reader.Take` | `src/vault.rs:813-818` | Takes the next bytes and advances past them, or fails and stays |
| `Serializer.Reader.Number` | `src/vault.rs:819-825` | Reads one little-endian field |
| `Serializer.DecodeMasters` | `src/vault.rs:718-736` | The advancing reader computes the specified list of phrases |
| `Serializer.DecodeAccounts` | `src/vault.rs:737-776` | The advancing reader computes the specified list of wallets, with the same error first |
| `Serializer.DecodeRecipients` | `src/vault.rs:777-784` | The advancing reader computes the specified list of recipients |
| `Serializer.DecodeSettings` | `src/vault.rs:785-790` | The advancing reader computes the specified settings |
| `Serializer.DecodeAudit` | `src/vault.rs:791-795` | The advancing reader computes the specified audit |
| `Serializer.Decode` | `src/vault.rs:717-805` | The imperative decoder computes the specified decoder, errors included |
| `Envelope.HeaderRoundTrip` | `src/vault.rs:40-85` | A written header parses to itself |
| `Envelope.HeaderIsCanonical` | `src/vault.rs:40-85` | A parsed header writes exactly the 48 bytes it was parsed from |
| `Envelope.HeaderBytes` | `src/vault.rs:65-85` | The 48 bytes of a header, one by one: magic, version, key-derivation identifiers, the one supported profile, salt, nonce |
| `Envelope.OpenIff` | `src/vault.rs:258-275` | A file opens to a salt, vault and audit exactly when it is a header of the supported profile, within the length bounds, before a cipher text that decrypts, under the key of the salt, the nonce and the header, to the layout of exactly that vault and audit around acceptable settings text; so a file that does not authenticate does not open |
| `Envelope.SealWritesVaultFile` | `src/vault.rs:294-309` | What is sealed is such a file: the header, then the cipher text of the vault's layout around its printed settings |
| `Envelope.SealedOpens` | `src/vault.rs:258-307` | A sealed vault opens to the same salt, vault and audit, and is smaller than 1 MiB |
| `Envelope.EqualFilesEqualVaults` | `src/vault.rs:319-333` | Equal files come from equal vaults whatever nonces were drawn, so comparing bytes compares vaults |
| `CommitSafety.StepKeepsInvariant` | `src/vault.rs:277-361` | Every step of load, edit and save, every failure, crash and power loss keeps the system invariant |
| `CommitSafety.RunsAreSound` | `src/vault.rs:277-361` | The invariant holds at every point of every run of any number of processes |
| `CommitSafety.NameIsAlwaysComplete` | `src/vault.rs:334-361` | At every point, and after any power loss from there, the vault name is absent (only before the first commit) or resolves to one complete committed image, the last of a chain in which each image was built from the one it replaced |
| `CommitSafety.CommittedFilesNeverChange` | `src/vault.rs:382-409` | A process that opened the file still finds, at any later point while it reads, exactly the image that was current when it opened |
| `CommitSafety.CommittedFilesStay` | `src/vault.rs:334-361` | Every committed file keeps its bytes through every step, and every file held open is a committed one |
| `CommitSafety.OnlyCurrentBaselinesCommit` | `src/vault.rs:318-333` | A rename replaces only the bytes its save was based on, by its own image, with no other process past the lock; a stale save commits nothing |
| `CommitSafety.NameChangesOnlyByRename` | `src/vault.rs:346-360` | Only a rename or a power loss changes what the name resolves to; cleanup never does |
| `CommitSafety.StepKeepsDurable` | `src/vault.rs:347-355` | What a directory sync has covered survives every step |
| `CommitSafety.DurableIsForever` | `src/vault.rs:347-355` | A commit present at a directory sync, with all its predecessors, is never lost later in the run |
| `CommitSafety.SuccessIsDurable` | `src/vault.rs:277-361` | A save that reports success has its own image in the chain for good |
| `CommittedHistory.CommitsAreSerial` | `src/vault.rs:277-361` | Serializability: the k-th committed vault is what one process would have after all committed edits up to it in commit order |
| `CommittedHistory.IndicesAreNeverReissued` | `src/vault.rs:517-572` | Across all processes, an index committed for a phrase is above every index committed for it earlier, unless the phrase was erased in between; only entering a phrase anew repeats index 0 |
| `CommittedHistory.AuditCountsChanges` | `src/vault.rs:153-186` | The stored edit counter is the number of commits that changed the settings, starting at 0, and recorded times never fall |
| `CommittedHistory.MemoryMatchesSource` | `src/vault.rs:347-355` | In memory, audit and saved settings match what the source bytes encode, also after a rename whose directory sync failed |
| `CommitProgress.UndisturbedSaveCommits` | `src/vault.rs:277-361` | The protocol is not safe by refusing: a process with a current baseline, undisturbed, commits exactly its vault and edits, durably, and goes on with them as its new baseline |
| `CommitProgress.FirstCommitIsReachable` | `src/vault.rs:223-240` | From an empty directory there is a run that commits a new vault |
| `CommitProgress.FaultsAreAlwaysPossible` | `src/vault.rs:318-361` | No fault is assumed away: in every state any process may die and lose the lock, any action may fail, and power may go, leaving any binding of the name that was possible, anything in unsynced files and any temporary names |
| `CommitProgress.WorkIsAlwaysPossible` | `src/vault.rs:223-275` | In every reachable state an idle process may start a vault or open the file, a reader can read what it opened, and a vault in memory can be edited |
| `Sessions.Load` | `src/vault.rs:254-275` | Loading succeeds exactly when the read does and the file that the others left is an authentic vault file with the session's salt (a header, then a cipher text that decrypts to a vault's layout); the vault is the one in that file, with those bytes as its baseline |
| `Sessions.Save` | `src/vault.rs:277-361` | The name is replaced exactly when an image can be made, the name held the vault's baseline after the others' last turn, and every action up to the rename succeeds; it then holds the vault with the next audit, and memory says so; otherwise it holds what the others left and memory is unchanged; success needs the directory sync too |
| `Sessions.LockAndCompare` | `src/vault.rs:318-333` | A save goes on exactly when lock and read succeed and the file is the baseline |
| `Sessions.ReplaceFile` | `src/vault.rs:334-361` | The name is replaced exactly when the temporary name was free and creation, write, sync and rename succeed; no other file is touched |
| `SaveRefinement.SaveIsARun` | `src/vault.rs:277-361` | Every outcome that the contract of the sequential save allows is the outcome of a run of the step system from the same state, so the safety and durability theorems cover the commands |
| `Sessions.App.LoadVault` | `src/main.rs:45-56` | Unlocking and loading succeed exactly when their reads do and the files the others left are authentic vault files with the session's salt, or with one salt; the vault is the one in the file then under the name |
| `Sessions.App.CommitSettings` | `src/settings.rs:89-106` | Settings replace only the reviewed revision, found under the name after the others' last turn, and change nothing else in it; a changed candidate is adopted by the program exactly when the rename happened; otherwise the name holds what the others left; undisturbed, a writable candidate is committed |
| `Sessions.App.EditSettings` | `src/settings.rs:62-87` | The whole command: what is committed replaces the file that was reviewed and is what the answers made of its settings, valid and changed, with one more recorded edit; otherwise the name holds what the others left and the program keeps the reviewed settings; undisturbed, a saved draft is committed |
| `Sessions.App.DeleteWallet` | `src/commands.rs:462-537` | A deletion replaces only the file that was reviewed, and by that vault without exactly the wallet whose name was typed; its phrase is erased, in all copies, exactly if no other wallet comes from it and ERASE was typed, and kept after a blank line; any other answer, or none, deletes nothing; otherwise the name holds what the others left; undisturbed, an approved deletion is carried out |
| `Sessions.ConfirmIff` | `src/commands.rs:504-537` | The confirmation approves exactly when the first line is the wallet's name between white space and, if no other wallet comes from its phrase, the second is ERASE between white space or blank; it erases exactly for ERASE |
| `Sessions.DeletionReadsAnswers` | `src/commands.rs:504-537` | In the vault that a deletion leaves, the wallet's phrase is gone exactly when no other wallet came from it and the second line was ERASE between white space; after a blank one no phrase is touched |
| `Sessions.App.DeleteReviewed` | `src/commands.rs:475-480` | After the approval the file is replaced only if it is still the reviewed revision |
| `Utf8.DecodeEncodeAll` | `src/line_editor.rs:171-173` | Every text decodes from its encoding |
| `Utf8.Decode` | `src/line_editor.rs:171-173` | Only encodings of texts decode |
| `Utf8.WellFormedIsScalar` | `src/line_editor.rs:245-270` | Every well-formed sequence of section 4 of RFC 3629 is the encoding of one scalar value |
| `Utf8.LastOfEncoded` | `src/secret.rs:418-427` | Walking back to the last byte that starts a character finds exactly the last character |
| `Text.TrimIff` | `src/commands.rs:1400-1409` | A trimmed line equals a word exactly when the line is the word between white space |
| `Text.SplitIff` | `src/settings.rs:519-525` | The words of a line are exactly its runs without white space, in order |
| `Text.ContainsIff` | `src/line_editor.rs:43-49` | A line contains a text exactly when the text stands somewhere in it |
| `Text.ParseU64Iff` | `src/settings.rs:221-246` | A 64-bit number is read exactly from digits, after at most one plus, whose value fits |
| `Zipper.KeysUndo` | `src/line_editor.rs:181-222` | Backspace takes back typing, left and right undo each other, delete after left is backspace |
| `Zipper.TypingMeans` | `src/line_editor.rs:181-192` | Typing puts the text at the cursor and the cursor behind it exactly when the line then fits 4096 bytes, and otherwise does nothing |
| `Zipper.MovingMeans` | `src/line_editor.rs:194-204` | Moving leaves the line and moves the cursor by one character, or not at an end |
| `Zipper.RemovingMeans` | `src/line_editor.rs:206-222` | Delete takes out the character behind the cursor, backspace the one before it, at an end nothing |
| `EditLine.EditLine.Insert` | `src/line_editor.rs:181-192` | Inserting is inserting characters at the cursor, or nothing exactly when the line would exceed 4096 bytes |
| `EditLine.EditLine.Replace` | `src/line_editor.rs:175-179` | The line becomes the text with the cursor after it |
| `EditLine.EditLine.Left` | `src/line_editor.rs:194-198` | The cursor moves over one character, or stays at the start |
| `EditLine.EditLine.Right` | `src/line_editor.rs:200-204` | The cursor moves over one character, or stays at the end |
| `EditLine.EditLine.Delete` | `src/line_editor.rs:206-215` | The character after the cursor goes, and no byte is left behind past the end |
| `EditLine.EditLine.Backspace` | `src/line_editor.rs:217-222` | The character before the cursor goes |
| `EditLine.EditLine.Text` | `src/line_editor.rs:171-173` | The bytes are always the encoding of the line, so reading them never fails |
| `EditLine.EditLine.CopyWithin` | `src/line_editor.rs:187-188` | Overlapping copies move the old bytes |
| `CommandHistory.BrowsingRestoresDraft` | `src/line_editor.rs:65-89` | Going back any number of times and forward again ends with the line that was being typed |
| `CommandHistory.RememberStaysTidy` | `src/line_editor.rs:37-63` | At most 64 lines, none twice in a row, none that names a secret; a line with a secret changes nothing |
| `CommandHistory.SensitiveIff` | `src/line_editor.rs:37-49` | A line is withheld exactly when its first word is import or export or it contains --base58 or --mnemonic, or what it stands for does so as a word |
| `CommandHistory.RememberedIff` | `src/line_editor.rs:37-63` | The list after a line: the same for a blank, secret or repeated line, otherwise the line at the end and the oldest of 64 gone |
| `CommandHistory.KeptLinesAreClean` | `src/line_editor.rs:37-63` | No kept line has import or export as its first word, or --base58 or --mnemonic anywhere |
| `CommandHistory.OlderShows` | `src/line_editor.rs:65-78` | What a step back shows |
| `CommandHistory.CommandHistory.Remember` | `src/line_editor.rs:37-63` | In place, the specified list |
| `CommandHistory.CommandHistory.Older` | `src/line_editor.rs:65-78` | In place, the specified step back |
| `CommandHistory.CommandHistory.Newer` | `src/line_editor.rs:80-89` | In place, the specified step forward |
| `Keys.CharactersAreRead` | `src/line_editor.rs:245-270` | Every printable character is decoded from its bytes and nothing after it is touched |
| `Keys.CharacterAccounts` | `src/line_editor.rs:245-270` | For any bytes: a character is typed only if the bytes taken are exactly its encoding, and a byte that interrupts one is the last byte taken and is handed back |
| `Keys.InterruptedCharacterIsDropped` | `src/line_editor.rs:297-363` | A character cut short by another byte leaves no trace: the editor goes on as if it had never started, with that byte next |
| `Keys.EscapeIsBounded` | `src/line_editor.rs:226-243` | An escape sequence consumes at most 17 bytes |
| `Keys.KeystrokesEditTheLine` | `src/line_editor.rs:285-365` | Any keystrokes, history arrows included, as the bytes a terminal sends, and then return or line feed, give the line that pressing them one by one on the zipper and the recalled commands makes |
| `Keys.OtherEndings` | `src/line_editor.rs:307-333` | After any keystrokes: Ctrl-C cancels an edit or gives an empty line; Ctrl-D ends the input on an empty line and is ignored on any other; the end of the stream ends the input on an empty line and is an error on any other; a failing read is an error |
| `Keys.OtherBytes` | `src/line_editor.rs:307-363` | Byte 8 is backspace, and every other control byte does nothing |
| `Keys.ApplicationArrows` | `src/line_editor.rs:226-243` | Arrows in the application form do the same |
| `Keys.OtherSequences` | `src/line_editor.rs:226-243` | Every other escape sequence is read to its end, or for 16 bytes, and does nothing to the line |
| `Keys.TurnsEnd` | `src/line_editor.rs:297-363` | Every turn of the dispatch loop consumes input, pushed-back byte included |
| `LineEditor.EscapeKey` | `src/line_editor.rs:226-243` | The loop over the 16-byte buffer computes the specified key |
| `LineEditor.InsertCharacter` | `src/line_editor.rs:245-270` | Types exactly one decoded character or leaves the line unchanged, with the interrupting byte pending |
| `LineEditor.ReadTtyLine` | `src/line_editor.rs:285-365` | The dispatch loop ends with the specified outcome for any stream, its buffer valid throughout |
| `Secret.ReadSecret` | `src/secret.rs:405-436` | The loop computes the specified result, and the buffer is zero past its length at every exit |
| `Secret.EraseLast` | `src/secret.rs:418-427` | One backspace removes the bytes back to the last one that starts a character |
| `Secret.SecretIsTypedText` | `src/secret.rs:405-436` | On any characters and backspaces, ended by return or line feed, the secret is the text with one whole character removed per backspace, or a length error exactly when it stops fitting |
| `Secret.OtherSecretEndings` | `src/secret.rs:405-436` | How else a secret ends, after any characters and backspaces: Ctrl-C, Ctrl-D, the end of the input, a failing read |
| `BoundedLine.ReadBoundedLine` | `src/main.rs:215-257` | However the input arrives, reading fails exactly when a read fails before the line is complete; otherwise the result is the specified line and the input is left right after it, also for a line that is too long |
| `BoundedLine.ReliableInputNeverFails` | `src/main.rs:215-257` | Where no read fails, no line is lost to a failure, whatever the chunks |
| `BoundedLine.LinesAreRead` | `src/main.rs:215-257` | A line of text is returned exactly when it fits 4096 bytes with its newline, and the next line is next either way |
| `BoundedLine.LastLineIsRead` | `src/main.rs:215-257` | A last line without a newline is returned exactly when it fits 4096 bytes, and nothing is left |
| `BoundedLine.LinesAreTexts` | `src/main.rs:215-257` | What is returned is exactly the text whose encoding was read; bytes that encode no text are an error |
| `Amounts.ParsingIsExact` | `src/commands.rs:1615-1648` | Parsing succeeds exactly on digits with at most one point and few enough places whose exact scaled value fits 64 bits, and returns that value; no intermediate overflow intervenes |
| `Amounts.ExactIff` | `src/commands.rs:1615-1648` | The exact value over the parts of the text: the digits before the point times 10 to the precision, plus those behind it times 10 to the places left |
| `Amounts.AmountRoundTrip` | `src/commands.rs:1615-1665` | Every amount at every precision up to 19 parses back from its printed form |
| `Amounts.PrintedIsExact` | `src/commands.rs:1650-1665` | The printed form means exactly the amount |
| `Amounts.PrintedIsShort` | `src/commands.rs:1650-1665` | The printed form has no zero before the number or after the fraction and no bare point; beyond 19 decimals it is the raw number of base units |
| `Batches.SendCloseBatches` | `src/commands.rs:1038-1093` | For any outcomes: what was sent are consecutive runs from the head of the list, each fitting, with exactly its candidates' instructions, each run unable to take the next candidate; nothing follows an unknown or failed outcome; the count is exactly the confirmed candidates; it stops early only at a candidate too big alone or a run that does not compile, both next in line; with none of these and all confirmed, everything is sent |
| `Batches.GreedyStaysAhead` | `src/commands.rs:1038-1093` | If sub-runs of a fitting run fit, after k transactions no other way of cutting the list is further along |
| `Batches.GreedyIsMinimal` | `src/commands.rs:1038-1093` | Then no other way of cutting the list into fitting runs needs fewer transactions |
| `Batches.EachCandidateIsClosed` | `src/commands.rs:783-801` | A batch's instructions are its candidates' own, in order and with nothing between: each a close of the account to its owner, and directly before it a burn of the whole amount exactly when the amount is not zero and mint and program are not those of wrapped SOL |
| `Instructions.BurnReadsBack` | `src/commands.rs:1239-1260` | A burn names account, mint, amount and decimals so that they can be read back, and only the authority signs |
| `Instructions.TransferReadsBack` | `src/commands.rs:649-661` | A transfer names source, target and amount so that they can be read back, and only the source signs |
| `Instructions.CloseReadsBack` | `src/commands.rs:1286-1296` | A close is the byte 9 over the account, the owner as the place the lamports go, and the owner as the only signer |
| `Instructions.LimitReadsBack` | `src/commands.rs:1262-1271` | A compute limit can be read back from its instruction, as the display does |
| `Traces.TunedLimitCovers` | `src/commands.rs:1273-1284` | A compute limit exists exactly for a plausible usage; it covers usage and margin, at least 1000 units more, unless the maximum comes first, and is no larger than needed |
| `Traces.FinishedInPlace` | `src/commands.rs:1325-1331` | The transfer of ALL replaces the command's first instruction, whether or not a limit precedes it |
| `Traces.RentAddsUp` | `src/commands.rs:1449-1472` | In a complete rent quote every account the instructions may create was looked up, in order and no other; each was found or priced right after; and the quote is the sum of the prices |
| `Traces.SignersIff` | `src/commands.rs:1595-1604` | Only the payer has to sign exactly when no instruction names another signer |
| `Heard.RentIff` | `src/commands.rs:1449-1472` | Replies contain at most one rent trace, and the quote computed from them is it |
| `Heard.TuneIff` | `src/commands.rs:1308-1324` | The limit found from the replies exists exactly when they contain a tuning trace that compiles, and is that one |
| `Heard.PriceIff` | `src/commands.rs:1325-1343` | Likewise for fee, rent and the amount of ALL |
| `Heard.DecideIff` | `src/commands.rs:1382-1414` | Likewise for the approval |
| `Heard.OnlyTheWordApproves` | `src/commands.rs:1397-1411` | Where approval is asked for, nothing is approved unless the line read is BURN for a burn, or yes otherwise, between white space |
| `Heard.RefreshIff` | `src/commands.rs:1474-1523` | Likewise for the refresh that precedes a signature |
| `Heard.SendIff` | `src/commands.rs:1298-1523` | For any replies, what the program makes of them is a signed trace exactly when they contain a complete one, and it is that one |
| `Signing.Wallet.RentQuote` | `src/commands.rs:1449-1472` | The rent is the sum of the prices replied for exactly the associated accounts replied missing, and fails exactly when the replies are no such quote |
| `Signing.Wallet.Tune` | `src/commands.rs:1308-1324` | From the replies, exactly the specified limit or failure: a passing simulation at the maximum and its usage |
| `Signing.Wallet.ResolveAll` | `src/commands.rs:1325-1334` | From the replies, exactly the balance less the fee quoted for the provisional message, or failure, put in the right slot |
| `Signing.Wallet.Price` | `src/commands.rs:1325-1343` | From the replies, exactly the fee and rent of the final instructions, for ALL with the first fee confirmed, or failure |
| `Signing.Wallet.Decide` | `src/commands.rs:1382-1412` | From the replies and answers, exactly the approval: a passing preview simulation if enabled, and if the policy asks, a line that is BURN for a burn or yes otherwise between white space, and the unlocked vault; any other line or none ends it |
| `Signing.Wallet.Requote` | `src/commands.rs:1486-1495` | Passes exactly when the replies repeat the approved fee and rent and for ALL the balance |
| `Signing.Wallet.RefreshAndSign` | `src/commands.rs:1474-1523` | Signs exactly when the replies give, in this order, a new blockhash, equal quotes for the new message, its passing simulation, the same wallet, and a height more than 5 before expiry |
| `Signing.Wallet.SendTransaction` | `src/commands.rs:1298-1447` | For any replies: it signs exactly when they make a complete trace, then exactly that one; if the policy asks, the line that was typed is BURN for a burn or yes otherwise between white space; the log records every reply as received, nothing made up; otherwise nothing is signed; and the log stays safe |
| `Signing.ApprovalWasTyped` | `src/commands.rs:1397-1411` | The events of a signed transaction for which the policy asks hold the question and a line that is the word between white space |
| `SendProgress.AgreeingRepliesSign` | `src/commands.rs:1298-1523` | The protocol is not safe by refusing: for every policy, with or without ALL, replies that agree (one fee, a passing simulation with plausible use, a height more than 5 before expiry), instructions that create no account and name no other signer, and the right word, in the order asked, lead to a signature with the second blockhash |
| `Signing.Wallet.Call` | `src/commands.rs:1311-1316` | Every reply is the next of the script and is logged with its request |
| `Signing.TraceKeepsSafe` | `src/commands.rs:1298-1523` | In any log the program writes, every signature is over instructions displayed before, that name no signer but its key, with a blockhash fetched after that, the displayed fee and rent quoted again for that very message, its passing simulation, the signer loaded again at the same address and a height more than 5 before expiry; for ALL, with the quoted balance found again, a positive amount that with the quoted fee makes it up, and a simulated remainder of 0 |
| `Signing.AllDrainsTheWallet` | `src/commands.rs:1325-1343` | ALL sends the quoted balance less the fee quoted with it, to the right slot, other instructions untouched, with the balance unchanged at signing and a simulated remainder of 0 |
| `Signing.OnlyALimitIsAdded` | `src/commands.rs:1308-1324` | Otherwise the signed instructions are the command's own, after at most one compute limit that covers the probed usage |
| `Signing.ApprovedFeeAddsUp` | `src/commands.rs:1325-1343` | In any run of ALL that signs, amount and approved fee make up the balance exactly when the reply that quoted the displayed fee equals the one before it, from which the amount was computed |
| `Signing.FeePlaces` | `src/commands.rs:1325-1343` | Where in the replies of a run the three fee quotes before the display stand |
| `Signing.ApprovedFeeMayDiffer` | `src/commands.rs:1335-1343` | A run of the program, on concrete replies, that signs although they differ: the displayed fee is a separate quote that is not compared with the other |
| `SettingsEditor.SettingDoesWhatIsAsked` | `src/settings.rs:221-284` | In a draft that obeys the rules, a field accepts exactly the texts that mean a value keeping the rules, and stores that value; a genesis hash is read-only off custom clusters |
| `SettingsEditor.SettingTouchesOneField` | `src/settings.rs:221-284` | No other field changes, except that a new cluster unsets the genesis hash |
| `SettingsEditor.SettingTouchesNothingElse` | `src/settings.rs:221-284` | Wallets, aliases and mode stay |
| `SettingsEditor.SetFieldKeepsDraftOk` | `src/settings.rs:221-284` | Setting a field keeps every validation rule but the one on custom clusters |
| `SettingsEditor.DropKeepsOrder` | `src/settings.rs:478-479` | Removing a wallet name keeps the others in order |
| `SettingsEditor.EveryDraftIsGood` | `src/settings.rs:342-539` | From valid settings of legal size, along every sequence of answers, every draft obeys every rule except possibly that a custom cluster has a hash, and fits 64 KiB |
| `SettingsEditor.CustomClusterAwaitsItsHash` | `src/settings.rs:247-255` | The exception occurs: choosing the custom cluster leaves a draft that is not valid, and saving it is refused |
| `SettingsEditor.OnlyValidDraftsAreSaved` | `src/settings.rs:369-388` | An edit returns only entirely valid settings of legal size that differ from the original |
| `SettingsEditor.NothingIsSavedAfterExit` | `src/settings.rs:22-30` | A draft is saved only at SAVE, and no answer before it, at any prompt, was exit, the end of input or a failure |
| `SettingsEditor.VerdictIsWhereItLeads` | `src/settings.rs:342-396` | The outcome of an edit is where its answers lead; running out of answers saves nothing |
| `SettingsEditor.Editor.ReadInput` | `src/settings.rs:22-30` | One answer moves the edit as specified; exit and the end of input cancel it |
| `SettingsEditor.Editor.EditGroup` | `src/settings.rs:398-456` | The group menu's loop follows the specification until it goes back, is cancelled or fails |
| `SettingsEditor.Editor.EditWallets` | `src/settings.rs:458-494` | The wallet prompt follows the specification |
| `SettingsEditor.Editor.EditAliases` | `src/settings.rs:496-539` | The alias prompt follows the specification |
| `SettingsEditor.Editor.Edit` | `src/settings.rs:342-396` | The nested menus come to exactly the outcome of the flat machine, for every sequence of answers |
| `SettingsLines.AddingAWallet` | `src/settings.rs:458-494` | The lines 3, 4, add and a valid name put the name at the end of the history wallets if it is absent, there are fewer than 16 and the settings fit; a present name or a full list changes nothing |
| `SettingsLines.RemovingAWallet` | `src/settings.rs:458-494` | The lines 3, 4, remove and a valid name leave exactly the other names, in order |
| `SettingsLines.ClearingWallets` | `src/settings.rs:458-494` | The lines 3, 4, clear leave no history wallet |
| `SettingsLines.InvalidWalletName` | `src/settings.rs:475-477` | A name that is not valid changes nothing |
| `SettingsLines.SettingAnAlias` | `src/settings.rs:496-539` | The lines 4, set, a valid name and some words give exactly that alias those words, if the aliases then obey their rules and the settings fit |
| `SettingsLines.RemovingAnAlias` | `src/settings.rs:496-539` | The lines 4, remove and a valid name leave exactly the other aliases, as they were |
| `SettingsLines.OpeningAField` | `src/settings.rs:153-177` | The two menu numbers open the field of that place; the genesis hash only on a custom cluster |
| `SettingsLines.TurningASwitch` | `src/settings.rs:221-284` | At each of the eight switches on and true turn exactly that switch on, off and false turn it off, and any other word changes nothing |
| `SettingsLines.TypingANumber` | `src/settings.rs:221-284` | At each of the four numbers digits store their value in that place exactly when it is in its range |
| `SettingsLines.ClearingANumber` | `src/settings.rs:221-284` | clear unsets the refresh interval and no other number |
| `SettingsLines.TypingAText` | `src/settings.rs:247-270` | Endpoint, cluster and genesis hash take the typed text if it is acceptable; clear unsets endpoint and hash; a new cluster unsets the hash |
| `SettingsLines.SavingAndCancelling` | `src/settings.rs:369-394` | At the main menu the save words ask for confirmation exactly of a changed, valid draft of legal size, the cancel words give up; only SAVE confirms |
| `SettingsLines.AddingAndSaving` | `src/settings.rs:342-396` | The whole session 3, 4, add, a new name, b, s, SAVE saves exactly the settings with that name added |
| `SettingsLines.Stopping` | `src/settings.rs:22-30` | At every prompt exit and the end of input give the edit up and a failing read is an error |

## Left out

- The internals of Argon2, AES-GCM-SIV, Ed25519, BIP39 and BIP32, base58, JSON, URL and hash parsing: library code, kept as functions of `World`. The key is a function of the salt, so a wrong password and a changed password are not modelled.
- Locking memory, erasing it on drop, process limits and protections: system calls of `src/secret.rs` and `src/kdf.rs`. What is modelled is that bytes past a buffer's length are zero.
- Ownership, permission and symbolic-link checks of `src/secure_file.rs`: policy of the operating system. Such a check failing is one of the failures that any step may meet.
- Writers other than the program, deletion of the lock file and restoring an old vault file: documented as unsupported.
- Parsing of network replies in `src/rpc.rs`: replies are arbitrary values of the right or a wrong kind.
- Compiling a message and its wire size: a message is its payer, instructions and blockhash; whether it compiles and fits is a parameter, for packing one that may also be closed under sub-runs. The size check of the signed transaction repeats that of the unsigned one, whose signature has the same length.
- Terminal modes, prompts, redrawing, bells, help and display of settings, audit times and simulations: output only. A write that fails before a settings prompt has the effect of a failed read.
- The commands `init`, `new`, `import`, `export`, `list`, `history` and `token-transfer`, option parsing, alias expansion, and the selection of accounts to close: they combine modelled operations with input and output.
- CommitSafety.SuccessIsDurable: says that the image of a successful save stays in the chain, not that it stays last, since later saves may follow.
- Sessions.Save: models one process among others that may replace the file whenever it does not hold the lock; that nobody does so while it holds the lock is proved in `CommitSafety.OnlyCurrentBaselinesCommit`. Files the others leave are taken to be ones the program wrote.
- SaveRefinement.SaveIsARun: an outcome without a rename is matched by taking no step, so temporary files left behind by a failed save are not compared.
- Sessions.App.CommitSettings: when the candidate equals the reviewed settings, which the editor never returns, a rename that reproduced the same bytes would go unnoticed by the program; for a changed candidate it cannot.
- Codec.EncodeRoundTrip: for names as strings of ASCII characters, which are the only valid ones; that a name is UTF-8 follows from its being valid.
- Serializer.Reader.Take: positions are unbounded integers; the overflow check of the original cannot trigger below its 1 MiB limit.
- Signing.Wallet.SendTransaction: the polling inside submission is one reply, and the second factor of a vault session (its cached key) is one request to unlock.
- The shell loop, periodic history refresh and the text interface: they call what is modelled.
