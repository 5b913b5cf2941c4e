# Verification model of vaultwarden-cli

A Dafny 4.11 model of the parts of a Vaultwarden command-line client in which a mistake is silent: what a
human's signature binds, how often a secret is created, which refresh token is presented, which agent may
act, and whether text that leaves the program still means what it meant inside. `dafny verify
dfyconfig.toml` checks everything.

| file | what it models |
|---|---|
| `ByteStrings.dfy` | bytes and their order, the growable buffer, big-endian, decimal and hex digits, ASCII classes |
| `CanonicalJson.dfy`, `JsonReader.dfy`, `Transcript.dfy` | the canonical JSON printer, a JSON reader of its own that reads every text back, hex, length framing, and the two signed transcripts |
| `Destinations.dfy`, `SecretStorage.dfy` | storage destinations, journal names, encrypting an import and checking the created item |
| `Journals.dfy`, `FileSystem.dfy`, `JournalStore.dfy`, `SecretCommands.dfy` | the write journal, a file system that can lose power, `begin`/`save`/`read`, and the two commands |
| `WriteProtocol.dfy`, `ProtocolProgress.dfy`, `JournalRaces.dfy`, `JournalSteps.dfy` | any number of those commands interleaved, with deaths and power failures; what overlapping reconciles can undo; and that `begin` and `save`, and so both commands, are such steps |
| `TokenStore.dfy`, `TokenRefresh.dfy` | saved tokens with their fallback file, and refreshing under the lock |
| `AgentRegistry.dfy` | the registry validator and what it makes permanent |
| `Base32.dfy`, `Totp.dfy` | seeds and one-time codes |
| `EnvNames.dfy`, `CipherOutputs.dfy`, `ShellExport.dfy` | environment names, variables, and the `export` lines read back by a shell |
| `Profiles.dfy`, `Interpolation.dfy` | narrowed decryption and placeholder substitution |

Conventions. Text is its UTF-8 bytes: `seq<byte>`, or a `string` with one `char` per byte. Errors are
`None`; messages are not modelled. Integer widths are written out where the source depends on them (the
32-bit frame length, the 32-bit accumulator, 64-bit times and periods). Cryptography is abstract: SHA-256
and HMAC are arbitrary functions of the right output length, and a theorem that needs collision freedom
says "or here is a collision" instead; encryption is symbolic. Names of files and keys that the source
hashes are therefore the same exactly up to such a collision.

The file system keeps, for each name, the entry that processes see and every entry that a power loss may
leave; unsynced file contents may come back as anything. `begin` syncs the journal directory and the
configuration directory that holds it; that the configuration directory itself is already durable, and is
never removed, is assumed. The network, the clock, prompts and the keyring are parameters or
nondeterministic steps.

The methods of `SecretCommands.dfy` carry a ghost execution along: whatever they do, the history of their disk
is that of steps of `WriteProtocol.dfy` by one process. The steps that the interleaving theorems speak of are
therefore those of these very methods. `TokenRefresh.RefreshIsRun` says the same of `ensure_valid_token`.

Where a method is proved against a specification function, a lemma named `...Meaning` (or one listed below)
says what that function means without it: a reader for what a printer writes, the fields of a transcript one
by one, each shown value from its own ciphertext, clocks and expiries as numbers, names and characters as
literals.

Three properties hold only under a condition, and the model says which. Framing is unambiguous for fields
below 4 GiB, because the length is cut to 32 bits; `Transcript.FramingBoundIsSharp` gives two lists of
fields that collide at the bound. Keyring plus file act as one register, that is, a load finds what the last
successful save saved, exactly when the load meets the keyring as that save did, or the keyring never held
anything, and, if that save went to the file, no write of the file has broken off since
(`TokenStore.RegisterExactly`). Otherwise older tokens come back (`TokenStore.StaleTokensComeBack`), or the
next load fails (`TokenStore.BrokenWriteLosesTokens`), because a save empties the file before it writes it. A
saved receipt keeps what the visible one binds exactly when the saving run has not been overtaken since it
took its journal (`JournalRaces.SaveAdvancesExactly`), because reconciling takes no lock; two overlapping
reconciles can bind one journal first to one item and then to another (`JournalRaces.BoundIdCanChange`).

## Model

| member | source | states |
|---|---|---|
| CanonicalJson.Canonical | src/access/approval_v2.rs:105-144 | Printing succeeds exactly when no floating-point number occurs at any depth, and then appends the canonical text to what the buffer held |
| CanonicalJson.CanonicalArray | src/access/approval_v2.rs:118-127 | The array loop prints every item once, in order, between brackets, with a comma before all but the first |
| CanonicalJson.CanonicalMembers | src/access/approval_v2.rs:132-140 | The object loop prints every member once in key order, and fails exactly on a float below some member |
| CanonicalJson.CollectSorted | src/access/approval_v2.rs:129-130 | Sorting yields the one ascending listing of the key set, whatever order the map iterates in |
| ByteStrings.LessMeaning | src/access/approval_v2.rs:130-130 | Byte order is decided at the first difference, where the smaller text ends or has the smaller byte |
| ByteStrings.BigEndianMeaning | src/access/approval_v2.rs:82-85 | In big-endian numbers the first byte weighs most |
| ByteStrings.DecimalValueMeaning | src/access/approval_v2.rs:110-116 | In decimal numbers the first digit weighs most |
| CanonicalJson.AscendingUnique | src/access/approval_v2.rs:129-130 | Byte order leaves one listing per key set, so equal maps print equally |
| CanonicalJson.IntegerInjective | src/access/approval_v2.rs:110-116 | Two integer texts followed by what can follow a value in JSON agree only on equal numbers and equal rests |
| CanonicalJson.QuotedInjective | src/access/approval_v2.rs:117-117 | Two quoted strings in front of any rests agree only on equal strings and equal rests |
| CanonicalJson.PrintInjective | src/access/approval_v2.rs:105-144 | The printer is injective on all float-free values, even in front of further text that starts with a comma or closing bracket |
| JsonReader.PrintReadsBack | src/access/approval_v2.rs:105-144 | The text of every float-free value, whatever may follow it, is JSON as RFC 8259 has it, without white space and with ascending keys, and a reader that shares no table with the printer reads exactly that value |
| JsonReader.EscapeForm | src/access/approval_v2.rs:92-95 | Only the quotation mark, the backslash and control characters are escaped, five controls by a letter and the others by `\u00` and two lowercase hex digits |
| CanonicalJson.ReviewDigest | src/access/approval_v2.rs:96-104 | A review has a digest exactly when it is float-free, and the digest is taken over exactly its canonical text |
| CanonicalJson.ReviewDigestBinds | src/access/approval_v2.rs:96-104 | Equal digests mean equal reviews or exhibit a SHA-256 collision |
| Transcript.Hex32 | src/access/approval_v2.rs:52-66 | Decoding accepts exactly 64 lowercase hex digits, and its 32 bytes print back as the same text |
| Transcript.Hex32Inverse | src/access/approval_v2.rs:52-69 | `hex32` and `hex` are inverse to each other in both directions |
| Transcript.HexMeansDigits | src/access/approval_v2.rs:52-69 | Hex text is two characters of 0-9a-f for every byte, the high half first |
| Transcript.Frame | src/access/approval_v2.rs:82-85 | A frame is the low 32 bits of the length, big-endian, and the field, appended to the buffer |
| Transcript.BuildFrames | src/access/approval_v2.rs:167-186 | The loop frames every field once, in order |
| Transcript.FramingInjective | src/access/approval_v2.rs:82-85 | Framed lists of any lengths are equal only for equal lists, if all fields are below 4 GiB |
| Transcript.FramesReadBack | src/access/approval_v2.rs:82-85 | A reader that takes a four-byte length and then that many bytes reads framed fields back, each below 4 GiB |
| Transcript.FramingBoundIsSharp | src/access/approval_v2.rs:82-85 | The bound is needed: one field of 2^32 zero bytes frames like 2^30 + 1 empty fields |
| Transcript.RequestIdMeaning | src/access/direct_request.rs:488-495 | A request id is valid exactly if it is the canonical URL-safe Base64 text of some 32 bytes |
| Transcript.ApprovalFieldsInOrder | src/access/approval_v2.rs:148-187 | Reading an approval transcript gives 14 frames, and each of them is, by its place, the domain, the action, or the input that belongs there |
| Transcript.EnrollmentFieldsInOrder | src/access/approval_v2.rs:190-215 | Reading an enrollment transcript gives six frames, each the input that belongs at its place |
| Transcript.ApprovalTranscript | src/access/approval_v2.rs:148-187 | A transcript exists exactly when all digests, the request id and the review are well formed and the review is the request's own; it frames the 14 fields in order, and reads back as them |
| Transcript.EnrollTranscript | src/access/approval_v2.rs:190-215 | An enrollment transcript exists exactly for well-formed inputs, frames its six fields in order, and reads back as them |
| Transcript.ApprovalBindsEverything | src/access/approval_v2.rs:148-187 | Equal approval transcripts mean that every bound input is equal, the review included, unless the reviews exhibit a SHA-256 collision |
| Transcript.EnrollmentBindsEverything | src/access/approval_v2.rs:190-215 | Equal enrollment transcripts mean equal inputs |
| Transcript.DomainsAreSeparate | src/access/approval_v2.rs:148-215 | No approval transcript is an enrollment transcript |
| Destinations.ItemNameMeaning | src/secret_storage.rs:92-143 | A valid destination has an item name exactly when its reference lies below its folder; folder, slash and name spell the reference, and the name is a canonical path again |
| Destinations.ValidIdMeaning | src/secret_storage.rs:105-114 | An id is five groups of lowercase hex digits, of lengths 8, 4, 4, 4 and 12, between hyphens |
| Destinations.SegmentMeaning | src/secret_storage.rs:92-103 | A path segment has 1 to 64 lowercase letters, digits and hyphens, and no hyphen at either end |
| Destinations.SplitMeaning | src/secret_storage.rs:92-103 | The segments of a path are its pieces between slashes: they contain none, and joined they are the path |
| Destinations.KeyTextInjective | src/write_journal.rs:24-29 | Two valid destinations share a key text exactly when they agree on server up to trailing slashes, account, folder id and reference |
| Destinations.JournalNameMeaning | src/write_journal.rs:24-38 | A journal is named after the hash of server up to trailing slashes, account, folder id and reference, in this order between NUL characters |
| Destinations.JournalNameIdentifies | src/write_journal.rs:24-38 | Attempts at one place meet in one journal name; attempts at two places meet only on a SHA-256 collision |
| SecretStorage.Validate | src/secret_storage.rs:42-66 | An import passes exactly when it has a secret, at most 32 distinct valid names none of which is the marker's, and at most 65536 bytes in all |
| SecretStorage.ImportMeaning | src/secret_storage.rs:42-66 | The rules for an import in numbers and characters |
| SecretStorage.FieldBytesMeaning | src/secret_storage.rs:55-64 | The size of the fields is the sum of the lengths of their names and values |
| SecretStorage.SelectorsMeaning | src/secret_storage.rs:69-81 | The recorded selectors are one for each value of the import, and ordered by their bytes |
| SecretStorage.EncryptCreate | src/secret_storage.rs:240-281 | A request is built exactly for a valid import with an item name, and it seals every text of the import, hidden, and the marker, visible, under a wrapped item key |
| SecretStorage.SelectedValue | src/secret_storage.rs:285-318 | A selector reads a value exactly when it names one; custom names must be readable and distinct |
| SecretStorage.SelectMeaning | src/secret_storage.rs:285-318 | `password`, `notes` and `custom:` with a name read the item's own password, notes, or the value of the field of that name, and nothing else reads anything |
| SecretStorage.CheckSync | src/secret_storage.rs:146-189 | The namespace check accepts exactly the right account, the only folder of that name with the right id, and, when creating, a free item name |
| SecretStorage.CheckItemMeaning | src/secret_storage.rs:192-210 | The item check passes, with the item's key, exactly for the personal, undeleted item with that id in the destination's folder under the name that completes the reference |
| SecretStorage.VerifyCreated | src/secret_storage.rs:322-379 | The checks in order amount to the declarative condition that all selectors read back and the field counts agree |
| SecretStorage.NoNameLeftOver | src/secret_storage.rs:342-379 | Counting: as many distinct names as expected, all expected ones among them, leave no unexpected name |
| SecretStorage.AcceptanceMeaning | src/secret_storage.rs:322-379 | A created item is accepted exactly when it is the one at the destination and holds the import and the marker, each with its exact value, and no other field |
| SecretStorage.HonestEchoAccepted | src/secret_storage.rs:240-379 | The honest echo of every request that was built is accepted |
| Journals.CreateCipher | src/api.rs:268-310 | The chunk loop under the size limit reaches the conclusion that the whole answer calls for |
| Journals.ConcatMeaning | src/api.rs:268-310 | The body that is judged is the chunks one behind the other |
| Journals.ReconcileRunsAdvance | src/commands.rs:2533-2567 | Any sequence of reconcile runs keeps a bound id, a verified status, the place, the attempt and the agreement of id and status |
| FileSystem.InstallSound | src/write_journal.rs:57-58 | Naming a complete, synced file leaves every journal name with complete journals only, now and after a power loss |
| FileSystem.SyncRootSound | src/write_journal.rs:59-59 | Syncing the directory settles every visible entry and keeps all names sound |
| FileSystem.PowerLossSound | src/write_journal.rs:41-86 | Whatever a power loss leaves of a sound directory is sound, and anchored names survive |
| FileSystem.MayFindExactly | src/write_journal.rs:41-86 | What can be found under a journal name after a power loss is exactly the contents of the entries still possible |
| JournalStore.Disk.WriteTemporary | src/write_journal.rs:68-76 | A temporary file is complete and synced when it is returned, which is exactly if opening, writing and syncing succeed; on success or error nothing public has changed |
| JournalStore.Disk.Begin | src/write_journal.rs:41-67 | `begin` succeeds exactly when every call succeeds on a free name; then any power loss leaves exactly this journal; at every moment before, the old state or this journal; its states are the trace that its calls make |
| JournalStore.Disk.Save | src/write_journal.rs:79-86 | At every moment of `save` a power loss leaves the old journal or the new complete one; after success readers see the new one |
| JournalStore.Disk.Read | src/write_journal.rs:89-100 | A name reads as the complete journal of its own place exactly if it exists and the journal is at most 65536 bytes long |
| JournalStore.TempTraceHidden | src/write_journal.rs:68-76 | Every state of writing a temporary file is sound and shows and risks the same public names as before; on success the file is complete and synced |
| JournalStore.BeginIsHarmless | src/write_journal.rs:41-67 | In every state of `begin`, with any calls failing, a power loss leaves under every journal name what it might have left before, or the new journal under its own |
| JournalStore.BeginSucceeds | src/write_journal.rs:55-66 | After a successful `begin` every power loss leaves exactly the journal |
| JournalStore.BeginFails | src/write_journal.rs:41-67 | After a failed `begin` the name is as it was, or shows the new journal where it was free |
| JournalStore.SaveIsHarmless | src/write_journal.rs:79-86 | In every state of `save`, with any calls failing, a power loss leaves the old journal or the new one |
| SecretCommands.CreateSecret | src/commands.rs:2351-2476 | A run gets a place exactly if its request is admitted, and sends exactly one request, sealing exactly the import, exactly if then every call of `begin` succeeds on a free name; its journal names the server, the place, a selector for each value and the attempt; it is then durable, and from there on every state exposes only trustworthy journals of this attempt; a receipt is reported exactly if the saves succeed, is the one on disk, names the item exactly if the server does, and says Verified exactly if that item passes the check and Failed exactly after a refusal; the whole run continues any execution of the write protocol by a process of its own, which sends exactly that request |
| SecretCommands.Admit | src/commands.rs:2365-2431 | The checks before the journal let through exactly the requests with canonical arguments, one folder of the name, a free item name before and after authorization, a valid import and the typed words of this attempt; the place is then the only one possible |
| SecretCommands.FolderId | src/commands.rs:2374-2380 | The scan finds an id exactly if the sync binds a folder of that name, and then that folder's |
| SecretCommands.Settle | src/commands.rs:2443-2470 | From the answer on, a receipt is reported exactly if the saves succeed; it names the item exactly if the server does, says Verified exactly if that item passes the check, Failed exactly after a refusal, and is the one on disk; every state before is trustworthy |
| SecretCommands.FinalReports | src/commands.rs:2443-2470 | The last receipt of an attempt names the item the server names; it is Verified exactly if that item passes the check, CreatedUnverified if it does not, Failed exactly after one of six refusals |
| SecretCommands.HonestRunIsVerified | src/commands.rs:2443-2470 | End to end: where the server names an id, the folder is still bound and the honest echo of the request is fetched, the receipt is Verified with that id |
| SecretCommands.StagesTrustworthy | src/commands.rs:2444-2467 | Every journal that a run saves names an item exactly when it is known, is failed only after an explicit rejection, and verified only after the check of the item with that id |
| SecretCommands.VerifiedIsFaithful | src/commands.rs:2448-2465 | A receipt that says Verified implies that the fetched item is the one at the destination and holds exactly the import |
| SecretCommands.ReconcileSecret | src/commands.rs:2524-2570 | A reconcile run binds the journal it read to the given item exactly if server, destination, item and every recorded selector check out and the receipt names no other item; the receipt then names the item, of the same attempt, and is Verified exactly if it was; otherwise, and after any failing call, the journal is the old one or the bound one, and a reported receipt is the one left; the whole run continues any execution of the write protocol by a process of its own, which sends nothing |
| SecretCommands.OutcomeAdvances | src/commands.rs:2533-2570 | A reconcile run alone only ever advances the journal |
| SecretCommands.VerifiedIsBindable | src/commands.rs:2544-2560 | An item that passed the creation check passes the reconcile checks of its own journal |
| WriteProtocol.PublishKeeps | src/write_journal.rs:56-58 | The no-clobber publication by one of many runs keeps the protocol invariant: at most one claim per place |
| WriteProtocol.RenameKeeps | src/write_journal.rs:79-83 | Replacing a journal by a later one of the same attempt keeps the invariant while other runs are under way |
| WriteProtocol.SendKeeps | src/commands.rs:2442-2443 | Sending uses up the claim on the place for ever |
| WriteProtocol.PowerKeeps | src/write_journal.rs:41-86 | A power failure at any moment of any interleaving keeps the invariant |
| WriteProtocol.StepKeeps | src/commands.rs:2424-2570 | Every step of every run, every death and every power failure keeps the invariant |
| WriteProtocol.AtMostOnce | src/commands.rs:2424-2469 | In no run of any number of processes are two creation requests sent for the same server up to slashes, account, folder id and reference |
| WriteProtocol.SentBehindDurableJournal | src/commands.rs:2442-2443 | When a request is sent, every possible power loss leaves a complete, honest journal of that very attempt, with the same place, fields and attempt id |
| WriteProtocol.NeverTorn | src/write_journal.rs:41-86 | At no moment of any run can a power loss leave a torn, foreign or dishonest journal, and a place whose request was sent is never found free again |
| WriteProtocol.ReceiptsAreBacked | src/commands.rs:2443-2468 | At no moment of any run can a power loss leave a receipt that says Verified without an earlier step in which the check of this attempt and item passed, or Failed without an earlier explicit rejection of this attempt |
| JournalRaces.UndisturbedSaveAdvances | src/commands.rs:2533-2566 | In every run, a save advances the visible journal (a bound id stays bound, Verified stays Verified) whenever no other run has saved under its name since the saving run published it, read it or last saved it |
| JournalRaces.SaveAdvancesExactly | src/commands.rs:2533-2566 | In every run, a save undoes what the visible journal binds exactly when other runs have saved since the saving run took its journal and the last of them saved a binding or a verification that this one does not carry on |
| JournalRaces.HasTaken | src/commands.rs:2424-2567 | Every run that comes to save has published, read or saved its journal before, so the exact condition covers every save of every run |
| JournalRaces.BoundIdCanChange | src/commands.rs:2533-2566 | For every unbound journal and any two items there is a run with two overlapping reconciles in which the visible journal is bound to the one item and later to the other |
| JournalRaces.SomeRunVerifies | src/commands.rs:2432-2470 | For every new journal and every item there is a run that ends with a visible journal that says Verified |
| JournalSteps.BeginIsExecution | src/write_journal.rs:41-76 | Whichever calls of `begin` succeed, the disks it goes through are those of protocol steps by one process, which ends up before its request exactly if `begin` succeeds |
| JournalSteps.SaveIsExecution | src/write_journal.rs:68-86 | Whichever calls of `save` succeed, the disks it goes through are those of protocol steps by one process |
| JournalSteps.MirrorsFirst | src/write_journal.rs:41-86 | Any state of the system can be the start of the execution that the two commands continue |
| ProtocolProgress.SomeRunSends | src/commands.rs:2432-2443 | Every new journal has a run that publishes it and sends its request, so the safety statements are not empty |
| TokenStore.Config.SaveTokens | src/config.rs:845-903 | Tokens go to the keyring if there is a client id and it answers, and then remove the file; otherwise to the file, which a broken write leaves unreadable; success and failure are told apart exactly; without an access token nothing changes |
| TokenStore.Config.LoadSavedTokens | src/config.rs:912-936 | The fields become the keyring's tokens if it answers and has an entry, else the file's, else stay; an unreadable entry is an error, changes nothing and is not passed over |
| TokenStore.Config.EnsureValidToken | src/commands.rs:422-462 | A token that is not due is used without lock or load; otherwise the decision is made again on what is stored by the time the lock is granted; a refresh token is presented only if the tokens are due, one is stored and a client can be built; only an answered refresh replaces the tokens, and a new one comes out only if it was saved; each failing call has its own outcome |
| TokenStore.RefreshedDecides | src/commands.rs:422-462 | In numbers: a refresh token is presented exactly if the tokens brought and those found behind the lock have reached the last minute before their expiry, one is found and a client can be built; a token comes out only from tokens before that minute, or from a usable answer that is stored, with expiry `now + expires_in` |
| TokenStore.AfterLastSuccess | src/config.rs:168-179 | After any saves, failing ones included, the store is what the last successful save left, with an unreadable file if a write broke off since |
| TokenStore.RegisterExactly | src/config.rs:845-936 | Whatever was stored before and whatever each save met, a load returns the tokens of the last successful save exactly when it meets the keyring as that save did, or the keyring never held anything, and, if that save went to the file, no write of the file broke off since |
| TokenStore.SteadyKeyringIsARegister | src/config.rs:845-936 | A corollary for any tokens: with a keyring that answers always or never, a load returns the tokens of the last successful save unless a write broke off since, and then it finds something unreadable |
| TokenStore.StaleTokensComeBack | src/config.rs:879-923 | The first way to fail, at an input: tokens saved through the keyring, then newer ones to the file, then a load with the keyring: the older tokens come back |
| TokenStore.BrokenWriteLosesTokens | src/config.rs:168-179 | The second way to fail, at an input, a corollary: tokens saved to the file, then a save whose write breaks off: the next load fails |
| TokenRefresh.StepKeeps | src/commands.rs:430-454 | Every step of every process, failing and broken saves and failing loads included, and its death, keeps the accounting of presented tokens and lost answers |
| TokenRefresh.PresentedOncePerLoss | src/commands.rs:422-455 | Over keyring and file, the keyring answering always or never and any save failing or breaking off, a refresh token is presented at most once more than its answers were lost, so never twice where every answer is delivered and saved |
| TokenRefresh.LostAnswersAreRepeated | src/commands.rs:440-453 | The bound is exact: whoever asks presents a token once more than its answers were lost |
| TokenRefresh.ContinuesFromLastSave | src/commands.rs:430-443 | A process that waited for the lock goes on from the tokens last saved in keyring or file, or from its own if none ever were, and presents only their refresh token |
| TokenRefresh.AskedTokensAreDue | src/commands.rs:430-443 | In every run a refresh token is presented only when the tokens last saved, or the process's own, have reached the last minute before their expiry, and they are used as they are only before that |
| TokenRefresh.BrokenStopsAsking | src/commands.rs:430-447 | Once a broken write has made the stored tokens unreadable, no refresh token is ever presented again |
| TokenRefresh.TokenPresentedTwice | src/commands.rs:440-453 | For any due tokens there is a run in which their refresh token is presented twice, the first process dying before its answer is saved |
| TokenRefresh.RefreshIsRun | src/commands.rs:430-454 | Whatever a call of `ensure_valid_token` meets behind the lock, the keyring being steady, what its contract says it presents, loses and stores is a run of the steps |
| AgentRegistry.ValidateRegistry | src/access/agent_binding.rs:184-227 | The three loops accept exactly the registries whose bindings are valid, whose ids, keys and enabled labels are unique, whose events are snapshots, and whose history per binding is Paired, or Paired then Revoked |
| AgentRegistry.BindingMeaning | src/access/agent_binding.rs:78-92 | The rules for one binding in numbers and characters |
| AgentRegistry.SnapshotMeaning | src/access/agent_binding.rs:144-160 | An event is a snapshot exactly if the provider made it and it repeats id, label, fingerprint, user and group of a binding |
| AgentRegistry.HistoryMeaning | src/access/agent_binding.rs:202-216 | A history lists the actions under an id in the order of the log |
| AgentRegistry.StatusMeaning | src/access/agent_binding.rs:217-225 | A binding of an accepted registry is enabled exactly if its history is one pairing, and revoked exactly if it is a pairing and a revocation |
| AgentRegistry.IndexBindings | src/access/agent_binding.rs:190-201 | The first loop accepts exactly valid bindings with unique ids, keys and enabled labels, and indexes them all |
| AgentRegistry.ReplayAudit | src/access/agent_binding.rs:202-216 | The event loop accepts exactly snapshots in lawful histories and ends with the newest action per binding |
| AgentRegistry.StatusesMatch | src/access/agent_binding.rs:217-225 | Comparing newest actions with statuses decides the whole histories |
| AgentRegistry.BindingsSurvive | src/access/agent_binding.rs:184-227 | Where an accepted log extends an accepted one, every earlier binding still exists with the same label, fingerprint and ids, and stays revoked if it was |
| AgentRegistry.KeysAreNotReused | src/access/agent_binding.rs:78-92 | The key of an earlier binding is never held by a different later one, unless two keys share a fingerprint by collision |
| AgentRegistry.RevocationIsPermanent | src/access/agent_binding.rs:184-227 | No enabled binding of any accepted extension holds the id or the key of a revoked one |
| Base32.DecodeBase32 | src/totp.rs:151-176 | The accumulator loop stays within 32 bits, fails exactly on fewer than two alphabet characters, and outputs the first whole bytes of the number they spell |
| Base32.AlphabetMeaning | src/totp.rs:157-161 | The letters in either case have the values 0 to 25, the digits 2 to 7 the values 26 to 31 |
| Base32.NumberMeaning | src/totp.rs:163-163 | The first digit of a text weighs most |
| Base32.RunSpells | src/totp.rs:156-170 | After every character, output and remaining bits together spell exactly the digits read, the cast to a byte losing nothing |
| Base32.DecodedOfEncodedDigits | src/totp.rs:151-176 | Taking the first whole bytes inverts grouping into five bits with zero padding (section 6 of RFC 4648) |
| Base32.DecodesEncoded | src/totp.rs:151-176 | Any text whose letters are the encoding of a non-empty byte string, in any case and with foreign characters anywhere, decodes to that string |
| Base32.LettersOfPadded | src/totp.rs:156-162 | Padding characters do not change the letters of a text |
| Base32.DecodesPadded | src/totp.rs:151-176 | Decoding inverts the encoding of every non-empty byte string, with any padding |
| Totp.PercentDecode | src/totp.rs:114-139 | Decoding fails exactly on a `%` without two hex digits or on bytes that are not text |
| ByteStrings.HexValueMeaning | src/totp.rs:141-148 | A byte is read as a hex digit exactly if it is that digit in one of the two cases |
| Totp.UnescapedInverse | src/totp.rs:114-139 | Decoding inverts every percent encoding, whichever bytes it escapes and in whichever hex case; a plus sign stays a plus sign |
| Totp.ParseOtpauth | src/totp.rs:59-112 | A URI parses exactly when its kind is totp, every parameter is acceptable and a secret is given; for each name the last parameter decides |
| Totp.SplitAllMeaning | src/totp.rs:72-72 | Parameters are the pieces between ampersands |
| Totp.PairMeaning | src/totp.rs:73-75 | A parameter is split at its first equals sign and both sides are decoded |
| Totp.LastValueMeaning | src/totp.rs:71-104 | Of several parameters of one name the last decides |
| Totp.UnsignedMeaning | src/totp.rs:86-101 | A number is decimal digits, perhaps behind a plus sign, below the bound |
| Totp.SettingsMeaning | src/totp.rs:67-103 | Algorithm SHA256 or SHA512 in any case and else SHA1; digits 1 to 10, 10 for more, 6 for anything else; a positive period and else 30; the decoded secret |
| Totp.OtpauthMeaning | src/totp.rs:59-66 | An otpauth URI of kind totp is read from what stands behind its first question mark; other kinds are refused |
| Totp.SettledStep | src/totp.rs:72-103 | One more parameter changes the setting of its own name and no other |
| Totp.Parse | src/totp.rs:29-57 | Every seed gets the configuration of its kind, and a parsed one is usable: a non-empty secret, 1 to 10 digits, a positive period |
| Totp.SeedMeaning | src/totp.rs:29-57 | A seed is an otpauth URI, a Steam secret (5 letters) or a bare secret (6 digits) by its beginning in any case, the latter two with SHA-1 and 30 seconds |
| Totp.GenerateConfig | src/totp.rs:179-216 | A usable configuration yields a code at every time; it is the five Steam letters, or exactly the configured number of decimal characters denoting the truncated 31-bit code modulo that power of ten (section 5.3 of RFC 4226) |
| Totp.Generate | src/totp.rs:24-27 | Code generation succeeds exactly for the seeds that parse, and yields the code of the seed's configuration at that time |
| Totp.CodeMeaning | src/totp.rs:179-194 | The code is the truncation of the keyed hash of the configured algorithm over the number of whole periods in eight big-endian bytes (RFC 6238) |
| Totp.TruncatedMeaning | src/totp.rs:189-194 | The code is the four digest bytes at the offset that the last byte's low half names, without the top bit (section 5.3 of RFC 4226) |
| Totp.PaddedMeaning | src/totp.rs:211-215 | Zero-padded decimal text denotes its number |
| Totp.SteamTextMeaning | src/totp.rs:196-205 | Two Steam codes read the same exactly when the 31-bit codes agree modulo 26^5 |
| Totp.SteamLetterMeaning | src/totp.rs:196-205 | Letter `i` of a Steam code is the base-26 digit of weight 26^i |
| Totp.SteamAlphabetText | src/totp.rs:6-6 | The Steam alphabet as a literal |
| EnvNames.SanitizeEnvName | src/commands.rs:1966-1999 | The loop with its trailing-underscore trimming makes the upper-case alphanumeric runs joined by one underscore, with ITEM in front of nothing or of a digit |
| ByteStrings.CaseMeaning | src/commands.rs:1972-1975 | Changing case exchanges the 26 letters and leaves every other byte alone |
| ByteStrings.AlphanumericMeaning | src/commands.rs:1972-1979 | Letters and digits are those of ASCII |
| EnvNames.WordsSplit | src/commands.rs:1970-1986 | The runs of two texts around a separator are the runs of the one, then of the other |
| EnvNames.WordsOfRun | src/commands.rs:1970-1986 | A text of letters and digits is one run, its letters in upper case |
| EnvNames.SanitizedMeaning | src/commands.rs:1986-1999 | A name is the runs, joined, behind ITEM if there is none or the first starts with a digit |
| EnvNames.JoinMeaning | src/commands.rs:1979-1982 | Runs are joined in order with single underscores between |
| EnvNames.SanitizedIsPortable | src/commands.rs:1966-1999 | Every name starts with a letter, has only letters, digits and single inner underscores |
| EnvNames.SanitizedIsIdempotent | src/commands.rs:1966-1999 | Sanitizing twice is sanitizing once |
| EnvNames.SanitizedCollides | src/commands.rs:1966-1999 | Two texts get one name exactly when their runs agree, up to the leading ITEM |
| CipherOutputs.CipherToEnvVars | src/commands.rs:1857-1887 | The variables of an item are its present standard values and then its fields, in order, each with its exact value |
| CipherOutputs.CipherEnvVarNames | src/commands.rs:1891-1918 | The names computed without values are the names of the variables, in the same order |
| CipherOutputs.VariablesMeaning | src/commands.rs:1857-1887 | The variables are, in order, those ending in URI, USERNAME, PASSWORD, SSH_PUBLIC_KEY, SSH_PRIVATE_KEY and SSH_FINGERPRINT for the values of these kinds that are present, and one per field named after it |
| CipherOutputs.AllNew | src/commands.rs:1931-1937 | Filling the set finds every repeated name and nothing else |
| ShellExport.ShellQuoteEnvValue | src/commands.rs:2001-2017 | Quoting fails exactly on a NUL |
| ShellExport.ShellCharacters | src/commands.rs:1938-2017 | The characters that the printer and the shell reader agree on are the quote, backslash, space, newline and equals sign of a POSIX shell, and the command is `export` |
| ShellExport.ReadQuoted | src/commands.rs:2001-2017 | A POSIX shell reads a quoted value back as the value, quotes and newlines included, wherever in a word it stands |
| ShellExport.ShellReadsLines | src/commands.rs:1938-1948 | A shell that runs the lines exports exactly the variables, in order |
| ShellExport.FormatEnv | src/commands.rs:1930-1949 | The Env output fails exactly on colliding names or a NUL in a value, and otherwise a shell reads back exactly the item's variables |
| Profiles.DecryptMeaning | src/commands.rs:977-1115 | Decryption under a profile yields an output exactly if each of its values comes from its own ciphertext: decrypted if wanted and present, empty if values are not to be decrypted, absent otherwise; the named fields in order with distinct names |
| Profiles.DecryptSucceeds | src/commands.rs:977-1115 | It succeeds exactly when the item is not deleted, its name opens, every wanted and present value opens, and the field names open and are distinct |
| Profiles.FixedProfiles | src/commands.rs:873-919 | The full profile shows everything decrypted, the run profile everything but the notes and does not depend on them, the listing profile which values there are |
| Profiles.ListingOpensNames | src/commands.rs:905-919 | Listing opens nothing but the item's name and its field names |
| Profiles.ComponentMeaning | src/commands.rs:921-939 | A component name, as a literal, asks for its standard value and decrypts no other, or else for the custom field |
| Profiles.FieldNamedMeaning | src/commands.rs:1601-1608 | A custom component is the value of the first field of that name in any ASCII case |
| Profiles.Narrowing | src/commands.rs:977-1115 | Where a profile succeeds, every narrower one succeeds and shows the same item with the rest taken out or blanked |
| Profiles.InterpolationAgrees | src/commands.rs:921-939 | Where full decryption succeeds, decrypting only the requested component gives the same result for it |
| Profiles.ListedNamesAgree | src/commands.rs:905-919 | Whenever the run profile succeeds, the listing profile does, and names the same variables in the same order |
| Profiles.RunExportsEverything | src/commands.rs:889-903 | Whenever full decryption succeeds, the run profile exports the same variables with the same values |
| Interpolation.BuildIndexes | src/commands.rs:1629-1655 | Both indexes answer every key exactly as a scan of the readable items would |
| Interpolation.ReadableMeaning | src/commands.rs:1629-1655 | An item can be named exactly if its keys are known, it is not deleted, and its name and its distinct field names open |
| Interpolation.LookupIsScan | src/commands.rs:1657-1692 | The lookup finds the last readable item with that id, or else the only readable item with that name in any case |
| Interpolation.MeaningExactly | src/commands.rs:1657-1692 | A placeholder stands for the last readable item with that id, or, if there is none, for the only readable item with that name in any case, and for nothing otherwise |
| Interpolation.ReadFromFull | src/commands.rs:1664-1683 | For an item that decrypts in full, the value inserted is the component of the full item |
| Interpolation.ParsesExactly | src/commands.rs:1573-1581 | A placeholder splits into name and component exactly when it is two non-empty parts around a last dot |
| Interpolation.PlaceholdersAreDisjoint | src/commands.rs:1706-1707 | No match of the placeholder pattern starts inside another one |
| Interpolation.ScannerMatchesPattern | src/commands.rs:1706-1707 | The scanner stops at a place with some inner text exactly if the text there is two opening parentheses, that non-empty text without parentheses or white space, and two closing ones |
| Interpolation.PiecesFindAll | src/commands.rs:1706-1718 | The left-to-right cut finds every match of the pattern, read off the text, and nothing else |
| Interpolation.PiecesAreTheText | src/commands.rs:1716-1748 | The pieces, put together, are the text |
| Interpolation.ReplaceAll | src/commands.rs:1716-1748 | One pass replaces exactly the placeholders that resolve, keeps everything else, never reads inserted values again, and lists what did not resolve in order |
| Interpolation.SubstitutionMeaning | src/commands.rs:1716-1748 | A character stays, a placeholder becomes its value, or stays with its parentheses and is listed |
| Interpolation.SubstitutionInOrder | src/commands.rs:1716-1748 | And so piece by piece through the text, in order |
| Interpolation.Interpolate | src/commands.rs:1712-1752 | Interpolation fails exactly when some placeholder does not resolve and missing ones are not to be skipped; the output is what scanning the items calls for |
| Interpolation.NothingReplaced | src/commands.rs:1716-1748 | A text in which no placeholder resolves comes back unchanged |

## Left out

- HTTP, TLS, retries inside libraries, prompts, the clock, process spawning and command-line parsing: parameters or nondeterministic steps; the client's no-retry and no-redirect setup appears as one request per send step.
- AES, HMAC, SHA-256, RSA, PBKDF2, Ed25519 and Base64: abstract functions; encryption is symbolic, so a ciphertext opens only under its key.
- The serialization of journals and tokens: a file holds a complete value or something unreadable.
- Unicode trimming and lowercasing, UTF-8 validity and the white-space class of the placeholder pattern: function parameters.
- The regular-expression engine: a scanner for the one pattern the program uses.
- The macOS branches of the agent binding: they look accounts up in the operating system.
- Login and logout racing with a refresh: they take no common lock with it.
- TokenRefresh.PresentedOncePerLoss: the keyring answers every call of the run or none; TokenStore.StaleTokensComeBack shows what happens otherwise.
- TokenRefresh.StepKeeps: the server issues refresh tokens it has not issued before, as rotation requires.
- TokenStore.Config.EnsureValidToken: the contents of `config.json`, written just before the tokens, and a failing clock are not modelled.
- JournalStore.Disk.Read: the regular-file check and the refusal of symbolic links are not modelled; the modelled directory has regular files only.
- SecretCommands.CreateSecret: the review text and the reading of the import are not modelled.
- Transcript.ApprovalTranscript: a review is its id and its JSON value, whose serialization by serde is not modelled; fields of the approval binding that are not part of the transcript are left out.
- Profiles.Narrowing: the getters of `src/models.rs` that find an encrypted value in one of several places are taken as given.
- Error messages, warnings and the list of missing placeholders as text.
- Human-readable and JSON output, the vault listing commands, packaging, the companion app and its session code.
