# Create-only publication, proved

This project models how the collection publishes and reads back things that may be written only once: encrypted
header packages in a secret store or a password manager, encrypted documents in a directory, approvals that can be
used once, protected files that are replaced atomically. It also models the codecs, loops and checks these rest on.
`dafny verify dfyconfig.toml` checks all of it.

## The parts

**Header custody in a store** (`Package`, `Objects`, `PackageForms`, `Custody`, `CustodyRuns`, `CustodyReaders`,
`CustodyTheorems`, `CustodyAlone`, `CustodyOutcomes`, `CustodyClient`, `Sizes`). A package is validated, printed as canonical JSON, cut into 256 KiB chunks,
and written create-only with a manifest as the last object. Publishers and readers are processes that take one atomic
store operation per step; a run is any interleaving of steps, starts and crashes. The invariant of all runs gives the
commit property and reader atomicity; `CustodyOutcomes` says when each operation returns, and what. `CustodyClient` holds the same two calls as programs with loops, proved equal to
the processes run alone, or against a store that answers whatever it likes.

**JSON and Base64** (`Json`, `JsonProofs`, `JsonExact`, `Base64`; `JsonGrammar`, `JsonReads`, `JsonNumbers`,
`JsonLanguage`, `JsonPrints`, `Base64Alphabet` against the standards). The printer writes sorted, compact, ASCII-escaped
JSON in front of a continuation; the parser accepts the whole JSON grammar with duplicate keys refused, section by
section as RFC 8259 gives it, plus the three constants Python adds. Texts are code points, lone surrogates included.
`JsonGrammar` writes down that grammar, and the canonical text of a value, with character literals and without any of
the codec's functions or tables; `Base64Alphabet` does the same with the alphabet of section 4 of RFC 4648. Reader and
printer are proved to be exactly these.

**Immutable documents** (`Documents`, `DocumentProofs`, `DocumentShape`, `Normalizer` for the object graphs;
`DocumentStore`, `DocumentStoreRuns`, `DocumentStoreTheorems`, `DocumentStoreProgress`, `DocumentStorePublish`,
`DocumentStoreReads`, `DocumentController` for the directory). Directory entries, inodes, hard links, partial writes and short reads are steps; every call may fault at
every system call, leave its staging file behind, or crash. Encryption and YAML are one arbitrary function from bytes
to documents. `DocumentController` is the same code as methods with loops, in which any events of other callers happen
before each system call; each method is proved to follow the process, so every theorem about runs applies to it.

**Approvals and native documents** (`Approvals`, `Spelling`, `ApprovalForms`, `Controllers`, `ControllerGate`,
`ControllerSigned`, `ControllerReports`, `ControllerItems`, `ControllerLooks`, `ControllerProgress`,
`CustodyController`). Five actions share one provider account and one set of replay markers: native header documents,
their retrieval, secret and key items, permission grants, and the delivery of a secret over SSH. Other users may
create items, add versions and change permissions at any time; they do not delete or retitle.

**Native handoff** (`Handoff`, `HandoffProofs`, `HandoffForms`). The request and response checks, and the proof that
they admit exactly what the provider calls can return, and let through what they return over every run.

**Protected files and streams** (`Kernel`, `AtomicReplace`, `Streams`, `Delivery`). Descriptors are a table: using or
closing one requires that it is open, and closing removes it whatever the system answers, so a method that ends with
the table it began with has closed everything it opened exactly once. Every system call may fail. The trace keeps the
files after each call. Pipes split reads and writes in any way. Each object counts its spurious failures; a method
that met none has an outcome its `ensures` determines, in both directions.

**Firewall plan** (`Lists`, `Firewall`, `FirewallProofs`, `FirewallMeaning`, `FirewallShapes`, `FirewallPlans`,
`FirewallPackets`). The classification loop and the signature comparison; which plans are accepted, field by field; and
a packet semantics under which an accepted plan has an exact meaning.

## Conditions found

Four promises do not hold without a condition; each is proved with the condition it needs, in both directions.

- Parsing the canonical encoding returns the value exactly when no text in it holds a high surrogate followed by a low
  one (`JsonExact.RoundTripsExactly`); otherwise two different values print alike (`JsonExact.SplitPairsCollide`).
- An uninterrupted apply ends verified exactly when JSON delivers every created object unchanged
  (`CustodyAlone.ApplyConverges`); chunks always are, a manifest if and only if its strings are whole
  (`CustodyAlone.WhichObjectsTravel`).
- The secret buffer is zero after a run unless one of two things happened (`Delivery.Consume`). The read was given up
  while the producer still ran, and killing it or waiting for it failed: the handler does this before it erases, and
  what was received stays (`Delivery.KillFailureKeepsSecret`). Or a complete value was read and closing its pipe then
  failed: the erasing handler has ended before, and the caller has not yet received the buffer
  (`Delivery.CloseFailureKeepsSecret`).
- A staging name can stay although no removal failed: when the first stat of the staged file fails, the clean-up has
  nothing to compare the name with and skips it, and when closing the staged file fails, the clean-up is not reached
  (`DocumentStoreTheorems.NamesStay`). When all calls have ended, a staging name is there exactly for these causes, a
  failed removal, or a crash (`DocumentStoreTheorems.WhatIsLeft`).

## How to read the statements

- `Digest`, `Calendar`, `Verifier` and `Codec` are parameters: SHA-256, timestamp parsing, signature checking, and
  decryption with YAML loading. Nothing is assumed of them except where a `requires` says so: digests are hexadecimal,
  or do not collide among the values of the run.
- A float is the lexeme Python prints for it.
- The store delivers what its JSON makes of a value: surrogate pairs are joined, lone surrogates are kept.
- A lost connection, a refused request or a killed process is a crash or a fault event, possible at every step.
- `Run(..., EMPTY, events)` is the state after any finite sequence of events; an event that is not possible changes
  nothing. A statement about it is a statement about every reachable state.
- Loops that wait take a number of rounds, any number, after which the deadline has passed.
- Progress is stated for calls that nothing gets in the way of, however the others run: a call is `Lucky` when the names
  it draws are unused, `Smooth` when moreover it meets no fault and nobody has published before it (`DocumentStorePublish`),
  and `Unhindered` or `Favoured` when its approval is in its window at its turns, its marker is free, its title is not
  taken by others, and the provider does what it is asked for (`ControllerProgress`).
- Spellings, such as `Lawful`, `ApprovalIs`, `RequestIs`, `Has` or `Quoted`, are written with literals and independently of
  the checks they are proved equal to.

## Model

| member | source | states |
|---|---|---|
| JsonExact.RoundTripsExactly | plugins/module_utils/luks_header_custody.py:39-51 | parsing the canonical encoding of a value returns it, if and only if its texts hold no split surrogate pairs |
| JsonExact.ReprintedReadsBack | plugins/module_utils/luks_header_custody.py:39-51 | whatever was parsed is read back from its canonical encoding, without a condition |
| JsonExact.PrintedAlikeExactly | plugins/module_utils/luks_header_custody.py:39-42 | values with whole keys have the same canonical bytes exactly when JSON delivers them alike |
| JsonExact.CanonicalIsInjective | plugins/module_utils/luks_header_custody.py:39-42 | different whole values never have the same canonical bytes |
| JsonExact.SplitPairsCollide | plugins/module_utils/luks_header_custody.py:39-42 | a split surrogate pair and the character it spells print alike |
| JsonExact.ParsedIsWhole | plugins/module_utils/luks_header_custody.py:45-51 | what is parsed from ASCII data holds no split surrogate pairs, and only number lexemes of the grammar |
| JsonExact.JoinedValuePrintsAlike | plugins/module_utils/luks_header_custody.py:39-42 | a value prints like its image under JSON, in front of any continuation |
| JsonProofs.ParseCanonical | plugins/module_utils/luks_header_custody.py:39-51 | parsing canonical bytes gives the value with its surrogate pairs joined |
| JsonLanguage.ParsesExactly | plugins/module_utils/luks_header_custody.py:45-51 | the parser returns a value exactly when the bytes are a JSON text of it in the grammar of RFC 8259, with the escapes of section 7 |
| JsonPrints.CanonicalIsPrinted | plugins/module_utils/luks_header_custody.py:39-42 | the canonical bytes are the canonical text: the two-character escape wherever there is one, four lower-case hexadecimal digits elsewhere outside printable ASCII, pairs above the basic plane, members in order |
| JsonPrints.LeqIsInOrder | plugins/module_utils/luks_header_custody.py:39-42 | the order of keys is that of code points, a prefix first |
| Text.Sorted | plugins/module_utils/luks_header_custody.py:40-42 | the keys in ascending code point order, each exactly once |
| Base64.RoundTrip | plugins/module_utils/luks_header_custody.py:367-367 | decoding an encoded chunk returns it (section 4 of RFC 4648) |
| Base64.EncodedLength | plugins/module_utils/luks_header_custody.py:191-191 | an encoding has four characters for every three bytes begun, the reader's bound |
| Base64Alphabet.EncodesExactly | plugins/module_utils/luks_header_custody.py:367-367 | a text is the encoding exactly when it stands for the bytes in the alphabet and padding of section 4 of RFC 4648 |
| Base64Alphabet.DecodesExactly | plugins/module_utils/luks_header_custody.py:194-194 | decoding returns bytes exactly when the text stands for them, also with spare bits and superfluous padding |
| Objects.ChunksRoundTrip | plugins/module_utils/luks_header_custody.py:358-358 | joining the chunks returns the bytes, and their number is the ceiling division |
| Objects.ChunkBound | plugins/module_utils/luks_header_custody.py:181-193 | a chunk has between one byte and its full size, and encodes to no more characters than the reader allows |
| Objects.PathNamesObject | plugins/module_utils/luks_header_custody.py:357-378 | equal paths mean the same prefix, package digest and object |
| Objects.SameBytesSameObjects | plugins/module_utils/luks_header_custody.py:359-378 | packages with equal bytes have the same paths and deliver the same values |
| PackageForms.ObjectsExactly | plugins/module_utils/luks_header_custody.py:357-378 | piece i holds the bytes from 262144 i on, its number, its digest and its Base64, under its number; the last object is the commit record with the counts |
| Package.DecodeUndoesValidate | plugins/module_utils/luks_header_custody.py:54-110 | every valid package decodes from its own bytes |
| Package.DecodesExactly | plugins/module_utils/luks_header_custody.py:104-110 | decoding succeeds exactly on the expected bytes, when they are the canonical bytes of a valid package |
| Package.DownloadsExactly | plugins/module_utils/luks_header_custody.py:144-158 | a package's bytes pass a receipt exactly when the receipt pins its digest and source |
| Package.DownloadIsPinned | plugins/module_utils/luks_header_custody.py:144-158 | whatever bytes are downloaded, an accepted package is valid, canonical, and the pinned one |
| Package.JoinedPackage | plugins/module_utils/luks_header_custody.py:54-101 | the JSON image of a valid package is valid and has the same bytes |
| PackageForms.PackagesExactly | plugins/module_utils/luks_header_custody.py:54-101 | the valid packages are exactly the sealed lawful headers of at most 132 MiB: the fields of the manifest, the envelope, and its digest |
| Custody.StepsDecrease | plugins/module_utils/luks_header_custody.py:379-407 | every store operation of a publisher brings it closer to its end |
| CustodyRuns.StepKeepsInvariant | plugins/module_utils/luks_header_custody.py:379-407 | a publisher's operation keeps that every row was published and every manifest has its chunks |
| CustodyRuns.CreateCommits | plugins/module_utils/luks_header_custody.py:392-395 | a manifest appears only when all the chunks it names are stored |
| CustodyTheorems.RunKeepsInvariant | plugins/module_utils/luks_header_custody.py:349-407 | every event of any publisher or reader keeps the whole invariant |
| CustodyTheorems.RunOnlyAdds | plugins/module_utils/luks_header_custody.py:343-346 | no row is ever changed or removed |
| CustodyTheorems.ManifestImpliesPackage | plugins/module_utils/luks_header_custody.py:349-407 | in every reachable state a manifest means that all its chunks decode to exactly one published package with its digest |
| CustodyTheorems.VerifiedIsStored | plugins/module_utils/luks_header_custody.py:396-415 | a verified result means every object is stored, then and after any further run |
| CustodyTheorems.ReaderIsAtomic | plugins/module_utils/luks_header_custody.py:161-211 | a reader that found a manifest returns exactly the published package, only when its pins name its source, and fails only when they name another |
| CustodyTheorems.ReaderFinishes | plugins/module_utils/luks_header_custody.py:181-203 | such a reader is done after one read per chunk and one more, whatever others do |
| CustodyTheorems.AnyAnswersArePinned | plugins/module_utils/luks_header_custody.py:161-211 | over arbitrary answers a reader returns only the valid package its pins name |
| CustodyAlone.ApplyConverges | plugins/module_utils/luks_header_custody.py:379-415 | from any part of its objects an apply adds exactly the missing ones, and ends verified if and only if they travel |
| CustodyAlone.WhichObjectsTravel | plugins/module_utils/luks_header_custody.py:359-378 | chunk objects always travel unchanged; the manifest exactly when its texts are whole, through a JSON transport that keeps lone surrogates |
| CustodyAlone.SecondApplyChangesNothing | plugins/module_utils/luks_header_custody.py:390-415 | a second apply writes nothing, ends verified and reports no change |
| CustodyAlone.OnlyApplyWrites | plugins/module_utils/luks_header_custody.py:391-398 | plan, verify and check mode leave the store as it is |
| CustodyAlone.ConflictWritesNothing | plugins/module_utils/luks_header_custody.py:380-386 | one conflicting object makes the call fail with the store untouched |
| CustodyOutcomes.VerifyExactly | plugins/module_utils/luks_header_custody.py:379-415 | alone on a part of its objects, `verify` returns exactly when all are stored, verified, unchanged and with the manifest's version, and fails otherwise |
| CustodyOutcomes.PlanExactly | plugins/module_utils/luks_header_custody.py:379-415 | `plan` and check mode always return there, unchanged, verified exactly when nothing is missing |
| CustodyOutcomes.ApplyExactly | plugins/module_utils/luks_header_custody.py:390-415 | an apply returns exactly when the missing objects travel, verified, changed exactly when some were missing |
| CustodyOutcomes.FirstRead | plugins/module_utils/luks_header_custody.py:161-175 | a reader goes on exactly when the manifest is stored |
| CustodyOutcomes.Retrieves | plugins/module_utils/luks_header_custody.py:161-211 | from there, whatever others do, it returns the published package after one read per chunk and one more exactly when its pins name the source |
| CustodyClient.VaultCustody | plugins/module_utils/luks_header_custody.py:349-415 | the loops give the result and store of the process run alone, and create the missing paths in order, manifest last; on a part of its objects, what each operation returns, and when it fails |
| CustodyClient.VaultReadCustody | plugins/module_utils/luks_header_custody.py:161-211 | against arbitrary answers the loops end as the reader told these answers does |
| CustodyClient.CreateMissing | plugins/module_utils/luks_header_custody.py:392-395 | the creating loop creates exactly what the preflight did not see, in order, or ends at a taken path |
| CustodyClient.CreationsAlone | plugins/module_utils/luks_header_custody.py:392-395 | a call that creates ends as these creations do |
| CustodyClient.Observed | plugins/module_utils/luks_header_custody.py:379-386 | the preflight loop ends with every row exactly when none conflicts |
| CustodyClient.LayOut | plugins/module_utils/luks_header_custody.py:358-378 | the list of objects: every chunk under its path, then the manifest |
| Sizes.EnvelopeHasSize | tests/unit/plugins/action/test_ansible_vault_document.py:53-61 | the size formula counts exactly the characters of a wrapped envelope |
| Sizes.EnvelopeGrows | tests/unit/plugins/action/test_ansible_vault_document.py:53-61 | envelopes grow with the plaintext and the header |
| Sizes.PlaintextFits | plugins/action/ansible_vault_document.py:101-102 | every plaintext within its cap, with a label of up to a mebibyte, stays below the ciphertext cap |
| Sizes.WrappedPackageFits | plugins/module_utils/luks_header_custody.py:15-20 | a valid manifest with any wrapped ciphertext within 128 MiB is a valid package: the size check never rejects it |
| DocumentProofs.NormalizesExactly | plugins/action/ansible_vault_secret_document.py:160-223 | a graph is accepted exactly when it has a safe unfolding of at most 10000 nodes and depth 64, which is the result |
| DocumentProofs.OnlyTheUnfoldingMatters | plugins/action/ansible_vault_secret_document.py:160-223 | graphs with the same unfolding normalize alike, however their objects are shared |
| DocumentProofs.CyclesAreRefused | plugins/action/ansible_vault_secret_document.py:193-196 | an object that reaches itself is refused |
| DocumentProofs.EqualExactly | plugins/action/ansible_vault_secret_document.py:226-242 | document equality is tagged structural equality, with 0.0 and -0.0 apart |
| DocumentShape.NormalizesWhatIsSpelled | plugins/action/ansible_vault_secret_document.py:160-223 | the result is the mapping the objects spell, exactly when that document is small and shallow enough |
| DocumentShape.NormalizingIsIdempotent | plugins/action/ansible_vault_secret_document.py:160-223 | a normalized document, held as objects in any way, normalizes to itself |
| Normalizer.Normalizer.Normalize | plugins/action/ansible_vault_secret_document.py:169-216 | the recursive visit with its counter and active set computes the normal form, and restores the set |
| Normalizer.NormalizeDocument | plugins/action/ansible_vault_secret_document.py:160-223 | the whole call computes the normal document, or refuses |
| DocumentStoreRuns.RunKeepsInvariant | plugins/action/ansible_vault_secret_document.py:681-803 | every event of any call keeps who owns which file, which name, and what was read so far |
| DocumentStoreRuns.ReadFindsTarget | plugins/action/ansible_vault_secret_document.py:696-751 | a read never returns anything but the target's whole content |
| DocumentStoreTheorems.OneCreator | plugins/action/ansible_vault_secret_document.py:753-803 | over all interleavings at most one call reports that it created the document |
| DocumentStoreTheorems.ResultsReadBack | plugins/action/ansible_vault_secret_document.py:414-472 | a result that says the document exists means the persisted bytes decode to what was requested |
| DocumentStoreTheorems.OneDocument | plugins/action/ansible_vault_secret_document.py:513-554 | calls for different documents never both succeed |
| DocumentStoreTheorems.TargetIsWinners | plugins/action/ansible_vault_secret_document.py:753-803 | the published file is the whole ciphertext of the call that linked it, accepted beforehand |
| DocumentStoreTheorems.TargetNeverChanges | plugins/action/ansible_vault_secret_document.py:838-847 | once there, the name keeps its file, its content, and gets no further names |
| DocumentStoreTheorems.LinkCount | plugins/action/ansible_vault_secret_document.py:681-694 | the link count is two exactly while the winner's staging name is there, one otherwise |
| DocumentStoreTheorems.StagingNames | plugins/action/ansible_vault_secret_document.py:753-803 | in every reachable state the staging names are exactly those that calls made and did not remove |
| DocumentStoreTheorems.WhatIsLeft | plugins/action/ansible_vault_secret_document.py:788-803 | when all calls have ended, a staging name is there exactly when its call crashed holding it, or raised without identifying the file, without closing it, or without being able to remove it |
| DocumentStoreTheorems.NothingStaged | plugins/action/ansible_vault_secret_document.py:788-803 | when all calls have ended, without a crash and without these three causes, only the document is in the directory |
| DocumentStoreTheorems.NamesStay | plugins/action/ansible_vault_secret_document.py:762-803 | two of the causes are no failed removal: after a failed first stat, or a failed close, a name stays that nothing tried to remove |
| DocumentStoreProgress.WinnerSucceeds | plugins/action/ansible_vault_secret_document.py:469-472 | without faults of its own, the winner's check cannot fail nor meet a transient link count |
| DocumentStoreProgress.ExactWinnerReturnsCreated | plugins/action/ansible_vault_secret_document.py:414-472 | an undisturbed winner of an exact request that has ended has returned created |
| DocumentStoreProgress.LateCallReturns | plugins/action/ansible_vault_secret_document.py:696-751 | a call that reads a settled, matching document returns it within its size and six system calls |
| DocumentStoreProgress.CheckModeWritesNothing | plugins/action/ansible_vault_secret_document.py:435-436 | check mode stages and links nothing, and only it reports a missing document |
| DocumentStorePublish.Publishes | plugins/action/ansible_vault_secret_document.py:753-803 | a call with an accepted ciphertext that finds no document, and no other's link, has returned created with its ciphertext published after twice the ciphertext's size and 14 of its own system calls, however the others run |
| DocumentStorePublish.SmoothCallCreates | plugins/action/ansible_vault_secret_document.py:414-472 | a call that has ended without faults and without an earlier link of another has returned created, and the document is its ciphertext |
| DocumentStorePublish.RacerReturns | plugins/action/ansible_vault_secret_document.py:513-554 | a call that loses to a document it accepts returns it, not created, within a stated number of its own system calls |
| DocumentStorePublish.CheckModePlans | plugins/action/ansible_vault_secret_document.py:435-436 | check mode reports an absent document at its first system call |
| DocumentStoreReads.FirstLookExactly | plugins/action/ansible_vault_secret_document.py:414-472 | what the first look leads to: a plan or a creation without a document, another attempt while its winner still holds a second name, a refusal beyond the limit, reading otherwise |
| DocumentStoreReads.RaceLookExactly | plugins/action/ansible_vault_secret_document.py:519-528 | a loser's look goes on to read, or tries again, a hundred times at most |
| DocumentStoreReads.LateCallExactly | plugins/action/ansible_vault_secret_document.py:696-751 | a call that finds a settled document returns it exactly when it is within the limit and accepted, and fails otherwise, within its size and six system calls |
| DocumentStoreReads.SchemaExactly | plugins/action/ansible_vault_secret_document.py:604-627 | the accepted documents of a schema are exactly those with this version, this subject and a secret of this length without line breaks |
| DocumentController.Controller.ReadExisting | plugins/action/ansible_vault_secret_document.py:696-751 | the reading code, with others running before each system call, follows the process |
| DocumentController.Controller.ReadChunks | plugins/action/ansible_vault_secret_document.py:722-731 | the read loop never keeps more than the limit, and what it returns is the content of the document |
| DocumentController.Controller.WriteStaged | plugins/action/ansible_vault_secret_document.py:826-836 | the write loop continues after every short write; afterwards the named staged file holds the whole ciphertext |
| DocumentController.Controller.LinkStaged | plugins/action/ansible_vault_secret_document.py:782-786 | the link reports created exactly when it made the name |
| DocumentController.Controller.RemoveOwnedTemp | plugins/action/ansible_vault_secret_document.py:858-872 | the staged name is gone afterwards unless its removal failed |
| DocumentController.Controller.CleanUp | plugins/action/ansible_vault_secret_document.py:798-803 | the descriptor is closed first; a failed close leaves the staged name, otherwise it is removed |
| DocumentController.Controller.ExclusiveCreate | plugins/action/ansible_vault_secret_document.py:753-803 | staging, link and clean-up end with the outcome the process has |
| DocumentController.Controller.LoadRaceWinner | plugins/action/ansible_vault_secret_document.py:519-528 | the retry loop returns an existing accepted document, or fails after its last attempt |
| DocumentController.Controller.Ensure | plugins/action/ansible_vault_secret_document.py:340-472 | the call ends with the report its process ends with; a call that met no fault and no earlier link has created its document |
| DocumentController.Controller.EnsureExact | plugins/action/ansible_vault_secret_document.py:414-472 | from any reachable state, what it reports to exist decodes to the requested document; an undisturbed call has created it, and reports so |
| Approvals.EqualBytesEqualContracts | plugins/module_utils/onepassword_boundary.py:540-577 | equal payload bytes mean contracts that JSON delivers alike: one and the same authority, approval, operation, target and binding when their texts are whole |
| Approvals.MarkerIsIdentity | plugins/module_utils/onepassword_boundary.py:707-721 | approvals share a marker exactly when they share authority, namespace, fingerprint, execution and nonce |
| Approvals.ValidIdentityIsPlain | plugins/module_utils/onepassword_boundary.py:32-40 | validated identities are ASCII, so their encoding is unambiguous |
| ApprovalForms.ApprovalsExactly | plugins/module_utils/onepassword_boundary.py:450-522 | an approval passes exactly with these names, digests, counts, bounds and a lifetime of at most 15 minutes |
| ApprovalForms.AuthoritiesExactly | plugins/module_utils/onepassword_boundary.py:355-418 | an authority passes exactly with this namespace, fingerprint and these digests |
| ApprovalForms.BindableExactly | plugins/module_utils/onepassword_boundary.py:433-447 | a value can be bound exactly when nothing inside it is a float or an object with an empty key |
| ApprovalForms.ContractSpelled | plugins/module_utils/onepassword_boundary.py:540-553 | the signed JSON says under each name what the contract says, and nothing else |
| ApprovalForms.IdentitySpelled | plugins/module_utils/onepassword_boundary.py:707-721 | the JSON that a marker is named after says the five names of the identity |
| ControllerGate.RunKeepsGate | plugins/module_utils/onepassword_boundary.py:740-817 | every event keeps one marker per consumed approval, and no mutation without a claim |
| ControllerGate.OneClaim | plugins/module_utils/onepassword_boundary.py:778-788 | at most one call consumes an identity in a directory, even when its claim then fails |
| ControllerGate.ClaimInWindow | plugins/module_utils/onepassword_boundary.py:740-753 | a successful claim lies within its approval's window, of at most 960 seconds |
| ControllerGate.MutationBudget | plugins/action/onepassword_secret_item.py:759-787 | every mutation or delivery is its call's only one, after its own claim; they never outnumber the markers |
| ControllerGate.OnlyClaimsChange | plugins/action/onepassword_vault_co_manager.py:517-549 | plan, check-mode and satisfied calls consume no approval and mutate nothing; a call that reports its own effect claimed it and had it |
| ControllerSigned.ClaimsAreSigned | plugins/module_utils/onepassword_boundary.py:621-817 | over every run, a call that consumed an approval, claimed or had an effect carries a signature that verifies over exactly its own authority, approval, operation, target and binding |
| ControllerSigned.DocumentsAreSigned | plugins/module_utils/luks_header_onepassword.py:277-361 | a document is created only under a signature over its own digest and its package's subject |
| ControllerSigned.MarkersAreSigned | plugins/module_utils/onepassword_boundary.py:707-788 | every marker was made by one call, which was signed for exactly what it does |
| ControllerSigned.NormalizesExactly | plugins/module_utils/onepassword_boundary.py:669-737 | a normalization goes on exactly with a valid, signed, bindable approval at its time whose marker is not there |
| ControllerSigned.ClaimsExactly | plugins/module_utils/onepassword_boundary.py:740-817 | a claim begins exactly at its time and makes the marker exactly when it is not there |
| ControllerSigned.OneSignatureOneOrder | plugins/module_utils/onepassword_boundary.py:540-577 | calls that one signature serves are of one kind, with one target, binding, authority and approval |
| ControllerProgress.SanctionedCallSucceeds | plugins/action/onepassword_secret_item.py:737-799 | a sanctioned call of any of the five applying actions that nothing gets in the way of has returned its own effect after twelve of its own steps |
| ControllerProgress.FavouredCallSucceeds | plugins/action/onepassword_secret_item.py:737-799 | the same from its beginning: once ended, it has returned its own effect |
| ControllerReports.Returned | plugins/action/onepassword_secret_item.py:737-799 | every result was returned by one step of its call, and does not change afterwards |
| ControllerReports.ChangedExactly | plugins/action/onepassword_secret_item.py:737-799 | over every run, `changed` is true exactly when the call had its effect, or it forecasts, as a plan or in check mode, an item or a permission that was missing when it returned |
| ControllerReports.GrantIsComplete | plugins/action/onepassword_vault_co_manager.py:517-549 | over every run, an application outside check mode returns only when every required permission is granted, and reports none missing, whether it found or granted them |
| Controllers.Missing | plugins/action/onepassword_vault_co_manager.py:489-493 | exactly the required permissions that are not observed |
| Controllers.Matches | plugins/module_utils/luks_header_onepassword.py:211-217 | exactly the rows of the vault with the title or the pinned identity |
| Controllers.MatchesInOrder | plugins/module_utils/luks_header_onepassword.py:211-217 | each such row occurs once, in the order of the listing |
| ControllerLooks.InspectDocumentExactly | plugins/module_utils/luks_header_onepassword.py:211-238 | nothing without a row; the one row with this title, category, tags, identity and version; drift otherwise |
| ControllerLooks.InspectItemExactly | plugins/action/onepassword_secret_item.py:600-735 | the same for secret and key items, field by field |
| ControllerLooks.NothingExactly | plugins/module_utils/luks_header_onepassword.py:277-306 | without a document a plan and check mode return, an application with permission goes on, and everything else fails |
| ControllerLooks.DriftFails | plugins/module_utils/luks_header_onepassword.py:211-238 | drift ends every native call |
| ControllerLooks.CustodyExactly | plugins/module_utils/luks_header_onepassword.py:338-361 | an existing document is reported in custody exactly when its content is the package's canonical bytes |
| ControllerLooks.RetrievalExactly | plugins/module_utils/luks_header_onepassword.py:241-274 | a retrieval returns exactly what the receipt check accepts |
| ControllerLooks.ItemsExactly | plugins/action/onepassword_secret_item.py:737-760 | what an inspection for an item leads to, by operation and by the rows that are there |
| ControllerLooks.GrantsExactly | plugins/action/onepassword_vault_co_manager.py:517-527 | what an inspection of permissions leads to, by whether all required ones are granted |
| ControllerItems.RunKeepsItems | plugins/module_utils/luks_header_onepassword.py:277-361 | every event keeps what each call knows about the provider's items |
| ControllerItems.OnlyMatchIsFirst | plugins/module_utils/luks_header_onepassword.py:332-337 | a unique match after a creation is the created item, and no earlier item has its title |
| ControllerItems.OneCreator | plugins/module_utils/luks_header_onepassword.py:307-337 | for one vault and title at most one call of any creating action ever reports a creation |
| ControllerItems.SameVersion | plugins/module_utils/luks_header_onepassword.py:338-353 | content downloaded between two equal inspections is that of the inspected version |
| ControllerItems.CustodyIsVerified | plugins/module_utils/luks_header_onepassword.py:277-361 | a verified result names an item version whose content is the package's canonical bytes |
| ControllerItems.RetrievalIsPinned | plugins/module_utils/luks_header_onepassword.py:241-274 | a retrieved package is valid, pinned, and what the reported version holds |
| CustodyController.ReplayDirectory.Claim | plugins/module_utils/onepassword_boundary.py:740-817 | a claim succeeds only in its window and without a marker, and then does unless a system call fails; it leaves the complete evidence, and a failed one keeps its marker |
| CustodyController.Controller.Claim | plugins/module_utils/onepassword_boundary.py:740-817 | the clock, the marker and the evidence, in this order, follow the process |
| CustodyController.Controller.Custody | plugins/module_utils/luks_header_onepassword.py:277-361 | the call as a program ends as its process does, whoever runs between its provider calls |
| CustodyController.Controller.VerifiedCustody | plugins/module_utils/luks_header_onepassword.py:277-361 | from any reachable state, a custody report names a version with the package's bytes; a sanctioned, favoured application reports its own creation |
| HandoffProofs.ResponsesPass | plugins/module_utils/luks_header_native_handoff.py:115-189 | whatever a native call returns for a validated request passes the response check exactly while the exchange is timely |
| HandoffProofs.OneRequest | plugins/module_utils/luks_header_native_handoff.py:139-151 | without a digest collision a response is accepted only for requests that JSON delivers alike: for one request when their texts are whole |
| HandoffProofs.OneDecodedRequest | plugins/module_utils/luks_header_native_handoff.py:37-48 | so it is accepted for at most one of the requests that were read from files |
| HandoffProofs.ReportIsValid | plugins/module_utils/luks_header_native_handoff.py:152-189 | every report of a native call meets the fields, pins and receipt the check demands |
| HandoffForms.ResultsExactly | plugins/module_utils/luks_header_native_handoff.py:152-189 | the result check accepts exactly what a provider call made for the request can report |
| HandoffForms.RequestsExactly | plugins/module_utils/luks_header_native_handoff.py:51-112 | a request is accepted exactly with these fields, pins, package and permissions for its operation, and within its time |
| HandoffForms.RequestSpelled | plugins/module_utils/luks_header_native_handoff.py:51-112 | the JSON of a request says under each name what the request says |
| HandoffForms.ActionExactly | plugins/module_utils/luks_header_native_handoff.py:115-136 | the provider is called for the vault, title, item, operation, package and pins that the request names |
| AtomicReplace.OpenOwnedParent | scripts/materialize-exact-revision-review.py:177-277 | one descriptor is left open, of the directory the components lead to, or none; without a failed system call, exactly when the walk leads to a safe one |
| AtomicReplace.ProtectedAssetBytes | scripts/materialize-exact-revision-review.py:307-362 | returns the whole acceptable file within the bound, exactly when there is one if no system call fails, and leaves no descriptor open on any path |
| AtomicReplace.Enter | scripts/materialize-exact-revision-review.py:205-227 | a component of the walk leaves the child open instead of its parent, or neither |
| AtomicReplace.WriteAll | scripts/materialize-exact-revision-review.py:430-435 | the write loop ends with exactly the payload in the staged file, or fails, and touches nothing else |
| AtomicReplace.StageAndReplace | scripts/materialize-exact-revision-review.py:418-475 | the target switches once, from its old file to the whole payload |
| AtomicReplace.WriteOwnedFile | scripts/materialize-exact-revision-review.py:365-514 | old content until the replacement and new after, in every state between; all descriptors closed once; failing after the replacement only when the parent does not close; a staged file stays only when its unlink failed; without a failed system call it returns, with the payload in place, exactly when the target is replaceable |
| AtomicReplace.WriteWorkspace | scripts/materialize-exact-revision-review.py:726-764 | both files are published whole, or everything is as before, or a clean-up step failed; without a failed system call both are, exactly when the directory is new, below an existing one, and both files are within their bound |
| Streams.RunCommand | plugins/module_utils/luks_header_onepassword.py:48-106 | returns only the complete output within the bound, after the whole payload was taken in order, with at most one byte more kept; it returns exactly when everything works, in time and within the bound |
| Streams.BoundedOutput | scripts/materialize-exact-revision-review.py:628-717 | returns the complete output below the exclusive limit, and reports too large exactly when it reaches it; it returns exactly when everything works and the process ends well in time |
| Delivery.ReadSecret | plugins/action/onepassword_ssh_secret_stdin.py:621-711 | the complete value of the expected length, or an error; what the buffer then holds: zeros, unless a running producer was not killed or only the closing failed |
| Delivery.Receive | plugins/action/onepassword_ssh_secret_stdin.py:666-686 | the read loop fills the buffer with the value from its beginning, and ends well only at its end; a longer value is noticed |
| Delivery.RunConsumer | plugins/action/onepassword_ssh_secret_stdin.py:880-905 | the consumer gets the buffer in order, and all of it on success, which is exactly when everything works |
| Delivery.Consume | plugins/action/onepassword_ssh_secret_stdin.py:913-948 | unlocked means the consumer got exactly the provider's value after claim and revalidations; exactly when every check and call works; the buffer is zero afterwards, if and only if neither of the two exceptions occurred |
| Delivery.Erase | plugins/action/onepassword_ssh_secret_stdin.py:944-946 | every byte of the buffer is zero |
| Delivery.CloseFailureKeepsSecret | plugins/action/onepassword_ssh_secret_stdin.py:707-711 | the close exception occurs, for every usable value |
| Delivery.KillFailureKeepsSecret | plugins/action/onepassword_ssh_secret_stdin.py:699-706 | the kill exception occurs, for every value that is too long and does not begin with zeros only |
| Lists.SortedComparison | plugins/filter/root_of_trust.py:306-312 | the filtered sorted list equals the other sorted list exactly when the kept elements are the same, as often |
| Lists.CollectPermuted | plugins/filter/root_of_trust.py:167-231 | permuting rules permutes what the loop collects |
| Firewall.CollectRules | plugins/filter/root_of_trust.py:167-231 | the loop with its lists computes the specified collection, or refuses |
| Firewall.ClassifyInputRules | plugins/filter/root_of_trust.py:149-258 | the loop and the checks after it give the specified result |
| FirewallProofs.LoopCollects | plugins/filter/root_of_trust.py:167-231 | every list is the comprehension of its kind, and one refused rule refuses the phase |
| FirewallProofs.CountsNeverFire | plugins/filter/root_of_trust.py:301-304 | the checks for eight and ten rules can never fail |
| FirewallProofs.ClassifiedPermuted | plugins/filter/root_of_trust.py:233-258 | a classification accepts all permutations of its rules or none, with the same lists up to order |
| FirewallMeaning.OrderDoesNotMatter | plugins/filter/root_of_trust.py:261-321 | permuting input rules leaves the result as it is |
| FirewallMeaning.NamesDoNotMatter | plugins/filter/root_of_trust.py:145-146 | renaming input rules leaves the result as it is |
| FirewallMeaning.RuleMeaning | plugins/filter/root_of_trust.py:173-231 | what packets each approved rule accepts, and whether hardening keeps it |
| FirewallMeaning.PhaseAccepts | plugins/filter/root_of_trust.py:149-258 | a phase accepts what a base signature accepts, or TCP from a Tang host to port 80 |
| FirewallMeaning.HardenedDiffersExactly | plugins/filter/root_of_trust.py:261-321 | for every accepted plan and packet: hardened accepts exactly when bootstrap does and it is not the controller's port 22, or it is TCP from one of three distinct consumers to port 80 |
| FirewallShapes.KindExactly | plugins/filter/root_of_trust.py:167-231 | the classifier gives a rule a kind exactly when the rule's fields, one by one, are those of the kind |
| FirewallPlans.PhaseExactly | plugins/filter/root_of_trust.py:149-258 | a phase is accepted exactly when it holds each approved rule once and no other: the management ports, one TCP answer with flags "ack", two DNS servers, one NTP, one ICMP, and three consumers once hardened |
| FirewallPlans.PoliciesCompared | plugins/filter/root_of_trust.py:306-312 | the base policies agree exactly when the rules but for ports 22 and 80 have the same fields, as often |
| FirewallPlans.PlanExactly | plugins/filter/root_of_trust.py:261-321 | a plan is accepted, with the counts 8, 10 and 3, exactly when its surroundings and both phases are approved and the policies agree |
| FirewallPackets.RuleExactly | plugins/filter/root_of_trust.py:173-231 | a rule lets through exactly the packets of its kind |
| FirewallPackets.PhasePassesExactly | plugins/filter/root_of_trust.py:149-258 | an accepted phase lets a packet through exactly when it is TCP from the controller to a management port, TCP from a consumer to port 80, an answering TCP packet with these flags, a DNS or NTP answer, or ICMP |

## Left out

- A number with a fraction or exponent that is read from JSON keeps its lexeme; Python keeps the number, and prints its shortest lexeme.
- Python's limits on digits in integers and on recursion depth, and its detection of UTF-16 and UTF-32 input, are not modelled. Canonical input is ASCII; bytes from 128 on are refused by the parser here, while Python decodes UTF-8, with surrogates passed through.
- Equality of JSON values is structural: Python's `True == 1` in the comparison of store rows is not modelled.
- `VaultHTTP`: TLS, login, headers and redirects; the store is create-only and delivers what JSON makes of a value. A read that meets deleted history, or a race between its two requests, is a crash.
- One mount is modelled; the length limit that `safe_path` also puts on a whole request path is not.
- Base64 is decoded as Python 3.11 does it, which allows superfluous padding behind complete groups; an interpreter that refuses such padding makes a reader fail where this one goes on.
- A store whose JSON replaces or refuses lone surrogates: a manifest that holds one would then not be read back as it was written.
- Custody.StepsDecrease: says that a publisher ends, not how long a store takes to answer.
- The walk that creates missing parent directories, and the owner, mode and symbolic-link checks of documents, executables and replay directories: policy on metadata; failing them is a fault.
- YAML and Ansible Vault are one function `Codec`; that a written document can be serialized unambiguously is part of its answer, and the generator of secrets is not modelled.
- ControllerItems.OneCreator: assumes, with the source, that items are neither deleted nor retitled, that a listing is a snapshot, and that an answered creation has happened.
- Field contracts of secret and key items, account and operator identities, and the agent challenge can only refuse a call; they are faults.
- `onepassword_ssh_key_import.py`: its creation is guarded by a confirmation text, not by a claim.
- The programs of the secret item, key item and permission actions are modelled as processes only; the native document action is also given as a program.
- The evidence in a marker is bytes; that it is canonical JSON follows from the printer.
- `decode` of handoff files adds a size limit and the refusal of constants to the parser modelled here.
- Error messages and exception notes: an exception is one value.
- AtomicReplace.WriteOwnedFile: other processes do not change the directory meanwhile; a failed replacement is taken to have replaced nothing.
- Memory outside the buffer that held the secret, and interrupts that are not ordinary exceptions.
- The firewall's top-level mapping is a record, so missing or unknown top-level keys and values of other types are not modelled; canonical IPv4 text is a parameter.
- Liveness of waiting loops beyond the stated step bounds, and durations.
