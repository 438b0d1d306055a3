# Certael Agent, verified model

Certael Agent launches a protected game, proves to a server what it observes about it, and keeps
itself up to date. This project models its compact cores in Dafny and proves what every input, every
run and every interleaving of them satisfies.

- **Messages** (`Bytes`, `TextEncoding`, `Wire`, `Forms`, `Canonical`, `Messages`, `Layouts`,
  `Vectors`). The Protocol Buffers wire format is modelled octet by octet: a writer that emits fields in
  schema order and omits defaults, and the lenient reader that tolerates over-long varints, any field
  order, repeated and unknown fields. On top of it stands canonical decoding, which accepts exactly the
  encodings. The octets of every message type are written out, key by key.
- **Signed objects** (`Protocol`, `Reports`, `Acceptance`, `Refusals`, `Sizes`, `Evidence`, `Telling`).
  Key ring, domain separation, claim checks, the binding of a launch bundle, signed reports and the
  digest chain that links them, what a report tells, and how large it can become. Of each kind of object
  it is said, without reference to the verifier, which ones are accepted, what is taken from them, and
  how the others are refused.
- **The protected session** (`Ipc`, `Probe`, `Session`, `Runtime`, `SessionOutcomes`,
  `SessionProperties`, `SessionTiming`, `SessionRefinement`, `SessionStreams`). Frames on a byte
  stream, the reader thread with its one-slot channel, the game-side probe, admission, the timed loop,
  the session object that builds the same chain of reports as the loop, and the whole session between
  the octets it receives and the octets it sends.
- **Windows process start** (`CommandLine`, `Environment`). Printers whose readers are fixed by the
  platform; the readers are modelled too.
- **The updater** (`Activation`, `Updater`). Version files and an atomically replaced state file under
  install, register, activate, roll back, recover and launch. Between any two file operations, and
  between any two buffers of a file that is copied or hashed, a crash, a failure or a rewriting of
  version files can happen. A history records every change of the version files: those by others are
  exactly the rewritings of the turns taken, those by the updater are operations of an installation in
  its own directories, and every verification is tied to the files as they were in that history.
- **The game registry** (`Registry`). Replacing a registration by backup and rename, with crashes,
  failures and half-finished removals.

Code that changes state in place is modelled by classes and methods with loops (`Ipc.Writer`,
`Ipc.Reader`, `Probe.ProbeChannel`, `Session.AgentSession`, `Runtime.ProtectedLoop`, `Updater.Updater`,
`Registry.Registry`), each method proved against a specification function or a statement of its whole
new state. Code made of expressions is modelled by functions and lemmas. Lemmas say for themselves
where they use induction, so all of them switch Dafny's automatic induction off.

## Assumptions

- SHA-256 and Ed25519 are parameters about which nothing is assumed. A result that rests on the
  strength of one of them is stated as a disjunction: it holds, or the run exhibits a named hash
  collision or a named signature shared by two messages. (Assuming a 32-octet hash to be injective
  would be contradictory.) `Protocol.Correct` states that the scheme verifies what it signed, and is
  used only by `Reports.SignedReportVerifies` and `Sizes.LongRevocationIsAccepted`.
- Clock readings, received frames, collected evidence, file checks, crashes and failures are inputs
  over which every result is quantified.
- Numbers are unbounded where the program cannot overflow, and carry their 32- or 64-bit range
  otherwise. Signed subtraction wraps around, as it does in a release build.

## Where the code and its description differ

- `Protocol.GrantIsShortLived` and `Protocol.RevocationIsSigned`: the two-minute limit of a grant and the
  five-minute limit of a revocation are checked by a subtraction that wraps around, so they hold exactly
  when the lifetime is below 2^63 seconds. `Protocol.LongGrantIsAccepted` and
  `Sizes.LongRevocationIsAccepted` give accepted ones that live for 2^63 seconds.
- `SessionRefinement.ChallengeIsAnsweredIff`: a report can be too large. It is signed exactly if it takes
  at most 65536 octets unsigned, and sent exactly if it takes at most 65470, since the signature adds 66
  and a frame holds 65536. `SessionRefinement.LongNamesEndTheSession` gives evidence that ends the session:
  96 different module names in each list, each of 170 characters of three octets and two digits. The
  Windows collector bounds names by 255 UTF-16 code units and these have 172
  (`Evidence.LongNamesAreCollected`), and the session's own filter lets their 512 octets through. With
  names of at most 255 octets, as the Linux and macOS collectors deliver, `Evidence.EvidenceFits` holds.
- `CommandLine.CommandLineRoundTrip`: the command line carries a game path exactly when it has no
  quote and, if it must be quoted, no trailing backslash; arguments are carried without restriction.
- `Updater.Updater.Execute`: a state file whose existence cannot be determined counts as missing, and is
  read as the default state. A recovery, every launch (which recovers first) or an installation then
  replaces the file by one without an active version. An active version is lost in exactly this way and in
  no other; `Updater.Updater.Recover` and `Updater.Updater.ActiveTarget` say exactly at which operations, and
  `Updater.LaunchForgets` and `Updater.InstallationForgets` are such runs, from any state. That an active
  version stays active is proved for all runs in which no command replaces the state file after
  overlooking it (`Updater.Updater.Run`, `Updater.Updater.RunThenLaunch`).
- `Updater.Updater.RegisterExistingVersion`: the active version is to be preserved until activation is asked
  for (crates/certael-agent-updater/src/lib.rs:336-338). It is, exactly unless the state file was overlooked
  and replaced: then the registered version becomes the active one, and the previous and pending ones are
  forgotten. `Updater.RegistrationForgets` is such a run.
- `Registry.Registry.Recover`: recovery reports success and leaves everything as it was if it cannot see
  that there is a backup. Only that check matters: whenever recovery succeeds, the last committed
  registration is in place without a backup exactly if there was no backup or its check could be made.
- `SessionRefinement.WhereTheyDiffer`: at the last sequence number the loop stops where the session object
  still creates one report; and only the session object refuses a repeated challenge. As long as messages
  can be written, they differ in these two cases and no other (if both hold, neither sends a report).

## Model

| member | source | states |
|---|---|---|
| Wire.VarintRoundTrip | crates/certael-agent-protocol/src/lib.rs:882-894 | every number that fits is read back from its varint, whatever follows |
| Wire.VarintIsShortest | crates/certael-agent-protocol/src/lib.rs:1655-1672 | the written varint is never longer than any other varint that is read as the same number |
| Wire.MergeEncodedField | crates/certael-agent-protocol/src/lib.rs:410-431 | reading one written field stores exactly its value and leaves the rest unread |
| Wire.MergeEncodedFrom | crates/certael-agent-protocol/src/lib.rs:410-431 | reading the written fields from any index on stores exactly those fields |
| Wire.DecodeEncodeThen | crates/certael-agent-protocol/src/lib.rs:889 | after the encoding of a message the decoder goes on from exactly that message |
| Wire.DecodeEncode | crates/certael-agent-protocol/src/lib.rs:889-890 | decoding inverts encoding for every message of every schema, nested messages included |
| Wire.EncodeInjective | crates/certael-agent-protocol/src/lib.rs:890 | two messages of one schema never share an encoding |
| Wire.DecodesExactlySpellings | crates/certael-agent-protocol/src/lib.rs:889-890 | the lenient decoder reads an input as a message if and only if the input is a sequence of records of which the last one gives each scalar field and all of them in order give each list field |
| Wire.RearrangedIsRead | crates/certael-agent-protocol/src/lib.rs:889-892 | two sequences of records with the same values for every field, whatever their order, form and unknown records, are read as the same message |
| Wire.RearrangedEncodingIsRead | crates/certael-agent-protocol/src/lib.rs:889-892 | a message's fields in any order, each as written or respelled as any one record of the same value, with any unknown records at any boundary, are read as that message |
| Wire.AnyVarintsAreRespelling | crates/certael-agent-protocol/src/lib.rs:1655-1672 | any octets read as a number field's key and value, over-long ones included, are another way to write that field in its place |
| Forms.WhatVarintsAre | crates/certael-agent-protocol/src/lib.rs:889 | what is read as a number is exactly one to ten octets, all but the last with the high bit, whose seven-bit groups make that number, below 2^64 |
| Forms.WhatKeysAre | crates/certael-agent-protocol/src/lib.rs:889 | a key is exactly such a number below 2^32: a field number from 1 on times eight, and a wire type up to 5 |
| Forms.KnownForms | crates/certael-agent-protocol/src/lib.rs:889 | what may follow the key of a known field, for each kind of field, and what the field then holds |
| Forms.UnknownForms | crates/certael-agent-protocol/src/lib.rs:889 | what may follow the key of an unknown field, for each wire type |
| Forms.GroupsNest | crates/certael-agent-protocol/src/lib.rs:889 | unknown groups may be nested a hundred deep and no deeper, and end with their own number only |
| Forms.NumbersAreCutDown | crates/certael-agent-protocol/src/lib.rs:889 | a number too great for its field is cut down to the low bits, with the sign they give |
| TextEncoding.TextIsEncodedStrings | crates/certael-agent-protocol/src/lib.rs:889 | octets are accepted in a text field if and only if they are the UTF-8 encoding of some string |
| Canonical.AcceptsExactlyEncodings | crates/certael-agent-protocol/src/lib.rs:882-894 | an input is accepted as a message if and only if it is the non-empty encoding of it, at most 64 KiB long |
| Canonical.DecodesWhatWasEncoded | crates/certael-agent-protocol/src/lib.rs:882-894 | every message is accepted back from its encoding, unless that is empty or too long, and then the error says which |
| Canonical.OneEncodingPerMessage | crates/certael-agent-protocol/src/lib.rs:882-894 | no message has two accepted encodings |
| Canonical.EncodingDeterminesMessage | crates/certael-agent-protocol/src/lib.rs:882-894 | distinct messages have distinct encodings |
| Canonical.RefusedAsNonCanonical | crates/certael-agent-protocol/src/lib.rs:890-892 | the canonicity error means exactly that the lenient decoder reads the input and that it is the encoding of no message |
| Canonical.DecodingErrors | crates/certael-agent-protocol/src/lib.rs:882-894 | nothing, more than 65536 octets, and what the lenient decoder does not read each have their own error, and no other input has it |
| Messages.EveryMessageIsFaithful | crates/certael-agent-protocol/src/lib.rs:117-463 | for each of the ten message types the conversion to field values is a bijection onto the well-typed messages of its schema |
| Layouts.EnvelopeLayout | crates/certael-agent-protocol/src/lib.rs:142-150 | the octets of a signed envelope: which field stands under which key, in which order, in every message of this type |
| Layouts.LaunchBundleLayout | crates/certael-agent-protocol/src/lib.rs:208-216 | the octets of a launch bundle: which field stands under which key, in which order, in every message of this type |
| Layouts.PolicyClaimsLayout | crates/certael-agent-protocol/src/lib.rs:116-140 | the octets of the claims of a policy: which field stands under which key, in which order, in every message of this type |
| Layouts.LaunchGrantClaimsLayout | crates/certael-agent-protocol/src/lib.rs:152-182 | the octets of the claims of a launch grant: which field stands under which key, in which order, in every message of this type |
| Layouts.ManifestClaimsLayout | crates/certael-agent-protocol/src/lib.rs:218-262 | the octets of the claims of a build manifest, with its files: which field stands under which key, in which order, in every message of this type |
| Layouts.ChallengeLayout | crates/certael-agent-protocol/src/lib.rs:391-399 | the octets of a challenge: which field stands under which key, in which order, in every message of this type |
| Layouts.ReportLayout | crates/certael-agent-protocol/src/lib.rs:401-431 | the octets of a report, with its observations: which field stands under which key, in which order, in every message of this type |
| Layouts.HealthLayout | crates/certael-agent-protocol/src/lib.rs:433-443 | the octets of a health message: which field stands under which key, in which order, in every message of this type |
| Layouts.HelloLayout | crates/certael-agent-protocol/src/lib.rs:184-196 | the octets of a hello message: which field stands under which key, in which order, in every message of this type |
| Layouts.RevocationClaimsLayout | crates/certael-agent-protocol/src/lib.rs:445-463 | the octets of the claims of a revocation: which field stands under which key, in which order, in every message of this type |
| Vectors.GoldenPolicyEncoding | crates/certael-agent-protocol/src/lib.rs:1674-1690 | the golden policy has exactly the pinned octets, and they decode to it |
| Vectors.OverlongClaimsAreRefused | crates/certael-agent-protocol/src/lib.rs:1655-1672 | the claims with an over-long varint are refused as not canonical |
| Protocol.DomainDeterminesMessage | crates/certael-agent-protocol/src/lib.rs:7-14 | a signed message determines both its domain and its claims, because no domain is a prefix of another's messages |
| Acceptance.DomainStrings | crates/certael-agent-protocol/src/lib.rs:7-14 | the eight domains, letter for letter, each closed by a zero octet |
| Protocol.NewKeyRing | crates/certael-agent-protocol/src/lib.rs:515-534 | a key ring is made exactly from a non-empty list of acceptable keys with distinct names, and each error says why not |
| Protocol.ResolveFindsUsable | crates/certael-agent-protocol/src/lib.rs:536-546 | a key is found if and only if an entry of that name is in its window and not revoked, and it is that entry's |
| Protocol.SignatureBindsKindAndClaims | crates/certael-agent-protocol/src/lib.rs:903-916 | a signature accepted for two kinds of object, or for two claims, is one shared by two different messages |
| Protocol.GrantIsShortLived | crates/certael-agent-protocol/src/lib.rs:939-965 | an accepted grant is unexpired, and lives at most two minutes if and only if its lifetime does not overflow |
| Acceptance.WhatIdentifiersAre | crates/certael-agent-protocol/src/lib.rs:1146-1152 | which texts are identifiers, character by character |
| Acceptance.WhatSafePathsAre | crates/certael-agent-protocol/src/lib.rs:1116-1125 | a path is safe exactly if it is relative, names no drive, and no part between slashes and backslashes is empty or made of one or two dots |
| Acceptance.WhatClaimsAreAccepted | crates/certael-agent-protocol/src/lib.rs:918-1001 | exactly which claims of a policy, a grant and a manifest are accepted, and which error the others get |
| Protocol.LongGrantIsAccepted | crates/certael-agent-protocol/src/lib.rs:939-965 | every accepted grant stays accepted with a lifetime of 2^63 seconds around the present |
| Protocol.ValidateManifestFiles | crates/certael-agent-protocol/src/lib.rs:990-999 | the loop accepts exactly the lists of safe relative paths with digests that are distinct ignoring case |
| Acceptance.WhatPathsCoincide | crates/certael-agent-protocol/src/lib.rs:990-999 | two paths of a manifest count as one exactly if they differ in the case of ASCII letters only |
| Protocol.GrantDeterminesBundle | crates/certael-agent-protocol/src/lib.rs:804-864 | two accepted bundles with the same signed grant are the same octets, or two of their parts collide under the hash |
| Protocol.AcceptedBundleIsBound | crates/certael-agent-protocol/src/lib.rs:804-864 | an accepted bundle names one tenant, game, environment and build throughout, is for the expected key, and has timing within limits; which claim becomes which field is said by `Acceptance.BundleIsAcceptedIff` |
| Protocol.AcceptedBundleIsSigned | crates/certael-agent-protocol/src/lib.rs:804-864 | each part of an accepted bundle was signed under the domain of its own kind by a key usable then |
| Acceptance.PolicyVerifiesIff | crates/certael-agent-protocol/src/lib.rs:549-563 | an envelope verifies as a policy if and only if its octets are the encoding of acceptable claims, signed under the policy domain by a usable key |
| Acceptance.GrantVerifiesIff | crates/certael-agent-protocol/src/lib.rs:565-579 | the same of launch grants |
| Acceptance.ManifestVerifiesIff | crates/certael-agent-protocol/src/lib.rs:581-595 | the same of build manifests |
| Acceptance.RevocationVerifiesIff | crates/certael-agent-protocol/src/lib.rs:653-678 | the same of revocations |
| Refusals.PolicyRefusals | crates/certael-agent-protocol/src/lib.rs:549-563 | which error a refused policy gets: faults are looked for in the encoding, in the claims, with the key, and in the signature, in this order |
| Refusals.GrantRefusals | crates/certael-agent-protocol/src/lib.rs:565-579 | the same of launch grants |
| Refusals.ManifestRefusals | crates/certael-agent-protocol/src/lib.rs:581-595 | the same of build manifests |
| Refusals.RevocationRefusals | crates/certael-agent-protocol/src/lib.rs:653-678 | the same of revocations |
| Acceptance.BundleIsAcceptedIff | crates/certael-agent-protocol/src/lib.rs:804-864 | a bundle is accepted if and only if it is the encoding of parts that verify and agree and the agent is not too old, and is refused as needing an update if and only if it is too old but all else holds; the launch carries each claim of the grant, the periods and expiry of the policy, and the manifest with the digest of the signed one |
| Refusals.BundleRefusals | crates/certael-agent-protocol/src/lib.rs:804-833 | which component of a refused bundle is blamed, and for what: its own encoding, then each envelope, then each part's claims |
| Refusals.BindingRefusals | crates/certael-agent-protocol/src/lib.rs:804-864 | which error parts that verify get: an unreadable version, parts that do not belong together, or an agent that is too old, in this order |
| Refusals.ChallengeRefusals | crates/certael-agent-protocol/src/lib.rs:866-880 | which challenges are accepted, and which error each other input gets |
| Protocol.RevocationIsSigned | crates/certael-agent-protocol/src/lib.rs:653-678 | an accepted revocation is canonical, current, signed as a revocation by a key usable then, and lives at most five minutes if and only if its lifetime does not overflow |
| Reports.SigningKeepsReport | crates/certael-agent-protocol/src/lib.rs:1162-1184 | signing changes nothing but the signature and signs at most 64 KiB |
| Reports.SignedReportVerifies | crates/certael-agent-protocol/src/lib.rs:1173-1197 | a report that was signed verifies under the signer's public key |
| Reports.SignatureCoversReport | crates/certael-agent-protocol/src/lib.rs:1186-1197 | no field of a report can change under a signature that still verifies |
| Acceptance.WhatReportsAreValid | crates/certael-agent-protocol/src/lib.rs:1203-1231 | exactly which reports are valid |
| Acceptance.ReportVerifiesIff | crates/certael-agent-protocol/src/lib.rs:1186-1197 | a report verifies if and only if it is valid and its signature is one of its unsigned encoding, at most 64 KiB long, under the report domain |
| Refusals.FieldRefusals | crates/certael-agent-protocol/src/lib.rs:1203-1231 | the error names the first field of a report that is not as it should be |
| Refusals.ReportRefusals | crates/certael-agent-protocol/src/lib.rs:1162-1197 | which error signing and verifying a report give, and what exactly is signed |
| Reports.ReportPinsHistory | crates/certael-agent-protocol/src/lib.rs:1173-1201 | chains with a report in common have it at the same position and agree on everything before, or their encodings collide |
| Reports.ChainExtends | crates/certael-agent-protocol/src/lib.rs:1199-1201 | a report with the next number and the last digest extends a chain |
| Sizes.ReportFields | crates/certael-agent-protocol/src/lib.rs:410-431 | the octets of a report are those of its ten fields, each counted once |
| Sizes.ReportLengthIsExact | crates/certael-agent-protocol/src/lib.rs:402-431 | the encoded length is exactly that sum, computed from the lengths of texts and octets and the sizes of numbers |
| Sizes.SignedIffSmall | crates/certael-agent-protocol/src/lib.rs:1162-1184 | a report is signed if and only if it is valid and the sum of its field lengths is at most 64 KiB, is refused as too large otherwise, and grows by exactly 66 octets |
| Sizes.ChallengeSize | crates/certael-agent-protocol/src/lib.rs:392-399 | the encoding of a usable challenge is never empty and never too long |
| Sizes.LongRevocationIsAccepted | crates/certael-agent-protocol/src/lib.rs:653-678 | a correctly signed revocation with a lifetime of 2^63 seconds around the present is accepted |
| Evidence.ObservationsSize | crates/certael-agent-protocol/src/lib.rs:402-408 | encoding small observations adds between 0 and 8 octets to the text of each |
| Evidence.ReportSize | crates/certael-agent-protocol/src/lib.rs:1203-1231 | a valid report takes at least its observation text and at most 691 octets more than its observations weigh |
| Evidence.ObservationsWeigh | crates/certael-agent/src/runtime.rs:353-408 | with module names of at most 255 octets the collected evidence weighs at most 58280 octets |
| Evidence.EvidenceFits | crates/certael-agent/src/runtime.rs:353-424 | with such names a report has at most 202 observations, is valid, is signed, and fits the message and frame limits |
| Evidence.ObservationsDetermineEvidence | crates/certael-agent/src/runtime.rs:353-408 | reports with equal observations come from equal evidence: process numbers, platform, every flag, the build identifier as reported, and both lists of reported modules |
| Telling.EvidenceIsTold | crates/certael-agent/src/runtime.rs:353-408 | the list of observations, code by code: the platform, both process numbers in decimal digits, every flag as `true` exactly if it is set, `false` exactly if it is not and `unknown` exactly if it is absent, the probe as `connected`, the build identifier, and the modules of each process under its own code |
| Telling.FirstSafeModules | crates/certael-agent/src/runtime.rs:393-408 | the modules reported are the first 96 of those fit to be, in their order |
| Telling.HexInOctets | crates/certael-agent/src/runtime.rs:345-351 | digests are compared as two lowercase hexadecimal digits for each octet, the high one first |
| TextEncoding.WhatValuesAreSafe | crates/certael-agent/src/runtime.rs:563-565 | a value is fit to be reported exactly if it encodes one to 512 octets of characters none of which is a control character |
| Evidence.LongNamesAreCollected | crates/certael-agent-platform/src/lib.rs:698-737 | 96 names of 512 octets each are different, sorted, and at most 255 UTF-16 code units long, as the Windows collector delivers them |
| Evidence.LongNamesOverflow | crates/certael-agent/src/runtime.rs:393-408 | an agent and a game with 96 such names each pass the filter, and their observations exceed 64 KiB whatever else is observed |
| Ipc.TypeFromCode | crates/certael-agent-ipc/src/lib.rs:20-34 | a code is accepted if and only if some message type has it, and then as that type |
| Ipc.Writer.WriteFrame | crates/certael-agent-ipc/src/lib.rs:54-66 | sends the whole frame, or nothing if it is too long, or a proper prefix of it if the stream fails |
| Ipc.Reader.ReadFrame | crates/certael-agent-ipc/src/lib.rs:68-85 | the result and the unread rest are those of the frame decoder |
| Ipc.FrameIsItsOctets | crates/certael-agent-ipc/src/lib.rs:54-85 | a frame is read, and exactly so much consumed, if and only if the stream starts with the octets that writing it sends |
| Ipc.FrameOctets | crates/certael-agent-ipc/src/lib.rs:54-66 | the ten octets of the header: magic, version, type code, and the length with its highest octet first |
| Ipc.FrameFaults | crates/certael-agent-ipc/src/lib.rs:68-85 | which error a malformed frame gets, and in which order faults are found |
| Ipc.WrittenFramesAreRead | crates/certael-agent-ipc/src/lib.rs:54-85 | reading what was written gives back the frames and then an I/O error |
| Ipc.TruncationKeepsWholeFrames | crates/certael-agent-ipc/src/lib.rs:68-85 | a stream cut anywhere delivers exactly the frames that are still whole and then an I/O error |
| Ipc.ReadFramesWereWritten | crates/certael-agent-ipc/src/lib.rs:68-85 | any stream starts with the octets of the frames read from it |
| Ipc.NothingIsLost | crates/certael-agent/src/runtime.rs:72-81 | under every schedule of the reader thread and its one-slot channel, what was received is a prefix of what the stream delivers, and all of it when nothing can move |
| Ipc.ItemsAreFramesThenError | crates/certael-agent/src/runtime.rs:75-81 | what the thread delivers is the frames of the stream and then its first error, nothing after |
| Probe.ProbeChannel.Read | crates/certael-agent-probe/src/lib.rs:154-201 | tells type and exact length, copies only a frame that fits and leaves the rest of the buffer alone, and gives a frame up only then |
| Probe.ProbeChannel.Write | crates/certael-agent-probe/src/lib.rs:203-260 | refuses unknown types and long payloads before sending anything, and otherwise sends the frame or a proper prefix |
| Probe.ReadOnceConserves | crates/certael-agent-probe/src/lib.rs:173-197 | one read moves at most one frame to the caller, in order; a small buffer consumes nothing |
| Probe.ReadsConserveFrames | crates/certael-agent-probe/src/lib.rs:173-197 | whatever capacities are tried, delivered, pending and unread frames are together always the frames of the stream |
| Probe.WrittenFramesAreDelivered | crates/certael-agent-probe/src/lib.rs:154-201 | written frames reach the caller unchanged and in order, and all of them before the end of the stream is met |
| Session.AgentSession.Activate | crates/certael-agent-session/src/lib.rs:35-64 | a session starts if and only if key, game, environment, policy digest and id fit, and each error says what does not |
| Session.AgentSession.CreateReport | crates/certael-agent-session/src/lib.rs:66-108 | the answer and the new state are those of the specification, the report joins the chain, and an error changes nothing |
| Session.SignedReportJoinsChain | crates/certael-agent-session/src/lib.rs:89-107 | signing a draft with the next number and the last digest extends the chain of reports |
| Runtime.Open | crates/certael-agent/src/runtime.rs:63-272 | hello, then a refusal or the ready message, as admission decides; what it decides is said by `SessionOutcomes.VerdictIsSent` |
| SessionOutcomes.AdmissionDecides | crates/certael-agent/src/runtime.rs:134-271 | a launch is admitted, refused for an update, or rejected, each exactly under its conditions, and a refusal names the session exactly if its bundle was accepted |
| SessionOutcomes.VerdictIsSent | crates/certael-agent/src/runtime.rs:134-272 | of the openings whose messages can be written: `update_required` is sent exactly if the parts of the bundle verify and agree and only the version is too old, `ready` exactly if the bundle is accepted and the registration and files match, `rejected` in all other cases |
| SessionOutcomes.LaunchIsThatOfTheGrant | crates/certael-agent/src/runtime.rs:155-272 | the session that ready announces is that of the verified grant, with the periods and expiry of the verified policy |
| SessionOutcomes.SessionBegins | crates/certael-agent/src/runtime.rs:274-279 | the loop starts with sequence number 1, the zero digest, and the first heartbeat and deadline counted from the clock |
| Runtime.ProtectedLoop.AnswerFrame | crates/certael-agent/src/runtime.rs:335-475 | the reaction to each kind of frame, with the whole new state and the messages sent |
| Runtime.ProtectedLoop.Pass | crates/certael-agent/src/runtime.rs:280-476 | one pass of the loop: new state, messages and outcome, and no state change when it stops |
| SessionOutcomes.LimitsComeFirst | crates/certael-agent/src/runtime.rs:280-303 | at the expiry of the policy, and otherwise at the report deadline, the pass ends the session with that message, whatever was received |
| SessionOutcomes.WaitIsExact | crates/certael-agent/src/runtime.rs:304-307 | the wait lasts until the earliest of heartbeat, deadline and expiry, and at least a second |
| SessionOutcomes.HeartbeatIsDue | crates/certael-agent/src/runtime.rs:315-328 | in a pass that timed out, a heartbeat with the last report's time is sent exactly if it is due and the deadline is not reached, and then the next one is due one interval later; nothing else changes |
| SessionOutcomes.EndOfChannel | crates/certael-agent/src/runtime.rs:308-334 | the end of the stream and a disconnection end the session normally, any other fault of the channel with an error |
| SessionOutcomes.FrameEndsSession | crates/certael-agent/src/runtime.rs:442-475 | shutdown ends normally exactly if it is empty, a revocation says so exactly if it revokes this session, and every other frame but a challenge ends the session with an error |
| SessionOutcomes.RevocationDecides | crates/certael-agent/src/runtime.rs:442-456 | a frame revokes the session if and only if it is the encoding of a revocation that verifies and names the session, tenant, game and environment |
| SessionOutcomes.ChallengeIsAnsweredOrEnds | crates/certael-agent/src/runtime.rs:336-439 | after a challenge the session goes on exactly if a report could be made, numbered, framed and written; then it is sent, and number, digest, time and deadline move on while the heartbeat stays |
| Runtime.ProtectedLoop.RunAll | crates/certael-agent/src/runtime.rs:280-476 | the loop sends what the specification of a run sends and ends as it ends |
| Runtime.Serve | crates/certael-agent/src/runtime.rs:58-477 | the program's whole run is the specified run |
| SessionProperties.TraceOfServe | crates/certael-agent/src/runtime.rs:63-476 | every run says hello, then refuses with one message, or says ready and sends heartbeats and reports up to at most one closing message |
| SessionProperties.ReadyIsEarned | crates/certael-agent/src/runtime.rs:134-272 | ready is said only after the bundle verified, the registration matched and no file mismatched; the converse and whose session it is are said by `SessionOutcomes.VerdictIsSent` and `SessionOutcomes.LaunchIsThatOfTheGrant` |
| SessionProperties.LoopTraceOfRun | crates/certael-agent/src/runtime.rs:280-476 | a closing message is the last one and ends the run with an error |
| SessionProperties.RevocationIsEarned | crates/certael-agent/src/runtime.rs:442-456 | a frame that revokes the session is the canonical envelope of a signed, unexpired revocation naming its session, tenant, game and environment |
| SessionProperties.ClosingIsEarned | crates/certael-agent/src/runtime.rs:280-466 | a closing message says expiry exactly when the policy has run out, loss exactly when only the report deadline has, and revocation only for a revocation of this session |
| SessionProperties.ServeReportsAreChained | crates/certael-agent/src/runtime.rs:274-275 | in every run reports are numbered 1, 2, 3, ... and carry the digest of the one before, the first 32 zero octets |
| SessionProperties.CommonReportPinsBothRuns | crates/certael-agent/src/runtime.rs:409-439 | two runs with a report in common agree on its position and on all earlier reports, or exhibit a hash collision |
| SessionProperties.ReportsAnswerChallenges | crates/certael-agent/src/runtime.rs:336-439 | reports answer the consumed challenges one for one and in order, each with the challenge's nonce, the time, the session and build, and the executable digest and observations of the snapshot then taken |
| SessionTiming.WaitIsBounded | crates/certael-agent/src/runtime.rs:304-307 | every wait is at least a second and ends by the report deadline and the policy's expiry |
| SessionTiming.DeadlineFollowsReports | crates/certael-agent/src/runtime.rs:278-279 | the deadline is always the admission base or the last report's time plus the report and grace periods |
| SessionTiming.HealthNamesLastReport | crates/certael-agent/src/runtime.rs:276-325 | every health message names the time of the last report sent before it |
| SessionTiming.DeadlinesDoNotOverflow | crates/certael-agent-protocol/src/lib.rs:925-928 | with validated limits the periods add up to at most 3900 seconds, and neither the report deadline nor the next heartbeat overflows while the clock is below 2^62 |
| SessionTiming.HeartbeatsAreSpaced | crates/certael-agent/src/runtime.rs:315-328 | heartbeats are at least the interval apart; that none is missing is said by `SessionTiming.HeartbeatsAreRegular` |
| SessionTiming.HeartbeatsAreRegular | crates/certael-agent/src/runtime.rs:315-328 | in a silent run whose waits are exact, the heartbeats are those at the base plus every multiple of the interval, without gap, until the session ends |
| SessionTiming.SilenceEndsTheSession | crates/certael-agent/src/runtime.rs:281-334 | a silent run ends as lost or expired, as the clock says, within as many passes as seconds remain |
| SessionRefinement.DecoderAgrees | crates/certael-agent-protocol/src/lib.rs:866-880 | the loop's decoder accepts the encoding of a challenge exactly when the session object's checks would |
| SessionRefinement.WindowsAgree | crates/certael-agent-session/src/lib.rs:73-80 | the subtracting and the adding form of the time window agree on clock readings |
| SessionRefinement.AnswersAgree | crates/certael-agent-session/src/lib.rs:66-108 | on related states and a challenge that is no repetition, loop and object answer alike with the same report and stay related below exhaustion |
| SessionRefinement.WhereTheyDiffer | crates/certael-agent-session/src/lib.rs:66-108 | the object answers if and only if the loop makes a report and the challenge is no repetition; writable messages given, loop and object differ if and only if the loop makes a report and exactly one of repetition and end of the counter holds |
| SessionRefinement.ObjectErrors | crates/certael-agent-session/src/lib.rs:85-107 | each kind of error has its exact condition: refused if and only if the challenge does not fit or repeats, exhausted if and only if it is neither and the number is the largest, otherwise answered if and only if the report is valid and takes at most 64 KiB; a success advances number and digest by exactly one report, whose every field is that of the session, the challenge or the evidence |
| SessionRefinement.RunsAgree | crates/certael-agent/src/runtime.rs:336-439 | over whole runs the object creates the very reports the loop sent, if no challenge repeats the one before |
| SessionRefinement.AcceptedChallengeIsAnswered | crates/certael-agent/src/runtime.rs:409-439 | with collected names of at most 255 octets every acceptable challenge gets a report that is signed and framed |
| SessionRefinement.ChallengeIsAnsweredIff | crates/certael-agent/src/runtime.rs:409-439 | whatever was observed, an acceptable challenge gets a signed report if and only if the report takes at most 65536 octets unsigned, and that is sent if and only if it takes at most 65470, the write succeeds and the counter has a successor |
| SessionRefinement.LongNamesEndTheSession | crates/certael-agent/src/runtime.rs:353-439 | with such names, which the Windows collector can deliver, the pass that takes an acceptable challenge ends the session without a report |
| SessionStreams.ReportsAnswerStream | crates/certael-agent/src/runtime.rs:72-439 | fed through the reader thread under any schedule, the first report answers the second frame of the stream, the second report the third, and so on without gap |
| SessionStreams.MessagesFit | crates/certael-agent/src/runtime.rs:63-546 | every message that a run sends, with at most one short reason, fits into a frame |
| SessionStreams.StatesInWords | crates/certael-agent/src/runtime.rs:150-472 | the word that each health state is sent as |
| SessionStreams.MessagesInFrames | crates/certael-agent/src/runtime.rs:525-546 | the frame type and encoding of each message sent |
| SessionStreams.OutputIsRead | crates/certael-agent/src/runtime.rs:63-476 | reading the octets a run wrote, with those of a write that failed half way, the game gets its messages' frames in order, then an I/O error, and among them exactly the run's reports, one chain |
| CommandLine.Quote | crates/certael-agent/src/windows_launch.rs:251-277 | the loop over pending backslashes prints the specified quotation |
| CommandLine.WhatIsQuoted | crates/certael-agent/src/windows_launch.rs:251-258 | an argument is put in quotes exactly if it is empty or has a blank or a quote, and is printed as it is otherwise |
| CommandLine.BodyIsRead | crates/certael-agent/src/windows_launch.rs:259-276 | the platform's argument rules undo the printed body, with any number of backslashes pending |
| CommandLine.ArgumentIsRead | crates/certael-agent/src/windows_launch.rs:251-277 | every argument is read back from its quotation, whatever follows |
| CommandLine.TailIsRead | crates/certael-agent/src/windows_launch.rs:243-249 | any list of arguments is split again into exactly that list |
| CommandLine.NameIsRead | crates/certael-agent/src/windows_launch.rs:243-277 | a path without quotes is read as itself, with its trailing backslashes doubled if it was quoted |
| CommandLine.CommandLineRoundTrip | crates/certael-agent/src/windows_launch.rs:243-277 | path and arguments come back exactly if and only if none has a NUL and the path is carriable |
| Environment.CopyEntries | crates/certael-agent/src/windows_environment.rs:16-37 | the loop fails exactly on an offending entry and otherwise drops exactly the pseudo entries |
| Environment.SanitizeEnvironmentEntries | crates/certael-agent/src/windows_environment.rs:3-38 | retaining, pushing, sorting and copying gives the stable sort of the surviving entries and the handles |
| Environment.SortKeeps | crates/certael-agent/src/windows_environment.rs:14 | the sort is sorted by uppercased key, keeps all entries, and keeps the order within each key |
| Environment.StableSortIsUnique | crates/certael-agent/src/windows_environment.rs:14 | sortedness and stability determine the result |
| Environment.SanitizedIsStablySorted | crates/certael-agent/src/windows_environment.rs:8-14 | the result is sorted, and each key's entries are the surviving inherited ones in order and then the handles |
| Environment.OneEntryPerHandle | crates/certael-agent/src/windows_environment.rs:8-13 | each handle name, in any ASCII case, has exactly one entry, with the given value |
| Environment.HandlesInDigits | crates/certael-agent/src/windows_environment.rs:12-13 | the decimal digits of a handle read back as its number, without leading zeros |
| Environment.WhatBecomesOfEntries | crates/certael-agent/src/windows_environment.rs:16-37 | which inherited entry is dropped, kept or refused, by its name and value |
| Environment.SanitizedEntries | crates/certael-agent/src/windows_environment.rs:3-38 | exactly the inherited entries that are neither handles nor pseudo entries survive, none offending |
| Environment.SanitizingIsIdempotent | crates/certael-agent/src/windows_environment.rs:3-38 | sanitizing again with the same handles changes nothing |
| Environment.Utf16RoundTrip | crates/certael-agent/src/windows_launch.rs:236 | text is read back from its UTF-16 code units, which contain a zero exactly if the text does |
| Environment.EnvironmentBlockFrom | crates/certael-agent/src/windows_launch.rs:229-241 | the loop produces the block of the sanitized entries, or the sanitizer's error |
| Environment.BlockIsRead | crates/certael-agent/src/windows_launch.rs:229-241 | a block of legible entries is read back as exactly those, whatever memory follows |
| Environment.ChildReadsSanitizedEntries | crates/certael-agent/src/windows_launch.rs:229-241 | the child reads exactly the sanitized entries, drive entries included |
| Activation.NewSlotIsValid | crates/certael-agent-updater/src/lib.rs:229-233 | a slot made of safe names is valid and names exactly that version's file |
| Activation.ValidSlotStaysInVersion | crates/certael-agent-updater/src/lib.rs:530-545 | a valid slot names nothing outside its own version's directory |
| Activation.RecoverySucceedsIff | crates/certael-agent-updater/src/lib.rs:298-329 | recovery succeeds if and only if nothing is active, or the active or the previous version verifies |
| Activation.RecoveryLeavesVerifiedSlots | crates/certael-agent-updater/src/lib.rs:298-329 | recovery adds no slot, leaves only slots that verify, and keeps active and pending ones that do; slot by slot the result is said by `Activation.RecoverySlotBySlot` |
| Activation.RecoverySlotBySlot | crates/certael-agent-updater/src/lib.rs:298-329 | an active version that verifies, or none, stays, with the previous one exactly if that verifies; otherwise the old previous version is active and none is previous; the pending one stays exactly if it verifies |
| Activation.TransitionsSlotBySlot | crates/certael-agent-updater/src/lib.rs:272-368 | the same for activating, rolling back and registering: where each slot of the result comes from |
| Activation.WhatVerifies | crates/certael-agent-updater/src/lib.rs:494-504 | a slot verifies exactly if it is valid and its file is there with the recorded digest, and each error says which is not so |
| Activation.WhatNamesAreSafe | crates/certael-agent-updater/src/lib.rs:547-556 | which names are accepted as versions and files, character by character |
| Activation.WhatNamesAreReserved | crates/certael-agent-updater/src/lib.rs:558-568 | which names Windows reserves: four device names and the numbered ports, in any case and with any extension |
| Activation.WhatDigestsAre | crates/certael-agent-updater/src/lib.rs:570-572 | which texts are digests: 64 hexadecimal digits in either case |
| Activation.WhatPathsMean | crates/certael-agent-updater/src/lib.rs:530-545 | the components of a path are those before any slash and those after it, empty pieces and single dots apart |
| Activation.RecoveryIsIdempotent | crates/certael-agent-updater/src/lib.rs:298-329 | recovering a recovered state changes nothing |
| Activation.RollbackTwice | crates/certael-agent-updater/src/lib.rs:285-295 | rolling back twice restores both versions |
| Activation.RollbackUndoesActivation | crates/certael-agent-updater/src/lib.rs:272-295 | a rollback undoes an activation if and only if the version it replaced still verifies |
| Activation.RegisterThenActivate | crates/certael-agent-updater/src/lib.rs:336-368 | registering leaves the active version alone unless told to switch; switching is registering and then activating, and a rollback undoes it |
| Activation.TransitionsKeepValidity | crates/certael-agent-updater/src/lib.rs:517-545 | every transition keeps a valid state valid |
| Activation.TransitionsKeepSoundness | crates/certael-agent-updater/src/lib.rs:272-368 | every transition keeps a state sound: all slots verify, and a previous version implies an active one |
| Updater.MovingAdditionPlacesIt | crates/certael-agent-updater/src/lib.rs:253-254 | renaming the prepared directory puts the one new file in place and changes nothing else |
| Updater.CleanedUp | crates/certael-agent-updater/src/lib.rs:257-259 | whatever a failed attempt left, no file that was there has changed, and only a complete version was added |
| Updater.ActiveIsLaunched | crates/certael-agent-updater/src/lib.rs:372-381 | a sound state with an active version launches exactly that version's file, with the recorded digest |
| Updater.WhatIsLaunched | crates/certael-agent-updater/src/lib.rs:372-381 | an undisturbed launch starts the active version if it verifies, otherwise the previous one if that does, otherwise nothing, and never the pending one |
| Updater.WhatStateFilesMean | crates/certael-agent-updater/src/lib.rs:383-402 | which state each state file stands for, and which are refused |
| Updater.WhenPlacingSucceeds | crates/certael-agent-updater/src/lib.rs:235-261 | an undisturbed installation puts its version in place exactly if that very file is there or nothing is in its way and the digest is right |
| Updater.OnlyOthersChangeFiles | crates/certael-agent-updater/src/lib.rs:272-381 | during a command other than an installation the version files change exactly as others rewrite them, in order |
| Updater.CheckedIsSourced | crates/certael-agent-updater/src/lib.rs:494-504 | a verified slot had its file, with its digest, in the version files from before or in a rewriting by others, unless the updater worked in its directory |
| Updater.OwnStepStaysInside | crates/certael-agent-updater/src/lib.rs:235-261 | the operations of an installation leave every file outside its directories as it is |
| Updater.LaunchForgets | crates/certael-agent-updater/src/lib.rs:372-402 | from any state with an active version, one failed look for the state file makes a launch wipe it |
| Updater.RegistrationForgets | crates/certael-agent-updater/src/lib.rs:336-368 | from any state with an active version, registering a version without activating it replaces the active one when the look for the state file fails |
| Updater.InstallationForgets | crates/certael-agent-updater/src/lib.rs:199-269 | from any state with an active version, installing a version that is there already takes the active one away when the look for the state file fails |
| Updater.Updater.HashFile | crates/certael-agent-updater/src/lib.rs:474-492 | the digest computed buffer by buffer is that of the whole file as it was when it was opened, at a moment of the history |
| Updater.Updater.VerifySlot | crates/certael-agent-updater/src/lib.rs:494-504 | success means the slot is valid and its file was there with the recorded digest at a moment of the history in between; undisturbed, the result is exact |
| Updater.Updater.ReadState | crates/certael-agent-updater/src/lib.rs:383-402 | gives the recorded valid state, or the default one exactly if the file is missing or the existence check fails, as the next turn says |
| Updater.Updater.WriteState | crates/certael-agent-updater/src/lib.rs:404-436 | the state file becomes the new one exactly if the state is valid and three writes succeed, and stays the old one otherwise, whatever crashes or fails |
| Updater.Updater.CopyLoop | crates/certael-agent-updater/src/lib.rs:446-458 | the loop copies and hashes the same octets, and a failure leaves a prefix |
| Updater.Updater.CopyAndVerify | crates/certael-agent-updater/src/lib.rs:438-472 | success means a new file with exactly the source's octets and the expected digest |
| Updater.Updater.PlaceVersion | crates/certael-agent-updater/src/lib.rs:235-261 | a version directory appears only complete and with the right digest; existing files stay; undisturbed, the result is exact |
| Updater.Updater.InstallVerifiedTarget | crates/certael-agent-updater/src/lib.rs:199-269 | only the installed slot, whose file was there with its digest when just checked, becomes pending; version files are changed only in the version's directory and the directory for preparation; an active version is lost exactly if the state file was overlooked and replaced; undisturbed, the result is exact |
| Updater.Updater.ActivatePending | crates/certael-agent-updater/src/lib.rs:272-282 | the state file changes only to the promoted state, after the pending slot's file was there with its digest; the command changes no version file itself, so that file was there before or was given by others |
| Updater.Updater.Rollback | crates/certael-agent-updater/src/lib.rs:285-295 | the state file changes only to the reverted state, after the previous slot's file was there with its digest; the command changes no version file itself, so that file was there before or was given by others |
| Updater.Updater.Recover | crates/certael-agent-updater/src/lib.rs:298-329 | every slot left in a changed state file was listed before and its file was just there with its digest; the command changes no version file itself, so that file was there before or was given by others; the active version is lost exactly if the third operation overlooks the state file and the three writes after it succeed; undisturbed, the result is exact; under every script the version active afterwards is the old active or the old previous one |
| Updater.Updater.RegisterExistingVersion | crates/certael-agent-updater/src/lib.rs:338-368 | the state file changes only by the slot of that version, with the digest its file had at a moment in between; the command changes no version file itself, so that file was there before or was given by others; unasked, the active version changes only if the state file was overlooked and replaced, and then to that slot alone |
| Updater.Updater.ActiveTarget | crates/certael-agent-updater/src/lib.rs:372-381 | a path is returned only for a recorded active slot, whose file had the recorded digest when last checked, in the version files from before or as others rewrote them during this launch; the active version is lost exactly if the fourth operation overlooks the state file and the writes succeed; under every script the version launched was active or previous before, never only pending; undisturbed, path and state file are exact |
| Updater.Updater.Execute | crates/certael-agent-updater/src/lib.rs:199-402 | a command takes away the active version if and only if it installs, recovers or launches, overlooks the state file and replaces it; a version is active or previous afterwards only if it was before, or was pending and this command activates, or is the one this command registers; undisturbed, the files, the state file and the path found are exactly those of the specified effect of the command |
| Updater.Updater.Run | crates/certael-agent-updater/src/lib.rs:199-381 | for all commands, crashes, failures and tampering the file of every listed or launched slot was there with its digest at a moment of the run, and it was there at the start, was given by others, or is in a directory of an installation of the run; without tampering files stay and the state stays sound; an active version stays unless the state file was overlooked and replaced; a version is active, previous or launched only if it was active or previous at the start or a command activated or registered; undisturbed, the run is exactly the effects of its commands one after another |
| Updater.Updater.RunThenLaunch | crates/certael-agent-updater/src/lib.rs:272-381 | once a version is active, no crashes, failed reads and failed writes can make a later undisturbed launch fail, unless the state file was overlooked and replaced |
| Registry.Registry.Recover | crates/certael-agent/src/registry.rs:221-230 | a successful recovery leaves the last committed registration in place and no backup if and only if there was no backup or its existence check could be made; otherwise it changes nothing; each error says what could not be done |
| Registry.Registry.Stage | crates/certael-agent/src/registry.rs:179-199 | success means the prepared directory is complete |
| Registry.Registry.Replace | crates/certael-agent/src/registry.rs:200-207 | commits, or leaves the previous registration in place or complete in the backup; which of these, and which error, is told by the next three operations, and a failed commit is undone if the process can still rename |
| Registry.Registry.InstallRegistration | crates/certael-agent/src/registry.rs:162-219 | the registration is committed exactly when this succeeds or fails only in retiring the previous one; success leaves no backup, and something had been committed exactly if it was to be replaced, unless a new one was registered with the backup unseen; undisturbed, the result is exact |
| Registry.Registry.Run | crates/certael-agent/src/registry.rs:162-230 | over any attempts with crashes, failures and partial removals a missing registration has a complete backup, and the results tell what is committed; undisturbed, the results are exactly those of replacing only what is there and adding only what is not |
| Registry.Registry.RunThenRecover | crates/certael-agent/src/registry.rs:162-230 | the next undisturbed recovery puts the last committed registration in place |
| Registry.WhatIsRegistered | crates/certael-agent/src/registry.rs:179-199 | the files of a registration by name and content, and no others |
| Registry.LatestCommitCounts | crates/certael-agent/src/registry.rs:162-230 | what is registered in the end is the material of the last attempt that succeeded or failed only in retiring the previous registration |

## Left out

- TUF, HTTP and asynchronous downloads: the updater starts from a staged file and its expected digest.
- Process creation, hardening, process inspection, user interface, status files, branding images: foreign calls or presentation; what they deliver to the session is an input.
- Version ordering and the compatibility manifest: library code and single checks; version parsing and comparison are parameters.
- Registration and branding claim checks, and `load`: checks field by field; the registry model starts from verified material.
- The check of the protected files: an input of admission that says how many files mismatch.
- Reasons in health messages: a message of the session model has a state and a time only.
- Power loss: crashes happen between file operations, and what was written before stays written.
- Symbolic links, canonical paths and case-insensitive file systems: paths are sequences of components by Unix rules, and empty directories are not represented.
- The 64 KiB limit and the JSON text of the state file: an over-long state file is one of the ways in which a write can fail or a file be unreadable.
- Two updater processes at the same time: commands run one after another.
- A file whose octets are overwritten in place while it is open: others replace version files, and an open file keeps its octets.
- Tampering with the state file or with the registry: outsiders rewrite version files only.
- Registrations of other games: one registration at a time, under names that cannot collide.
- Null arguments, panics and the platform checks of the probe's C interface.
- Wire: field numbers have no gaps, as in all modelled messages.
- SessionTiming.SilenceEndsTheSession: is about a clock that is not set back, as the source promises nothing otherwise.
- Runtime.Serve: ends when its inputs end; a run that is still going on is a prefix of a longer one.
- The golden launch grant vector: the policy vector pins the same rules.
