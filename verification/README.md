# Verified model of the RP5 measured-boot and A/B update stack

This project models, in Dafny, the parts of the repository whose correctness
rests on several programs acting together, and proves properties of them for
all inputs, all runs and all power losses.

| file | what it models |
|---|---|
| `OtaBoard.dfy`, `OtaStaging.dfy` | the board's storage, `sha256_file`, `dd`, and the verbs of the two OTA services, as a class that updates the storage in place |
| `Autoboot.dfy` | reading and writing `autoboot.txt` |
| `Protocol.dfy` | the A/B protocol as a state machine: every write, reboot, power loss and boot |
| `BoardRuns.dfy` | the verbs of `OtaBoard` are runs of that state machine |
| `Update.dfy`, `UpdateRuns.dfy` | the server's `update()` interleaved with the board, and the board's code as its other side |
| `Attestation.dfy`, `MalformedBlobs.dfy`, `Bitmaps.dfy` | the parsers of quotes and NV certificates, and the PCR bitmap |
| `Verdict.dfy` | one attestation round, the verdict, the reset count carried between rounds |
| `PcrPrediction.dfy`, `Hashing.dfy` | predicted PCR values, command-line substitution, extend chains |
| `BootSlots.dfy` | pairs, devices and root slots across the programs |
| `Provisioning.dfy` | TPM commands of provisioning, the counter over every run, NV Names |
| `DevicetreeFormat.dfy` | the flattened devicetree format (Devicetree Specification v0.4, chapter 5) with a parser written from the standard |
| `DevicetreeTokens.dfy` | where the tokens of a structure block stand, and how they nest |
| `DevicetreeTree.dfy`, `DevicetreeEdits.dfy`, `DevicetreeWriter.dfy` | the path-indexed tree of `fs2dtb.py`, its edits, and the writer |
| `ByteStrings.dfy` | bytes and big-endian integers |

`dafny verify dfyconfig.toml` checks everything.

## How to read the results

**Hash.** SHA-256 is a parameter `h`, any function from byte strings to 32
bytes. Every such function has collisions, so "equal, or some collision exists"
would be an empty statement. The lemmas therefore name the colliding inputs: a
`Finding` is computed from the two things compared (`CollisionOf`,
`ChainFinding`, `EventsFinding`, `PassFinding`, ...), and the lemma says
"equal, or this very finding is `Genuine`". Where lists of different length
are compared a finding can also be a preimage of 32 zero bytes.

**The environment of a board.** Firmware, U-Boot and the TPM are steps with
the contract of docs/ota-update-design.md and docs/anti-rollback-design.md: the
tryboot bit is consumed by one boot; a pair boots only if it is signed, its
root matches and its version is at least the counter; the counter rises only
on plain boots; a failed trial may leave the committed pair running with the
tryboot flag set. A power loss may happen between any two steps, inside a plain
boot that is advancing the counter, and between the rename of `autoboot.txt` and the
sync, where either file may survive. The privileged helper runs one verb at a
time. The running pair does not rot while it runs, and the firmware reports
the tryboot flag truthfully.

**The TPM in provisioning.** A command succeeds when its authorisation value and
the state allow it: an index is defined only where none is, and a key is not
made persistent at an occupied handle (TPM2_EvictControl in TPM 2.0 Part 3). A
new counter starts at least at the highest value any counter has held, which a
clear does not reset; how far above is a parameter.

**The server.** `Update.World` starts from any safe board. A reply counts at the
moment the board produced it; lost replies, refusals and time-outs end the
update. Only the update starts verbs on the board while it runs. Whether a
round's measurements match is left open: the main result needs only the reset
counts that the rounds compare.

**Where code and documentation disagree, the code is modelled.** The pairs
are 1 = p1 + p3 and 2 = p2 + p4 (agents/rp5agent/__init__.py:16-18), not the older
table in docs/ota-update-design.md. The header of attestation/attest-server.py (line 36) says that a
malformed blob never crashes the verifier; the readers `_u8`, `_u16` and `_u32`
raise exceptions that nobody catches, so a parser has a third outcome,
`Crashed`. `MalformedBlobs` gives a six-byte blob that does it and the
exact condition; such a round ends without a verdict and so is never accepted.

**Independent partners.** Where a format has two sides, they do not share
constants: the devicetree parser reads the numbers of the standard, the TPM encodings
in `Attestation` write them, and `written_name` packs the public area by itself. What an operation
accepts or computes is also stated without its own predicates: literal file
names and texts, byte orders, and pointwise effects.

**Findings.** Some expected statements are false of the code; each has a
counterexample and the exact condition.

- `update()` can return 0 although the board never restarted after the commit, if
  writing the baseline file failed silently at the health check
  (`Update.RefusedWriteSkipsRestart`). With any other outcome of that write it cannot
  (`Update.UpdateReturningZero`).
- A tree edited with `--set` on a missing node does not come back from its blob: it does
  exactly when the tree is linked (`DevicetreeWriter.WholeTreeComesBack`), and edits keep it linked
  exactly when every `--set` names a node that the deletions left (`DevicetreeEdits.EditKeepsLinked`).
- A malformed blob can crash the verifier (`MalformedBlobs.QuoteCrashExact`,
  `MalformedBlobs.NvCrashExact`).
- A first provisioning that stopped cannot always be repeated. It can exactly when it stopped
  before the attestation key was stored or after the owner value was set
  (`Provisioning.StoppedAttempt`, with the input in `StrandingInput`); in between, every repetition
  fails and changes nothing (`StrandedStaysStranded`), until the TPM is cleared, the key is removed or the
  owner value is set by other means (`WaysOut`).
- A successful provisioning does not always leave all three hierarchies closed: one that
  repeats an attempt that stopped between its last three calls takes the path for closed TPMs and
  leaves a hierarchy open (`Provisioning.SuccessClosesAll`, `RepeatedSuccessClosesAll`).

## Model

| member | source | states |
|---|---|---|
| Protocol.AlwaysSafe | agents/rp5-ota-priv:97-158 | over every run with power loss between any two steps: autoboot.txt is a valid A/B file, its committed pair is signed, root-matching and not below the counter, the running pair is intact, and a plain session runs the committed pair at exactly the counter's version |
| Protocol.InitialIsSafe | docs/ota-update-design.md:175-182 | from a switched-off board with a valid file and a bootable committed pair, after every run the file names a committed pair that is signed, root-matching and not below the counter |
| Protocol.StepKeepsSafe | agents/rp5-ota-priv:97-158 | every single step keeps that invariant |
| Protocol.NextPlainBootSucceeds | docs/ota-update-design.md:186-195 | from every safe state, mid-install and mid-commit included, cutting the power and switching on ends in a plain session of the committed pair; of the same pair if no commit was under way |
| Protocol.FallbackIsHarmless | agents/rp5-ota-priv:142-158 | a failed trial that leaves tryboot set on the committed pair leaves storage and counter alone, and commit, install and tryboot are all refused there |
| Protocol.AnythingCanFail | docs/ota-update-design.md:186-195 | what the environment may do at any moment: power loss with an unsynced rename kept or lost, a dropped tryboot bit, a plain boot stopped anywhere on the counter's way up, a failed trial, any contents written to the other pair |
| Protocol.CounterOverRun | docs/anti-rollback-design.md:107-121 | the counter never falls over a run, and is unchanged if the run has no plain boot, however many trials it has |
| Protocol.PlainSessionIsAtCounter | docs/anti-rollback-design.md:107-121 | in every plain session ever reached the counter equals the version of the running image and the file names the running pair as committed |
| Protocol.NoRollback | docs/ota-update-design.md:203-206 | once the counter exceeds an image's version, no pair that holds the image is bootable or running in any later state |
| Protocol.RunningPairUntouched | agents/rp5-ota-priv:103-109 | nothing that happens until the next boot changes the image, signature or root slot of the pair that runs |
| BoardRuns.InstallIsRun | agents/rp5-ota-priv:97-139 | any sequence of storage states that differ from the start only in the target pair is a run of the protocol |
| BoardRuns.MomentIsReached | agents/rp5-ota-priv:117-138 | each state in the middle of an install is reached by such a run |
| BoardRuns.CommitIsRun | agents/rp5-ota-priv:150-158 | the draft, the rename and the sync of a commit are a run of the protocol, and the state with the complete draft is one on the way |
| BoardRuns.Install | agents/rp5-ota-priv:97-139 | the class method refines the protocol: it ends in the state of a run, every storage state in its history is one of a run that is safe, and it succeeds exactly on a plain session of the committed pair with a version not below the counter, the root image's digest right, and the readback agreeing |
| BoardRuns.Commit | agents/rp5-ota-priv:150-158 | likewise; it succeeds exactly on a trial of the pair the file names as target, and the file then names that pair as committed |
| BoardRuns.TryBoot | agents/rp5-ota-priv:142-147 | likewise; it succeeds exactly outside a trial and names the other pair |
| Update.UpdateReturningZero | agents/server/rp5.py:124-183 | end to end: update() returning 0 with a baseline write that was not silently refused means that the session that passed the health check is the one that committed, its pair is the one the first status named, the board restarted since, it runs that pair as a plain boot with the three digests of the manifest, and the counter equals that image's version |
| Update.RefusedWriteSkipsRestart | attestation/attest-server.py:407-413 | without that condition it fails: from every updatable start there is a run to 0 with a refused write in which the board still runs the trial session that committed and the counter has not moved |
| Update.UpdateCanSucceed | agents/server/rp5.py:124-183 | from every idle plain session with a fitting release and a baseline, a run to 0 exists |
| Update.OldPairStaysCommitted | docs/ota-update-design.md:183-200 | from install's reply until the commit is sent, the file names the old pair as committed; until the commit is answered, the old or the new one; the pair it names boots |
| Update.BoardAlwaysRecovers | docs/ota-update-design.md:193-195 | wherever an update stops, the next plain boot succeeds |
| UpdateRuns.Install | agents/rp5-ota:46-85 | when the board's install code succeeds, the run it went through takes a waiting update() to its next phase: the guard that the target holds the manifest's contents is a consequence of the code |
| UpdateRuns.TryBoot | agents/rp5-ota-priv:142-147 | the same for tryboot |
| UpdateRuns.Commit | agents/rp5-ota-priv:150-158 | the same for commit: the file names the running pair when the server reads the reply |
| Update.MoveKeepsInv | agents/server/rp5.py:124-183 | every step of server or board keeps the end-to-end invariant (one trial, stage of the file, reset count of the health check) |
| OtaBoard.Sha256File | agents/rp5agent/__init__.py:98-108 | the chunked loop hashes exactly the first min(limit, length) bytes, for every chunk size |
| OtaBoard.Dd | agents/rp5-ota-priv:63-73 | the chunked in-place copy leaves the source's copied part followed by the old tail, for every size and chunk size, and fails exactly when the device is too small |
| OtaBoard.DdEndExact | agents/rp5-ota-priv:63-73 | how far it copies: to the first multiple of the chunk size that reaches size, or to the end of the source |
| OtaBoard.DdEndBounds | agents/rp5-ota-priv:63-73 | dd copies at least min(size, length) bytes and less than one chunk more than size; all of the source when size is its length |
| OtaBoard.Board.CheckInstall | agents/rp5-ota-priv:101-116 | the privileged checks pass exactly on a plain session whose file names it as committed, with a version not below the counter and a root image with the manifest's digest; and which failures are internal errors rather than refusals |
| OtaBoard.Board.Install | agents/rp5-ota-priv:97-139 | succeeds exactly when the checks pass and everything read back has the manifest's digest; then the target is the installed pair; on every outcome and in every state on the way only the target pair has changed, even when it shares a partition with autoboot.txt |
| OtaBoard.Board.Commit | agents/rp5-ota-priv:150-158 | succeeds exactly on a trial of the named target; the storage passes through exactly two states, old file with a complete draft and new file; otherwise nothing is written |
| OtaBoard.Board.TryBoot | agents/rp5-ota-priv:142-147 | refused exactly on a trial; the reboot is scheduled before the file is read, so it happens even when the reply is an error |
| OtaStaging.Unpack | agents/rp5-ota:53-66 | the staging directory holds, for each expected base name, the last member with it, and nothing from an earlier attempt |
| OtaStaging.BasenameOfPath | agents/rp5-ota:58 | members are matched by what follows the last slash of their path |
| OtaStaging.LastMemberIsLast | agents/rp5-ota:56-66 | what counts for a name is the last regular file with it, for the four expected names only |
| OtaStaging.GoodReleasesAccepted | agents/rp5-ota:67-82 | both halves together accept exactly releases with a readable manifest, three right digests, no factory flag and a version not below the counter, on a plain session of the committed pair |
| OtaStaging.Install | agents/rp5-ota:46-85 | a request succeeds exactly when both halves accept the staged files and the readback agrees; on media that keep what is written, exactly for a good release whose root image fits, on a plain session of the committed pair; otherwise the running pair and autoboot.txt are untouched |
| OtaStaging.SuccessMeansStaged | agents/rp5-ota-priv:117-138 | after success the target pair matches the manifest and holds exactly the staged files, or a named pair of different files has one digest |
| OtaStaging.GoodMediaAlwaysVerify | agents/rp5-ota-priv:117-138 | on a medium that keeps what is written, accepted files are installed exactly when the root image fits its slot |
| Autoboot.ReadAutoboot | agents/rp5-ota-priv:32-47 | the section-tracking loop with its dictionary returns what the fold over the lines returns |
| Autoboot.ReadTextExact | agents/rp5-ota-priv:38-46 | when all tracked values are numbers, the reader returns (c, t) exactly when the last assignment under [all] is c, the last under [tryboot] is t, and {c, t} = {1, 2} |
| Autoboot.WrittenTextReadsBack | agents/rp5-ota-priv:50-60 | the text written for a committed pair reads back as that pair and its other |
| Autoboot.AutobootTexts | agents/rp5agent/__init__.py:19 | the two texts, byte for byte |
| Autoboot.LineBeforeBreak | agents/rp5-ota-priv:39 | splitlines: the first boundary ends the first line |
| Autoboot.LineKinds | agents/rp5-ota-priv:41-43 | a header is a name in brackets, an assignment the key boot_partition= with its text |
| Autoboot.StripsBlanks | agents/rp5-ota-priv:40 | strip() removes the white space at both ends and nothing else |
| Autoboot.DigitsExact | agents/rp5-ota-priv:44 | which texts int() takes as digits |
| Autoboot.ParseIntOfDecimal | agents/rp5-ota-priv:44 | int() of a decimal numeral with optional sign and white space is that number |
| DevicetreeWriter.Build | provisioning/dtb-canonical-digest-test/fs2dtb.py:49-75 | the in-place writer produces the specified blob for every closed tree, and fails exactly when it would not fit 32-bit offsets |
| DevicetreeWriter.DtbWriter.Sid | provisioning/dtb-canonical-digest-test/fs2dtb.py:51-55 | the offset handed out is that of the name in the table, which only grows at its end |
| DevicetreeWriter.DtbWriter.Emit | provisioning/dtb-canonical-digest-test/fs2dtb.py:58-67 | the recursive emitter appends exactly the node's bytes, with offsets that are right in the table as it ends up |
| DevicetreeWriter.BuiltBlobParses | provisioning/dtb-canonical-digest-test/fs2dtb.py:49-75 | a parser written from the standard returns, for the blob of any closed tree below 2^32 bytes, exactly the part of the tree reachable from the root |
| DevicetreeWriter.WholeTreeComesBack | provisioning/dtb-canonical-digest-test/fs2dtb.py:49-75 | the whole tree comes back exactly when every node but the root is listed by its parent |
| DevicetreeWriter.BuildIsInjective | provisioning/dtb-canonical-digest-test/fs2dtb.py:49-75 | equal blobs have equal reachable trees |
| DevicetreeFormat.BlobParses | provisioning/dtb-canonical-digest-test/fs2dtb.py:68-75 | the reference parser inverts the format for every node tree with NUL-free names |
| DevicetreeFormat.HeaderTiles | provisioning/dtb-canonical-digest-test/fs2dtb.py:70-75 | header, reservation, structure and strings blocks tile the blob without gap or overlap and the total is its length |
| DevicetreeFormat.NameAtOffset | provisioning/dtb-canonical-digest-test/fs2dtb.py:51-55 | at the offset of a name, the strings block holds that name and its NUL |
| DevicetreeFormat.OffsetOfPrefix | provisioning/dtb-canonical-digest-test/fs2dtb.py:51-55 | an offset stays right however the table grows |
| DevicetreeFormat.TableHasEachNameOnce | provisioning/dtb-canonical-digest-test/fs2dtb.py:51-55 | the final table holds each property name of the tree exactly once |
| DevicetreeFormat.NodeAligned | provisioning/dtb-canonical-digest-test/fs2dtb.py:56-67 | the length of every node's bytes is a multiple of four |
| DevicetreeTokens.BlobTokensAligned | provisioning/dtb-canonical-digest-test/fs2dtb.py:56-69 | every BEGIN, PROP, END_NODE and END token of a blob stands at an offset divisible by four |
| DevicetreeTokens.BlobTokensBalanced | provisioning/dtb-canonical-digest-test/fs2dtb.py:58-69 | no prefix of the tokens closes more nodes than it opened, and in the end none is open |
| DevicetreeTree.EmittedIndexesBack | provisioning/dtb-canonical-digest-test/fs2dtb.py:58-67 | indexing the emitted nodes by path gives the tree restricted to its reachable part |
| DevicetreeTree.ChildIsDeeper | provisioning/dtb-canonical-digest-test/fs2dtb.py:65-66 | the descent terminates: a child has strictly fewer nodes with longer paths |
| DevicetreeTree.SortedIsAscending | provisioning/dtb-canonical-digest-test/fs2dtb.py:62-66 | sorted() of a set is ascending without repeats |
| DevicetreeTree.LeqIsByteOrder | provisioning/dtb-canonical-digest-test/fs2dtb.py:62-66 | the order is that of the bytes: a prefix comes first, otherwise the smaller byte at the first difference |
| DevicetreeWriter.PropsInOrder | provisioning/dtb-canonical-digest-test/fs2dtb.py:62 | properties are written in ascending order of their names |
| DevicetreeWriter.KidsInOrder | provisioning/dtb-canonical-digest-test/fs2dtb.py:65 | children are written in ascending order of their paths |
| DevicetreeTree.AllReachableIffLinked | provisioning/dtb-canonical-digest-test/fs2dtb.py:17-32 | no node is lost exactly when the tree is linked, as a loaded directory is |
| DevicetreeTree.UnderIsReachable | provisioning/dtb-canonical-digest-test/fs2dtb.py:37 | in a linked tree the prefix test of the deletion loop selects exactly the descendants |
| DevicetreeEdits.EditableTree.ApplyEdits | provisioning/dtb-canonical-digest-test/fs2dtb.py:34-47 | the loops over a tree that is changed in place compute the specified edits, errors included; on success every property set holds the value of its last setting |
| DevicetreeEdits.SetPropSets | provisioning/dtb-canonical-digest-test/fs2dtb.py:44-47 | one setting gives one property its value, creates its node if need be, fails exactly on bad hex, and changes no other property or child list |
| DevicetreeEdits.SetAllSets | provisioning/dtb-canonical-digest-test/fs2dtb.py:44-47 | the same for a list of settings, where the last one of a property counts |
| DevicetreeEdits.DeletePropRemoves | provisioning/dtb-canonical-digest-test/fs2dtb.py:41-43 | a deletion that names no node removes one property and nothing else, or fails without a change when its node is missing |
| DevicetreeEdits.EditSets | provisioning/dtb-canonical-digest-test/fs2dtb.py:34-47 | after successful edits each property holds its last setting, or what the deletions left |
| DevicetreeTree.JoinSplits | provisioning/dtb-canonical-digest-test/fs2dtb.py:45 | dirname and basename of a joined path are its two parts |
| DevicetreeEdits.EditKeepsClosed | provisioning/dtb-canonical-digest-test/fs2dtb.py:34-47 | edits that succeed keep the tree closed |
| DevicetreeEdits.DeleteRemovesSubtree | provisioning/dtb-canonical-digest-test/fs2dtb.py:36-40 | deleting a node of a linked tree succeeds exactly when it is not the root, removes exactly it and its descendants, changes nothing else, and keeps the tree closed and linked |
| DevicetreeEdits.SetOnMissingNodeIsUnreachable | provisioning/dtb-canonical-digest-test/fs2dtb.py:44-47 | a node created by --set is never emitted |
| DevicetreeEdits.SetKeepsLinked | provisioning/dtb-canonical-digest-test/fs2dtb.py:44-47 | one --set leaves a linked tree exactly when the tree was linked and the node existed |
| DevicetreeEdits.EditKeepsLinked | provisioning/dtb-canonical-digest-test/fs2dtb.py:34-47 | lists of deletions and settings that succeed keep a linked tree linked exactly when every setting is of a node the deletions left |
| DevicetreeWriter.EditedTreeComesBack | provisioning/dtb-canonical-digest-test/fs2dtb.py:85-86 | so the whole edited tree comes back from its blob exactly then |
| Bitmaps.WantedMaskSelects | attestation/attest-server.py:250-252 | the loop-built bitmap selects exactly the PCRs of the set, for every set |
| Bitmaps.BuildWanted | attestation/attest-server.py:250-252 | the loop that sets bits in a byte buffer computes that bitmap |
| Bitmaps.StrippedEqualIffSameBits | attestation/attest-server.py:253 | after stripping trailing zero bytes, two bitmaps of any lengths are equal exactly when they select the same PCRs |
| Bitmaps.SetBitAddsWeight | attestation/attest-server.py:252 | setting bit k adds 2^k |
| Verdict.WantedBytes | attestation/attest-server.py:250-252 | the bitmap of the verifier's PCR set is 03 03 |
| Attestation.PcrDigestExact | attestation/attest-server.py:231-258 | pcr_digest returns values exactly when the input is the TPM encoding of a quote over the wanted PCRs with those values, followed by any bytes |
| Attestation.NvContentsExact | attestation/attest-server.py:213-228 | nv_contents returns values exactly when the input is the TPM encoding of a certificate of the enrolled index with those values, followed by any bytes |
| Attestation.QuoteParses | attestation/attest-server.py:184-258 | encode then parse is the identity on quotes |
| Attestation.QuoteSelects | attestation/attest-server.py:238-255 | an accepted blob, read as a quote in any way, selects exactly the wanted PCRs |
| Attestation.NvParses | attestation/attest-server.py:184-228 | encode then parse is the identity on NV certificates |
| Attestation.CheckQuote | attestation/attest-server.py:231-258 | the method with the bitmap loop agrees with the specification on every outcome |
| Attestation.NoTypeConfusion | attestation/attest-server.py:29-34 | no blob is accepted both as a quote and as a certificate |
| MalformedBlobs.QuoteCrashExact | attestation/attest-server.py:171-258 | pcr_digest raises an uncaught exception exactly on blobs with a right beginning that stop inside a field read without a bounds check |
| MalformedBlobs.NvCrashExact | attestation/attest-server.py:171-228 | the same for nv_contents |
| MalformedBlobs.MalformedBlobCrashes | attestation/attest-server.py:171-198 | a concrete six-byte blob on which the claim that a malformed blob never crashes fails |
| MalformedBlobs.CrashIsNeverAccepted | attestation/attest-server.py:323-331 | a round ends without a verdict exactly on such evidence, or when no Name is enrolled |
| Verdict.Verifier.Attest | attestation/attest-server.py:318-413 | the round, with its slot loop and its state file, yields the specified verdict and records the specified reset count, whether the write succeeds, is refused or damages the file |
| Verdict.PassExact | attestation/attest-server.py:335-403 | a round passes exactly when quote and certificate are genuine encodings with the nonce, the selection, a golden slot, the enrolled Name, the matching boot record and, if required, a higher reset count |
| Verdict.QuoteIsCounted | attestation/attest-server.py:398-413 | the reset count of any genuine quote over the wanted PCRs is reported and recorded, however signatures, nonce, PCRs, certificate and restart turn out |
| Verdict.NoQuoteNoRecord | attestation/attest-server.py:407 | a blob that is no such quote fails the round and leaves the record alone |
| Verdict.GenuineBoardPasses | attestation/attest-server.py:335-403 | a genuine board that measured the release from either slot passes, with goldens_for its prefix and manifest, and the verifier names that slot, or B if both match |
| Verdict.GoldensWithoutPrediction | agents/server/rp5.py:103-105 | without a prefix or a command line the manifest's own PCR1 pair is used, slot by slot |
| Verdict.RawSignature | attestation/attest-server.py:335 | the quote's signature is the last 256 bytes of its structure |
| Verdict.GoldensForIsHostPredicted | agents/server/rp5.py:100-105 | with an enrolled prefix and a command line in the manifest, goldens_for yields host-predicted goldens |
| Verdict.PassPinsBoot | attestation/attest-server.py:345-376 | a pass with host-predicted goldens and a quote that the TPM made over PCRs that arose by extends means that the predicted version string, devicetree digest and command line of the named slot were measured, or the named finding is genuine |
| Verdict.PassPinsBootRecord | attestation/attest-server.py:355-376 | if the certified index arose by extends, it was extended once, with the quoted digest, or the named finding is genuine |
| Verdict.AtMostOneSlot | attestation/attest-server.py:345-354 | with distinct PCR1 goldens a digest that matches both slots exhibits a collision |
| Verdict.PassExceedsRecorded | attestation/attest-server.py:387-413 | over any rounds and any outcomes of the state writes: passing with a required restart means the reset count exceeds the last one recorded, even if that round failed; if every earlier write succeeded, the last one observed |
| Verdict.PassExceedsAllEarlier | attestation/attest-server.py:277-284 | with a TPM whose count never falls and all state writes succeeding, it exceeds every earlier observed one |
| PcrPrediction.PredictionsAreFolds | agents/server/rp5.py:66-97 | predict_pcr0 and predict_pcr1 equal the general fold of extend over their event lists, which are given literally |
| PcrPrediction.PredictionPinsBoot | agents/server/rp5.py:66-97 | event lists of any length that give the predicted PCRs are the predicted lists, or the named finding is genuine |
| Hashing.PcrInjective | agents/server/rp5.py:66-97 | the fold is injective on arbitrary event lists, up to a named collision or zero preimage |
| Hashing.PcrSteps | agents/server/rp5.py:72-74 | the fold starts at 32 zero bytes, and each event extends it by the hash of the old value and the event's digest |
| PcrPrediction.SlotLinesDiffer | agents/server/rp5.py:94-96 | the two command lines differ exactly when the template contains the placeholder |
| PcrPrediction.SlotGoldensDiffer | agents/server/rp5.py:88-97 | so do the two PCR1 goldens, up to a named finding |
| PcrPrediction.ReplacementsDiffer | agents/server/rp5.py:95 | left-to-right replacement by two different texts of one length gives equal results exactly when there is nothing to replace |
| PcrPrediction.ReplaceByFind | agents/server/rp5.py:95 | for every text: replacement starts at the first occurrence and goes on behind it |
| PcrPrediction.EveryPlaceholderReplaced | agents/server/rp5.py:95 | pieces without the letter @, joined by the placeholder, become the pieces joined by the device: every placeholder is replaced |
| BootSlots.Pairing | agents/rp5agent/__init__.py:16-17 | pair 1 is the devices p1 and p3, pair 2 p2 and p4 |
| BootSlots.PredictedRootIsWritten | agents/server/rp5.py:94-95 | the device named in a slot's predicted command line is the one that holds that pair's root |
| PcrPrediction.CutAtWord | agents/server/rp5.py:221-222 | cutting at the first occurrence of the word recovers every prefix without it, although the word could overlap the seam |
| PcrPrediction.EnrollThenPredict | agents/server/rp5.py:213-223 | enrolling from the boot arguments of either slot and predicting for either slot gives the PCR1 that the board measures |
| Provisioning.CounterNeverReadsLower | agents/rp5-provision-priv:131-170 | over any run of TPM commands, provisioning attempts that stop anywhere, boots and clears included, no reading is below an earlier one |
| Provisioning.ProvisionedAboveAll | results-provisioning-2026-09-29/README.md:15-16 | the reading after a provisioning is at least every earlier one |
| Provisioning.Board.ProvisionFwkey | agents/rp5-provision-priv:131-170 | stopping at whichever call fails, the TPM is the one the specified sequence of calls leaves; it succeeds exactly when the request is acceptable and enough calls work, with the specified TPM on either path, both indices with their numbers, attributes, sizes and policies, and the written Names in the reply |
| Provisioning.Board.ReadCounter | agents/rp5agent/__init__.py:50-52 | a reading exactly when the index exists and was incremented |
| Provisioning.AttemptExact | agents/rp5-provision-priv:131-170 | the sequence of calls goes through exactly when the request is acceptable and enough calls work, and its result is then the specified TPM |
| Provisioning.OpenAttempt | agents/rp5-provision-priv:145-159 | for every number of working calls, whether a first provisioning has stored the key and which authorisation values it has set |
| Provisioning.StoppedAttempt | agents/rp5-provision-priv:145-159 | a stopped first provisioning can be repeated, whatever boots and redefinitions follow, exactly when it stopped before the key was stored or after the owner value was set; both are given as numbers of calls |
| Provisioning.StrandingInput | agents/rp5-provision-priv:145-149 | a concrete cleared TPM and a stop after the third call, from which no request succeeds |
| Provisioning.StrandedStaysStranded | agents/rp5-provision-priv:145-149 | any attempt on a TPM with the key stored and the owner value unset fails and changes nothing |
| Provisioning.WaysOut | agents/rp5-provision-priv:145-159 | a single command makes such a TPM provisionable again exactly if it clears it, removes the key or sets the owner value |
| Provisioning.SuccessClosesAll | agents/rp5-provision-priv:131-159 | a success leaves all three hierarchies closed exactly on the first-time path or when the other two were closed before |
| Provisioning.RepeatedSuccessClosesAll | agents/rp5-provision-priv:156-159 | a repetition that succeeds leaves all closed exactly when the first attempt stopped before storing the key or completed |
| Provisioning.WrittenNameHolds | agents/rp5-provision-priv:90-98 | the computed Name is the index's Name in every later written state, across restarts that unset the written attribute |
| Provisioning.AttributeWords | agents/rp5-provision-priv:80-81 | the attribute words of the two indices, and that only the measured-boot index is cleared by a restart |
| Provisioning.RestartAfterProvisioning | agents/rp5-provision-priv:150-170 | after a restart the measured-boot index of a provisioned board is unwritten until it is extended, and the counter still reads what it read |
| Provisioning.MarshalParts | agents/rp5-provision-priv:97 | the public area field by field, at its offsets |
| Provisioning.NamePinsPublicArea | agents/rp5-provision-priv:97-98 | equal Names mean equal index number, attributes, policy and size, or the two public areas collide |
| Provisioning.PassPinsIndex | attestation/attest-server.py:213-228 | a passed round whose certificate comes from a TPM index means that index has the provisioned public area, written, or a named collision |

## Left out

- Signature checks, the JSON reader, and what firmware and kernel think of an image or a root slot: parameters (`signed`, `manifest`, `rootMatches`, `version`).
- `update` as one sequential method: the server's part is modelled as a state machine, because the board acts between any two of its statements; the polling loop and sleeps of `wait_up` are part of "a status was seen" or "the update gave up".
- The measurements of the two rounds inside `update`: they may match or not; `Verdict` proves separately what a pass says about them.
- Concurrent privileged verbs and a second client during an update: one verb at a time, one client.
- `Update.UpdateReturningZero`: the version in the manifest is not compared with the version compiled into the image, because no code does; the result speaks of the image's.
- `Protocol.NextPlainBootSucceeds`: physical damage to the committed pair and firmware that misreports the tryboot flag are assumed away.
- TPM clears inside `Protocol` and `Update`: a clear also resets resetCount; clears are covered by `Provisioning`.
- SSH, subprocesses, tar framing, base64, mounting, printing, and the loading of the tree by `os.walk`: plumbing.
- Hexadecimal text: digests and authorisation values are bytes; an authorisation value of 32 zero bytes, which a TPM would take as empty, is not singled out.
- `Autoboot.ReadTextExact`: decimal digits outside ASCII, which Python's `int` also accepts, and a carriage return followed by a line feed, which here makes one more (empty) line, are not modelled.
- Names that cannot be encoded as UTF-8 and the `name` pseudo-property: paths are bytes.
- `provision`, `provision_fwhmac`, `verify`, `prepare`, `status` and the release tools: variants or input and output only.
- The TPM sessions, the firmware key and its policies inside `provision_fwkey`: calls that leave the modelled state alone; each group counts as one call that may fail.
- The canonical devicetree digest of the boot loader: `extract.c` is not part of this model.
