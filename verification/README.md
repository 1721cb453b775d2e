# librustzcash core logic in Dafny

This project models five pieces of the Zcash Rust libraries (librustzcash) and proves properties about them:

- **Compact-block scanner** (`welding_rig.rs`, modules `WeldingRig` and `ScanProperties`).
  - `scan_output` and `scan_block` match a block's spends against the wallet's nullifier table.
  - They trial-decrypt its outputs under the wallet's incoming viewing keys.
  - They keep the note commitment tree and every incremental witness in step with the chain.
  - The tree is modelled as its ordered leaf sequence. A witness is the tree it was created from, plus the leaves it has received since.
- **PCZT editing** (modules `Pczt` and `PcztSigning`). PCZT is the partially-created-transaction document.
  - `add_sapling_output` appends an output and carries the binding accumulator (`bsk`, `bvk`) from one addition to the next.
  - `seed_fingerprint` and `sign_pczt` write spend-authorization signatures into the spend slots an HD seed controls.
- **ZIP 304 message signatures** (module `Zip304`): the 320-byte signature encoding, the BLAKE2b personalisation and digest, `sign_message`, and the control flow of `verify_message`.
- **Transparent Zcash Extensions (TZE)**:
  - `Tze`: the generic `Predicate` and `Witness` records, their wire form, `from`, and `Extension::verify`.
  - `TzeDemo`: the demo extension's `(mode, payload)` codec.
  - `TzeDemoProgram`: the demo consensus rule, a two-step hash lock.
  - `TzeConsensus`: the epoch dispatcher.
- **ACL2 exporter bookkeeping** (module `Acl2`): `compute_path`, `acl2ize`, and the `Acl2Cs` constraint system's allocation, constraint, namespace and `VARS` bookkeeping.

All cryptography is passed in as function-typed parameters over generic carrier types. This covers Jubjub and BLS12-381 arithmetic, BLAKE2b, note decryption, Groth16, RedJubjub and ZIP 32 derivation. The properties that the lemmas need from these functions are stated as ghost predicates, for example "a codec decodes what it encodes" or "a RedJubjub signature verifies". They appear only in lemma preconditions. Randomness (`OsRng`) is a parameter.

Two points where the code departs from what its neighbours suggest; the model follows the code:

- **Witnesses from earlier in a block.** `scan_output` advances the witnesses created earlier in the same transaction (`welding_rig.rs:146-153`). `scan_block` creates the list of new witnesses afresh for every transaction (`welding_rig.rs:145`), so witnesses returned for an earlier transaction of the block are not advanced. See Findings.
- **Dispatcher call form.** The dispatcher (`zcash_primitives/src/consensus/extensions/transparent.rs:22-24`) calls the demo program in a `Program { ctx }` form that does not match the demo rule's three-argument `verify`. `TzeConsensus.EpochV1Verify` therefore takes the demo rule as a parameter and models only how its result is mapped.
  - The dispatcher's error type `ExtErr` (variants `InvalidEpoch` and `Program`) is not defined in the files modelled here. It is modelled by the two variants the dispatcher uses.

## Model

| member | source | states |
|---|---|---|
| Common.ReadPrefix | pczt/src/lib.rs:37-46 | Reading a fixed-width encoding from a byte slice behaves like `read_le` / `Point::read`. Input shorter than the width is an I/O error, a prefix that does not decode is invalid, and extra bytes are ignored. |
| Common.ReadPrefixOfEncoding | pczt/src/lib.rs:37-46 | An encoded value followed by any bytes reads back as that value. |
| WeldingRig.TrialDecrypt | zcash_client_backend/src/welding_rig.rs:64-68 | Viewing keys are tried in account order, and the result is the first account whose decryption succeeds. No account before it decrypts, and nothing is found exactly when no key decrypts. |
| WeldingRig.ScanOutput | zcash_client_backend/src/welding_rig.rs:27-92 | An output whose `cmu` or `epk` does not parse changes nothing and yields nothing. A well-formed output's commitment is appended once to the tree, to every existing witness and to every earlier witness of the transaction, whether or not it decrypts. A wallet output is found exactly when some key decrypts. It is attributed to the first such account, flagged as change exactly when that account spent in the transaction, and its witness is taken from the tree after its own commitment. |
| WeldingRig.FindAccount | zcash_client_backend/src/welding_rig.rs:121-127 | The account of the first nullifier-table entry equal to the spend's nullifier; none exactly when no entry matches. |
| WeldingRig.MatchSpends | zcash_client_backend/src/welding_rig.rs:115-137 | Recorded spends are in increasing position. Each records its position among all the transaction's spends, its nullifier, and the first matching entry's account. |
| WeldingRig.MatchSpendsComplete | zcash_client_backend/src/welding_rig.rs:115-137 | Every spend whose nullifier is in the table is recorded. |
| WeldingRig.SpentFrom | zcash_client_backend/src/welding_rig.rs:139-141 | An account is in the set exactly when some recorded spend names it. |
| ScanProperties.ScanOutputKeepsSync | zcash_client_backend/src/welding_rig.rs:54-62 | Witnesses that compute the tree's root before an output is scanned still do so afterwards. The witness created for a found note also computes the root. |
| ScanProperties.ScanOutputsAdvance | zcash_client_backend/src/welding_rig.rs:143-158 | Over a transaction's outputs, the tree and every witness handed in receive exactly the commitments of the well-formed outputs, in order. |
| ScanProperties.ScanOutputsKeepSync | zcash_client_backend/src/welding_rig.rs:143-158 | The output loop keeps every existing and new witness in step with the tree. |
| ScanProperties.ScanOutputsFind | zcash_client_backend/src/welding_rig.rs:146-158 | The wallet outputs are exactly the decryptable outputs, in output order. Each is attributed as `scan_output` promises and sits beside its own witness, so the witness list has the outputs' length and order. |
| ScanProperties.MatchSpendsExactly | zcash_client_backend/src/welding_rig.rs:115-137 | A spend is recorded if and only if its nullifier is in the table, so some spend is recorded exactly when some spend matches. |
| ScanProperties.FoundExactly | zcash_client_backend/src/welding_rig.rs:146-158 | After the loop, some wallet output was found exactly when some output decrypts. |
| ScanProperties.ScanTxEmits | zcash_client_backend/src/welding_rig.rs:111-173 | A transaction appends its well-formed commitments to the tree and to the existing witnesses. It emits a `WalletTx` exactly when a spend or an output matched. It fails only when it matched and its hash is not 32 bytes. |
| ScanProperties.ScanTxContents | zcash_client_backend/src/welding_rig.rs:112-113 | An emitted `WalletTx` carries the hash as txid and counts all compact spends and outputs, not only the matched ones. It records exactly the matching spends, and lists the wallet outputs with their witnesses and change flags. |
| ScanProperties.ScanTxKeepsSync | zcash_client_backend/src/welding_rig.rs:143-173 | After one transaction, existing witnesses and the transaction's returned witnesses all compute the tree's root. |
| ScanProperties.ScanBlockAdvances | zcash_client_backend/src/welding_rig.rs:101-177 | A block appends the commitments of its well-formed outputs to the tree in block, transaction and output order. Every existing witness gets the same leaves, so it stays in step. |
| ScanProperties.ScanBlockOrder | zcash_client_backend/src/welding_rig.rs:111-173 | The reported transaction ids are exactly the hashes of the block's transactions that hold a known nullifier or a decryptable output, in block order. The scan fails exactly when such a transaction's hash is not 32 bytes. |
| ScanProperties.ScanBlockLeavesEarlierWitnessBehind | zcash_client_backend/src/welding_rig.rs:145 | As written, take a block of two wallet payments. The witness returned for the first note never receives the second commitment, and no longer matches the returned tree. |
| ScanProperties.ScanBlockFixedKeepsSync | zcash_client_backend/src/welding_rig.rs:94-100 | In the corrected scan, every witness returned for any transaction of the block, and every existing witness, is in step with the final tree. |
| ScanProperties.ScanBlockFixedAgrees | zcash_client_backend/src/welding_rig.rs:101-177 | The correction changes only witnesses. Both scans fail on the same blocks, leave the same tree and existing witnesses, and report the same transactions with equally many witnesses. |
| ScanProperties.ScanBlockFixedAdvancesEarlierWitness | zcash_client_backend/src/welding_rig.rs:94-100 | On the same two-payment block, the corrected scan gives the first note's witness the second commitment. |
| Pczt.SeedContext | pczt/src/lib.rs:34-49 | With both `bsk` and `bvk` empty, a new context is used. Otherwise `bsk` must read as a scalar (short input is an I/O error, a non-canonical value is "Invalid bsk") and then `bvk` as a point. So exactly one empty field is an error. |
| Pczt.AddSaplingOutput | pczt/src/lib.rs:24-79 | It succeeds exactly when the accumulator reads, the output builds and the balance stays in `i64`, and propagates the seeding and build errors. Spends are unchanged. Exactly one output carrying the requested value is appended after the existing ones. The balance drops by the value, and `bsk`/`bvk` are replaced by the encodings of the updated context's parts. |
| Pczt.AddThenReseed | pczt/src/lib.rs:34-49 | The accumulator an addition writes is the one the next addition reads back, so the proving context is carried through the document. |
| Pczt.TwoAddsFromEmpty | pczt/src/lib.rs:57-76 | Two additions to an empty document leave balance `-(v1 + v2)` and two outputs in order with their values. There are no spends, and `bvk` is the second build's accumulator. |
| PcztSigning.SeedFingerprint | pczt/src/bin/sign_pczt.rs:21-32 | The fingerprint is BLAKE2b-256 personalised with "Zcash_HD_Seed_FP" over the byte 32 followed by the seed. The seed may have any length, and the leading byte stays 32 rather than encoding it. |
| PcztSigning.FingerprintIdentifiesSeed | pczt/src/bin/sign_pczt.rs:23-32 | If BLAKE2b is collision-free under that personalisation, two seeds have equal fingerprints if and only if they are equal. |
| PcztSigning.SignSlot | pczt/src/bin/sign_pczt.rs:55-85 | A slot with another fingerprint is returned unchanged without reading its alpha. A matching slot succeeds exactly when its alpha reads, and receives the signature by the key at its path over the session's sighash. |
| PcztSigning.SignSpends | pczt/src/bin/sign_pczt.rs:55-85 | The loop succeeds exactly when every slot does, and then returns each slot as signed individually. Otherwise it returns the error of the first failing slot. |
| PcztSigning.SignTouchesOnlyOwnSlots | pczt/src/bin/sign_pczt.rs:34-88 | A successful pass keeps the global fields, outputs and slot count. Slots the seed does not control are untouched. A controlled slot keeps its key and alpha and receives the signature over the sighash of the document as given, computed once before any slot changes. |
| PcztSigning.SignFailsOnlyOnOwnAlpha | pczt/src/bin/sign_pczt.rs:42-74 | Signing fails exactly when the document does not convert, or when a slot the seed controls has an unreadable alpha. |
| PcztSigning.SignWithoutOwnSlots | pczt/src/bin/sign_pczt.rs:55-87 | A seed controlling no slot returns the document unchanged. |
| PcztSigning.SignFreshDocument | pczt/src/bin/sign_pczt.rs:76-84 | On a document whose signature fields are empty, the as-written and corrected signers agree. Each controlled slot gets one 64-byte signature. |
| PcztSigning.SignSpendsErrorIndependentOfMode | pczt/src/bin/sign_pczt.rs:66-74 | Whether a pass fails, and with which error, does not depend on whether signatures are appended or replaced. |
| PcztSigning.SignTwiceAppends | pczt/src/bin/sign_pczt.rs:84 | As written, signing the same document twice leaves 128 bytes in a controlled slot's signature field. |
| PcztSigning.SignFixedWritesOneSignature | pczt/src/lib.rs:73-76 | When the field is cleared before writing, as `add_sapling_output` does for `bsk`/`bvk`, every controlled slot holds exactly one 64-byte signature, whatever it held before. |
| Zip304.FromBytes | zcash_proofs/src/zip304.rs:46-71 | Decoding succeeds exactly when `rk` (bytes 32..64) decodes and is not of small order, and the signature (bytes 256..320) decodes. The nullifier (0..32) and proof (64..256) are copied verbatim. |
| Zip304.ToBytes | zcash_proofs/src/zip304.rs:73-80 | The encoding is 320 bytes. |
| Zip304.ToBytesLayout | zcash_proofs/src/zip304.rs:73-80 | The nullifier is at 0..32, `rk` at 32..64, the proof at 64..256 and the signature at 256..320. |
| Zip304.FromBytesToBytes | zcash_proofs/src/zip304.rs:46-80 | A signature whose `rk` has large order survives encoding then decoding. |
| Zip304.ToBytesFromBytes | zcash_proofs/src/zip304.rs:46-80 | With canonical decoders, every accepted 320-byte string is the encoding of what it decodes to. |
| Zip304.Personalization | zcash_proofs/src/zip304.rs:172-174 | The personalisation is 16 bytes: "ZIP304Signed", then the coin type as 4 little-endian bytes. |
| Zip304.PersonalizationInjective | zcash_proofs/src/zip304.rs:212-214 | Two coin types share a personalisation if and only if they are equal. |
| Zip304.Digest | zcash_proofs/src/zip304.rs:175-184 | The digest is BLAKE2b-256 under that personalisation, over the 192 proof bytes followed by the message. |
| Zip304.DigestBinds | zcash_proofs/src/zip304.rs:215-221 | The digest is taken over the fixed-width proof followed by the message, so under a collision-free BLAKE2b equal digests for one coin type mean equal proofs and equal messages. |
| Zip304.PublicInput | zcash_proofs/src/zip304.rs:272-297 | The circuit's public input has seven entries. |
| Zip304.PublicInputLayout | zcash_proofs/src/zip304.rs:273-297 | `rk`'s affine coordinates are at 0 and 1, the fake note's value commitment (value 1, rcv 0) at 2 and 3, its anchor at 4 and the two packed nullifier limbs at 5 and 6. |
| Zip304.SignMessage | zcash_proofs/src/zip304.rs:89-195 | The signature carries the nullifier and proof of the fake note (value 1, rcm = rcv = 0) and `ak` randomised by alpha. Its authorization signature is over the digest of the proof and message. |
| Zip304.VerifyMessage | zcash_proofs/src/zip304.rs:204-301 | Success requires the signature over `rk` followed by the digest, checked before the proof is looked at. Verification succeeds exactly when that signature verifies, the proof parses, and the proof verifies against the seven public inputs for the fake note. |
| Zip304.SignThenVerify | zcash_proofs/src/zip304.rs:89-301 | Suppose RedJubjub and Groth16 are correct. Then a message signed with a key for one of its addresses verifies for that address, coin type and message. Signing and verification use the same personalisation, digest, signed data, fake note and public-input order. |
| TzeDemo.ParseHash | zcash_primitives/src/extensions/transparent/demo.rs:78-99 | Modes other than 0 and 1 fail with `ModeInvalid(mode)` whatever the payload. Modes 0 and 1 need exactly 32 bytes, else `IllegalPayloadLength(len)`. |
| TzeDemo.PredicateFromPayload | zcash_primitives/src/extensions/transparent/demo.rs:75-101 | Mode 0 with 32 bytes is Open and mode 1 with 32 bytes is Close. The other cases give the length or mode error. |
| TzeDemo.PredicateWithMode | zcash_primitives/src/extensions/transparent/demo.rs:111-121 | The `(mode, value)` form accepts exactly the value's own mode, and otherwise fails with `ModeInvalid(mode)`. |
| TzeDemo.PredicatePayloadRoundTrip | zcash_primitives/src/extensions/transparent/demo.rs:212-226 | Serialising a predicate and parsing it gives it back. |
| TzeDemo.PredicateParseRoundTrip | zcash_primitives/src/extensions/transparent/demo.rs:123-130 | Parsing a payload and serialising the result gives back the mode and payload. |
| TzeDemo.WitnessFromPayload | zcash_primitives/src/extensions/transparent/demo.rs:148-174 | Same as the predicate parser: open or close for 32-byte payloads of modes 0 and 1, and the length or mode error otherwise. |
| TzeDemo.WitnessWithMode | zcash_primitives/src/extensions/transparent/demo.rs:184-194 | The `(mode, value)` form accepts exactly the witness's own mode. |
| TzeDemo.WitnessPayloadRoundTrip | zcash_primitives/src/extensions/transparent/demo.rs:238-252 | Serialising a witness and parsing it gives it back. |
| TzeDemo.WitnessParseRoundTrip | zcash_primitives/src/extensions/transparent/demo.rs:196-203 | Parsing a witness payload and serialising gives back the mode and payload. |
| TzeDemo.WitnessParsesLikePredicate | zcash_primitives/src/extensions/transparent/demo.rs:148-203 | The witness codec accepts and rejects exactly what the predicate codec does, with the same errors, modes and bytes. |
| TzeDemo.RejectsWrongLengths | zcash_primitives/src/extensions/transparent/demo.rs:228-262 | Modes 0 to 2 with 31- or 33-byte payloads are rejected by both parsers. |
| Tze.GetVectorFails | zcash_primitives/src/extensions/transparent.rs:27 | A byte-vector read fails exactly when its length does not read or announces more bytes than the stream still holds. |
| Tze.VectorRoundTrip | zcash_primitives/src/extensions/transparent.rs:27-39 | A written byte vector is read back, and the rest of the stream is left. |
| Tze.FieldsRoundTrip | zcash_primitives/src/extensions/transparent.rs:24-40 | Extension id, mode and payload are read in the order they are written. |
| Tze.PredicateWireRoundTrip | zcash_primitives/src/extensions/transparent.rs:24-40 | Writing then reading a predicate gives it back, followed by the rest of the stream. |
| Tze.WitnessWireRoundTrip | zcash_primitives/src/extensions/transparent.rs:61-77 | Writing then reading a witness gives it back. |
| Tze.PredicateFrom | zcash_primitives/src/extensions/transparent.rs:42-49 | `from` keeps the given extension id and the value's `(mode, payload)`. |
| Tze.WitnessFrom | zcash_primitives/src/extensions/transparent.rs:79-86 | Same as `PredicateFrom`, for witnesses. |
| Tze.Verify | zcash_primitives/src/extensions/transparent.rs:127-140 | A predicate parse error is returned before the witness is parsed, and then a witness parse error. Success requires both to parse and the rule to accept. When both parse, the result is the rule's. |
| Tze.VerifyFrom | zcash_primitives/src/extensions/transparent.rs:42-49 | For an extension whose parsers invert its serialisers, records built with `from` verify exactly as the rule judges the original values. |
| TzeDemoProgram.SingleCloseOutput | zcash_primitives/src/consensus/extensions/transparent/demo.rs:55-74 | Succeeds exactly when there is one TZE output and it is a demo close predicate, and then yields its hash. Any other count gives "Invalid number of TZE outputs". A single demo open predicate gives "Invalid TZE output mode", and a single output of another program gives "Invalid TZE output type". |
| TzeDemoProgram.Verify | zcash_primitives/src/consensus/extensions/transparent/demo.rs:34-88 | Open/open first requires a TZE-only transaction, then a single close output; its errors are the messages from those checks. It succeeds exactly when H(preimage ‖ close hash) is the locked hash. Close/close succeeds exactly when H(preimage) is the locked hash. A failed hash check is "hash mismatch", and mismatched modes are "Mode mismatch". |
| TzeDemoProgram.CloseIgnoresContext | zcash_primitives/src/consensus/extensions/transparent/demo.rs:76-85 | A close-mode spend's verdict does not depend on the transaction. |
| TzeDemoProgram.HashLockChain | zcash_primitives/src/consensus/extensions/transparent/demo.rs:103-179 | Whoever knows both preimages can open the lock into a single close output, and then close it in any transaction. |
| TzeDemoProgram.OpenRequiresCommittedClose | zcash_primitives/src/consensus/extensions/transparent/demo.rs:48-74 | A successful open-mode spend is TZE-only with one output. That output is a demo close predicate whose hash, after the revealed preimage, hashes to the locked hash. |
| TzeConsensus.EpochForBranch | zcash_primitives/src/consensus/extensions/transparent.rs:35-40 | An epoch exists exactly for branch id 0x7473_6554, and it is version 1. |
| TzeConsensus.EpochV1Verify | zcash_primitives/src/consensus/extensions/transparent.rs:13-32 | A non-demo program type is `InvalidEpoch`. For the demo program, success passes through and errors become `Program("Epoch v1 error: " + message)`. |
| TzeConsensus.EpochErrorsDistinguishable | zcash_primitives/src/consensus/extensions/transparent.rs:21-30 | Equal epoch errors come from the same kind of failure, and the demo program's message can be recovered from them. |
| Acl2.ComputePath | zcash_proofs/examples/acl2.rs:10-28 | Panics exactly when the name contains '/'; namespace components are not checked. Otherwise it returns the namespace components and then the name, joined by single '/'. |
| Acl2.SplitJoin | zcash_proofs/examples/acl2.rs:15-27 | A path built from components free of '/' splits back into exactly those components. So the join adds no leading or trailing separator, and distinct component lists give distinct paths. |
| Acl2.Replace | zcash_proofs/examples/acl2.rs:32 | `str::replace` of one character maps each occurrence and keeps the length. |
| Acl2.Acl2ize | zcash_proofs/examples/acl2.rs:31-33 | Every ' ' and '/' becomes '_' and every other character is kept. The result has the same length and contains neither. |
| Acl2.Acl2izeIdempotent | zcash_proofs/examples/acl2.rs:31-33 | Converting a converted name changes nothing. |
| Acl2.New | zcash_proofs/examples/acl2.rs:47-54 | Starts with inputs ["1"], no auxiliary variables, no constraints and an empty namespace. |
| Acl2.Alloc | zcash_proofs/examples/acl2.rs:113-123 | Returns `Aux(k)` for the old auxiliary count and appends the converted path as the one new auxiliary name; nothing else changes. It panics exactly when the annotation contains '/'. |
| Acl2.AllocInput | zcash_proofs/examples/acl2.rs:125-135 | Returns `Input(k)` for the old input count, which is at least 1 because "1" is input 0. It appends the converted path as the one new input name; nothing else changes. |
| Acl2.Enforce | zcash_proofs/examples/acl2.rs:137-150 | Appends exactly one constraint, the three combinations built from zero, and changes nothing else. |
| Acl2.PushNamespace | zcash_proofs/examples/acl2.rs:152-159 | Pushes the name onto the namespace stack and changes nothing else. |
| Acl2.PopNamespace | zcash_proofs/examples/acl2.rs:161-163 | Panics exactly when the stack is empty. Otherwise it drops the top name and changes nothing else. |
| Acl2.PopAfterPush | zcash_proofs/examples/acl2.rs:152-163 | Popping after a push restores the constraint system exactly. |
| Acl2.VarsPositions | zcash_proofs/examples/acl2.rs:68-77 | `VARS` lists the inputs without the leading "1", then the auxiliary variables in order. Input `i` is at position `i - 1` and auxiliary `j` comes after all inputs. Every listed name is free of spaces and slashes. |

## Left out

- Protobuf parsing and serialisation of the PCZT document (`parse_from_bytes(..).unwrap()`, `write_to_bytes().unwrap()`): documents are taken already parsed, and the wire format is not part of this model.
- `scan_block_from_bytes` and the derivation of incoming viewing keys from full viewing keys (`welding_rig.rs:109`): the scanner takes the keys directly. The decrypted recipient address is folded into the opaque note type.
- The commitment tree's 2^32-leaf capacity, whose `append(..).unwrap()` would panic: the tree and its hashing are not part of this model, and the tree is unbounded here.
- Randomness (`OsRng`): `alpha` and the proving and signing randomness are parameters, and the per-slot signing randomness in `sign_pczt` is the slot's position.
- Panics that depend on cryptography: the `g_d` diversifier `expect`, the `create_random_proof` `expect`, and the nullifier-packing `assert_eq!` in ZIP 304. The cryptographic functions are total in this model.
- `CompactSize` and `Vector` internals (`serialize.rs` is not part of this model): they are an abstract codec that is assumed to round-trip up to a limit.
- The TZE `Error` enum of `transparent.rs:89-112` and its `Display` text: `Extension::verify` does not use it.
- The ACL2 output apart from `VARS`: the hard-coded `PRIME` line and the formatting of linear-combination coefficients are field-element printing. Linear combinations are an opaque type. The value closure `alloc` ignores is not modelled. The annotation and namespace closures are modelled as the strings they return.
- The `main` functions of `sign_pczt.rs` and `acl2.rs`: argument parsing and printing.
- Pczt.AddSaplingOutput: `valueBalance -= value` is modelled as a checked `i64` subtraction whose overflow is an error. This is the debug-build panic; a release build would wrap.
- Zip304.ToBytes: `rk` must encode to 32 bytes and the signature to 64. This stands for the two `.unwrap()` calls on the fixed-size writes, which the model does not let fail.
- Zip304.VerifyMessage: `rk`'s encoding is required to be 32 bytes, which stands for the `expect("message buffer should be 32 bytes")` on the write into the signed data.
- Zip304.SignMessage: the Sapling spend proof is one opaque function of the key, address, alpha, note value and randomness. The fake tree, witness path and circuit instance it is built from are not modelled separately.

## Findings

| source | as written | input that shows it | evidently intended | confidence | as-written member | corrected member |
|---|---|---|---|---|---|---|
| zcash_client_backend/src/welding_rig.rs:145 | `new_witnesses` is created afresh for every transaction. Witnesses returned for a note found earlier in the same block never receive the commitments of the block's later transactions. | A block of two transactions, each paying the wallet one output. The first note's witness ends at a tree of one leaf, while the returned tree has two. | Within a transaction, `scan_block` hands `new_witnesses` to `scan_output` (lines 144-153), which advances the witnesses created earlier by each later commitment. The doc comment (lines 94-100) says the scan returns the corresponding new witnesses and increments the given tree. A witness that lags that tree cannot compute its root, so every returned witness should receive every later commitment of the block. | high; not executed | ScanProperties.ScanBlockLeavesEarlierWitnessBehind | ScanProperties.ScanBlockFixedKeepsSync |
| pczt/src/bin/sign_pczt.rs:84 | The signature is written onto the end of `spendAuthSig` without clearing it first, unlike `bsk`/`bvk` in `add_sapling_output`. | Signing the same document twice with the same seed leaves 128 bytes in a controlled slot's signature field. | Each controlled slot holds exactly one 64-byte signature. | medium; not executed | PcztSigning.SignTwiceAppends | PcztSigning.SignFixedWritesOneSignature |
