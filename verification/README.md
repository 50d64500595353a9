# Sidevers: codec, replay guard, verse host, limiters and side state

Sidevers is a peer-to-peer protocol of keypairs ("sides"). This project models the parts of its
Rust implementation that have a parser and printer, a state machine over many tasks, or an
arithmetic bound, and proves what they are for.

- **Codec and signed objects** (`Bytes`, `Cbor`, `Records`, `Keys`, `Envelopes`, `ContractTypes`,
  `Contracts`, `ContractDecoder`, `Utf8`, `WireForms`): the deterministic CBOR of RFC 8949 (sections 3 and 4.2.1), the envelope, the
  contract with its nested field specs, policies and moderators, and the handshake transcript. The
  writers and decoders are methods over a growing buffer and a moving position; each is proved
  equal to a function on byte sequences, and the round trips, canonicity, order and injectivity
  are lemmas about those functions. The wire forms are also given byte by byte, from the numbers of
  the standards and the key names alone, and every writer, reader and refusal is held against them. Hashes and signatures are uninterpreted; `usize` has 64 bits.
- **Amendments** (`Amendments`): how a contract amendment is classified, against whom the join
  check admits.
- **Replay guard** (`Replay`, `ReplayRuns`): cache, journal, restart and the freshness gate. The
  clock is an argument that never goes back; which of several oldest entries goes is a
  parameter wherever two runs are compared.
- **Verse host** (`VerseHosts`, `VerseProtocol`, `VerseConsent`, `VerseContracts`, `VerseSteps`): the host's state and its
  lock-level operations as a class, then every handler as a task whose steps are single lock
  acquisitions, in any interleaving with any number of others. An observer's record keeps whom
  each content key was sealed to and which contract hashes each side agreed to.
- **Limiters** (`TokenBuckets`, `Reputations`, `HandshakeLimits`, `Sybil`): token buckets against
  their sliding-window meaning, and the tumbling identity counter against any stretch of time.
- **Side state and mailbox** (`Capabilities`, `Sides`, `SideSteps`, `SideRuns`, `SideConvergence`, `Mailboxes`): write-through
  state and its reload, replication between co-holders, the store-and-forward mailbox.

`dafny verify dfyconfig.toml` checks the whole project.

Where the code falls short of its own documentation, the model follows the code, a lemma gives
the failing input, and the exact condition is proved:

- `ContractObject::from_wire_bytes` never asks whether the input is used up, so its final re-encode
  comparison is what rejects trailing bytes, and it rejects nothing else; the envelope's comparison
  is redundant.
- The replay TTL (600 s) is shorter than the freshness window (900 s either way), so one envelope
  can pass the gate four times, and once more for every eviction of its pair; it passes once
  exactly when the TTL exceeds twice the skew.
- `amend_contract` checks no version, so consent is safe exactly when no version names two
  contracts.
- A failed key rotation is only logged: a departed side goes on holding the current key exactly
  until some rotation succeeds.
- A side that left stays out exactly when none of its joins is in flight; otherwise the join's last
  lock makes it a member again.
- A member that reconsents is on record at the current version until an amendment or its departure
  exactly when none of its own joins in flight read a contract of another version; otherwise that
  join's last lock puts the old version back.
- With windows of zero length the identity counter limits nothing.
- Forgetting an idle source gives it a new burst unless an hour's refill is a whole burst.
- The store keeps the first `added_at` of a relationship while memory takes the new one, and its
  capabilities column loses an empty token that stands alone and splits tokens at newlines; a
  reload is exact, and co-holders that restart converge, exactly when no write meets either.
- A retirement that arrived as a co-holder's change is not sticky, whatever the comment there says;
  a self-retirement is.
- A message put back after a failed redelivery outlives its original expiry by what the clock
  advanced meanwhile.

## Model

| member | source | states |
|---|---|---|
| Cbor.HeadRoundTrip | crates/sidevers-core/src/cbor.rs:80-96 | A head is read back, for every major type and u64, before any suffix |
| Cbor.HeadCanonical | crates/sidevers-core/src/cbor.rs:287-338 | Whatever head the reader accepts is the shortest form: writing it again gives the bytes consumed |
| Cbor.HeadOrder | crates/sidevers-core/src/cbor.rs:80-96 | Within a major type, n < m exactly when head(n) is bytewise below head(m), whatever follows |
| Cbor.TextOrder | crates/sidevers-core/src/cbor.rs:178-183 | Encoded keys are ordered by length, then bytes |
| WireForms.HeadForm | crates/sidevers-core/src/cbor.rs:80-96 | A head is the one of section 3 of RFC 8949, digit by digit, for every major type and argument |
| WireForms.ItemForms | crates/sidevers-core/src/cbor.rs:98-137 | Unsigned integers, byte strings and texts have major types 0, 2 and 3; null is F6; keys, signatures and nonces start 58 20, 58 40 and 50 |
| WireForms.FirstBytes | crates/sidevers-core/src/cbor.rs:98-171 | The first byte over 32 is 0, 2, 3, 4 or 5 for the five kinds of item, and integers up to 23 are their own byte |
| WireForms.ArrayForm | crates/sidevers-core/src/cbor.rs:130-137 | An array is a head of major type 4 and its items |
| WireForms.MapForm | crates/sidevers-core/src/cbor.rs:153-171 | A map is a head of major type 5 and its entries |
| WireForms.HeadRefusals | crates/sidevers-core/src/cbor.rs:287-338 | Which heads are refused, and with which error, by first byte and length |
| WireForms.ItemRefusals | crates/sidevers-core/src/cbor.rs:340-424 | Another major type, content that breaks off, bytes that are not UTF-8 and counts over 1048576 are decoding errors |
| Utf8.Utf8Exactly | crates/sidevers-core/src/cbor.rs:360-372 | A text is accepted exactly when it is the encoding, by section 3 of RFC 3629, of some scalar values |
| Cbor.CborWriter.WriteHead | crates/sidevers-core/src/cbor.rs:80-96 | Pushing byte by byte appends the head's encoding to the buffer |
| Cbor.CborWriter.WriteBytes | crates/sidevers-core/src/cbor.rs:120-123 | Appends the byte string's item |
| Cbor.CborWriter.WriteText | crates/sidevers-core/src/cbor.rs:125-128 | Appends the text's item |
| Cbor.CborWriter.WriteMap | crates/sidevers-core/src/cbor.rs:153-171 | The loop over entries appends the map's encoding; entries must be sorted, the source's debug assertion |
| Cbor.CborReader.TakeHead | crates/sidevers-core/src/cbor.rs:287-338 | Reads and advances exactly as the head reader on the remaining bytes, all rejections included |
| Cbor.CborReader.TakeU64 | crates/sidevers-core/src/cbor.rs:340-348 | Reads an unsigned integer or fails on any other item |
| Cbor.CborReader.TakeBytes | crates/sidevers-core/src/cbor.rs:350-358 | Reads a byte string or fails: wrong type, short input |
| Cbor.CborReader.TakeText | crates/sidevers-core/src/cbor.rs:360-372 | Reads a text item or fails without one: wrong type, short input, not UTF-8 |
| Cbor.CborReader.TakeBytesOrNull | crates/sidevers-core/src/cbor.rs:374-385 | Null and byte strings are told apart by the next byte |
| Cbor.CborReader.TakeOptionalText | crates/sidevers-core/src/verse.rs:1031-1042 | Null and text are told apart by the next byte; no next byte is an error |
| Cbor.CborReader.TakeFixed | crates/sidevers-core/src/verse.rs:1110-1127 | A byte string of any other length is a field-length error |
| Cbor.CborReader.TakeMapHeader | crates/sidevers-core/src/cbor.rs:396-409 | A map count above the entry limit is an error |
| Cbor.CborReader.TakeArrayHeader | crates/sidevers-core/src/cbor.rs:411-424 | Likewise an array count |
| Cbor.ArrayRoundTrip | crates/sidevers-core/src/verse.rs:1031-1127 | An array of items that round-trip round-trips, if within the entry limit |
| Cbor.ArrayCanonical | crates/sidevers-core/src/verse.rs:1031-1127 | Any array read from strictly read items re-encodes to the bytes consumed |
| Records.RecordRoundTrip | crates/sidevers-core/src/envelope.rs:231-270 | A fixed-key map whose fields round-trip round-trips, before any suffix |
| Records.RecordCanonical | crates/sidevers-core/src/envelope.rs:331-480 | Any fixed-key map read from strictly read fields re-encodes to the bytes consumed |
| Records.EntriesSorted | crates/sidevers-core/src/cbor.rs:173-176 | Fields listed by ascending name meet the map writer's sortedness assertion |
| Envelopes.Decode | crates/sidevers-core/src/envelope.rs:331-483 | The decoding method computes the decoder function, error for error |
| Envelopes.EnvelopeRoundTrip | crates/sidevers-core/src/envelope.rs:231-270 | An envelope's wire form is read back before any suffix: it delimits itself |
| Envelopes.EnvelopeCanonical | crates/sidevers-core/src/envelope.rs:331-480 | Whatever envelope the field reads accept re-encodes to exactly the bytes consumed |
| Envelopes.ReencodeCheckIsRedundant | crates/sidevers-core/src/envelope.rs:466-483 | Dropping the final re-encode comparison changes no result |
| Envelopes.DecodesExactly | crates/sidevers-core/src/envelope.rs:331-483 | Decoding gives e exactly on the wire form of e, for authentic version-1 envelopes |
| WireForms.EnvelopeBytes | crates/sidevers-core/src/envelope.rs:231-270 | The wire form is A8 and eight pairs with these key bytes and value bytes in this order |
| WireForms.EnvelopeStarts | crates/sidevers-core/src/envelope.rs:231-270 | So every envelope starts A8 61 74 and its message type |
| WireForms.UnsignedEnvelopeBytes | crates/sidevers-core/src/envelope.rs:185-228 | What is signed is A7 and the seven pairs without the signature |
| WireForms.EnvelopeAccepted | crates/sidevers-core/src/envelope.rs:331-483 | Decoding gives e exactly on those bytes, at version 1, under a valid key whose signature covers the hash of the seven pairs |
| WireForms.EnvelopeVerdict | crates/sidevers-core/src/envelope.rs:437-483 | Once the fields read, the first of four tests that fails names the error |
| WireForms.LengthRefusals | crates/sidevers-core/src/envelope.rs:331-434 | A fixed-length field of another length is a field-length error, in envelope and contract |
| WireForms.MessageTypeRefusal | crates/sidevers-core/src/envelope.rs:331-434 | A message type over 255 is a decoding error and any other is read |
| WireForms.KeyRefusals | crates/sidevers-core/src/envelope.rs:331-434 | A record with another number of keys is a decoding error; a key out of place is not canonical |
| WireForms.TranscriptBytes | crates/sidevers-net/src/handshake.rs:328-332 | The transcript is the two wire forms, the hello first |
| Envelopes.UnsignedInjective | crates/sidevers-core/src/envelope.rs:185-228 | The signed bytes determine all seven fields |
| Envelopes.BuildTranscript | crates/sidevers-net/src/handshake.rs:328-332 | An envelope read from the transcript's start is the hello, and what is left are the answer's bytes |
| Envelopes.SessionSalt | crates/sidevers-net/src/handshake.rs:322-339 | The salt is the hash of the two envelopes' transcript |
| Envelopes.TranscriptMac | crates/sidevers-net/src/handshake.rs:341-350 | The tag is the keyed hash of the two envelopes' transcript |
| Envelopes.TranscriptInjective | crates/sidevers-net/src/handshake.rs:328-349 | The transcript determines both envelopes though nothing separates them |
| Envelopes.SaltNamesHandshake | crates/sidevers-net/src/handshake.rs:328-333 | Unless the hash collides, one salt means one pair of envelopes |
| Envelopes.MacNamesHandshake | crates/sidevers-net/src/handshake.rs:341-350 | Unless the keyed hash collides, one tag means one key and one pair of envelopes |
| Contracts.SpecRoundTrip | crates/sidevers-core/src/verse.rs:81-142 | Every field spec round-trips, before any suffix |
| Contracts.SpecCanonical | crates/sidevers-core/src/verse.rs:81-142 | Any field spec read re-encodes to the bytes consumed |
| Contracts.SortedPairsLaws | crates/sidevers-core/src/verse.rs:159-181 | Listing a params map by key order is strictly ascending and loses nothing |
| Contracts.ParamsRoundTrip | crates/sidevers-core/src/verse.rs:159-218 | The decoder's strictly-ascending test accepts every params map the encoder emits, and gives it back |
| Contracts.ParamsCanonical | crates/sidevers-core/src/verse.rs:183-218 | Any params map read is the encoder's own form of it |
| Contracts.PolicyRoundTrip | crates/sidevers-core/src/verse.rs:159-218 | Every policy clause within the entry limit round-trips |
| Contracts.PolicyCanonical | crates/sidevers-core/src/verse.rs:183-218 | Any policy clause read re-encodes to the bytes consumed |
| Contracts.ContractRoundTrip | crates/sidevers-core/src/verse.rs:483-670 | A contract whose arrays and params maps are within the entry limit is read back, before any suffix |
| Contracts.ContractCanonical | crates/sidevers-core/src/verse.rs:537-668 | The strict reader alone forces canonicity, nested arrays, optionals and the params map included |
| Contracts.DecodesExactly | crates/sidevers-core/src/verse.rs:537-670 | Decoding gives c exactly on the wire form of c, for authentic contracts within the limits |
| WireForms.SpecBytes | crates/sidevers-core/src/verse.rs:81-108 | A field spec is A4 and four pairs with these key and value bytes in this order |
| WireForms.PolicyBytes | crates/sidevers-core/src/verse.rs:159-181 | A policy clause is A2 and two pairs, the params a map of texts in key order |
| WireForms.ContractBytes | crates/sidevers-core/src/verse.rs:483-535 | The wire form is AC and twelve pairs with these key and value bytes in this order |
| WireForms.UnsignedContractBytes | crates/sidevers-core/src/verse.rs:366-426 | What is signed is AB and the eleven pairs without the signature |
| WireForms.AddressForm | crates/sidevers-core/src/verse.rs:757-759 | The content address is the hash of the whole wire form |
| WireForms.ContractAccepted | crates/sidevers-core/src/verse.rs:537-670 | Decoding gives c exactly on those bytes, within the limits, under a valid key whose signature covers the hash of the eleven pairs |
| WireForms.ContractVerdict | crates/sidevers-core/src/verse.rs:625-670 | Once the fields read, the first test that fails names the error |
| WireForms.ParamRefusal | crates/sidevers-core/src/verse.rs:197-213 | A parameter key not above the one before it is not canonical |
| Contracts.ReencodeRejectsExactlyTrailing | crates/sidevers-core/src/verse.rs:655-670 | After a verified signature the re-encode comparison rejects exactly the inputs with bytes left over |
| Contracts.TrailingByteReachesReencode | crates/sidevers-core/src/verse.rs:537-670 | One byte after any authentic contract gets past every field read and is caught only there |
| Contracts.UnsignedInjective | crates/sidevers-core/src/verse.rs:366-426 | The signed bytes determine all eleven fields, at any size |
| Contracts.HashNamesContract | crates/sidevers-core/src/verse.rs:757-759 | Unless the hash collides, a content address names one contract |
| ContractDecoder.DecodeParams | crates/sidevers-core/src/verse.rs:183-218 | The loop over pairs, comparing each key with the last, computes the params reader |
| ContractDecoder.DecodePolicy | crates/sidevers-core/src/verse.rs:183-218 | The two-key loop computes the policy reader, error for error |
| ContractDecoder.DecodeSpecs | crates/sidevers-core/src/verse.rs:1073-1080 | The array loop computes the field-spec array reader |
| ContractDecoder.DecodeKinds | crates/sidevers-core/src/verse.rs:1054-1061 | Likewise for field kinds |
| ContractDecoder.DecodePolicies | crates/sidevers-core/src/verse.rs:1092-1099 | Likewise for policy clauses |
| ContractDecoder.DecodeModerators | crates/sidevers-core/src/verse.rs:1110-1127 | Likewise for moderators, each of exactly 32 bytes |
| ContractDecoder.DecodeSpec | crates/sidevers-core/src/verse.rs:109-142 | The field-spec loop computes the field-spec reader, error for error |
| ContractDecoder.Decode | crates/sidevers-core/src/verse.rs:537-670 | The twelve-key decoding method computes the decoder function, error for error |
| Amendments.ClassifyAmendment | crates/sidevers-core/src/verse.rs:701-753 | The flags give reductive, expansive or mixed by whether the amendment tightens, loosens, or both |
| Amendments.ParsesExactly | crates/sidevers-core/src/verse.rs:227-234 | A parameter reads as n exactly when it is, after at most one plus sign, zeros and the digits of n below 2^64 |
| Amendments.ClassifiesExactly | crates/sidevers-core/src/verse.rs:223-237 | Which clauses are known, with which parameter, and that all known ones restrict |
| Amendments.DiffersExactly | crates/sidevers-core/src/verse.rs:226-234 | Two known clauses of one kind differ exactly when the parameter that counts reads differently |
| Amendments.TightensExactly | crates/sidevers-core/src/verse.rs:705-741 | In the contracts' fields: a kind newly required or forbidden, or a known clause that equals no earlier one |
| Amendments.LoosensExactly | crates/sidevers-core/src/verse.rs:705-746 | That read backwards, or a kind newly optional |
| Amendments.NoReconsentKeepsAdmission | crates/sidevers-core/src/verse.rs:303-305 | An amendment that needs no reconsent turns away no field set the old contract admitted |
| Amendments.ChainKeepsAdmission | crates/sidevers-core/src/verse.rs:701-753 | Nor does any chain of such amendments |
| Amendments.TurnsAwayExactly | crates/sidevers-net/src/node.rs:2260-2298 | Someone admitted before is turned away exactly when anybody was admitted and something new is required or forbidden |
| Amendments.ReconsentIsExact | crates/sidevers-core/src/verse.rs:701-753 | With no policy tightened, reconsent is asked for exactly when someone is newly turned away |
| Replay.ReplayCache.Observe | crates/sidevers-core/src/replay.rs:131-163 | One observation: expired pruned, a live pair is a replay, otherwise an oldest is evicted at the cap and the pair written through |
| Replay.ReplayCache.Preload | crates/sidevers-core/src/replay.rs:101-125 | Live rows go over what the cache holds; above the cap exactly the cap's worth stays, and nothing dropped is newer |
| Replay.ReplayCache.InsertLive | crates/sidevers-core/src/replay.rs:106-112 | The loop inserts exactly the live rows, over older entries of the same pairs |
| Replay.ReplayCache.TrimToCap | crates/sidevers-core/src/replay.rs:113-124 | The loop drops oldest entries until the cap is met, and no more |
| Replay.ReplayCache.Sweep | crates/sidevers-core/src/replay.rs:166-176 | Exactly the expired pairs leave the cache and their rows the journal |
| Replay.ReplayCache.FindOldest | crates/sidevers-core/src/replay.rs:190-199 | The pair found has a least first-seen time; none exactly on an empty cache |
| Replay.ReplayJournal.LoadActive | crates/sidevers-net/src/replay_journal.rs:76-123 | Stale rows are deleted and the others listed, each once |
| Replay.ReplayJournal.Record | crates/sidevers-net/src/replay_journal.rs:131-142 | The row is inserted or replaced |
| Replay.ReplayJournal.Evict | crates/sidevers-net/src/replay_journal.rs:144-155 | The row is gone |
| Replay.Start | crates/sidevers-net/src/node.rs:196-209 | The journal is pruned and a fresh cache holds its live rows, the newest of them if over the cap |
| Replay.CheckFreshnessAndReplay | crates/sidevers-net/src/node.rs:2852-2894 | An envelope passes exactly when inside the skew and not a replay; a stale one touches neither cache nor journal |
| Replay.LiveExactly | crates/sidevers-core/src/replay.rs:166-176 | A pair is live exactly until its TTL has passed since it was first seen, whichever way the clock goes |
| ReplayRuns.NextIsObserved | crates/sidevers-core/src/replay.rs:131-163 | The run-level step is an instance of what the method guarantees |
| ReplayRuns.RestartTransparent | crates/sidevers-net/src/node.rs:196-209 | Crash, load and preload anywhere in a run, any number of times, change no verdict |
| ReplayRuns.ObserveKeepsCoincide | crates/sidevers-core/src/replay.rs:131-163 | Every observation keeps the live rows of journal and cache equal |
| ReplayRuns.RestartKeepsLive | crates/sidevers-net/src/replay_journal.rs:76-123 | A restart keeps them equal though the two test expiry at different boundaries |
| ReplayRuns.RestartNeverTrims | crates/sidevers-net/src/node.rs:201-208 | Whatever start-up keeps of the journaled rows, it keeps them all |
| ReplayRuns.CapHolds | crates/sidevers-core/src/replay.rs:131-163 | The cache never exceeds its cap in any reachable state |
| ReplayRuns.ReacceptanceNeedsPressure | crates/sidevers-core/src/replay.rs:131-199 | A pair accepted again within the TTL costs at least cap other distinct pairs accepted since |
| ReplayRuns.GateMultiplicity | crates/sidevers-net/src/node.rs:2852-2894 | In any run one envelope passes at most 2*skew/ttl + 1 times, plus once for every eviction of its own pair |
| ReplayRuns.SpacedApart | crates/sidevers-core/src/replay.rs:131-163 | Two acceptances of a pair are a TTL apart unless it was evicted in between |
| ReplayRuns.GateMultiplicityAcrossCrashes | crates/sidevers-net/src/node.rs:196-209 | The same bound over every run of a node with any number of crashes and restarts |
| ReplayRuns.GateBoundReached | crates/sidevers-net/src/node.rs:2852-2894 | And that many times it can pass |
| ReplayRuns.AtMostOnceExactly | crates/sidevers-core/src/envelope.rs:33-40 | Every envelope whose pair is never evicted passes at most once exactly when ttl > 2*skew |
| ReplayRuns.ShippedGatePassesFourTimes | crates/sidevers-core/src/replay.rs:33 | With the shipped constants four times, and never five unless its pair is evicted |
| VerseHosts.JudgeJoin | crates/sidevers-net/src/node.rs:2236-2298 | Each verdict, in the contract's fields: another hash, else a required kind missing, else a forbidden kind offered, else proceed |
| VerseHosts.VerseHost.AddLocalMember | crates/sidevers-net/src/verse.rs:115-134 | Member, consent to the current version and the current key under one lock |
| VerseHosts.VerseHost.InsertJoined | crates/sidevers-net/src/node.rs:2324-2330 | The joiner becomes a member at the version read under the first lock |
| VerseHosts.VerseHost.RotateContentKey | crates/sidevers-net/src/verse.rs:162-168 | Only the content key changes |
| VerseHosts.VerseHost.AmendContract | crates/sidevers-net/src/verse.rs:172-175 | Only the contract changes; members keep the versions they consented to |
| VerseHosts.VerseHost.RemoveMember | crates/sidevers-net/src/node.rs:2465-2474 | Member, consent and session leave together |
| VerseHosts.VerseHost.Reconsent | crates/sidevers-net/src/node.rs:2552-2578 | The recorded version becomes the current one exactly for a member naming the current hash; nothing else changes |
| VerseHosts.VerseHost.StashPendingKeyPush | crates/sidevers-net/src/verse.rs:74-77 | The latest stash for a member replaces any earlier one |
| VerseHosts.VerseHost.TakePendingKeyPush | crates/sidevers-net/src/verse.rs:74-85 | The stashed push is returned and gone |
| VerseHosts.VerseHost.PushTargets | crates/sidevers-net/src/node.rs:2632-2677 | The loop collects the active sessions that are members |
| VerseProtocol.CurrentKeyIsAccounted | crates/sidevers-net/src/node.rs:2301-2330 | In every interleaving, a holder of the current key is a member, is about to be inserted, or left with its rotation owed or failed; at rest only members hold it; members and consents have the same keys |
| VerseProtocol.HoldersAccountedStep | crates/sidevers-net/src/node.rs:2465-2550 | Every single lock-level step keeps that account |
| VerseProtocol.SameKeysStep | crates/sidevers-net/src/verse.rs:115-168 | Every step keeps the members and the consents on the same keys |
| VerseProtocol.PushesForHoldersStep | crates/sidevers-net/src/node.rs:2679-2704 | Every step keeps each push under way or stashed for a side its key was sealed to, however often it fails |
| VerseProtocol.HoldersGrow | crates/sidevers-net/src/node.rs:2632-2677 | No step takes back a key that was sealed |
| VerseProtocol.DepartedKeepsKeyExactly | crates/sidevers-net/src/node.rs:2488-2494 | A departed side holds the current key, in every continuation, exactly as long as no rotation succeeds |
| VerseProtocol.FailedRotationStrandsKey | crates/sidevers-net/src/node.rs:2632-2633 | Its instance after a leave whose own rotation failed: nothing is in flight, and only another rotation takes the key away |
| VerseProtocol.OutsideLearnsNothing | crates/sidevers-net/src/node.rs:2632-2707 | A side outside, with no join in flight, is sealed no key in any run that does not let it in anew |
| VerseProtocol.OutsiderIsKeptOutExactly | crates/sidevers-net/src/node.rs:2301-2330 | That holds in every continuation exactly when none of its joins is in flight |
| VerseProtocol.OutsiderStaysOutExactly | crates/sidevers-net/src/node.rs:2324-2330 | A side that is not a member stays out in every continuation exactly when none of its joins is in flight |
| VerseProtocol.RemovedSideReturns | crates/sidevers-net/src/node.rs:2301-2330 | From the start: a member leaves while it joins anew, its rotation succeeds, and the old join makes it a member again without the current key |
| VerseSteps.DeparturesAreAuthorised | crates/sidevers-net/src/node.rs:2440-2550 | After any run, a membership ends only by the member's own leave or by a remove opened by an issuer that was the verse key or a listed moderator of the contract then in force |
| VerseSteps.RemovalsAreAuthorised | crates/sidevers-net/src/node.rs:2519-2534 | Every removal in flight after any run was opened by such an issuer |
| VerseSteps.RemovesExactly | crates/sidevers-core/src/verse.rs:675-677 | A remove takes member, consent and session away exactly when its issuer is the verse key or a listed moderator; otherwise nothing changes and nothing can be committed |
| VerseSteps.HandlersProgress | crates/sidevers-net/src/node.rs:2230-2707 | After any run every handler in flight can take its next step, every delivery can end either way, and any new message is taken up |
| VerseSteps.PushIsKept | crates/sidevers-net/src/node.rs:2679-2707 | A pushed key stays on its way or stashed until it is delivered or another key is stashed in its place, in every run |
| VerseSteps.DeliveriesStep | crates/sidevers-net/src/node.rs:2652-2707 | How each step changes the number of deliveries of a key to a side |
| VerseSteps.SealingStep | crates/sidevers-net/src/node.rs:2301-2330 | Exactly which steps seal which key to whom |
| VerseSteps.MembersStep | crates/sidevers-net/src/node.rs:2440-2550 | Exactly which steps change the members, and how |
| VerseSteps.OpeningStep | crates/sidevers-net/src/node.rs:2236-2300 | Exactly which handlers a message opens, with the join check and the moderator check in the contract's fields |
| VerseConsent.ConsentInvariantStep | crates/sidevers-net/src/node.rs:2236-2330 | Every step keeps each recorded version backed by an agreement to an installed contract of that version |
| VerseConsent.AdmittedPostIsAgreed | crates/sidevers-net/src/node.rs:2381-2394 | If versions name contracts, no step admits a post whose author did not agree to the contract the handler read |
| VerseConsent.ConsentSafeExactly | crates/sidevers-net/src/verse.rs:172-175 | Over every run with given amendments, consent is safe exactly when no version among them names two contracts |
| VerseConsent.ReusedVersionAdmits | crates/sidevers-net/src/node.rs:897-953 | Whenever a version is installed twice with different contracts, some run admits an unagreed post |
| VerseConsent.IncreasingVersionsAreSafe | crates/sidevers-net/src/node.rs:2381-2394 | Amendments that raise the version are safe |
| VerseSteps.ReconsentLastsExactly | crates/sidevers-net/src/node.rs:2557-2577 | A member that sends the current hash may post from then on until an amendment or its departure, exactly when no join of its own in flight read another version; any other reconsent changes nothing |
| VerseSteps.ConsentLastsExactly | crates/sidevers-net/src/node.rs:2324-2330 | Likewise for any member on record at the current version |
| VerseSteps.ConsentStep | crates/sidevers-net/src/node.rs:2324-2577 | Exactly which steps record or drop which version |
| VerseSteps.UnagreedStep | crates/sidevers-net/src/node.rs:2381-2394 | A post is admitted exactly for a member recorded at the version its handler read |
| VerseContracts.ConsentSafeByVersion | crates/sidevers-core/src/verse.rs:757-759 | With contracts addressed by their content hash, and unless it collides: exactly when no version was given to two contracts |
| TokenBuckets.AttemptFits | crates/sidevers-net/src/reputation.rs:152-168 | An attempt is admitted exactly when every window from an earlier visit keeps within capacity + refill x length |
| TokenBuckets.WindowBound | crates/sidevers-net/src/reputation.rs:141-169 | So no window ever holds more admissions than that |
| TokenBuckets.FitsMeans | crates/sidevers-net/src/reputation.rs:152-168 | The window test in plain arithmetic over the rule's fields |
| TokenBuckets.IdleFits | crates/sidevers-net/src/reputation.rs:152-168 | After a second without visits one more fits, if a token a second refills |
| Reputations.ReputationTable.ObserveEnvelope | crates/sidevers-net/src/reputation.rs:141-169 | The gate's effect on the peer's whole entry, and its verdict |
| Reputations.ReputationTable.RecordSigFailure | crates/sidevers-net/src/reputation.rs:174-185 | The saturating count, and the refusal at its threshold |
| Reputations.ReputationTable.RecordMalformed | crates/sidevers-net/src/reputation.rs:189-200 | Likewise for malformed payloads |
| Reputations.ReputationTable.Refuse | crates/sidevers-net/src/reputation.rs:208-214 | The peer is refused, known before or not |
| Reputations.ReputationTable.Reinstate | crates/sidevers-net/src/reputation.rs:217-225 | A known peer's flag and counters are cleared; its bucket is not refilled |
| Reputations.GateIsMinPlus | crates/sidevers-net/src/reputation.rs:141-169 | After any run over all peers, an envelope passes exactly when its peer is not refused, bucketCapacity >= 1, and from every earlier visit on bucketCapacity + refillPerSec x time - admissions leaves one |
| Reputations.ObservedExactly | crates/sidevers-net/src/reputation.rs:141-169 | One observation in the policy's fields, whichever way the clock went |
| Reputations.IdlePeerPasses | crates/sidevers-net/src/reputation.rs:152-162 | A peer silent for a second passes exactly when it is not refused, if the policy allows one and refills one a second |
| Reputations.BurstExactly | crates/sidevers-net/src/reputation.rs:141-169 | Of n envelopes a new peer sends in one second exactly the burst passes, and every counter says so |
| Reputations.ShippedGate | crates/sidevers-net/src/reputation.rs:24-48 | With the shipped policy the gate is that test at 100 and 10 a second |
| Reputations.CountersExactly | crates/sidevers-net/src/reputation.rs:141-225 | After any run, envelopes seen, rate-limit hits, last seen and last misbehaviour are what happened |
| Reputations.RefusedExactly | crates/sidevers-net/src/reputation.rs:174-225 | A peer is refused exactly when refused by hand or a threshold was reached since it was last reinstated |
| Reputations.RefusedByCountExactly | crates/sidevers-net/src/reputation.rs:174-200 | Never refused by hand, exactly when the failures since the last reinstatement reach a threshold |
| Reputations.ShippedThresholds | crates/sidevers-net/src/reputation.rs:33-39 | With the shipped policy: 10 failed signatures or 25 malformed payloads |
| Reputations.PassedBound | crates/sidevers-net/src/reputation.rs:141-169 | Over any run, refusals and reinstatements included, no window passes more than capacity + refill x length |
| Reputations.ShippedPassedBound | crates/sidevers-net/src/reputation.rs:44-48 | With the shipped policy: 100 and 10 a second |
| HandshakeLimits.HandshakeLimiter.TryAcquire | crates/sidevers-net/src/handshake_limit.rs:58-79 | Idle sources are dropped, then the source's bucket refilled and one token taken if there is one |
| HandshakeLimits.AcquiredExactly | crates/sidevers-net/src/handshake_limit.rs:58-79 | Source by source, in the rule's fields: who is forgotten, what is at hand, and what is left |
| HandshakeLimits.ForgettingIsUnseenExactly | crates/sidevers-net/src/handshake_limit.rs:20-30 | Over every run of every source, forgetting changes no verdict exactly when an hour refills a burst |
| HandshakeLimits.DrainedDiverges | crates/sidevers-net/src/handshake_limit.rs:58-79 | Otherwise a drained source left idle for an hour is answered differently |
| HandshakeLimits.HandshakesAreMinPlus | crates/sidevers-net/src/handshake_limit.rs:58-79 | Acceptance is the window test, and no window exceeds burst + refill x length |
| HandshakeLimits.ShippedLimits | crates/sidevers-net/src/handshake_limit.rs:20-30 | With the shipped limits forgetting is unseen, and no window holds more than 8 and 2 a second |
| Sybil.IpSybilTracker.Observe | crates/sidevers-net/src/reputation.rs:345-368 | The window rolls, a known key is free, a new one costs quota |
| Sybil.TwoQuotas | crates/sidevers-net/src/reputation.rs:345-368 | Any stretch of one window's length lets in at most two quotas of distinct keys |
| Sybil.TwoQuotasExactly | crates/sidevers-net/src/reputation.rs:345-368 | For every run and source, exactly when windows have a length or the quota is zero |
| Sybil.DecidedExactly | crates/sidevers-net/src/reputation.rs:345-368 | After any run, whatever the clock did, a key is let in exactly when it was let in since the call that opened the window, or fewer than the quota were |
| Sybil.ShippedDecision | crates/sidevers-net/src/reputation.rs:262-267 | With the shipped policy: 16 keys in windows of an hour |
| Sybil.ShippedQuota | crates/sidevers-net/src/reputation.rs:262-267 | With the shipped policy: 32 keys in any hour |
| Sides.Side.LoadOrCreate | crates/sidevers-net/src/side.rs:98-192 | Existing rows are loaded whole; otherwise a fresh row is written and the side starts empty |
| Sides.Side.UpdateRelationship | crates/sidevers-net/src/side.rs:274-288 | Memory is changed in place under the given address, the store under the address the change gives |
| Sides.Side.SetProfile | crates/sidevers-net/src/side.rs:214-222 | Memory and store both take the profile |
| Sides.Side.AddRelationship | crates/sidevers-net/src/side.rs:252-257 | Memory takes the relationship, the store its upsert |
| Sides.Side.RemoveRelationship | crates/sidevers-net/src/side.rs:259-264 | Gone from both |
| Sides.Side.MarkRetiredSeen | crates/sidevers-net/src/side.rs:232-242 | Recorded in both |
| Sides.Side.SetLifecycle | crates/sidevers-net/src/side.rs:302-308 | Set in memory, and the whole side row persisted |
| Sides.Side.RefreshLifecycle | crates/sidevers-net/src/side.rs:310-323 | Nothing on a retired side; otherwise derived from the last send and persisted |
| Sides.Side.TouchSend | crates/sidevers-net/src/side.rs:326-341 | The last send is stamped, Created becomes Active, the row is persisted |
| Sides.Side.SetSelfRetired | crates/sidevers-net/src/side.rs:345-353 | The flag and the lifecycle, in memory and in the row |
| Sides.Side.AddCoHolder | crates/sidevers-net/src/side.rs:401-418 | Recorded in both with time and adder |
| Sides.Side.RemoveCoHolder | crates/sidevers-net/src/side.rs:420-429 | Gone from both |
| Sides.Side.AddRevokedDevice | crates/sidevers-net/src/side.rs:435-445 | Recorded in both |
| Sides.Side.RecordCoHolderAddr | crates/sidevers-net/src/side.rs:472-486 | The latest address in both |
| Sides.Side.ApplyDelta | crates/sidevers-net/src/side.rs:510-606 | What each co-holder's change does to memory and store |
| Sides.SideStore.UpsertRelationship | crates/sidevers-net/src/side_store.rs:392-419 | On conflict every column is replaced but the time added; the capabilities are what their column gives back |
| Capabilities.Encode | crates/sidevers-net/src/side_store.rs:838-847 | The column built token by token reads back as the tokens' pieces |
| Capabilities.DecodedJoined | crates/sidevers-net/src/side_store.rs:838-854 | Whatever the order of the tokens, decoding the column gives exactly their pieces |
| Capabilities.RereadExactly | crates/sidevers-net/src/side_store.rs:838-854 | The tokens survive exactly when none holds a newline character and they are not the empty token alone |
| Sides.SideStore.UpsertSide | crates/sidevers-net/src/side_store.rs:202-224 | On conflict every column is replaced but the creation time |
| Sides.SideStore.AddRetiredSeen | crates/sidevers-net/src/side_store.rs:352-366 | A row that is there already stays as it is |
| Sides.SideStore.AddRevokedDevice | crates/sidevers-net/src/side_store.rs:544-558 | Likewise for revoked devices |
| Sides.LifecycleRoundTrip | crates/sidevers-net/src/side.rs:627-644 | Every lifecycle is parsed back from its label |
| SideSteps.ParsesExactly | crates/sidevers-net/src/side.rs:627-644 | Three labels are known and any other reads as Created |
| SideSteps.DerivesExactly | crates/sidevers-net/src/relationships.rs:138-154 | Retired, created, or active for 7776000 seconds after the last send and dormant from then on |
| SideSteps.RecordsExactly | crates/sidevers-net/src/side.rs:609-625 | A co-holder's record read field by field, with no local endpoint |
| SideSteps.ProfileStep | crates/sidevers-net/src/side.rs:510-530 | Exactly which operations change the profile in memory, and to what |
| SideSteps.RelationshipsStep | crates/sidevers-net/src/side.rs:252-288 | Likewise the relationships |
| SideSteps.LifecycleStep | crates/sidevers-net/src/side.rs:302-353 | Likewise the lifecycle |
| SideSteps.CoHoldersStep | crates/sidevers-net/src/side.rs:401-429 | Likewise the co-holders: a revoked device and the side itself are not let in |
| SideSteps.AddressesStep | crates/sidevers-net/src/side.rs:472-486 | Likewise the dial addresses |
| SideSteps.SeenStep | crates/sidevers-net/src/side.rs:232-242 | Likewise the retired and revoked keys seen |
| SideSteps.RowStep | crates/sidevers-net/src/side_store.rs:202-224 | Exactly which operations write the side's row, and that it then holds memory's values and the first creation time |
| SideSteps.RelationshipRowsStep | crates/sidevers-net/src/side_store.rs:392-419 | Exactly which relationship each operation writes or deletes in the store, and what the store then holds |
| SideRuns.ReloadExactly | crates/sidevers-net/src/side.rs:214-393 | Each operation keeps a reload exact, exactly when it does not rewrite a known relationship's time or address nor write capabilities the column loses |
| SideRuns.ReloadsAreInvisible | crates/sidevers-net/src/side.rs:98-192 | Over such a run, crashes and reloads anywhere change nothing |
| SideRuns.FreshSideIsFaithful | crates/sidevers-net/src/side.rs:160-190 | A side created on an empty store starts with its rows matching memory |
| SideRuns.ReloadLosesOnly | crates/sidevers-net/src/side_store.rs:392-419 | From creation on, over every run that keeps relationships under their address, a reload loses only times added and capabilities the column loses |
| SideRuns.NearlyFaithfulStep | crates/sidevers-net/src/side.rs:214-393 | Each operation and each reload keeps that so |
| SideRuns.RetiredStaysExactly | crates/sidevers-net/src/side.rs:555-567 | A retired side leaves retirement exactly by hand, or by a co-holder's change when it did not retire itself |
| SideRuns.SelfRetirementIsSticky | crates/sidevers-net/src/side.rs:302-353 | After a self-retirement no run of sends, refreshes, changes and reloads brings the side back |
| SideConvergence.AppliedIsMerged | crates/sidevers-net/src/side.rs:510-606 | Without restarts, the set of merging changes alone decides profile, relationships, retired, revoked and co-holders: latest wins, removal wins |
| SideConvergence.SameChangesAgree | crates/sidevers-net/src/side.rs:510-606 | Agreeing holders that apply the same changes in any order, with repetitions, their own clocks and restarts that find rows and memory alike, still agree |
| SideConvergence.ConvergesExactly | crates/sidevers-net/src/side.rs:516-553 | Without restarts: from every state and in every order, exactly when stamps tell different versions apart |
| SideConvergence.RestartsConvergeExactly | crates/sidevers-net/src/side.rs:98-192 | With restarts at any moment: exactly when each address gets one version, with the time it has already and capabilities the column keeps |
| Mailboxes.Mailbox.Drain | crates/sidevers-net/src/forward.rs:58-63 | The recipient's queue is removed and its live messages returned in store order |
| Mailboxes.Mailbox.Store | crates/sidevers-net/src/forward.rs:44-54 | The message joins the end of its recipient's queue, its life cut to the default |
| Mailboxes.Mailbox.Sweep | crates/sidevers-net/src/forward.rs:76-87 | Exactly the live messages stay, and empty queues are forgotten |
| Mailboxes.DrainReturnsPending | crates/sidevers-net/src/forward.rs:44-87 | After any run a drain returns the live messages stored since the last drain, and sweeps make no difference |
| Mailboxes.PendingLifeBounded | crates/sidevers-net/src/forward.rs:44-54 | No message is ever held to live longer than the default |
| Mailboxes.Redeliver | crates/sidevers-net/src/node.rs:1941-1984 | The messages sent are the live ones whose attempt succeeds; every live failure is stored with its remaining life; the counts agree; other tasks use the mailbox between its locks, and alone the queue then holds exactly those failures |
| Mailboxes.OutcomesExactly | crates/sidevers-net/src/node.rs:1958-1982 | Message by message, in order: a live one is sent exactly when its attempt succeeds and fails exactly when it does not; a dead one neither |
| Mailboxes.RestoresExactly | crates/sidevers-net/src/node.rs:1970-1981 | What each failure puts back: its envelope, from the store's clock, for what the loop's clock left of it, at most a week |
| Mailboxes.TraceExactly | crates/sidevers-net/src/node.rs:1958-1982 | The stores, turn by turn, among what other tasks do |
| Mailboxes.UnexpiredExactly | crates/sidevers-net/src/forward.rs:58-63 | A drain's list is the messages expiring after now, at their places, and no other |
| Mailboxes.NothingIsLost | crates/sidevers-net/src/node.rs:1941-1984 | The envelopes drained are those sent, those dead already and those put back, each once |
| Mailboxes.RedeliveryLosesNothing | crates/sidevers-net/src/node.rs:1941-1984 | In any run, what is put back is pending for the peer's next drain unless another task drains it, and alone it is all the queue holds |
| Mailboxes.RedeliveryKeepsExpiryExactly | crates/sidevers-net/src/node.rs:1958-1978 | A message put back keeps its expiry exactly when the clock stood still; otherwise it lives longer |

## Left out

- Ed25519, BLAKE3, X25519, HKDF, ChaCha20-Poly1305 and the random generator: uninterpreted, or fresh numbers for content keys; no adversary.
- QUIC, streams, timeouts, dialling, certificate pins, metrics, telemetry, logging and the text of errors.
- SQLite: the journal and the side's rows are maps whose writes succeed; malformed journal rows and times from 2^63 on in the journal's signed column are not modelled.
- The decoders' optional locals: a record starts blank and its fields are filled in key order, so the branch for a key never seen, which a fixed key sequence cannot reach, is absent.
- `assert_canonical`, negative integers and booleans in the codec, and the codecs of the message payloads, membership tokens and keystore: one more instance each of the same pattern, or a library.
- Verse messages reach one host: routing between several hosted verses by contract hash or address is not modelled, nor is the post store or the fan-out of posts.
- Which stashed key push a member finds: stashing happens in spawned tasks that finish in any order, so nothing is claimed about it being the newest.
- A join handler enrols the side its request names; whether that is the sender is decided outside the modelled lines.
- Floating-point rounding in the token buckets: tokens are exact reals. In the reputation table they are whole in the source too, below 2^53.
- Clocks that go back: the methods and the one-call lemmas (and `Sybil.DecidedExactly`) follow the code, the other lemmas over runs assume a clock that does not.
- The number `Mailbox::sweep` returns, `len_for`, and the wrap-around of an expiry within seven days of 2^64.
- Dial addresses and local times in convergence, pending pairings, the wire form a profile is stored in, and a side's other rows in the store.
- SideConvergence.ConvergesExactly: excludes the profile-cleared, relationship-removed and lifecycle changes, which are unconditional in the source and follow arrival order.
- Gossip, peers, provenance, features, linkage, storage protocol, FFI, command line, desktop and mobile clients.
