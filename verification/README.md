# LCP in Dafny

LCP runs light clients inside an enclave (the ELC), signs what they report as proxy messages, and lets a
downstream LCP client replay those messages. This project models the five parts of that system in which
the hard guarantees live, and proves them for every input, every run and every interleaving:

* **The transactional host store** (`RocksDb`, `RocksDbStore`, `StoreSafety`, `Serial`, `Serialisability`,
  `ClientContext`, `CommandRuns`, `FreshIds`, `CreationRun`, `MemStore`, `CacheKvs`, `TwoStores`). Handles,
  mutexes with their reference counts, the mutex table, running transactions with their snapshots and
  buffers, and the committed data form one state. Every call under the store's write lock is one step, and
  so are taking a mutex and dropping a handle. `RocksDbStore` is the store as a class whose methods are proved
  to be those steps.
* **The LCP client** (`LcpClient`, `LcpStore`). A state machine over what is stored for one client, and the
  methods that carry it out on the path-keyed store.
* **Aggregation** (`Messages`, `LcpAggregation`, `EnclaveAggregation`).
* **Encoding** (`Types`, `ByteCodec`, `Abi`, `ProtoAny`, `MessageCodec`, `Layout`, `Reencoding`, `Paths`). The
  byte layout is that of Ethereum's Contract ABI Specification, section "Formal Specification of the Encoding".
* **State identifiers and the relay** (`StateIdGen`, `TendermintElc`, `Relay`). The Tendermint client in the
  enclave, the LCP client, and any relaying of messages between them.

A call that the program refuses, whether it returns an error or panics, is modelled as a `None`: it
changes nothing. SHA-256, Keccak, signing, recovery and the checks of ibc-rs are function-valued
parameters. Two contracts are assumed of them and stated as predicates: `MessageCodec.Sound` (a signature
recovers its signer) and `TendermintElc.IbcContract` (an update changes only the latest and the frozen
height of a client state, and returns a consensus state already installed at that height unchanged).

Five results say where the code falls short of what one might expect, with an input that shows it and
the exact condition under which the code does meet the expectation:

* an aggregate of accepted messages gives the same client state exactly if no part overshoots both the
  client's latest height and the last post height (`LcpAggregation.AggregateFaithful`, with the input
  `LcpAggregation.OvershootDiffers`);
* a valid aggregate has only valid parts exactly if no trusting period ends beyond the last representable
  time (`Messages.AggregateComplete`, with the input `Messages.InvalidPartHidden`);
* bytes that decode are the encoding of what they decode to exactly if the reserved parts of both headers
  are zero and every `Any` is canonically encoded (`Reencoding.ReencodingExact`, with the inputs of
  `MessageCodec.ReservedBytesUnstable` and `Reencoding.ContextHeaderIgnored`);
* the mutex table holds an entry without a live handle exactly if the last handle of its key to end was
  dropped instead of finalised (`StoreSafety.TableIsExact`, with the input `StoreSafety.DroppedHandleLeaks`);
* a new client takes the id of an existing one exactly if that one was there when the store was opened
  (`FreshIds.NeverReplaces`), which does not happen before the client counter has wrapped
  (`FreshIds.NumbersStayBelowCounter`) and can happen then (`CreationRun.WrappedCounterReplaces`); the
  enclave is built without overflow checks (`enclave/Cargo.toml:52`).

Where a comment and the code disagree, the code is modelled: client identifiers may hold upper-case letters,
digits and punctuation (`modules/types/src/host.rs:74-118`), although the comment there speaks of lower-case
letters only.

`dafny verify dfyconfig.toml` checks the whole project.

## Model

| member | source | states |
|---|---|---|
| `Relay.StateIdsAgree` | modules/tendermint-lc/src/state.rs:82-115 | In every run of enclave updates, evidence, aggregation, key registration and deliveries in any order, the id the LCP client holds at a relayed height equals the id the enclave computes for that height then and at every later point. |
| `Relay.ComputedIdIsStored` | modules/tendermint-lc/src/client.rs:314-320 | An id the enclave computes at any point is the one stored by the LCP client at every later point at which that height has been relayed. |
| `Relay.TrustedUpdateMatches` | modules/lcp-client/src/client_def.rs:100-108 | An enclave update from a relayed trusted height passes the LCP client's previous-state check, whenever it is delivered. |
| `Relay.UpdateAcceptedExactly` | modules/lcp-client/src/client_def.rs:83-134 | A relayed update or aggregate is accepted if and only if its start was relayed (the first message: it emits a state), the start id is not all zero, the client is not frozen, a registered key signed it and its context is valid. |
| `Relay.EvidenceAcceptedExactly` | modules/lcp-client/src/client_def.rs:157-194 | Relayed evidence freezes the client if and only if the states it names were relayed, the client is not frozen and a registered key signed it. |
| `Relay.AdvanceDelivered` | modules/tendermint-lc/src/client.rs:314-343 | The message of an enclave update, delivered any time later in the run, is accepted at host time `now` if and only if: `now` is before the stored timestamp at the trusted height plus the stored trusting period, the header's time is before `now` plus the stored drift, both sums are representable, the trusted height was relayed (first message: state included), its id is not all zero, the client is not frozen and a registered key signed it. The entry written has the id the enclave computes for the header's height and the header's time in whole seconds; nothing else but the latest height changes. |
| `Relay.FreezeDelivered` | modules/tendermint-lc/src/client.rs:346-398 | The evidence message of an enclave, delivered any time later, freezes the client if and only if both trusted heights of the evidence were relayed, the client is not frozen and a registered key signed it; nothing else changes. |
| `Relay.MembershipAcceptedExactly` | modules/lcp-client/src/client_def.rs:197-237 | A membership message made by the enclave for prefix, path, value and height is accepted for any other prefix, path, value and height if and only if prefix, path and height are equal, the values have the same hash and it is not all zero, the height was relayed, the named signer signed the message and its key is unexpired. |
| `Relay.FaithfulNext` | modules/tendermint-lc/src/client.rs:314-343 | Every event keeps the invariant: signed messages and LCP entries name installed heights with their ids. |
| `TendermintElc.ComputeStateId` | modules/tendermint-lc/src/state.rs:107-115 | Computes the state id, which `TendermintElc.SidForgetsOnlyHeights` characterises. |
| `TendermintElc.CanonicalizeExact` | modules/tendermint-lc/src/state.rs:82-105 | Two client states canonicalise to the same state if and only if all their parameters are equal; exactly the states at height zero of the chain's revision and not frozen are left as they are. |
| `TendermintElc.SidForgetsOnlyHeights` | modules/tendermint-lc/src/state.rs:82-115 | A state id is the hash of bytes that are equal for two pairs of states if and only if the parameters and the consensus states are equal, as far as the encodings of these states differ. |
| `TendermintElc.SidIgnoresHeights` | modules/tendermint-lc/src/state.rs:82-105 | Client states that differ only in latest and frozen height have the same state id. |
| `TendermintElc.SidStable` | modules/tendermint-lc/src/state.rs:80-115 | A height keeps its state id over every later state of the client. |
| `TendermintElc.UpdateExtends` | modules/tendermint-lc/src/client.rs:285-312 | An update changes no installed consensus state and no parameter. |
| `TendermintElc.UpdateIds` | modules/tendermint-lc/src/client.rs:317-343 | Both ends of an update message carry the ids of the heights they name, as the updated client computes them. |
| `TendermintElc.AdvanceExact` | modules/tendermint-lc/src/client.rs:225-312 | An update happens if and only if the client is not frozen, its latest consensus state is there, not from the future and not expired, the trusted height is installed and ibc-rs accepts the header; it stores the checked states. |
| `TendermintElc.AdvanceMessage` | modules/tendermint-lc/src/client.rs:322-343 | The context of an update message is valid at a time if and only if that time is before the trusted consensus state's time plus the trusting period and the header's time is before it plus the drift, both representable; the message has the header's time and, exactly on request, emits the new client state at the header's height. |
| `TendermintElc.FreezeExact` | modules/tendermint-lc/src/client.rs:346-398 | Evidence is turned into a message if and only if the client is not frozen, ibc-rs accepts it and both trusted heights are installed; the message names them in order with their ids. |
| `TendermintElc.AttestExact` | modules/tendermint-lc/src/client.rs:104-223 | A membership or non-membership message is made if and only if the client is not frozen, the height is installed, non-zero and not above the latest, and the proof verifies; it carries the arguments, the value's hash if any, and the height's id. |
| `TendermintElc.MakePrevStates` | modules/tendermint-lc/src/client.rs:400-426 | The loop yields, in order, each height with its state id, and fails exactly if a height is not installed. |
| `TendermintElc.PrevStatesIds` | modules/tendermint-lc/src/client.rs:400-426 | As many previous states as heights, each with the id of its height. |
| `TendermintElc.EnclaveClient.UpdateClient` | enclave-modules/ecall-handler/src/light_client/update_client.rs:11-44 | The handler stores the new client and consensus state and returns the message that `TendermintElc.AdvanceExact` and `TendermintElc.AdvanceMessage` describe, or changes nothing. |
| `TendermintElc.EnclaveClient.SubmitEvidence` | enclave-modules/ecall-handler/src/light_client/update_client.rs:45-52 | The handler stores the new client state and returns the evidence message, or changes nothing. |
| `StateIdGen.BuildPreimage` | modules/commitments/src/state.rs:50-61 | The buffer ends up as zeros of the client's length, the consensus encoding, the client encoding. |
| `StateIdGen.Parts` | modules/commitments/src/state.rs:50-61 | The hashed bytes are as many zeros as the client state has bytes, the consensus state, then the client state. |
| `StateIdGen.PreimageInjective` | modules/commitments/src/state.rs:50-68 | The hashed bytes determine the client state and the consensus state. |
| `ProtoAny.AnyRoundTrip` | modules/types/src/any.rs:60-90 | Decoding the protobuf encoding of an `Any` gives it back. |
| `ProtoAny.AnyInjective` | modules/types/src/any.rs:60-90 | Different `Any` values have different encodings. |
| `ProtoAny.VarintMeans` | modules/types/src/any.rs:60-90 | A length is written as its shortest base-128 form, least significant digit first, with the high bit set on all bytes but the last. |
| `ProtoAny.AnyLayout` | modules/types/src/any.rs:60-90 | An `Any` with short fields is tag 10, length and type URL, then tag 18, length and value. |
| `LcpAggregation.AggregationPreservesMeaning` | modules/commitments/src/message/update_state.rs:44-102 | For messages with nondecreasing post heights accepted one by one, the signed aggregate is accepted and gives the same client state, keys and final consensus state, and the same entries except at intermediate heights. |
| `LcpAggregation.AggregateAccepted` | modules/lcp-client/src/client_def.rs:83-134 | If the parts are accepted one by one at a time, so is their aggregate when a registered key signed it. |
| `LcpAggregation.AggregateFaithful` | modules/lcp-client/src/client_state.rs:26-33 | Same keys, same final entry, same entries except at intermediate heights; the same client state if and only if no part overshoots. |
| `LcpAggregation.AppliedIsStepping` | modules/lcp-client/src/client_def.rs:124-133 | The one-by-one views are the results of the client's own steps. |
| `LcpAggregation.OvershootDiffers` | modules/lcp-client/src/client_state.rs:26-33 | A client at height 1 accepts messages 1→5 and 5→3 and ends at 5; it also accepts their aggregate 1→3 and ends at 3. |
| `Messages.AggregateMessages` | modules/commitments/src/message/update_state.rs:88-102 | The loop computes the left fold, failing on the empty list and at the first failing pair. |
| `Messages.AggregateExact` | modules/commitments/src/message/update_state.rs:44-102 | Messages aggregate if and only if there is one, each continues the state in which the one before it ends, and all trusting-period contexts have one period and drift; the context then has these, the latest header time and the earliest trusted time. |
| `Messages.AggregateEnds` | modules/commitments/src/message/update_state.rs:58-67 | An aggregate starts like the first message, ends like the last one with its time, and emits all states in order. |
| `Messages.ContextWindow` | modules/commitments/src/context.rs:195-237 | A context is valid at a time if and only if the time is before the trusted time plus the period and the header time is before the time plus the drift, both sums representable. |
| `Messages.ContextMonoid` | modules/commitments/src/context.rs:45-79 | Context aggregation is associative, also in when it fails, with `Empty` as two-sided identity. |
| `Messages.JoinAssociative` | modules/commitments/src/message/update_state.rs:44-68 | Message aggregation is associative, also in when it fails. |
| `Messages.AggregateSplit` | modules/commitments/src/message/update_state.rs:88-102 | Splitting a list anywhere, aggregating both parts and joining them equals aggregating the list. |
| `Messages.AggregateSound` | modules/commitments/src/context.rs:45-79 | If every context is valid at a time, the aggregated context is valid then. |
| `Messages.AggregateComplete` | modules/commitments/src/context.rs:195-237 | A valid aggregate has only valid parts if and only if no trusting period overruns the maximum time. |
| `Messages.InvalidPartHidden` | modules/types/src/time.rs:77-83 | A concrete valid aggregate with an invalid part. |
| `EnclaveAggregation.NeverSignsInvalid` | enclave-modules/ecall-handler/src/light_client/aggregate_messages.rs:32-48 | The enclave signs only an aggregate that is valid, with a context valid at its own time. |
| `EnclaveAggregation.SignsExactly` | enclave-modules/ecall-handler/src/light_client/aggregate_messages.rs:12-64 | For arbitrary messages and signatures the command signs if and only if there are at least two messages and as many signatures, each message decodes to an update that recovers to this enclave's address over its re-encoding and whose context is valid now, and the updates aggregate to a valid message; it signs the encoding of exactly that. |
| `EnclaveAggregation.AggregatesOwnMessages` | enclave-modules/ecall-handler/src/light_client/aggregate_messages.rs:12-64 | On messages this enclave signed the command succeeds if and only if their contexts hold and the decoded messages aggregate to a valid message, and it signs exactly that. |
| `Abi.AbiRoundTrip` | modules/commitments/src/encoder.rs:8-12 | Strict decoding of the head/tail encoding of every typed value gives the value back. |
| `Abi.DecodesExactly` | modules/commitments/src/encoder.rs:8-12 | Bytes decode to a value of a type if and only if they are the encoding of that value. |
| `Abi.AbiAligned` | modules/commitments/src/encoder.rs:8-12 | The length of every encoding is a multiple of 32. |
| `Abi.FrameLayout` | modules/commitments/src/encoder.rs:8-12 | A static component stands in the heads; a dynamic one stands behind all heads and earlier tails, and its head is that distance. |
| `Layout.EnvelopeLayout` | modules/commitments/src/message.rs:38-48 | A message is the offset 32, schema version 1 and message type 1, 2 or 3 in two bytes each, 28 zeros, the offset 64, and the padded body. |
| `Layout.EmptyContextLayout` | modules/commitments/src/context.rs:26-43 | The bytes of the empty context. |
| `Layout.PeriodContextLayout` | modules/commitments/src/context.rs:250-272 | The bytes of a trusting-period context: header time, trusted time, period and drift in this order, sixteen bytes of nanoseconds each. |
| `Layout.UpdateLayout` | modules/commitments/src/message/update_state.rs:104-138 | What stands at which position of an encoded update: heights, ids and time in order, two offsets, context, emitted states, and no more. |
| `Layout.MembershipLayout` | modules/commitments/src/message/verify_membership.rs:34-54 | What stands at which position of an encoded membership message: two offsets, value, height, id, prefix, path, and no more. |
| `Layout.MisbehaviourLayout` | modules/commitments/src/message/misbehaviour.rs:40-89 | What stands at which position of encoded evidence: three offsets, previous states, context, client message, and no more. |
| `Layout.PrevStatesLayout` | modules/commitments/src/message/misbehaviour.rs:40-51 | The number of previous states, then revision, height and id of each, 96 bytes apart. |
| `Layout.EmittedStatesLayout` | modules/commitments/src/encoder.rs:21-24 | The number of emitted states, the offset of each, and at it the height, the offset 96 and the padded protobuf bytes. |
| `Layout.EmptyEvidenceBytes` | modules/commitments/src/message.rs:140-160 | One whole message word by word. |
| `MessageCodec.ContextRoundTrip` | modules/commitments/src/context.rs:97-134 | Decoding an encoded validation context gives it back. |
| `MessageCodec.DecodeEncode` | modules/commitments/src/message.rs:140-194 | Decoding an encoded proxy message gives it with zero optional height, state id or value turned into absent. |
| `MessageCodec.ReceivedValidates` | modules/commitments/src/message.rs:57-64 | A transported update validates if and only if its previous height and id are both zero or absent, or neither is; a membership message if path, height and id are not empty or zero; evidence if it has previous states. |
| `MessageCodec.ReencodingStable` | modules/commitments/src/message.rs:29-40 | Encoding the decoded message gives the same bytes. |
| `MessageCodec.ReservedBytesUnstable` | modules/commitments/src/message.rs:42-48 | An encoding with other reserved message-header bytes decodes to the same message and, among these, is stable if and only if they are zero. |
| `Reencoding.ReencodingExact` | modules/commitments/src/message.rs:140-194 | For all bytes that decode: encoding the message again gives them back if and only if the reserved parts of message header and context header are zero and every `Any` field is its canonical encoding. |
| `Reencoding.ContextExact` | modules/commitments/src/context.rs:81-134 | For all bytes that decode to a context: encoding it again gives them back if and only if bytes 2 to 31 of the header are zero. |
| `Reencoding.ContextHeaderIgnored` | modules/commitments/src/context.rs:81-93 | Context bytes with other reserved header bytes decode to the same context and differ from its encoding. |
| `MessageCodec.SignatureSurvivesTransport` | modules/commitments/src/prover.rs:6-19 | A signature over an encoded message recovers its signer after decoding and re-encoding. |
| `Types.HeightOrder` | modules/types/src/height.rs:69-83 | Heights are totally ordered like the numbers made of revision and height; the maximum is one of the two and an upper bound. |
| `LcpClient.RunInvariants` | modules/lcp-client/src/client_def.rs:24-194 | Over every run the latest height never decreases and has a consensus state, measurement and key expiration never change, entries and keys are never removed, and a frozen client's state and entries stay fixed. |
| `LcpClient.KeyProvenance` | modules/lcp-client/src/client_def.rs:136-155 | Every registered key has a latest registration with the client's measurement, made no later than the attestation's time plus the key expiration, and its expiry is that sum in whole seconds. |
| `LcpClient.EntryProvenance` | modules/lcp-client/src/client_def.rs:124-133 | Every stored consensus state is the initial one or was written by an accepted message that recovers to a key registered before. |
| `LcpClient.PrevProvenance` | modules/lcp-client/src/client_def.rs:96-108 | A message accepted while the latest height is non-zero starts from the initial entry or the post state of an earlier accepted message. |
| `LcpClient.MembershipBeforeExpiry` | modules/lcp-client/src/client_def.rs:253-264 | When a membership proof is accepted, host time is strictly before the latest attestation time plus the key expiration. |
| `LcpClient.ActiveUntilLastSecond` | modules/types/src/time.rs:37-42 | The expiry check passes at every time at least one second before that instant. |
| `LcpClient.KeyExpiryExact` | modules/lcp-client/src/client_def.rs:283-314 | A report is acceptable if and only if host time is not after attestation time plus key expiration, that sum is representable and the measurement is the client's; the expiry is the sum in whole seconds. |
| `LcpClient.InitialiseExact` | modules/lcp-client/src/client_def.rs:24-47 | When a client can be created, and that it stores the measurement, the frozen flag and the key expiration of the arguments. |
| `LcpClient.MembershipWithinArguments` | modules/lcp-client/src/client_def.rs:253-264 | A proof accepted by a client was signed with a key attested for the measurement the client was created with, before that attestation's time plus the key expiration it was created with. |
| `LcpClient.FrozenFromStart` | modules/lcp-client/src/client_def.rs:83-194 | A client created frozen never accepts an update or evidence. |
| `LcpClient.AcceptedInTime` | modules/lcp-client/src/client_def.rs:110-122 | Every update and all evidence accepted in a run is within its trusting period and its header is not from the future, at the host time of the call. |
| `LcpClient.ProofFixesQuestion` | modules/lcp-client/src/client_def.rs:197-237 | The same proof bytes are never accepted, by whichever client and whenever, for two questions that differ in prefix, path, height or the value's hash. |
| `LcpStore.Store.Set` | modules/light-client/src/path.rs:4-42 | Writing one path changes the entry of its key and of no other key. |
| `LcpStore.Initialise` | modules/lcp-client/src/client_def.rs:24-47 | Stores the initial states if all assertions hold, else changes nothing; other clients' entries never change. |
| `LcpStore.UpdateState` | modules/lcp-client/src/client_def.rs:83-134 | Accepts exactly the acceptable updates, then stores both states; a refused update changes nothing. |
| `LcpStore.AllStored` | modules/lcp-client/src/client_def.rs:170-175 | The loop succeeds exactly if every named previous state is stored with its id. |
| `LcpStore.SubmitMisbehaviour` | modules/lcp-client/src/client_def.rs:157-194 | Accepts exactly the acceptable evidence, then freezes the client; refused evidence changes nothing. |
| `LcpStore.RegisterEnclaveKey` | modules/lcp-client/src/client_def.rs:136-155 | Stores the key's expiry exactly if the report is acceptable now. |
| `LcpStore.UpdateClient` | modules/lcp-client/src/client_def.rs:50-81 | Dispatches to exactly the client's step; nothing changes on failure, and no other client's entry ever. |
| `LcpStore.VerifyMembership` | modules/lcp-client/src/client_def.rs:197-237 | Accepts exactly the acceptable proofs: all fields and the value's hash match, the id is stored, the signer signed and is unexpired. |
| `LcpStore.IsActiveEnclaveKey` | modules/lcp-client/src/client_def.rs:253-264 | True exactly if the key is stored and host seconds are before its expiry. |
| `LcpStore.OthersKept` | modules/lcp-client/src/client_def.rs:316-320 | What the store holds for another client is unchanged by any call. |
| `Paths.PathsNeverCollide` | modules/light-client/src/path.rs:4-42 | Different keys of validated clients have different paths, the counter included. |
| `Paths.ClientIdInjective` | enclave-modules/ecall-handler/src/light_client/init_client.rs:42-44 | Type and counter are recoverable from a generated client id. |
| `Paths.AsciiClientId` | modules/types/src/host.rs:74-118 | An ASCII client id is valid if and only if it has 9 to 64 characters, all of them letters, digits or one of nine punctuation marks. |
| `Paths.RenderedPaths` | modules/light-client/src/path.rs:4-42 | The paths of a client's type, client state and consensus states. |
| `RocksDb.InvNext` | modules/store/src/rocksdb.rs:62-203 | Every step keeps: table, live mutexes, reference counts, held mutexes, handles and running transactions agree. |
| `RocksDb.CreateExact` | modules/store/src/rocksdb.rs:127-158 | Creating a transaction fails if and only if the ids are used up or, in a writable store, the update key is empty; each call with ids left uses one up; the new handle is unprepared with the key (none in a read-only store) and nothing else changes for other handles. |
| `StoreSafety.MutualExclusion` | modules/store/src/rocksdb.rs:127-158 | In every interleaving the live handles of an update key share the table's mutex, its count is one plus those handles, and at most one of them is prepared. |
| `StoreSafety.BegunIsRunning` | modules/store/src/rocksdb.rs:160-192 | In every run a live handle has a running transaction if and only if some earlier step began it. |
| `StoreSafety.FinalizeSucceeds` | modules/store/src/rocksdb.rs:62-83 | Finalising a live handle never meets a missing table entry, and finds its transaction if and only if some earlier step of the run began the handle. |
| `StoreSafety.CollectsExactly` | modules/store/src/rocksdb.rs:69-75 | Finalising removes the table entry of its key if and only if no other live handle has that key, and no other entry. |
| `StoreSafety.TableIsExact` | modules/store/src/rocksdb.rs:62-83 | In every interleaving, drops included, the table names an update key if and only if a live handle has it or the last handle of that key to end was dropped. |
| `StoreSafety.NothingLeaks` | modules/store/src/rocksdb.rs:62-83 | As long as no handle was dropped, the table names exactly the update keys of the live handles. |
| `StoreSafety.DroppedHandleLeaks` | modules/enclave-api/src/api/primitive.rs:21-25 | A handle dropped without being finalised can leave its table entry behind. |
| `StoreSafety.NoDeadlock` | modules/enclave-api/src/enclave.rs:80-85 | Every reachable state with a live handle lets some handle prepare, begin or commit. |
| `StoreSafety.AllHandlesCanEnd` | modules/enclave-api/src/enclave.rs:78-97 | From every state all live handles can end within three steps each. |
| `RocksDbStore.RocksDBStore.constructor` | modules/store/src/rocksdb.rs:30-38 | A new store is the initial state. |
| `RocksDbStore.RocksDBStore.CreateTransaction` | modules/store/src/rocksdb.rs:127-158 | Is the create step, refusals included; the handle returned is live, new and unprepared. |
| `RocksDbStore.RocksDBStore.Prepare` | modules/store/src/rocksdb.rs:405-429 | Is the prepare step of a handle whose mutex is free. |
| `RocksDbStore.RocksDBStore.Begin` | modules/store/src/rocksdb.rs:160-192 | Is the begin step: a snapshot of the kind the store and the handle call for. |
| `RocksDbStore.RocksDBStore.TxGet` | modules/store/src/rocksdb.rs:296-314 | Reads the transaction's own writes over its snapshot; unknown transactions are reported. |
| `RocksDbStore.RocksDBStore.TxPut` | modules/store/src/rocksdb.rs:110-121 | Is the put step; an unknown transaction changes nothing. |
| `RocksDbStore.RocksDBStore.Finalize` | modules/store/src/rocksdb.rs:62-83 | Panics if and only if `Begin` was never called with the handle, then for want of the transaction and never of the table entry; otherwise it is the commit or rollback step. |
| `Serialisability.Serialisable` | modules/store/src/rocksdb.rs:160-203 | With disjoint footprints, replaying the committed update transactions one after another on a plain map, per key in the order they took the mutex, gives the same reads and the committed data. |
| `Serialisability.RunningReadsAreCurrent` | modules/store/src/rocksdb.rs:325-350 | A running update transaction has seen what it would see if it ran now, alone. |
| `Serialisability.ReadsFromOnePrefix` | modules/store/src/rocksdb.rs:287-314 | Every transaction, read transactions included, has seen its own writes over the data left by one prefix of the commits. |
| `Serialisability.SerialisablePerKey` | modules/enclave-api/src/enclave.rs:78-97 | The data of an update key are what its own committed transactions alone, run serially, leave. |
| `ClientContext.EnclaveContext.ClientCounter` | modules/light-client/src/context.rs:60-69 | Reads the counter, from the host at most once: absent is zero, a value of another length aborts. |
| `ClientContext.CounterExact` | modules/light-client/src/context.rs:60-69 | The counter reads as a number if and only if it is absent and the number is zero, or it holds the number's eight big-endian bytes. |
| `ClientContext.EnclaveContext.IncreaseClientCounter` | modules/light-client/src/context.rs:113-119 | Stores the wrapped successor of the counter read before; the host sees only the write. |
| `ClientContext.EnclaveContext.InitClient` | enclave-modules/ecall-handler/src/light_client/init_client.rs:12-44 | On the caching store the command makes exactly the host accesses of its program. On success the new client's type, client state and consensus state are stored as given, each under its own path, the counter is the next one and every other key is unchanged; otherwise nothing is written. |
| `ClientContext.FinishedCreates` | enclave-modules/ecall-handler/src/light_client/init_client.rs:22-31 | A log that followed the program to its end found the counter, leaves the next number and the client's type, client state and consensus state as given, each under its own path, and writes nothing else. |
| `ClientContext.CreationStores` | enclave-modules/ecall-handler/src/light_client/init_client.rs:22-31 | Committing such a log on any data stores the three entries and the counter and changes no other key. |
| `CommandRuns.AllFollowNext` | modules/enclave-api/src/api/primitive.rs:13-41 | If every access is the next one of its command's program, then the log of every running command in the store is a prefix of that program, in every interleaving. |
| `CommandRuns.CounterIsCurrent` | modules/store/src/rocksdb.rs:338-350 | A creation that has written the counter saw its present value, by the mutex of a single type or by the store's conflict detection. |
| `CommandRuns.ExclusiveNext` | modules/store/src/rocksdb.rs:160-192 | With conflict detection on puts, a written key is unchanged since its writer's snapshot and written by no other running transaction. |
| `CommandRuns.StepGrows` | modules/enclave-api/src/api/primitive.rs:26-40 | Every step leaves data and commits alone or commits one finished command: a creation of the given client under the number in the counter, or an update of client and consensus states. |
| `FreshIds.CreationsAreNumbered` | modules/enclave-api/src/api/command.rs:86-97 | Over every interleaving of creations, of one type or of all types under conflict detection, with client updates, the committed creations are numbered consecutively from the initial counter. |
| `FreshIds.IdsNeverRepeat` | enclave-modules/ecall-handler/src/light_client/init_client.rs:22-44 | No two creations of a run, of whatever types, get the same id, whatever the initial counter. |
| `FreshIds.NeverReplaces` | modules/light-client/src/context.rs:72-120 | A committing creation has the next number; a client with its id is there before if and only if one was when the store was opened; afterwards its type, client state and consensus state are stored as given, the counter is the next one and no other key has changed. |
| `FreshIds.NumbersStayBelowCounter` | modules/light-client/src/context.rs:113-119 | If all clients' numbers are below the counter when the store is opened, they stay below it until it wraps. |
| `CreationRun.CreatesOnce` | modules/enclave-api/src/api/primitive.rs:13-41 | From every reachable state without live handles a creation can be run on the store up to its commit, and its log there is a creation's under the number in the counter. |
| `CreationRun.WrappedCounterReplaces` | modules/light-client/src/context.rs:113-119 | With the counter at its maximum and client zero present, a reachable second creation has number zero and is about to replace that client. |
| `CacheKvs.RepeatableReads` | modules/store/src/cache.rs:21-46 | However the parent answers, the results are those of a plain map from one fixed initial map. |
| `CacheKvs.AskedOnce` | enclave-modules/host-api/src/store.rs:7-10 | Every key is read from the parent at most once. |
| `CacheKvs.CacheKVS.Get` | modules/store/src/cache.rs:27-40 | Serves from the cache or asks the parent once; a coherent cache stays coherent and answers as the parent would. |
| `CacheKvs.CacheKVS.Set` | modules/store/src/cache.rs:22-25 | Writes through, keeping a coherent cache coherent. |
| `CacheKvs.CacheKVS.Remove` | modules/store/src/cache.rs:42-45 | Removes from both, keeping a coherent cache coherent. |
| `MemStore.InnerMemStore.Get` | modules/store/src/memory.rs:72-81 | Reads the overlay over the committed data while a transaction runs, else the committed data. |
| `MemStore.InnerMemStore.Put` | modules/store/src/memory.rs:83-97 | Updates the view at one key; the committed data only if no transaction runs. |
| `MemStore.InnerMemStore.CreateTransaction` | modules/store/src/memory.rs:117-123 | Gives out the next id, or refuses when the ids are used up. |
| `MemStore.InnerMemStore.Begin` | modules/store/src/memory.rs:125-129 | Marks a transaction as running. |
| `MemStore.InnerMemStore.Commit` | modules/store/src/memory.rs:131-143 | Whatever order the loop visits the overlay in, the committed data become the view. |
| `MemStore.InnerMemStore.Rollback` | modules/store/src/memory.rs:145-149 | Discards the overlay and keeps the committed data. |
| `TwoStores.SameScript` | modules/store/src/memory.rs:71-150 | One update transaction with a non-empty key gets the same answers from both stores and leaves the same data; a rollback leaves the data as before. |
| `TwoStores.SameRuns` | modules/store/src/rocksdb.rs:124-203 | Any sequence of such transactions gets the same answers from both stores and leaves the same data. |
| `TwoStores.EmptyKeyDiffers` | modules/store/src/rocksdb.rs:138-140 | With an empty update key only the in-memory store accepts the transaction. |

## Left out

- RocksDB's lock time-outs, and its conflict detection except where `CommandRuns.NoConflict` states it: elsewhere a put always succeeds. A put that conflicts ends its command by a panic, which the model leaves out of the run.
- Reads and writes of the host store outside a transaction, except that both stores hold the same committed data between transactions.
- Begin, commit and rollback errors that RocksDB itself reports, poisoned mutexes and locks, and the wait queue order of a mutex.
- The choice of an owner for a key in `Serialisability`: a run with disjoint footprints is given by a function from keys to update keys, which every family of disjoint sets defines.
- Stored bytes of client and consensus states (bincode and protobuf of the LCP client's own states): the store holds the decoded values; in `ClientContext` they are arbitrary bytes.
- Attestation report and certificate verification: a parsed quote with key address, measurement and attestation time is the input.
- Header, evidence and Merkle-proof verification of ibc-rs: parameters with the contract `TendermintElc.IbcContract`.
- Forged signatures: in `Relay` only messages the enclave signed are delivered; `LcpClient` itself accepts arbitrary messages and signatures.
- The unsigned message of `create_client` and the mock light client.
- The outer encoding of `CommitmentProof`: message, signer and signature are separate inputs of `LcpStore.VerifyMembership`.
- Times before the Unix epoch; their conversion to nanoseconds fails in the program.
- Unknown protobuf fields when decoding an `Any`: the decoder of the model refuses them, the program skips them.
- Non-ASCII letters in client identifiers are all admitted, a superset of what the program admits; so path separation is proved for more identifiers than occur.
- Error kinds: every refusal is the same `None`.
- Parsing of heights, `modules/keymanager`, the gRPC service, the command line, and SGX ecall and ocall buffers are outside the model.
- Serialisability.Serialisable: does not cover runs in which two update keys touch one key, where the store promises nothing.
