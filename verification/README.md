# Contract registry pallet, modelled in Dafny

The pallet `SmartContract` keeps a storage map `Contracts` from account to
uploaded code (a byte vector), a `u64` storage value `ContractCount`, and
deposits one event kind, `ContractUploaded(account)`. It has two
dispatchables:

- `upload_contract(origin, code)` requires a signed origin. It derives a
  storage key by SCALE-encoding the sender and decoding the bytes back as an
  account, and fails with `ContractNotFound` if that decode fails. It then
  inserts or overwrites the code under the key, adds one to the counter and
  deposits `ContractUploaded(key)`.
- `get_contract(origin, key)` requires a signed origin and fails with
  `ContractNotFound` when no code is stored under `key`. It never writes.

The model has three files:

- `Wrappers.dfy` holds `Option` and `Result`.
- `SmartContract.dfy` holds the data model: origins, errors, the event, the
  codec as a pair of functions, and the storage as one value `Storage`. It
  also holds the two dispatchables as pure transition functions (`Upload`,
  `Get`, and `Dispatch` for either), plus the class `Registry`. The class
  keeps the map, the counter and the event log as fields that
  `UploadContract` updates in place and `GetContract` only reads. Each
  method is proved against the transition function.
- `SmartContractProperties.dfy` covers sequences of calls. It proves that the
  counter equals the number of successful uploads, that code is never
  removed, and that the counter bounds the number of accounts holding code.
  It proves that an upload is read back by any signed caller and that a
  re-upload overwrites. It also shows that the decode-failure branch is
  reachable with a codec that does not round-trip. A client method
  (`Scenario`) replays three uploads and four lookups using only the class's
  contracts.

The account type is a type parameter, as the pallet is generic over the
runtime's `AccountId`. The codec is a parameter of the registry.
`RoundTrips(codec)` ("decode of encode is the identity") is never assumed. A
contract that relies on it says so in its `requires` or in the antecedent of
its `ensures`.

The model follows the code where the code and the system's written design
disagree:

- Errors are `BadOrigin` (from `ensure_signed`) and `ContractNotFound`. The
  code uses `ContractNotFound` both for the failed key derivation and for the
  absent key. It has no separate "unauthorized", "decode failure" and "not
  found" kinds.
- `get_contract` in the code returns `Ok(())` and only prints the code. The
  method `Registry.GetContract` returns the code it found as its success
  value, so that its contract can say what was looked up. The trace-level
  `Dispatch` keeps the code's unit result.

## Model

| member | source | states |
|---|---|---|
| `SmartContract.EnsureSigned` | SC_5400.rs:47 | a signed origin yields its signer; every other origin (root, none) fails with `BadOrigin` |
| `SmartContract.DeriveKey` | SC_5400.rs:50-51 | the storage key is the decode of the sender's encoding; when the codec round-trips it is the sender itself |
| `SmartContract.Upload` | SC_5400.rs:46-64 | succeeds iff the origin is signed and the key derivation succeeds. An unsigned origin gives `BadOrigin` and a failed derivation gives `ContractNotFound`, both with storage unchanged. On success the code is stored under the derived key, the key set grows by that key only, every other entry is unchanged, the counter rises by exactly 1 and exactly one `ContractUploaded(key)` is appended. Under round-trip the code sits under the sender. The invariant `Inv` is preserved |
| `SmartContract.Get` | SC_5400.rs:68-80 | succeeds iff the origin is signed and the key is present, returning the stored code. An unsigned origin gives `BadOrigin`; a signed origin with an absent key gives `ContractNotFound` |
| `SmartContract.Dispatch` | SC_5400.rs:37-82 | a lookup and every failing call leave storage unchanged; every call preserves `Inv` |
| `SmartContract.Registry.constructor` | SC_5400.rs:15-19 | the registry starts with no contracts, counter 0 and no events, which satisfies `Inv` |
| `SmartContract.Registry.UploadContract` | SC_5400.rs:46-64 | the new map, counter and event log are those of `Upload` on the old ones. On failure nothing changes; on success the map is updated at the derived key, the counter rises by 1 and one event is appended. `Inv` is kept |
| `SmartContract.Registry.GetContract` | SC_5400.rs:68-80 | the result is `Get` on the current storage: the stored code for a signed origin and a present key, `BadOrigin` or `ContractNotFound` otherwise; nothing is modified |
| `SmartContractProperties.AnnouncedSize` | SC_5400.rs:54-61 | the set of accounts named by the deposited events is no larger than the number of events |
| `SmartContractProperties.KeysBoundedByCount` | SC_5400.rs:54-58 | in every storage satisfying `Inv`, the number of accounts holding code is at most `ContractCount` |
| `SmartContractProperties.RunKeepsInv` | SC_5400.rs:46-80 | any sequence of calls keeps `Inv`: the counter equals the number of events, and the accounts holding code are exactly the announced ones |
| `SmartContractProperties.RunCount` | SC_5400.rs:57-58 | after any sequence of calls the counter has grown by exactly the number of successful uploads, new keys and overwrites alike |
| `SmartContractProperties.CountFromGenesis` | SC_5400.rs:57-58 | from genesis (counter 0) the counter equals the number of successful uploads and bounds the number of accounts holding code |
| `SmartContractProperties.RunNeverForgets` | SC_5400.rs:54-58 | no sequence of calls removes a stored account or lowers the counter |
| `SmartContractProperties.RunWithoutUploadsIsIdle` | SC_5400.rs:46-80 | a sequence of calls with no successful upload (lookups and failing calls) leaves storage exactly as it was |
| `SmartContractProperties.UploadThenGet` | SC_5400.rs:50-73 | with a round-tripping codec, an upload by a signed sender succeeds, and any signed caller then reads back exactly that code under the sender's account |
| `SmartContractProperties.ReuploadOverwrites` | SC_5400.rs:54-58 | two uploads by the same sender leave the second code stored and the counter 2 higher |
| `SmartContractProperties.GetIgnoresCaller` | SC_5400.rs:69-73 | the result of a lookup does not depend on which signed account asks |
| `SmartContractProperties.DecodeFailureIsReachable` | SC_5400.rs:50-51 | with a codec that refuses its own encoding, every signed upload fails with `ContractNotFound` and storage is unchanged |

## Left out

- SmartContract.Upload: `ContractCount` is an unbounded `nat`. The `u64` addition at SC_5400.rs:58 would overflow only after 2^64 uploads, and whether it then wraps or panics depends on the build profile.
- SmartContract.Registry.UploadContract: the same unbounded counter as `SmartContract.Upload`.
- `println!` in `get_contract` (SC_5400.rs:77) is diagnostic output and is not modelled. `Registry.GetContract` returns the code instead.
- The `#[weight = 10_000]` annotations are fee accounting and carry no semantics.
- The `blake2_128_concat` hasher and the storage substrate are left out. Storage is a plain map.
- The internals of `ensure_signed` (signature checking) are left out. An origin arrives already classified as root, signed or none.
- The internals of the SCALE codec are left out. It is a parameter (`Codec`), and only whether it round-trips matters.
- The `Config` trait, the `decl_*` macro expansion and the conversion of the pallet event into the system event are runtime plumbing and are left out. The event log is the sequence of events this pallet has deposited since genesis; the runtime's per-block clearing of events is not modelled.
