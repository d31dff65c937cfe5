# iotex-core: the put-poll-result action and the claim command's envelope

This project models two pieces of the iotex-core blockchain node in Dafny and
proves properties of them.

- **The "put poll result" system action** (`action/putpollresult.go`). A block
  producer uses it to publish the candidate list seen on the gravity chain at
  some height. It embeds the common action header (version, nonce, gas limit,
  gas price, sender key) and never pays gas. The model has the constructor,
  the accessors, `Proto` and `Serialize`, the zero `IntrinsicGas` and `Cost`,
  and `LoadProto`. `LoadProto` is an imperative method that overwrites a
  `*PutPollResult` (class `PutPollResultRef`) step by step. It is proved
  against the function `Loaded`, which gives the receiver's new value and the
  returned error.
- **The `ioctl action claim AMOUNT_IOTX [DATA]` command**
  (`ioctl/cmd/action/actionclaim.go`). `RunClaim` models the command's `RunE`
  closure, with cobra's 1-to-2 argument check in front of it. The answers of
  the amount parser, the signer lookup, the gas-price query and the nonce
  query are inputs (`Collaborators`). The result is either the aborting error
  or the envelope handed to `sendAction`. The two gas constants
  (`ClaimFromRewardingFundBaseGas`, `ClaimFromRewardingFundGasPerByte`) are
  parameters. The gas-limit default is computed in Go's wrapping `uint64`
  arithmetic (`ToUint64`, `WrappingMul` and `WrappingAdd` in `gotypes.dfy`).
  It is proved to equal the mathematical sum modulo 2^64, and to equal the
  plain sum when nothing overflows.

Files: `wrappers.dfy` (Option, Result), `gotypes.dfy` (Go integers, bytes,
errors), `candidates.dfy` (the interface of `state.CandidateList`),
`pollresult.dfy`, `actionclaim.dfy`.

`state.CandidateList` is not part of this model. Its encoder and decoder are
the parameter `CandidateCodec`. `loadProto` returns the list that the
decoder leaves in a receiver that starts empty, together with the decoder's
error. Every property that needs the codec to round-trip takes
`RoundTrips(codec)` as a hypothesis.

### Behaviour worth knowing

- `LoadProto` is not all-or-nothing. After both nil checks it resets the
  receiver and stores the new height before decoding the candidates. A failed
  candidate decode therefore leaves the zero header, the new height and
  whatever the candidate decoder left (`FailedLoadKeepsNewHeight`).
- A nil proto is rejected before a nil receiver. Both checks return before the
  reset, so a nil proto leaves the receiver untouched.
- The proto's candidate list is a pointer and may be absent. `LoadProto`
  passes it to the candidate decoder without checking it; what the decoder
  does with an absent list is the decoder's business.

## Model

| member | source | states |
|---|---|---|
| `PollResult.NewPutPollResult` | action/putpollresult.go:31-46 | a new action has protocol version `ProtocolVersion`, the given nonce, gas limit 0, a zero (non-nil) gas price and no sender key |
| `PollResult.NewPutPollResultAccessors` | action/putpollresult.go:72-78 | `Height` and `Candidates` of a new action return what it was built with; `ProducerPublicKey` is the header's (still nil) key |
| `PollResult.IntrinsicGas` | action/putpollresult.go:86-88 | intrinsic gas is `(0, no error)` for every action, whatever its height or candidate count |
| `PollResult.Cost` | action/putpollresult.go:91-93 | cost is `(0, no error)` for every action, whatever its header |
| `PollResult.Loaded` | action/putpollresult.go:49-61 | a nil proto gives the empty-proto error and leaves the receiver as it was; a nil receiver gives the nil-action error; otherwise the receiver gets the zero header and the proto's height, and the candidate decoder's list and error are passed through unchanged |
| `PollResult.LoadProto` | action/putpollresult.go:49-61 | the in-place method leaves the receiver and returns the error exactly as `Loaded` says, checking the proto before the receiver |
| `PollResult.LoadForgetsPrior` | action/putpollresult.go:56 | past the nil checks the result does not depend on anything the receiver held before (header included) |
| `PollResult.FailedLoadKeepsNewHeight` | action/putpollresult.go:56-60 | when the candidate list fails to decode, that error is returned and the receiver already holds the zero header and the new height |
| `PollResult.ProtoRoundTrip` | action/putpollresult.go:49-69 | if the candidate codec round-trips, loading `Proto(r)` into any receiver succeeds and yields `r`'s height and candidates under a zero header |
| `PollResult.LoadIntoFresh` | action/putpollresult.go:49-69 | if the candidate codec round-trips, loading `Proto(r)` into a freshly allocated action returns no error and the same height and candidates under a zero header |
| `PollResult.SerializeDeterminesPayload` | action/putpollresult.go:63-83 | serialized bytes are equal exactly when height and candidates are equal (for an injective marshaller and a round-tripping candidate codec); the header never affects them |
| `ClaimCommand.Payload` | ioctl/cmd/action/actionclaim.go:27-30 | the payload is the DATA argument's bytes when two arguments are given, else empty |
| `ClaimCommand.ClaimGasLimit` | ioctl/cmd/action/actionclaim.go:35-39 | a nonzero gas-limit flag is kept; a zero one becomes base gas plus per-byte gas times the payload length, modulo 2^64 |
| `ClaimCommand.LengthConversionKeepsCharge` | ioctl/cmd/action/actionclaim.go:38 | converting the payload length with `uint64(...)` (reduction modulo 2^64) does not change the per-byte charge modulo 2^64 |
| `ClaimCommand.DefaultGasLimitIsModularSum` | ioctl/cmd/action/actionclaim.go:37-38 | Go's wrapping multiply-then-add equals the mathematical sum reduced modulo 2^64 |
| `ClaimCommand.DefaultGasLimitWithoutOverflow` | ioctl/cmd/action/actionclaim.go:36-39 | without overflow the default is exactly base gas plus per-byte gas times the payload length |
| `ClaimCommand.NoDataMeansBaseGas` | ioctl/cmd/action/actionclaim.go:27-39 | with AMOUNT only and a zero flag the gas limit is the base gas |
| `ClaimCommand.DefaultGasLimitMonotone` | ioctl/cmd/action/actionclaim.go:36-39 | when nothing overflows, a longer payload never gets a smaller default gas limit |
| `ClaimCommand.DefaultGasLimitCanWrap` | ioctl/cmd/action/actionclaim.go:37-38 | the default can wrap: with large constants a one-byte payload gets gas limit 0 |
| `ClaimCommand.RunClaim` | ioctl/cmd/action/actionclaim.go:20-50 | fewer than 1 or more than 2 arguments is an error; the command sends an envelope exactly when amount parsing, signer lookup and nonce lookup all succeed, and it aborts with the first of their errors in that order; a sent envelope carries exactly the looked-up nonce, the gas-price value, the computed gas limit and a claim with the parsed amount and the payload, for the looked-up signer |
| `ClaimCommand.ClaimWithoutDataScenario` | ioctl/cmd/action/actionclaim.go:27-50 | when the amount parses to 100 and the signer and nonce lookups succeed, claiming with no DATA and a zero flag sends an envelope with the base gas as gas limit and a claim of 100 with empty data |
| `ClaimCommand.GasPriceErrorIgnored` | ioctl/cmd/action/actionclaim.go:40-44 | the gas-price query's error never changes the outcome, and a sent envelope carries the query's value, nil included |

## Left out

- Protobuf marshalling (`proto.Marshal`, `byteutil.Must`, `iotextypes`): `Serialize` takes the marshaller as a function parameter. A total marshaller rules out the panic in `byteutil.Must`.
- `state.CandidateList` encoding and decoding: not part of this model. They are the `CandidateCodec` parameter, and their round trip is a hypothesis. The candidate record's fields are declared but never interpreted.
- Shared candidate slices: `NewPutPollResult` stores the caller's slice without copying it, and `Candidates` returns that same slice, so in Go the action and its caller share one backing array. `CandidateList` is a value here, so that aliasing, and any change made through it after construction, is not captured.
- Public keys and signatures: `PublicKey` is opaque. `ProducerPublicKey` only returns the header's key. Header fields other than version, nonce, gas limit, gas price and sender key are not part of this model.
- `version.ProtocolVersion`: pkg/version is not part of this model. The constant is declared as 1, and no property depends on its value.
- `Envelope`: the version the envelope builder may stamp is not part of this model. The builders (`EnvelopeBuilder`, `ClaimFromRewardingFundBuilder`) are plain record constructors.
- `util.StringToRau`, `signer()`, `gasPriceInRau()`, `nonce()`: their results are inputs (`Collaborators`). Their side effects and network access are not modelled, and neither is the fact that the gas-price query is made at all.
- `sendAction`, signing and submission: the model stops at the envelope and the sender handed to `sendAction`. The error `sendAction` returns is not modelled.
- cobra wiring, `registerWriteCommand`, the flags' parsing and `cmd.SilenceUsage`: command-line plumbing.
- `ClaimGasLimit`: the conversion `uint64(len(payload))` is modelled as reduction modulo 2^64. It is the identity on every length a Go slice can have.
- ioctl/cmd/account/accountupdate.go: keystore lookup, password prompts on standard input and keystore file update are I/O around external libraries.
- ioctl/cmd/alias/aliasremove.go: a map delete followed by YAML marshalling and a file write is configuration-file I/O.
