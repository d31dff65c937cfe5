/**
 * The "put poll result" system action of action/putpollresult.go: a block
 * producer publishes the candidate list observed on the gravity chain at some
 * height. The action rides on the common action header but never pays gas.
 */
module PollResult {
  import opened Wrappers
  import opened GoTypes
  import opened StateCandidates

  /** The protocol version stamped on newly built actions (`version.ProtocolVersion`). */
  const ProtocolVersion: uint32 := 1

  /** A sender's public key; never inspected here. */
  datatype PublicKey = PublicKey(bytes: Bytes)

  /**
   * `AbstractAction`, the header every action embeds. `gasPrice` is a
   * `*big.Int` and `srcPubkey` an interface, so both may be nil.
   */
  datatype AbstractAction = AbstractAction(
    version: uint32,
    nonce: uint64,
    gasLimit: uint64,
    gasPrice: Option<nat>,
    srcPubkey: Option<PublicKey>)

  /** The action: the header plus the observed height and candidate list. */
  datatype PutPollResult = PutPollResult(header: AbstractAction, height: uint64, candidates: CandidateList)

  /** `iotextypes.PutPollResult`, the protobuf record; its candidate list is a pointer, `None` when absent. */
  datatype PutPollResultPb = PutPollResultPb(height: uint64, candidates: Option<CandidateListPb>)

  /** Go's zero value `PutPollResult{}`: every number zero, every pointer nil, no candidates. */
  const ZeroPutPollResult := PutPollResult(AbstractAction(0, 0, 0, None, None), 0, [])

  /** `NewPutPollResult`: a system action, so no gas limit and a zero (not nil) gas price. */
  function NewPutPollResult(nonce: uint64, height: uint64, candidates: CandidateList): (r: PutPollResult)
    ensures r.header.version == ProtocolVersion && r.header.nonce == nonce
    ensures r.header.gasLimit == 0 && r.header.gasPrice == Some(0)
    ensures r.header.srcPubkey == None
  {
    PutPollResult(AbstractAction(ProtocolVersion, nonce, 0, Some(0), None), height, candidates)
  }

  function Height(r: PutPollResult): uint64 { r.height }

  function Candidates(r: PutPollResult): CandidateList { r.candidates }

  /** The producer's key is the header's sender key; the action keeps none of its own. */
  function ProducerPublicKey(r: PutPollResult): Option<PublicKey> { r.header.srcPubkey }

  /** `Proto`: the height and the encoded candidate list; the header is not part of it. */
  function Proto(r: PutPollResult, codec: CandidateCodec): PutPollResultPb
  {
    PutPollResultPb(r.height, Some(codec.proto(r.candidates)))
  }

  /**
   * `Serialize`: the protobuf marshalling of `Proto`. The marshaller is a
   * parameter; `byteutil.Must` would panic on a marshalling error, which a
   * total `marshal` rules out.
   */
  function Serialize(r: PutPollResult, codec: CandidateCodec, marshal: PutPollResultPb -> Bytes): Bytes
  {
    marshal(Proto(r, codec))
  }

  /** `IntrinsicGas`: zero and no error, whatever the action holds. */
  function IntrinsicGas(r: PutPollResult): (result: (uint64, Option<Error>))
    ensures result == (0, None)
  {
    (0, None)
  }

  /** `Cost`: zero and no error, without consulting the header's gas price or gas limit. */
  function Cost(r: PutPollResult): (result: (nat, Option<Error>))
    ensures result == (0, None)
  {
    (0, None)
  }

  /**
   * `LoadProto` as a function: `prior` is the receiver (`None` for a nil
   * receiver), `pb` the proto (`None` for nil). The result is what the
   * receiver holds afterwards and the error returned. A nil proto is rejected
   * before the receiver is looked at; past both checks the receiver is reset to
   * the zero value, given the proto's height, and then handed to the
   * candidate-list decoder, whose error is returned as it is. Nothing is rolled
   * back when that decoder fails.
   */
  function Loaded(prior: Option<PutPollResult>, pb: Option<PutPollResultPb>, codec: CandidateCodec)
    : (out: (Option<PutPollResult>, Option<Error>))
    ensures pb == None ==> out == (prior, Some(EmptyActionProto))
    ensures pb != None && prior == None ==> out == (None, Some(NilActionToLoad))
    ensures pb != None && prior != None ==>
      && out.0 != None
      && out.0.value.header == ZeroPutPollResult.header
      && out.0.value.height == pb.value.height
      && (out.0.value.candidates, out.1) == codec.loadProto(pb.value.candidates)
  {
    if pb == None then (prior, Some(EmptyActionProto))
    else if prior == None then (None, Some(NilActionToLoad))
    else
      var reset := ZeroPutPollResult.(height := pb.value.height);
      var (list, err) := codec.loadProto(pb.value.candidates);
      (Some(reset.(candidates := list)), err)
  }

  /** A `*PutPollResult`: the cell `LoadProto` overwrites. */
  class PutPollResultRef {
    var value: PutPollResult

    constructor (v: PutPollResult)
      ensures value == v
    {
      value := v;
    }
  }

  /** The receiver as `Loaded` sees it: `None` for a nil pointer. */
  function Deref(r: PutPollResultRef?): Option<PutPollResult>
    reads r
  {
    if r == null then None else Some(r.value)
  }

  /** `(*PutPollResult).LoadProto`, overwriting the receiver in place step by step. */
  method LoadProto(r: PutPollResultRef?, pb: Option<PutPollResultPb>, codec: CandidateCodec)
    returns (err: Option<Error>)
    modifies r
    ensures (Deref(r), err) == Loaded(old(Deref(r)), pb, codec)
  {
    if pb == None {
      return Some(EmptyActionProto);
    }
    if r == null {
      return Some(NilActionToLoad);
    }
    r.value := ZeroPutPollResult;
    r.value := r.value.(height := pb.value.height);
    var decoded := codec.loadProto(pb.value.candidates);
    r.value := r.value.(candidates := decoded.0);
    err := decoded.1;
  }

  /**
   * Loading `Proto(r)` into a freshly allocated value succeeds and recovers
   * the height and the candidate list, provided the candidate list round-trips.
   * The header is not carried by the proto and comes back zeroed.
   */
  method LoadIntoFresh(r: PutPollResult, codec: CandidateCodec) returns (loaded: PutPollResult, err: Option<Error>)
    requires RoundTrips(codec)
    ensures err == None
    ensures Height(loaded) == Height(r) && Candidates(loaded) == Candidates(r)
    ensures loaded.header == ZeroPutPollResult.header
  {
    var target := new PutPollResultRef(ZeroPutPollResult);
    err := LoadProto(target, Some(Proto(r, codec)), codec);
    loaded := target.value;
  }

  /** A freshly built action reports the height and candidates it was given, and has no producer key yet. */
  lemma NewPutPollResultAccessors(nonce: uint64, height: uint64, candidates: CandidateList)
    ensures Height(NewPutPollResult(nonce, height, candidates)) == height
    ensures Candidates(NewPutPollResult(nonce, height, candidates)) == candidates
    ensures ProducerPublicKey(NewPutPollResult(nonce, height, candidates)) == None
  {
  }

  /** Past the nil checks, what the receiver held before does not influence the outcome. */
  lemma LoadForgetsPrior(p: PutPollResult, q: PutPollResult, pb: PutPollResultPb, codec: CandidateCodec)
    ensures Loaded(Some(p), Some(pb), codec) == Loaded(Some(q), Some(pb), codec)
  {
  }

  /**
   * Decoding is not all-or-nothing: when the candidate list fails to decode,
   * the error is returned, yet the receiver has already lost its old header
   * and holds the proto's height.
   */
  lemma FailedLoadKeepsNewHeight(p: PutPollResult, pb: PutPollResultPb, codec: CandidateCodec)
    requires codec.loadProto(pb.candidates).1 != None
    ensures var (after, err) := Loaded(Some(p), Some(pb), codec);
      && err == codec.loadProto(pb.candidates).1
      && after == Some(PutPollResult(ZeroPutPollResult.header, pb.height, codec.loadProto(pb.candidates).0))
  {
  }

  /**
   * Round trip: loading `Proto(r)` into any receiver succeeds and leaves the
   * zero header with `r`'s height and candidates, provided the candidate list
   * round-trips.
   */
  lemma ProtoRoundTrip(r: PutPollResult, prior: PutPollResult, codec: CandidateCodec)
    requires RoundTrips(codec)
    ensures Loaded(Some(prior), Some(Proto(r, codec)), codec)
         == (Some(PutPollResult(ZeroPutPollResult.header, r.height, r.candidates)), None)
  {
  }

  /** Marshalling never maps two protos to the same bytes. */
  ghost predicate Injective(marshal: PutPollResultPb -> Bytes)
  {
    forall p, q :: marshal(p) == marshal(q) ==> p == q
  }

  /**
   * The serialized bytes depend on the height and candidates alone, never on
   * the header, and (for an injective marshaller and a round-tripping candidate
   * codec) they tell apart any two actions that differ in height or candidates.
   */
  lemma SerializeDeterminesPayload(a: PutPollResult, b: PutPollResult, codec: CandidateCodec,
                                   marshal: PutPollResultPb -> Bytes)
    requires RoundTrips(codec) && Injective(marshal)
    ensures Serialize(a, codec, marshal) == Serialize(b, codec, marshal)
        <==> a.height == b.height && a.candidates == b.candidates
  {
  }
}
