/**
 * The interface of `state.CandidateList` that action/putpollresult.go relies
 * on. The state package's own encoder and decoder are not part of this model:
 * they are a parameter, a `CandidateCodec`, and every property that needs
 * them to be inverse takes `RoundTrips(codec)` as a hypothesis.
 */
module StateCandidates {
  import opened Wrappers
  import opened GoTypes

  /** One voting-eligible candidate: its address, its votes and the address its rewards go to. */
  datatype Candidate = Candidate(address: string, votes: nat, rewardAddress: string)

  /** `state.CandidateList`; the zero value (a nil slice) is `[]`. */
  type CandidateList = seq<Candidate>

  /** The wire form of one candidate: votes travel as big-endian bytes. */
  datatype CandidatePb = CandidatePb(address: string, votes: Bytes, rewardAddress: string)

  /** `iotextypes.CandidateList`. */
  datatype CandidateListPb = CandidateListPb(candidates: seq<CandidatePb>)

  /**
   * `CandidateList.Proto` and `CandidateList.LoadProto`. `loadProto` takes the
   * proto's candidate-list field, which is `None` when the field is absent
   * (a nil pointer), and is applied
   * to a receiver holding the empty list and gives back what that receiver
   * holds afterwards together with the error it returned.
   */
  datatype CandidateCodec = CandidateCodec(
    proto: CandidateList -> CandidateListPb,
    loadProto: Option<CandidateListPb> -> (CandidateList, Option<Error>))

  /** The codec's decoder undoes its encoder, without error, for every list. */
  ghost predicate RoundTrips(codec: CandidateCodec)
  {
    forall l :: codec.loadProto(Some(codec.proto(l))) == (l, None)
  }
}
