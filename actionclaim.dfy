/**
 * The body of the `ioctl action claim AMOUNT_IOTX [DATA]` command
 * (ioctl/cmd/action/actionclaim.go): it builds a claim-from-rewarding-fund
 * action, picks the gas limit and wraps both in an envelope for submission.
 * Argument parsing, the keystore, the node queries and the submission itself
 * are collaborators whose answers are inputs here.
 */
module ClaimCommand {
  import opened Wrappers
  import opened GoTypes

  /** An account address as the signer lookup returns it. */
  type Address = string

  /** The claim action: the amount in Rau and the free-form data. */
  datatype ClaimFromRewardingFund = ClaimFromRewardingFund(amount: int, data: Bytes)

  /** The unsigned envelope: exactly what the envelope builder was given. */
  datatype Envelope = Envelope(nonce: uint64, gasLimit: uint64, gasPrice: Option<nat>, action: ClaimFromRewardingFund)

  /**
   * The answers of the collaborators the command calls: the decimal parser
   * for AMOUNT, the signer lookup, the gas-price query (a Go pair whose error
   * the command never reads) and the nonce query for the signer.
   */
  datatype Collaborators = Collaborators(
    parseAmount: Bytes -> Result<int, Error>,
    signer: Result<Address, Error>,
    gasPriceInRau: (Option<nat>, Option<Error>),
    nonce: Address -> Result<uint64, Error>)

  /** The command either returns an error before building anything or hands an envelope to `sendAction`. */
  datatype ClaimOutcome = Abort(err: Error) | Send(envelope: Envelope, sender: Address)

  /** The claim's data: the bytes of DATA when it is given, otherwise empty. */
  function Payload(args: seq<Bytes>): (payload: Bytes)
    ensures |args| == 2 ==> payload == args[1]
    ensures |args| != 2 ==> payload == []
  {
    if |args| == 2 then args[1] else []
  }

  /** The default gas limit, computed in Go's wrapping `uint64` arithmetic. */
  function DefaultGasLimit(baseGas: uint64, gasPerByte: uint64, payloadLength: nat): uint64
  {
    WrappingAdd(baseGas, WrappingMul(gasPerByte, ToUint64(payloadLength)))
  }

  /**
   * The gas limit put in the envelope: the flag's value unless it is zero, in
   * which case the base gas plus the per-byte gas for each payload byte,
   * reduced modulo 2^64 as Go's `uint64` arithmetic does.
   */
  function ClaimGasLimit(gasLimitFlag: uint64, baseGas: uint64, gasPerByte: uint64, payload: Bytes): (gasLimit: uint64)
    ensures gasLimitFlag != 0 ==> gasLimit == gasLimitFlag
    ensures gasLimitFlag == 0 ==>
      gasLimit as int == (baseGas as int + gasPerByte as int * |payload|) % TWO_TO_THE_64
  {
    if gasLimitFlag != 0 then gasLimitFlag
    else
      DefaultGasLimitIsModularSum(baseGas, gasPerByte, |payload|);
      DefaultGasLimit(baseGas, gasPerByte, |payload|)
  }

  /**
   * The command's `RunE` closure (with cobra's argument-count check in front):
   * the errors of amount parsing, signer lookup and nonce lookup abort, in
   * that order; the gas-price query's error is overwritten by the nonce
   * query's before anyone looks at it.
   */
  function RunClaim(args: seq<Bytes>, gasLimitFlag: uint64, baseGas: uint64, gasPerByte: uint64, env: Collaborators)
    : (out: ClaimOutcome)
    ensures !(1 <= |args| <= 2) ==> out == Abort(ArgCountOutOfRange(1, 2, |args|))
    ensures 1 <= |args| <= 2 ==>
      (out.Send? <==> env.parseAmount(args[0]).Success? && env.signer.Success?
                      && env.nonce(env.signer.value).Success?)
    ensures 1 <= |args| <= 2 && env.parseAmount(args[0]).Failure? ==>
      out == Abort(env.parseAmount(args[0]).error)
    ensures 1 <= |args| <= 2 && env.parseAmount(args[0]).Success? && env.signer.Failure? ==>
      out == Abort(env.signer.error)
    ensures 1 <= |args| <= 2 && env.parseAmount(args[0]).Success? && env.signer.Success?
            && env.nonce(env.signer.value).Failure? ==>
      out == Abort(env.nonce(env.signer.value).error)
    ensures out.Send? ==>
      && out.sender == env.signer.value
      && out.envelope.nonce == env.nonce(env.signer.value).value
      && out.envelope.gasPrice == env.gasPriceInRau.0
      && out.envelope.gasLimit == ClaimGasLimit(gasLimitFlag, baseGas, gasPerByte, Payload(args))
      && out.envelope.action == ClaimFromRewardingFund(env.parseAmount(args[0]).value, Payload(args))
  {
    if !(1 <= |args| <= 2) then Abort(ArgCountOutOfRange(1, 2, |args|))
    else
      match env.parseAmount(args[0])
      case Failure(e) => Abort(e)
      case Success(amount) =>
        var payload := Payload(args);
        match env.signer
        case Failure(e) => Abort(e)
        case Success(sender) =>
          var gasLimit := ClaimGasLimit(gasLimitFlag, baseGas, gasPerByte, payload);
          var gasPriceRau := env.gasPriceInRau.0;
          match env.nonce(sender)
          case Failure(e) => Abort(e)
          case Success(nonce) =>
            Send(Envelope(nonce, gasLimit, gasPriceRau, ClaimFromRewardingFund(amount, payload)), sender)
  }

  // ---- modular arithmetic behind the wrapping default ----

  /** Adding a multiple of 2^64 does not change a residue. */
  lemma ModShift(z: int, k: int)
    ensures (z + k * TWO_TO_THE_64) % TWO_TO_THE_64 == z % TWO_TO_THE_64
  {
  }

  /**
   * Go's `uint64(len(payload))` reduces the length modulo 2^64; that
   * reduction does not change the per-byte charge modulo 2^64.
   */
  lemma LengthConversionKeepsCharge(gasPerByte: uint64, n: nat)
    ensures (gasPerByte as int * (n % TWO_TO_THE_64)) % TWO_TO_THE_64
         == (gasPerByte as int * n) % TWO_TO_THE_64
  {
    var p, q, r := gasPerByte as int, n / TWO_TO_THE_64, n % TWO_TO_THE_64;
    assert p * n == p * r + (p * q) * TWO_TO_THE_64;
    ModShift(p * r, p * q);
  }

  /** The default gas limit is the mathematical sum reduced modulo 2^64. */
  lemma DefaultGasLimitIsModularSum(baseGas: uint64, gasPerByte: uint64, n: nat)
    ensures DefaultGasLimit(baseGas, gasPerByte, n) as int
         == (baseGas as int + gasPerByte as int * n) % TWO_TO_THE_64
  {
    var b, p := baseGas as int, gasPerByte as int;
    LengthConversionKeepsCharge(gasPerByte, n);
    var prod := (p * n) % TWO_TO_THE_64;
    assert WrappingMul(gasPerByte, ToUint64(n)) as int == prod;
    // Adding the reduced product to the base is adding the product, modulo 2^64.
    var pq := (p * n) / TWO_TO_THE_64;
    assert b + p * n == (b + prod) + pq * TWO_TO_THE_64;
    ModShift(b + prod, pq);
  }

  // ---- properties of the command ----

  /** Without overflow the default is exactly base gas plus per-byte gas times the payload length. */
  lemma DefaultGasLimitWithoutOverflow(baseGas: uint64, gasPerByte: uint64, payload: Bytes)
    requires baseGas as int + gasPerByte as int * |payload| < TWO_TO_THE_64
    ensures ClaimGasLimit(0, baseGas, gasPerByte, payload) as int == baseGas as int + gasPerByte as int * |payload|
  {
  }

  /** Without DATA the default gas limit is the base gas. */
  lemma NoDataMeansBaseGas(args: seq<Bytes>, baseGas: uint64, gasPerByte: uint64)
    requires |args| == 1
    ensures ClaimGasLimit(0, baseGas, gasPerByte, Payload(args)) == baseGas
  {
  }

  /** As long as nothing wraps, more data never lowers the default gas limit. */
  lemma DefaultGasLimitMonotone(baseGas: uint64, gasPerByte: uint64, shorter: Bytes, longer: Bytes)
    requires |shorter| <= |longer|
    requires baseGas as int + gasPerByte as int * |longer| < TWO_TO_THE_64
    ensures ClaimGasLimit(0, baseGas, gasPerByte, shorter) <= ClaimGasLimit(0, baseGas, gasPerByte, longer)
  {
    MulMonotone(gasPerByte as int, |shorter|, |longer|);
    DefaultGasLimitWithoutOverflow(baseGas, gasPerByte, shorter);
    DefaultGasLimitWithoutOverflow(baseGas, gasPerByte, longer);
  }

  lemma MulMonotone(p: nat, a: nat, b: nat)
    requires a <= b
    ensures p * a <= p * b
  {
  }

  /**
   * The wrap-around is real: with large enough constants a one-byte payload
   * gets a default gas limit of zero, below the gas limit of an empty payload.
   */
  lemma DefaultGasLimitCanWrap()
    ensures ClaimGasLimit(0, 0x8000_0000_0000_0000, 0x8000_0000_0000_0000, [0]) == 0
    ensures ClaimGasLimit(0, 0x8000_0000_0000_0000, 0x8000_0000_0000_0000, []) == 0x8000_0000_0000_0000
  {
  }

  /**
   * Claiming 100 with no DATA and a zero gas-limit flag sends an envelope
   * whose gas limit is the base gas and whose action holds the amount and no data.
   */
  lemma ClaimWithoutDataScenario(amountText: Bytes, baseGas: uint64, gasPerByte: uint64, env: Collaborators)
    requires env.parseAmount(amountText) == Success(100)
    requires env.signer.Success? && env.nonce(env.signer.value).Success?
    ensures var out := RunClaim([amountText], 0, baseGas, gasPerByte, env);
      && out.Send?
      && out.envelope.gasLimit == baseGas
      && out.envelope.action == ClaimFromRewardingFund(100, [])
  {
  }

  /**
   * The gas-price query's error is never looked at: two runs that differ only
   * in that error have the same outcome, and the value the query returned
   * (nil included) is the envelope's gas price.
   */
  lemma GasPriceErrorIgnored(args: seq<Bytes>, gasLimitFlag: uint64, baseGas: uint64, gasPerByte: uint64,
                             env: Collaborators, otherErr: Option<Error>)
    ensures RunClaim(args, gasLimitFlag, baseGas, gasPerByte, env)
         == RunClaim(args, gasLimitFlag, baseGas, gasPerByte, env.(gasPriceInRau := (env.gasPriceInRau.0, otherErr)))
    ensures var out := RunClaim(args, gasLimitFlag, baseGas, gasPerByte, env);
      out.Send? ==> out.envelope.gasPrice == env.gasPriceInRau.0
  {
  }
}
