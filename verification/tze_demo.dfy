/** The demo Transparent Zcash Extension's predicates and witnesses, and their
    `(mode, payload)` codec: mode 0 (open) and mode 1 (close) each carry exactly 32
    bytes. */
module TzeDemo {
  import opened Common

  const OpenMode: nat := 0
  const CloseMode: nat := 1

  /** A predicate locks funds to a hash. */
  datatype Predicate = OpenPredicate(hash: Bytes32) | ClosePredicate(hash: Bytes32)

  /** A witness reveals a preimage. */
  datatype Witness = OpenWitness(preimage: Bytes32) | CloseWitness(preimage: Bytes32)

  datatype Error =
    | IllegalPayloadLength(len: nat)
    | ModeInvalid(mode: nat)
    | NonTzeTxn
    | HashMismatch
    | ModeMismatch
    | ExpectedClose
    | InvalidOutputQty(qty: nat)

  /** The 32 bytes a payload of a valid mode must be, or the error it gets. */
  function ParseHash(mode: nat, payload: Bytes): (r: Result<Bytes32, Error>)
    ensures mode != OpenMode && mode != CloseMode ==> r == Failure(ModeInvalid(mode))
    ensures (mode == OpenMode || mode == CloseMode) && |payload| != 32 ==> r == Failure(IllegalPayloadLength(|payload|))
    ensures (mode == OpenMode || mode == CloseMode) && |payload| == 32 ==> r == Success(payload)
  {
    if mode != OpenMode && mode != CloseMode then Failure(ModeInvalid(mode))
    else if |payload| == 32 then Success(payload)
    else Failure(IllegalPayloadLength(|payload|))
  }

  // ---------------------------------------------------------------------------
  // Predicate

  /** `Predicate::try_from((mode, payload))`. */
  function PredicateFromPayload(mode: nat, payload: Bytes): (r: Result<Predicate, Error>)
    ensures mode == OpenMode && |payload| == 32 ==> r == Success(OpenPredicate(payload))
    ensures mode == CloseMode && |payload| == 32 ==> r == Success(ClosePredicate(payload))
    ensures (mode == OpenMode || mode == CloseMode) && |payload| != 32 ==> r == Failure(IllegalPayloadLength(|payload|))
    ensures mode != OpenMode && mode != CloseMode ==> r == Failure(ModeInvalid(mode))
  {
    var hash :- ParseHash(mode, payload);
    if mode == OpenMode then Success(OpenPredicate(hash)) else Success(ClosePredicate(hash))
  }

  /** `Predicate::to_payload`. */
  function PredicateToPayload(p: Predicate): (r: (nat, Bytes))
    ensures |r.1| == 32
  {
    match p
    case OpenPredicate(h) => (OpenMode, h)
    case ClosePredicate(h) => (CloseMode, h)
  }

  /** `Predicate::try_from((mode, predicate))`: the mode must be the predicate's own. */
  function PredicateWithMode(mode: nat, p: Predicate): (r: Result<Predicate, Error>)
    ensures r.Success? <==> mode == PredicateToPayload(p).0
    ensures r.Success? ==> r.value == p
    ensures r.Failure? ==> r.error == ModeInvalid(mode)
  {
    match (mode, p)
    case (0, OpenPredicate(_)) => Success(p)
    case (1, ClosePredicate(_)) => Success(p)
    case _ => Failure(ModeInvalid(mode))
  }

  /** Serialising then parsing gives the predicate back. */
  lemma PredicatePayloadRoundTrip(p: Predicate)
    ensures PredicateFromPayload(PredicateToPayload(p).0, PredicateToPayload(p).1) == Success(p)
  {
  }

  /** Parsing then serialising gives the mode and payload back. */
  lemma PredicateParseRoundTrip(mode: nat, payload: Bytes)
    requires PredicateFromPayload(mode, payload).Success?
    ensures PredicateToPayload(PredicateFromPayload(mode, payload).value) == (mode, payload)
  {
  }

  // ---------------------------------------------------------------------------
  // Witness

  /** `Witness::try_from((mode, payload))`. */
  function WitnessFromPayload(mode: nat, payload: Bytes): (r: Result<Witness, Error>)
    ensures mode == OpenMode && |payload| == 32 ==> r == Success(OpenWitness(payload))
    ensures mode == CloseMode && |payload| == 32 ==> r == Success(CloseWitness(payload))
    ensures (mode == OpenMode || mode == CloseMode) && |payload| != 32 ==> r == Failure(IllegalPayloadLength(|payload|))
    ensures mode != OpenMode && mode != CloseMode ==> r == Failure(ModeInvalid(mode))
  {
    var preimage :- ParseHash(mode, payload);
    if mode == OpenMode then Success(OpenWitness(preimage)) else Success(CloseWitness(preimage))
  }

  /** `Witness::to_payload`. */
  function WitnessToPayload(w: Witness): (r: (nat, Bytes))
    ensures |r.1| == 32
  {
    match w
    case OpenWitness(b) => (OpenMode, b)
    case CloseWitness(b) => (CloseMode, b)
  }

  /** `Witness::try_from((mode, witness))`. */
  function WitnessWithMode(mode: nat, w: Witness): (r: Result<Witness, Error>)
    ensures r.Success? <==> mode == WitnessToPayload(w).0
    ensures r.Success? ==> r.value == w
    ensures r.Failure? ==> r.error == ModeInvalid(mode)
  {
    match (mode, w)
    case (0, OpenWitness(_)) => Success(w)
    case (1, CloseWitness(_)) => Success(w)
    case _ => Failure(ModeInvalid(mode))
  }

  lemma WitnessPayloadRoundTrip(w: Witness)
    ensures WitnessFromPayload(WitnessToPayload(w).0, WitnessToPayload(w).1) == Success(w)
  {
  }

  lemma WitnessParseRoundTrip(mode: nat, payload: Bytes)
    requires WitnessFromPayload(mode, payload).Success?
    ensures WitnessToPayload(WitnessFromPayload(mode, payload).value) == (mode, payload)
  {
  }

  /** The witness codec accepts and rejects exactly what the predicate codec does,
      with the same errors, the same mode and the same 32 bytes. */
  lemma WitnessParsesLikePredicate(mode: nat, payload: Bytes)
    ensures PredicateFromPayload(mode, payload).Success? <==> WitnessFromPayload(mode, payload).Success?
    ensures PredicateFromPayload(mode, payload).Failure? ==>
      PredicateFromPayload(mode, payload).error == WitnessFromPayload(mode, payload).error
    ensures PredicateFromPayload(mode, payload).Success? ==>
      PredicateToPayload(PredicateFromPayload(mode, payload).value) == WitnessToPayload(WitnessFromPayload(mode, payload).value)
  {
  }

  /** Modes 0 to 2 with payloads of 31 or 33 bytes are all rejected, as the
      module's tests check. */
  lemma RejectsWrongLengths(mode: nat, len: nat)
    requires mode < 3 && (len == 31 || len == 33)
    ensures PredicateFromPayload(mode, seq(len, _ => 7)).Failure?
    ensures WitnessFromPayload(mode, seq(len, _ => 7)).Failure?
  {
  }
}
