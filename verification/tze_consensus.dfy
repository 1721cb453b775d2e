/** Which TZE programs a consensus branch runs, and the version-1 epoch's dispatch to
    them. The demo program is a parameter: the dispatcher builds it in a form that
    does not match the demo rule's own signature, so only the mapping of its result
    is modelled. */
module TzeConsensus {
  import opened Common

  /** The consensus branch id of the demo network upgrade. */
  const DemoBranchId: nat := 0x7473_6554

  /** The epochs: only version 1 exists. */
  datatype Epoch = EpochV1

  /** The program type a predicate names. */
  datatype ProgramType = DemoProgram | OtherProgram(id: nat)

  datatype ExtErr = InvalidEpoch | Program(message: string)

  const EpochV1Prefix: string := "Epoch v1 error: "

  /** `epoch_for_branch`. */
  function EpochForBranch(branchId: nat): (r: Option<Epoch>)
    requires branchId < 0x1_0000_0000
    ensures r.Some? <==> branchId == DemoBranchId
    ensures r.Some? ==> r.value == EpochV1
  {
    if branchId == DemoBranchId then Some(EpochV1) else None
  }

  /** `EpochV1::verify`: a demo predicate goes to the demo program, whose error
      message is prefixed with the epoch; any other program type is invalid here. */
  function EpochV1Verify<P, W, C>(demo: (P, W, C) -> Result<Unit, string>, typeId: ProgramType, p: P, w: W, ctx: C)
    : (r: Result<Unit, ExtErr>)
    ensures typeId.OtherProgram? ==> r == Failure(InvalidEpoch)
    ensures typeId == DemoProgram ==>
      && (r.Success? <==> demo(p, w, ctx).Success?)
      && (r.Failure? ==> r.error == Program(EpochV1Prefix + demo(p, w, ctx).error))
  {
    match typeId
    case OtherProgram(_) => Failure(InvalidEpoch)
    case DemoProgram =>
      match demo(p, w, ctx)
      case Success(_) => Success(Unit)
      case Failure(e) => Failure(Program(EpochV1Prefix + e))
  }

  /** The demo program's message is recoverable from the epoch's error, and the
      epoch's own rejection is never confused with a program's. */
  lemma EpochErrorsDistinguishable<P, W, C>(
    demo: (P, W, C) -> Result<Unit, string>, t1: ProgramType, p1: P, w1: W, ctx1: C, t2: ProgramType, p2: P, w2: W, ctx2: C)
    requires EpochV1Verify(demo, t1, p1, w1, ctx1).Failure? && EpochV1Verify(demo, t2, p2, w2, ctx2).Failure?
    requires EpochV1Verify(demo, t1, p1, w1, ctx1) == EpochV1Verify(demo, t2, p2, w2, ctx2)
    ensures t1 == DemoProgram <==> t2 == DemoProgram
    ensures t1 == DemoProgram ==> demo(p1, w1, ctx1).error == demo(p2, w2, ctx2).error
  {
    if t1 == DemoProgram && t2 == DemoProgram {
      var e1, e2 := demo(p1, w1, ctx1).error, demo(p2, w2, ctx2).error;
      assert (EpochV1Prefix + e1)[|EpochV1Prefix|..] == e1;
      assert (EpochV1Prefix + e2)[|EpochV1Prefix|..] == e2;
    }
  }
}
