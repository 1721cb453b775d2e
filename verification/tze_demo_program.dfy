/** The consensus rule of the demo extension: a two-step hash lock.

    Mode 0 (open) locks funds to `hash_1 = BLAKE2b-256(preimage_1 || hash_2)` and
    may only be spent by a transaction made of nothing but TZE inputs and outputs
    whose single output is a demo close predicate for `hash_2`. Mode 1 (close) locks
    funds to `hash_2 = BLAKE2b-256(preimage_2)`. BLAKE2b is used without a
    personalisation, which is the all-zero one. */
module TzeDemoProgram {
  import opened Common
  import opened TzeDemo

  /** The predicate of a TZE output: the demo program's, or another program's. */
  datatype OutputPredicate = Demo(p: TzeDemo.Predicate) | OtherProgram(typeId: nat)

  datatype TzeOut = TzeOut(value: int, lock: OutputPredicate)

  /** What the rule may see of the spending transaction: whether it has inputs or
      outputs other than TZE ones, and its TZE outputs. */
  datatype Context = Context(isTzeOnly: bool, tzeOutputs: seq<TzeOut>)

  const NotTzeOnlyMessage: string := "Demo TZE cannot be closed in a transaction with non-TZE inputs or outputs"
  const OutputCountMessage: string := "Invalid number of TZE outputs"
  const OutputModeMessage: string := "Invalid TZE output mode"
  const OutputTypeMessage: string := "Invalid TZE output type"
  const HashMismatchMessage: string := "hash mismatch"
  const ModeMismatchMessage: string := "Mode mismatch"

  /** BLAKE2b-256 with no personalisation. */
  function Hash(blake2b: Blake2b256, input: Bytes): Bytes32 {
    blake2b(Zeros(16), input)
  }

  /** The close hash an open-mode spend commits to, when the spending transaction
      has exactly one TZE output and it is a demo close predicate. */
  function SingleCloseOutput(ctx: Context): (r: Result<Bytes32, string>)
    ensures r.Success? <==> |ctx.tzeOutputs| == 1 && ctx.tzeOutputs[0].lock.Demo? && ctx.tzeOutputs[0].lock.p.ClosePredicate?
    ensures r.Success? ==> r.value == ctx.tzeOutputs[0].lock.p.hash
    ensures |ctx.tzeOutputs| != 1 ==> r == Failure(OutputCountMessage)
    ensures |ctx.tzeOutputs| == 1 && ctx.tzeOutputs[0].lock.Demo? && ctx.tzeOutputs[0].lock.p.OpenPredicate? ==>
      r == Failure(OutputModeMessage)
    ensures |ctx.tzeOutputs| == 1 && ctx.tzeOutputs[0].lock.OtherProgram? ==> r == Failure(OutputTypeMessage)
  {
    if |ctx.tzeOutputs| != 1 then Failure(OutputCountMessage)
    else match ctx.tzeOutputs[0].lock
      case Demo(ClosePredicate(h)) => Success(h)
      case Demo(_) => Failure(OutputModeMessage)
      case OtherProgram(_) => Failure(OutputTypeMessage)
  }

  /** `Program::verify`. */
  function Verify(blake2b: Blake2b256, p: Predicate, w: Witness, ctx: Context): (r: Result<Unit, string>)
    ensures p.OpenPredicate? && w.OpenWitness? ==>
      && (!ctx.isTzeOnly ==> r == Failure(NotTzeOnlyMessage))
      && (ctx.isTzeOnly && SingleCloseOutput(ctx).Failure? ==> r == SingleCloseOutput(ctx).PropagateFailure())
      && (r.Success? <==>
            && ctx.isTzeOnly
            && SingleCloseOutput(ctx).Success?
            && Hash(blake2b, w.preimage + SingleCloseOutput(ctx).value) == p.hash)
    ensures p.ClosePredicate? && w.CloseWitness? ==> (r.Success? <==> Hash(blake2b, w.preimage) == p.hash)
    ensures
      && r.Failure?
      && ((p.OpenPredicate? && w.OpenWitness? && ctx.isTzeOnly && SingleCloseOutput(ctx).Success?)
          || (p.ClosePredicate? && w.CloseWitness?))
      ==> r.error == HashMismatchMessage
    ensures p.OpenPredicate? != w.OpenWitness? ==> r == Failure(ModeMismatchMessage)
  {
    match (p, w)
    case (OpenPredicate(pOpen), OpenWitness(wOpen)) =>
      if !ctx.isTzeOnly then Failure(NotTzeOnlyMessage)
      else
        var pClose :- SingleCloseOutput(ctx);
        if Hash(blake2b, wOpen + pClose) == pOpen then Success(Unit) else Failure(HashMismatchMessage)
    case (ClosePredicate(pClose), CloseWitness(wClose)) =>
      if Hash(blake2b, wClose) == pClose then Success(Unit) else Failure(HashMismatchMessage)
    case _ => Failure(ModeMismatchMessage)
  }

  /** A close-mode spend is judged on the preimage alone: no context changes it. */
  lemma CloseIgnoresContext(blake2b: Blake2b256, hash: Bytes32, preimage: Bytes32, ctx1: Context, ctx2: Context)
    ensures Verify(blake2b, ClosePredicate(hash), CloseWitness(preimage), ctx1)
         == Verify(blake2b, ClosePredicate(hash), CloseWitness(preimage), ctx2)
  {
  }

  /** The hash lock can be opened and then closed by whoever knows both preimages:
      lock to `hash_1 = H(preimage_1 || H(preimage_2))`, spend it with `preimage_1`
      into a single output locked to `H(preimage_2)` in a TZE-only transaction, then
      spend that with `preimage_2` in any transaction. */
  lemma HashLockChain(blake2b: Blake2b256, preimage1: Bytes32, preimage2: Bytes32, value: int, ctx: Context)
    ensures var hash2 := Hash(blake2b, preimage2);
      var hash1 := Hash(blake2b, preimage1 + hash2);
      && Verify(blake2b, OpenPredicate(hash1), OpenWitness(preimage1),
                Context(true, [TzeOut(value, Demo(ClosePredicate(hash2)))])) == Success(Unit)
      && Verify(blake2b, ClosePredicate(hash2), CloseWitness(preimage2), ctx) == Success(Unit)
  {
  }

  /** An open-mode spend succeeds only when its single output commits to a close
      hash that, appended to the revealed preimage, hashes to the locked hash; a
      transaction with any non-TZE part can never spend it. */
  lemma OpenRequiresCommittedClose(blake2b: Blake2b256, hash1: Bytes32, preimage1: Bytes32, ctx: Context)
    requires Verify(blake2b, OpenPredicate(hash1), OpenWitness(preimage1), ctx).Success?
    ensures ctx.isTzeOnly && |ctx.tzeOutputs| == 1
    ensures exists hash2: Bytes32 ::
      ctx.tzeOutputs[0].lock == Demo(ClosePredicate(hash2)) && Hash(blake2b, preimage1 + hash2) == hash1
  {
    var hash2 := SingleCloseOutput(ctx).value;
    assert ctx.tzeOutputs[0].lock == Demo(ClosePredicate(hash2));
  }
}
