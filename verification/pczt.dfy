/** A partially-created transaction (PCZT) document and `add_sapling_output`, which
    adds one Sapling output to it and folds the output's value commitment into the
    document's binding accumulator.

    The document is taken already parsed: its protobuf wire encoding is not part of
    this model. The proving context, the output builder and the scalar and point
    encodings are opaque parameters. */
module Pczt {
  import opened Common

  // ---------------------------------------------------------------------------
  // Amounts and the signed 64-bit value balance

  /** `MAX_MONEY`: 21 million coins of 10^8 zatoshis. */
  const MaxMoney: int := 21_000_000 * 100_000_000

  /** `Amount`: a zatoshi value whose magnitude is at most `MaxMoney`. */
  type Amount = v: int | -MaxMoney <= v <= MaxMoney

  const I64Min: int := -0x8000_0000_0000_0000
  const I64Max: int := 0x7fff_ffff_ffff_ffff

  predicate InI64(x: int) {
    I64Min <= x <= I64Max
  }

  // ---------------------------------------------------------------------------
  // The document

  datatype Global = Global(valueBalance: int, bsk: Bytes, bvk: Bytes)

  /** Which HD seed controls a spend, and the child path from its master key. */
  datatype SpendKey = SpendKey(masterFingerprint: Bytes, derivationPath: seq<nat>)

  datatype Spend = Spend(key: SpendKey, alpha: Bytes, spendAuthSig: Bytes)

  datatype Output = Output(
    cv: Bytes, cmu: Bytes, epk: Bytes, encCiphertext: Bytes, outCiphertext: Bytes,
    zkproof: Bytes, value: int, rcv: Bytes)

  datatype Document = Document(global: Global, spends: seq<Spend>, outputs: seq<Output>)

  // ---------------------------------------------------------------------------
  // The output builder

  /** An output description as the builder returns it, each part already in the
      encoding the document stores. */
  datatype Description = Description(
    cv: Bytes, cmu: Bytes, epk: Bytes, encCiphertext: Bytes, outCiphertext: Bytes, zkproof: Bytes)

  /** The Sapling machinery `add_sapling_output` calls. `S` is a scalar (bsk, rcv),
      `P` a curve point (bvk), `Ctx` the proving context, `Req` everything else the
      output is built from (outgoing viewing key, recipient, memo, randomness).
      `accepts` says whether `SaplingOutput::new` succeeds; `build` returns the
      description, its value-commitment randomness and the updated context. */
  datatype OutputBuilder<!S, !P, !Ctx, !Req> = OutputBuilder(
    scalar: Codec<S>,
    point: Codec<P>,
    empty: Ctx,
    fromParts: (S, P) -> Ctx,
    intoParts: Ctx -> (S, P),
    accepts: (Req, Amount) -> bool,
    build: (Req, Amount, Ctx) -> (Description, S, Ctx))

  /** Scalars and points are stored as 32-byte encodings that decode back. */
  ghost predicate Encodings<S(!new), P(!new), Ctx, Req>(b: OutputBuilder<S, P, Ctx, Req>) {
    RoundTrips(b.scalar) && EncodesTo(b.scalar, 32) && RoundTrips(b.point) && EncodesTo(b.point, 32)
  }

  /** A proving context holds nothing but its two accumulator parts. */
  ghost predicate ContextIsParts<S, P, Ctx(!new), Req>(b: OutputBuilder<S, P, Ctx, Req>) {
    forall c: Ctx :: b.fromParts(b.intoParts(c).0, b.intoParts(c).1) == c
  }

  datatype AddError =
    | BskUnreadable     // bsk shorter than a scalar encoding (an I/O error)
    | InvalidBsk        // "Invalid bsk"
    | BvkUnreadable     // bvk short or not a point (an I/O error)
    | BuildFailed       // "Failed to build Sapling output"
    | ValueBalanceOverflow

  /** Both accumulator fields are empty: nothing has been added yet. */
  predicate Unseeded(g: Global) {
    |g.bsk| == 0 && |g.bvk| == 0
  }

  /** The proving context `add_sapling_output` starts from: a new one when the
      document has no accumulator, otherwise the one the document's `bsk` and `bvk`
      encode, with `bsk` read before `bvk`. */
  function SeedContext<S, P, Ctx, Req>(b: OutputBuilder<S, P, Ctx, Req>, g: Global): (r: Result<Ctx, AddError>)
    ensures Unseeded(g) ==> r == Success(b.empty)
    ensures !Unseeded(g) ==>
      && (r == Failure(BskUnreadable) <==> |g.bsk| < 32)
      && (r == Failure(InvalidBsk) <==> |g.bsk| >= 32 && b.scalar.decode(g.bsk[..32]).None?)
      && (r.Success? <==> ReadPrefix(b.scalar, 32, g.bsk).Success? && ReadPrefix(b.point, 32, g.bvk).Success?)
      && (r.Success? ==>
            r.value == b.fromParts(ReadPrefix(b.scalar, 32, g.bsk).value, ReadPrefix(b.point, 32, g.bvk).value))
    ensures (|g.bsk| == 0) != (|g.bvk| == 0) ==> r.Failure?
  {
    if Unseeded(g) then Success(b.empty)
    else
      var bsk :- match ReadPrefix(b.scalar, 32, g.bsk)
        case Failure(ShortRead) => Failure(BskUnreadable)
        case Failure(Invalid) => Failure(InvalidBsk)
        case Success(s) => Success(s);
      var bvk :- match ReadPrefix(b.point, 32, g.bvk)
        case Failure(_) => Failure(BvkUnreadable)
        case Success(q) => Success(q);
      Success(b.fromParts(bsk, bvk))
  }

  /** The output the document stores for a built description. */
  function ToOutput(d: Description, value: Amount, rcv: Bytes): Output {
    Output(d.cv, d.cmu, d.epk, d.encCiphertext, d.outCiphertext, d.zkproof, value, rcv)
  }

  /** `add_sapling_output`: seed the context, build the output against it, append the
      output, subtract its value from the balance, and replace `bsk` and `bvk` by
      the context's parts. */
  function AddSaplingOutput<S, P, Ctx, Req>(
    b: OutputBuilder<S, P, Ctx, Req>, doc: Document, req: Req, value: Amount)
    : (r: Result<Document, AddError>)
    ensures r.Success? <==>
      && SeedContext(b, doc.global).Success?
      && b.accepts(req, value)
      && InI64(doc.global.valueBalance - value)
    ensures SeedContext(b, doc.global).Failure? ==> r == SeedContext(b, doc.global).PropagateFailure()
    ensures SeedContext(b, doc.global).Success? && !b.accepts(req, value) ==> r == Failure(BuildFailed)
    ensures r.Success? ==>
      var (d, rcv, ctx) := b.build(req, value, SeedContext(b, doc.global).value);
      && r.value.spends == doc.spends
      && |r.value.outputs| == |doc.outputs| + 1
      && r.value.outputs[..|doc.outputs|] == doc.outputs
      && r.value.outputs[|doc.outputs|] == ToOutput(d, value, b.scalar.encode(rcv))
      && r.value.global.valueBalance == doc.global.valueBalance - value
      && r.value.global.bsk == b.scalar.encode(b.intoParts(ctx).0)
      && r.value.global.bvk == b.point.encode(b.intoParts(ctx).1)
  {
    var ctx :- SeedContext(b, doc.global);
    if !b.accepts(req, value) then Failure(BuildFailed)
    else
      var (d, rcv, ctx') := b.build(req, value, ctx);
      var (bsk, cvSum) := b.intoParts(ctx');
      var balance := doc.global.valueBalance - value;
      if !InI64(balance) then Failure(ValueBalanceOverflow)
      else
        var outputs := doc.outputs + [ToOutput(d, value, b.scalar.encode(rcv))];
        assert outputs[..|doc.outputs|] == doc.outputs;
        Success(Document(Global(balance, b.scalar.encode(bsk), b.point.encode(cvSum)), doc.spends, outputs))
  }

  // ---------------------------------------------------------------------------
  // Properties

  /** The accumulator an addition writes is the one the next addition reads: the
      document carries the proving context from one output to the next. */
  lemma AddThenReseed<S(!new), P(!new), Ctx(!new), Req>(
    b: OutputBuilder<S, P, Ctx, Req>, doc: Document, req: Req, value: Amount)
    requires Encodings(b) && ContextIsParts(b)
    requires AddSaplingOutput(b, doc, req, value).Success?
    ensures var r := AddSaplingOutput(b, doc, req, value).value;
      var ctx := b.build(req, value, SeedContext(b, doc.global).value).2;
      && !Unseeded(r.global)
      && SeedContext(b, r.global) == Success(ctx)
  {
    var r := AddSaplingOutput(b, doc, req, value).value;
    var ctx := b.build(req, value, SeedContext(b, doc.global).value).2;
    var (bsk, cvSum) := b.intoParts(ctx);
    ReadPrefixOfEncoding(b.scalar, 32, bsk, []);
    ReadPrefixOfEncoding(b.point, 32, cvSum, []);
    assert b.scalar.encode(bsk) + [] == r.global.bsk;
    assert b.point.encode(cvSum) + [] == r.global.bvk;
    assert b.fromParts(bsk, cvSum) == ctx;
  }

  /** The empty document a proposer starts from. */
  const Empty: Document := Document(Global(0, [], []), [], [])

  /** Two additions to an empty document leave a balance of minus their sum, the
      two outputs in the order they were added, and the accumulator of the second
      build. */
  lemma TwoAddsFromEmpty<S(!new), P(!new), Ctx(!new), Req>(
    b: OutputBuilder<S, P, Ctx, Req>, req1: Req, v1: Amount, req2: Req, v2: Amount)
    requires Encodings(b) && ContextIsParts(b)
    requires b.accepts(req1, v1) && b.accepts(req2, v2)
    ensures var r1 := AddSaplingOutput(b, Empty, req1, v1);
      && r1.Success?
      && var ctx1 := b.build(req1, v1, b.empty).2;
         var r2 := AddSaplingOutput(b, r1.value, req2, v2);
         var ctx2 := b.build(req2, v2, ctx1).2;
         && r2.Success?
         && r2.value.global.valueBalance == -(v1 + v2)
         && |r2.value.outputs| == 2
         && r2.value.outputs[0].value == v1
         && r2.value.outputs[1].value == v2
         && r2.value.spends == []
         && r2.value.global.bvk == b.point.encode(b.intoParts(ctx2).1)
  {
    var r1 := AddSaplingOutput(b, Empty, req1, v1);
    assert r1.Success?;
    AddThenReseed(b, Empty, req1, v1);
    var r2 := AddSaplingOutput(b, r1.value, req2, v2);
    assert r2.Success?;
    assert r2.value.outputs[..1] == r1.value.outputs;
  }
}
