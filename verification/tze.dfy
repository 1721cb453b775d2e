/** The extension-independent side of Transparent Zcash Extensions: the
    `(extension_id, mode, payload)` records a transaction carries, their wire form,
    and `Extension::verify`, which parses both records for one extension before
    running its rule.

    The `CompactSize` integer encoding is an abstract codec; `serialize.rs` is not
    part of this model. A byte vector is written as its `CompactSize` length followed
    by its bytes. */
module Tze {
  import opened Common

  /** A condition encumbering transparent funds. */
  datatype Predicate = Predicate(extensionId: nat, mode: nat, payload: Bytes)

  /** Data satisfying a predicate. */
  datatype Witness = Witness(extensionId: nat, mode: nat, payload: Bytes)

  // ---------------------------------------------------------------------------
  // Wire form

  /** `CompactSize::write` and `CompactSize::read`; a read returns the value and the
      unread rest of the stream. */
  datatype CompactSize = CompactSize(put: nat -> Bytes, get: Bytes -> Option<(nat, Bytes)>)

  /** Values up to `limit` are read back from their encoding, whatever follows. */
  ghost predicate SizesRoundTrip(cs: CompactSize, limit: nat) {
    forall n: nat, rest: Bytes :: n <= limit ==> cs.get(cs.put(n) + rest) == Some((n, rest))
  }

  /** `Vector::write` of bytes. */
  function PutVector(cs: CompactSize, v: Bytes): Bytes {
    cs.put(|v|) + v
  }

  /** `Vector::read` of bytes: a length, then that many bytes. A successful read
      splits the stream after the length into the announced number of bytes and
      the rest, losing nothing. */
  function GetVector(cs: CompactSize, s: Bytes): (r: Option<(Bytes, Bytes)>)
    ensures r.Some? ==>
      && cs.get(s).Some?
      && |r.value.0| == cs.get(s).value.0
      && r.value.0 + r.value.1 == cs.get(s).value.1
  {
    match cs.get(s)
    case None => None
    case Some((len, s')) => if len <= |s'| then Some((s'[..len], s'[len..])) else None
  }

  /** A read fails exactly when the length does not read or more bytes are
      announced than the stream holds. */
  lemma GetVectorFails(cs: CompactSize, s: Bytes)
    ensures GetVector(cs, s).None? <==> cs.get(s).None? || cs.get(s).value.0 > |cs.get(s).value.1|
  {
  }

  lemma VectorRoundTrip(cs: CompactSize, limit: nat, v: Bytes, rest: Bytes)
    requires SizesRoundTrip(cs, limit) && |v| <= limit
    ensures GetVector(cs, PutVector(cs, v) + rest) == Some((v, rest))
  {
    assert PutVector(cs, v) + rest == cs.put(|v|) + (v + rest);
    assert (v + rest)[..|v|] == v && (v + rest)[|v|..] == rest;
  }

  /** The three fields, in the order both records write them. */
  function PutFields(cs: CompactSize, extensionId: nat, mode: nat, payload: Bytes): Bytes {
    cs.put(extensionId) + cs.put(mode) + PutVector(cs, payload)
  }

  /** The three fields, in the order both records read them. */
  function GetFields(cs: CompactSize, s: Bytes): Option<(nat, nat, Bytes, Bytes)> {
    match cs.get(s)
    case None => None
    case Some((extensionId, s1)) =>
      match cs.get(s1)
      case None => None
      case Some((mode, s2)) =>
        match GetVector(cs, s2)
        case None => None
        case Some((payload, rest)) => Some((extensionId, mode, payload, rest))
  }

  lemma {:induction false} FieldsRoundTrip(cs: CompactSize, limit: nat, extensionId: nat, mode: nat, payload: Bytes, rest: Bytes)
    requires SizesRoundTrip(cs, limit)
    requires extensionId <= limit && mode <= limit && |payload| <= limit
    ensures GetFields(cs, PutFields(cs, extensionId, mode, payload) + rest) == Some((extensionId, mode, payload, rest))
  {
    var s := PutFields(cs, extensionId, mode, payload) + rest;
    var s1 := cs.put(mode) + (PutVector(cs, payload) + rest);
    var s2 := PutVector(cs, payload) + rest;
    assert s == cs.put(extensionId) + s1;
    assert cs.get(s) == Some((extensionId, s1));
    assert cs.get(s1) == Some((mode, s2));
    VectorRoundTrip(cs, limit, payload, rest);
  }

  /** `Predicate::write`. */
  function WritePredicate(cs: CompactSize, p: Predicate): Bytes {
    PutFields(cs, p.extensionId, p.mode, p.payload)
  }

  /** `Predicate::read`: the predicate and the unread rest of the stream. */
  function ReadPredicate(cs: CompactSize, s: Bytes): Option<(Predicate, Bytes)> {
    match GetFields(cs, s)
    case None => None
    case Some((extensionId, mode, payload, rest)) => Some((Predicate(extensionId, mode, payload), rest))
  }

  /** `Witness::write`. */
  function WriteWitness(cs: CompactSize, w: Witness): Bytes {
    PutFields(cs, w.extensionId, w.mode, w.payload)
  }

  /** `Witness::read`. */
  function ReadWitness(cs: CompactSize, s: Bytes): Option<(Witness, Bytes)> {
    match GetFields(cs, s)
    case None => None
    case Some((extensionId, mode, payload, rest)) => Some((Witness(extensionId, mode, payload), rest))
  }

  /** A predicate whose fields are within the codec's range is read back from what
      it writes, leaving the rest of the stream. */
  lemma PredicateWireRoundTrip(cs: CompactSize, limit: nat, p: Predicate, rest: Bytes)
    requires SizesRoundTrip(cs, limit)
    requires p.extensionId <= limit && p.mode <= limit && |p.payload| <= limit
    ensures ReadPredicate(cs, WritePredicate(cs, p) + rest) == Some((p, rest))
  {
    FieldsRoundTrip(cs, limit, p.extensionId, p.mode, p.payload, rest);
  }

  lemma WitnessWireRoundTrip(cs: CompactSize, limit: nat, w: Witness, rest: Bytes)
    requires SizesRoundTrip(cs, limit)
    requires w.extensionId <= limit && w.mode <= limit && |w.payload| <= limit
    ensures ReadWitness(cs, WriteWitness(cs, w) + rest) == Some((w, rest))
  {
    FieldsRoundTrip(cs, limit, w.extensionId, w.mode, w.payload, rest);
  }

  // ---------------------------------------------------------------------------
  // From an extension's own values

  /** `Predicate::from`: the extension id with the value's mode and payload. */
  function PredicateFrom<P>(extensionId: nat, value: P, toPayload: P -> (nat, Bytes)): (r: Predicate)
    ensures r.extensionId == extensionId && (r.mode, r.payload) == toPayload(value)
  {
    Predicate(extensionId, toPayload(value).0, toPayload(value).1)
  }

  /** `Witness::from`. */
  function WitnessFrom<W>(extensionId: nat, value: W, toPayload: W -> (nat, Bytes)): (r: Witness)
    ensures r.extensionId == extensionId && (r.mode, r.payload) == toPayload(value)
  {
    Witness(extensionId, toPayload(value).0, toPayload(value).1)
  }

  // ---------------------------------------------------------------------------
  // Extension::verify

  /** An extension: its parsers from `(mode, payload)` and its rule `verify_inner`
      over a context `C`. */
  datatype Extension<!P, !W, !C, !E> = Extension(
    parsePredicate: (nat, Bytes) -> Result<P, E>,
    parseWitness: (nat, Bytes) -> Result<W, E>,
    verifyInner: (P, W, C) -> Result<Unit, E>)

  /** `Extension::verify`: the predicate is parsed first, and its error is returned
      before the witness is looked at; when both parse, the rule decides. */
  function Verify<P, W, C, E>(ext: Extension<P, W, C, E>, pred: Predicate, wit: Witness, ctx: C)
    : (r: Result<Unit, E>)
    ensures ext.parsePredicate(pred.mode, pred.payload).Failure? ==>
      r == Failure(ext.parsePredicate(pred.mode, pred.payload).error)
    ensures ext.parsePredicate(pred.mode, pred.payload).Success? && ext.parseWitness(wit.mode, wit.payload).Failure? ==>
      r == Failure(ext.parseWitness(wit.mode, wit.payload).error)
    ensures r.Success? ==>
      && ext.parsePredicate(pred.mode, pred.payload).Success?
      && ext.parseWitness(wit.mode, wit.payload).Success?
      && ext.verifyInner(ext.parsePredicate(pred.mode, pred.payload).value,
                         ext.parseWitness(wit.mode, wit.payload).value, ctx).Success?
    ensures ext.parsePredicate(pred.mode, pred.payload).Success? && ext.parseWitness(wit.mode, wit.payload).Success? ==>
      r == ext.verifyInner(ext.parsePredicate(pred.mode, pred.payload).value,
                           ext.parseWitness(wit.mode, wit.payload).value, ctx)
  {
    var p0 :- ext.parsePredicate(pred.mode, pred.payload);
    var w0 :- ext.parseWitness(wit.mode, wit.payload);
    ext.verifyInner(p0, w0, ctx)
  }

  /** An extension whose parsers invert its serialisers verifies records built with
      `from` exactly as its rule judges the original values. */
  lemma VerifyFrom<P, W, C, E>(
    ext: Extension<P, W, C, E>, predicateToPayload: P -> (nat, Bytes), witnessToPayload: W -> (nat, Bytes),
    extensionId: nat, p: P, w: W, ctx: C)
    requires ext.parsePredicate(predicateToPayload(p).0, predicateToPayload(p).1) == Success(p)
    requires ext.parseWitness(witnessToPayload(w).0, witnessToPayload(w).1) == Success(w)
    ensures Verify(ext, PredicateFrom(extensionId, p, predicateToPayload), WitnessFrom(extensionId, w, witnessToPayload), ctx)
         == ext.verifyInner(p, w, ctx)
  {
  }
}
