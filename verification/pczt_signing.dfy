/** `seed_fingerprint` and `sign_pczt`: a signer walks a PCZT's spend slots and
    writes a spend-authorization signature into every slot its HD seed controls.

    Key derivation, the transaction sighash and RedJubjub signing are opaque
    parameters; the randomness drawn for a slot's signature is represented by the
    slot's position. */
module PcztSigning {
  import opened Common
  import opened Pczt

  /** `ZIP32_HDSEED_FP_PERSONALIZATION`. */
  function SeedFpPersonalization(): (r: Bytes)
    ensures |r| == 16
  {
    Ascii("Zcash_HD_Seed_FP")
  }

  /** `seed_fingerprint`: BLAKE2b-256 personalised with "Zcash_HD_Seed_FP" over the
      byte 32 followed by the seed. The seed may have any length, but the byte in
      front of it is always 32, not the seed's length. */
  function SeedFingerprint(blake2b: Blake2b256, seed: Bytes): (r: Bytes32)
    ensures exists input: Bytes :: r == blake2b(SeedFpPersonalization(), input) && |input| == |seed| + 1 && input[0] == 32 && input[1..] == seed
  {
    var input := [32] + seed;
    assert input[1..] == seed;
    blake2b(SeedFpPersonalization(), input)
  }

  /** Seeds whose fingerprints agree are the same seed, when BLAKE2b does not
      collide on inputs under this personalisation. */
  lemma FingerprintIdentifiesSeed(blake2b: Blake2b256, s1: Bytes, s2: Bytes)
    requires forall x: Bytes, y: Bytes :: blake2b(SeedFpPersonalization(), x) == blake2b(SeedFpPersonalization(), y) ==> x == y
    ensures SeedFingerprint(blake2b, s1) == SeedFingerprint(blake2b, s2) <==> s1 == s2
  {
    if SeedFingerprint(blake2b, s1) == SeedFingerprint(blake2b, s2) {
      var x := [32] + s1;
      var y := [32] + s2;
      assert blake2b(SeedFpPersonalization(), x) == blake2b(SeedFpPersonalization(), y);
      assert x[1..] == s1 && y[1..] == s2;
    }
  }

  // ---------------------------------------------------------------------------
  // Signing

  /** The cryptography `sign_pczt` calls. `T` is the transaction data a document
      converts to, `K` an extended spending key, `S` a scalar (alpha). `spendSig`
      returns the written signature for a key, alpha, sighash and the randomness of
      the slot at the given position. */
  datatype Signer<!T, !K, !S> = Signer(
    blake2b: Blake2b256,
    toData: Document -> Option<T>,
    sighash: (T, nat) -> Bytes32,
    master: Bytes32 -> K,
    fromPath: (K, seq<nat>) -> K,
    scalar: Codec<S>,
    spendSig: (K, S, Bytes32, nat) -> Bytes)

  /** RedJubjub signatures are written as 64 bytes. */
  ghost predicate SignaturesAre64<T, K(!new), S(!new)>(sp: Signer<T, K, S>) {
    forall k: K, a: S, h: Bytes32, i: nat :: |sp.spendSig(k, a, h, i)| == 64
  }

  datatype SignError =
    | DocumentData      // `to_data` failed
    | AlphaUnreadable   // alpha shorter than a scalar encoding (an I/O error)
    | InvalidAlpha      // alpha is not a canonical scalar (an I/O error)

  /** How a signature goes into `spendAuthSig`: appended to what is there, as the
      source does, or replacing it. */
  datatype SigWrite = AppendSig | ReplaceSig

  /** What one signing pass knows before it looks at any slot. */
  datatype Session<K> = Session(fingerprint: Bytes32, master: K, sighash: Bytes32)

  /** The signature for a slot the session controls, when its alpha reads. */
  function SlotSignature<T, K, S>(sp: Signer<T, K, S>, ses: Session<K>, k: nat, s: Spend): Result<Bytes, SignError> {
    match ReadPrefix(sp.scalar, 32, s.alpha)
    case Failure(ShortRead) => Failure(AlphaUnreadable)
    case Failure(Invalid) => Failure(InvalidAlpha)
    case Success(alpha) =>
      Success(sp.spendSig(sp.fromPath(ses.master, s.key.derivationPath), alpha, ses.sighash, k))
  }

  /** One iteration of the slot loop: a slot whose fingerprint is not the signer's is
      passed over without reading its alpha. */
  function SignSlot<T, K, S>(sp: Signer<T, K, S>, ses: Session<K>, mode: SigWrite, k: nat, s: Spend)
    : (r: Result<Spend, SignError>)
    ensures s.key.masterFingerprint != ses.fingerprint ==> r == Success(s)
    ensures s.key.masterFingerprint == ses.fingerprint ==>
      && (r.Success? <==> ReadPrefix(sp.scalar, 32, s.alpha).Success?)
      && (r.Success? ==>
            var sig := sp.spendSig(sp.fromPath(ses.master, s.key.derivationPath), ReadPrefix(sp.scalar, 32, s.alpha).value, ses.sighash, k);
            r.value == s.(spendAuthSig := if mode == AppendSig then s.spendAuthSig + sig else sig))
  {
    if s.key.masterFingerprint != ses.fingerprint then Success(s)
    else
      var sig :- SlotSignature(sp, ses, k, s);
      Success(s.(spendAuthSig := if mode == AppendSig then s.spendAuthSig + sig else sig))
  }

  /** The slot loop from slot `i` on; the first slot that fails ends the call. */
  function SignSpends<T, K, S>(sp: Signer<T, K, S>, ses: Session<K>, mode: SigWrite, spends: seq<Spend>, i: nat)
    : (r: Result<seq<Spend>, SignError>)
    requires i <= |spends|
    decreases |spends| - i
    ensures r.Success? <==> forall k :: i <= k < |spends| ==> SignSlot(sp, ses, mode, k, spends[k]).Success?
    ensures r.Success? ==>
      && |r.value| == |spends| - i
      && forall k :: i <= k < |spends| ==> r.value[k - i] == SignSlot(sp, ses, mode, k, spends[k]).value
    ensures r.Failure? ==>
      exists k :: i <= k < |spends|
        && SignSlot(sp, ses, mode, k, spends[k]) == Failure(r.error)
        && forall j :: i <= j < k ==> SignSlot(sp, ses, mode, j, spends[j]).Success?
  {
    if i == |spends| then Success([])
    else
      var s :- SignSlot(sp, ses, mode, i, spends[i]);
      var rest :- SignSpends(sp, ses, mode, spends, i + 1);
      Success([s] + rest)
  }

  /** The session a seed opens on a document: the sighash is computed once, from the
      document as it was before any slot is touched. */
  function OpenSession<T, K, S>(sp: Signer<T, K, S>, doc: Document, seed: Bytes32, branchId: nat)
    : Result<Session<K>, SignError>
  {
    match sp.toData(doc)
    case None => Failure(DocumentData)
    case Some(mtx) => Success(Session(SeedFingerprint(sp.blake2b, seed), sp.master(seed), sp.sighash(mtx, branchId)))
  }

  function Sign<T, K, S>(sp: Signer<T, K, S>, mode: SigWrite, doc: Document, seed: Bytes32, branchId: nat)
    : Result<Document, SignError>
  {
    var ses :- OpenSession(sp, doc, seed, branchId);
    var spends :- SignSpends(sp, ses, mode, doc.spends, 0);
    Success(doc.(spends := spends))
  }

  /** `sign_pczt`, as written: signatures are appended to `spendAuthSig`. */
  function SignPczt<T, K, S>(sp: Signer<T, K, S>, doc: Document, seed: Bytes32, branchId: nat): Result<Document, SignError> {
    Sign(sp, AppendSig, doc, seed, branchId)
  }

  /** `sign_pczt` with the signature field cleared before it is written, as
      `add_sapling_output` clears `bsk` and `bvk`. */
  function SignPcztFixed<T, K, S>(sp: Signer<T, K, S>, doc: Document, seed: Bytes32, branchId: nat): Result<Document, SignError> {
    Sign(sp, ReplaceSig, doc, seed, branchId)
  }

  // ---------------------------------------------------------------------------
  // Properties

  /** The slot carries the fingerprint of `seed`. */
  predicate Controls<T, K, S>(sp: Signer<T, K, S>, seed: Bytes32, s: Spend) {
    s.key.masterFingerprint == SeedFingerprint(sp.blake2b, seed)
  }

  /** A successful pass changes nothing but the signature fields of the slots the
      seed controls; each of those receives the signature over the sighash of the
      document as given, with the key at the slot's path from the seed's master key. */
  lemma SignTouchesOnlyOwnSlots<T, K, S>(sp: Signer<T, K, S>, mode: SigWrite, doc: Document, seed: Bytes32, branchId: nat)
    ensures var r := Sign(sp, mode, doc, seed, branchId);
      r.Success? ==>
        && sp.toData(doc).Some?
        && r.value.global == doc.global
        && r.value.outputs == doc.outputs
        && |r.value.spends| == |doc.spends|
        && forall k :: 0 <= k < |doc.spends| ==>
             var s := doc.spends[k];
             var s' := r.value.spends[k];
             && (!Controls(sp, seed, s) ==> s' == s)
             && (Controls(sp, seed, s) ==>
                   && ReadPrefix(sp.scalar, 32, s.alpha).Success?
                   && var sig := sp.spendSig(sp.fromPath(sp.master(seed), s.key.derivationPath),
                                             ReadPrefix(sp.scalar, 32, s.alpha).value,
                                             sp.sighash(sp.toData(doc).value, branchId), k);
                      && s'.key == s.key && s'.alpha == s.alpha
                      && s'.spendAuthSig == (if mode == AppendSig then s.spendAuthSig + sig else sig))
  {
    var r := Sign(sp, mode, doc, seed, branchId);
    if r.Success? {
      var ses := OpenSession(sp, doc, seed, branchId).value;
      var spends := SignSpends(sp, ses, mode, doc.spends, 0);
      forall k | 0 <= k < |doc.spends|
        ensures r.value.spends[k] == SignSlot(sp, ses, mode, k, doc.spends[k]).value
      {
        assert r.value.spends[k] == spends.value[k - 0];
      }
    }
  }

  /** A pass fails exactly when the document does not convert, or some slot the seed
      controls holds an unreadable alpha; the alpha of any other slot is never read. */
  lemma SignFailsOnlyOnOwnAlpha<T, K, S>(sp: Signer<T, K, S>, mode: SigWrite, doc: Document, seed: Bytes32, branchId: nat)
    ensures Sign(sp, mode, doc, seed, branchId).Failure? <==>
      || sp.toData(doc).None?
      || exists k :: 0 <= k < |doc.spends| && Controls(sp, seed, doc.spends[k])
           && ReadPrefix(sp.scalar, 32, doc.spends[k].alpha).Failure?
  {
    if sp.toData(doc).Some? {
      var ses := OpenSession(sp, doc, seed, branchId).value;
      var spends := SignSpends(sp, ses, mode, doc.spends, 0);
      if spends.Failure? {
        var k :| 0 <= k < |doc.spends| && SignSlot(sp, ses, mode, k, doc.spends[k]) == Failure(spends.error);
        assert Controls(sp, seed, doc.spends[k]);
      } else {
        forall k | 0 <= k < |doc.spends| && Controls(sp, seed, doc.spends[k])
          ensures ReadPrefix(sp.scalar, 32, doc.spends[k].alpha).Success?
        {
          assert SignSlot(sp, ses, mode, k, doc.spends[k]).Success?;
        }
      }
    }
  }

  /** A seed that controls no slot leaves the document as it was. */
  lemma SignWithoutOwnSlots<T, K, S>(sp: Signer<T, K, S>, mode: SigWrite, doc: Document, seed: Bytes32, branchId: nat)
    requires sp.toData(doc).Some?
    requires forall k :: 0 <= k < |doc.spends| ==> !Controls(sp, seed, doc.spends[k])
    ensures Sign(sp, mode, doc, seed, branchId) == Success(doc)
  {
    var ses := OpenSession(sp, doc, seed, branchId).value;
    var spends := SignSpends(sp, ses, mode, doc.spends, 0);
    assert spends.Success?;
    assert spends.value == doc.spends;
  }

  /** Signing a document whose signature fields are empty writes exactly one 64-byte
      signature into each slot the seed controls, whichever way the field is written. */
  lemma SignFreshDocument<T, K(!new), S(!new)>(sp: Signer<T, K, S>, doc: Document, seed: Bytes32, branchId: nat)
    requires SignaturesAre64(sp)
    requires forall k :: 0 <= k < |doc.spends| ==> doc.spends[k].spendAuthSig == []
    ensures SignPczt(sp, doc, seed, branchId) == SignPcztFixed(sp, doc, seed, branchId)
    ensures var r := SignPczt(sp, doc, seed, branchId);
      r.Success? ==> forall k :: 0 <= k < |doc.spends| && Controls(sp, seed, doc.spends[k]) ==>
        |r.value.spends[k].spendAuthSig| == 64
  {
    SignTouchesOnlyOwnSlots(sp, AppendSig, doc, seed, branchId);
    SignTouchesOnlyOwnSlots(sp, ReplaceSig, doc, seed, branchId);
    SignFailsOnlyOnOwnAlpha(sp, AppendSig, doc, seed, branchId);
    SignFailsOnlyOnOwnAlpha(sp, ReplaceSig, doc, seed, branchId);
    var r := SignPczt(sp, doc, seed, branchId);
    var rf := SignPcztFixed(sp, doc, seed, branchId);
    if r.Success? {
      assert rf.Success?;
      assert r.value.spends == rf.value.spends by {
        forall k | 0 <= k < |doc.spends|
          ensures r.value.spends[k] == rf.value.spends[k]
        {
          if Controls(sp, seed, doc.spends[k]) {
            var sig := sp.spendSig(sp.fromPath(sp.master(seed), doc.spends[k].key.derivationPath),
                                   ReadPrefix(sp.scalar, 32, doc.spends[k].alpha).value,
                                   sp.sighash(sp.toData(doc).value, branchId), k);
            assert [] + sig == sig;
          }
        }
      }
    } else {
      assert rf.Failure?;
      var ses := OpenSession(sp, doc, seed, branchId);
      if ses.Success? {
        assert SignSpends(sp, ses.value, AppendSig, doc.spends, 0).error == SignSpends(sp, ses.value, ReplaceSig, doc.spends, 0).error by {
          SignSpendsErrorIndependentOfMode(sp, ses.value, doc.spends, 0);
        }
      }
    }
  }

  /** Whether a slot fails, and with which error, does not depend on how the
      signature would be written. */
  lemma {:induction false} SignSpendsErrorIndependentOfMode<T, K, S>(sp: Signer<T, K, S>, ses: Session<K>, spends: seq<Spend>, i: nat)
    requires i <= |spends|
    ensures SignSpends(sp, ses, AppendSig, spends, i).Failure? == SignSpends(sp, ses, ReplaceSig, spends, i).Failure?
    ensures SignSpends(sp, ses, AppendSig, spends, i).Failure? ==>
      SignSpends(sp, ses, AppendSig, spends, i).error == SignSpends(sp, ses, ReplaceSig, spends, i).error
    decreases |spends| - i
  {
    if i < |spends| {
      SignSpendsErrorIndependentOfMode(sp, ses, spends, i + 1);
    }
  }

  /** As written, signing the same document twice with the same seed leaves 128 bytes
      in a slot's signature field: the second signature is appended after the first. */
  lemma SignTwiceAppends<T, K(!new), S(!new)>(sp: Signer<T, K, S>, doc: Document, seed: Bytes32, branchId: nat, k: nat)
    requires SignaturesAre64(sp)
    requires k < |doc.spends| && Controls(sp, seed, doc.spends[k]) && doc.spends[k].spendAuthSig == []
    requires SignPczt(sp, doc, seed, branchId).Success?
    requires sp.toData(SignPczt(sp, doc, seed, branchId).value).Some?
    ensures var r2 := SignPczt(sp, SignPczt(sp, doc, seed, branchId).value, seed, branchId);
      r2.Success? && |r2.value.spends[k].spendAuthSig| == 128
  {
    var r1 := SignPczt(sp, doc, seed, branchId);
    SignTouchesOnlyOwnSlots(sp, AppendSig, doc, seed, branchId);
    SignFailsOnlyOnOwnAlpha(sp, AppendSig, doc, seed, branchId);
    SignFailsOnlyOnOwnAlpha(sp, AppendSig, r1.value, seed, branchId);
    assert forall j :: 0 <= j < |doc.spends| ==> r1.value.spends[j].key == doc.spends[j].key && r1.value.spends[j].alpha == doc.spends[j].alpha;
    SignTouchesOnlyOwnSlots(sp, AppendSig, r1.value, seed, branchId);
  }

  /** With the field cleared first, signing again leaves exactly one 64-byte
      signature in every slot the seed controls, whatever the field held. */
  lemma SignFixedWritesOneSignature<T, K(!new), S(!new)>(sp: Signer<T, K, S>, doc: Document, seed: Bytes32, branchId: nat)
    requires SignaturesAre64(sp)
    ensures var r := SignPcztFixed(sp, doc, seed, branchId);
      r.Success? ==> forall k :: 0 <= k < |doc.spends| && Controls(sp, seed, doc.spends[k]) ==>
        |r.value.spends[k].spendAuthSig| == 64
  {
    SignTouchesOnlyOwnSlots(sp, ReplaceSig, doc, seed, branchId);
  }
}
