/** ZIP 304 message signatures: a Sapling spend proof for a fake one-zatoshi note,
    plus a spend-authorization signature over a digest of the proof and the message,
    serialised as a fixed 320-byte string.

    Curve points, RedJubjub, Groth16, note commitments, nullifiers and the
    commitment tree are opaque parameters; the message is given as its UTF-8 bytes. */
module Zip304 {
  import opened Common

  type Bytes192 = s: Bytes | |s| == 192 witness Zeros(192)

  /** `Signature`: the fake note's nullifier, the randomised verification key, the
      Groth16 proof and the spend-authorization signature. */
  datatype Signature<PK, Sig> = Signature(nullifier: Bytes32, rk: PK, zkproof: Bytes192, spendAuthSig: Sig)

  /** The fake note both sides agree on: value 1, note and value-commitment
      randomness zero. */
  const FakeNoteValue: nat := 1
  const FakeRcm: int := 0
  const FakeRcv: int := 0

  /** The cryptography ZIP 304 is built from. `Key` is an expanded spending key,
      `Addr` a payment address, `PK` a RedJubjub public key, `Sig` a RedJubjub
      signature, `A` a Jubjub scalar (alpha), `Proof` a Groth16 proof and `F` a
      BLS12-381 scalar (a public input). Randomness is a `nat`. */
  datatype Crypto<!Key, !Addr, !PK, !Sig, !A, !Proof, !F> = Crypto(
    blake2b: Blake2b256,
    rkCodec: Codec<PK>,
    smallOrder: PK -> bool,
    sigCodec: Codec<Sig>,
    readProof: Bytes -> Option<Proof>,
    owns: (Key, Addr) -> bool,
    // the note with the given value and commitment randomness, sent to the address
    nullifier: (Key, Addr, nat, int) -> Bytes32,
    anchor: (Addr, nat, int) -> F,
    valueCommitment: (nat, int) -> (F, F),
    // `ak` randomised by alpha, and its affine coordinates
    randomize: (Key, A) -> PK,
    affine: PK -> (F, F),
    // multipacking of the nullifier's 256 bits into two field elements
    pack: Bytes32 -> (F, F),
    // a spend proof for a note with the given value, commitment randomness and
    // value-commitment randomness
    prove: (Key, Addr, A, nat, int, int, nat) -> Bytes192,
    // `spend_sig`: signs `rk || digest` with `ask` randomised by alpha
    spendSig: (Key, A, Bytes32, nat) -> Sig,
    verifySig: (PK, Bytes, Sig) -> bool,
    verifyProof: (Proof, seq<F>) -> bool)

  // ---------------------------------------------------------------------------
  // The 320-byte encoding

  /** `Signature::from_bytes`: rejects an undecodable or small-order `rk` and an
      undecodable signature; copies the nullifier and proof bytes verbatim. */
  function FromBytes<Key, Addr, PK, Sig, A, Proof, F>(c: Crypto<Key, Addr, PK, Sig, A, Proof, F>, bytes: Bytes)
    : (r: Option<Signature<PK, Sig>>)
    requires |bytes| == 320
    ensures r.Some? <==>
      && c.rkCodec.decode(bytes[32..64]).Some?
      && !c.smallOrder(c.rkCodec.decode(bytes[32..64]).value)
      && c.sigCodec.decode(bytes[256..320]).Some?
    ensures r.Some? ==>
      && r.value.nullifier == bytes[0..32]
      && Some(r.value.rk) == c.rkCodec.decode(bytes[32..64])
      && r.value.zkproof == bytes[64..256]
      && Some(r.value.spendAuthSig) == c.sigCodec.decode(bytes[256..320])
  {
    match c.rkCodec.decode(bytes[32..64])
    case None => None
    case Some(rk) =>
      if c.smallOrder(rk) then None
      else match c.sigCodec.decode(bytes[256..320])
        case None => None
        case Some(sig) => Some(Signature(bytes[0..32], rk, bytes[64..256], sig))
  }

  /** `Signature::to_bytes`: nullifier at 0..32, `rk` at 32..64, proof at 64..256,
      signature at 256..320. The key and signature encodings fill their slots. */
  function ToBytes<Key, Addr, PK, Sig, A, Proof, F>(c: Crypto<Key, Addr, PK, Sig, A, Proof, F>, s: Signature<PK, Sig>)
    : (r: Bytes)
    requires |c.rkCodec.encode(s.rk)| == 32 && |c.sigCodec.encode(s.spendAuthSig)| == 64
    ensures |r| == 320
  {
    s.nullifier + c.rkCodec.encode(s.rk) + s.zkproof + c.sigCodec.encode(s.spendAuthSig)
  }

  /** The layout `ToBytes` writes. */
  lemma ToBytesLayout<Key, Addr, PK, Sig, A, Proof, F>(c: Crypto<Key, Addr, PK, Sig, A, Proof, F>, s: Signature<PK, Sig>)
    requires |c.rkCodec.encode(s.rk)| == 32 && |c.sigCodec.encode(s.spendAuthSig)| == 64
    ensures var b := ToBytes(c, s);
      && b[0..32] == s.nullifier
      && b[32..64] == c.rkCodec.encode(s.rk)
      && b[64..256] == s.zkproof
      && b[256..320] == c.sigCodec.encode(s.spendAuthSig)
  {
    var b := ToBytes(c, s);
    var n, k, z, g := s.nullifier, c.rkCodec.encode(s.rk), s.zkproof, c.sigCodec.encode(s.spendAuthSig);
    assert b == n + k + z + g;
    assert b[0..32] == n;
    assert b[32..64] == k;
    assert b[64..256] == z;
    assert b[256..320] == g;
  }

  /** The key and signature codecs are 32- and 64-byte encodings that decode back. */
  ghost predicate Encodings<Key, Addr, PK(!new), Sig(!new), A, Proof, F>(c: Crypto<Key, Addr, PK, Sig, A, Proof, F>) {
    RoundTrips(c.rkCodec) && EncodesTo(c.rkCodec, 32) && RoundTrips(c.sigCodec) && EncodesTo(c.sigCodec, 64)
  }

  /** A signature whose `rk` has large order survives encoding and decoding. */
  lemma FromBytesToBytes<Key, Addr, PK(!new), Sig(!new), A, Proof, F>(c: Crypto<Key, Addr, PK, Sig, A, Proof, F>, s: Signature<PK, Sig>)
    requires Encodings(c)
    requires !c.smallOrder(s.rk)
    ensures FromBytes(c, ToBytes(c, s)) == Some(s)
  {
    ToBytesLayout(c, s);
  }

  /** With canonical key and signature decoders, every string `FromBytes` accepts is
      the encoding of what it decodes to. */
  lemma ToBytesFromBytes<Key, Addr, PK(!new), Sig(!new), A, Proof, F>(c: Crypto<Key, Addr, PK, Sig, A, Proof, F>, bytes: Bytes)
    requires Encodings(c) && Canonical(c.rkCodec, 32) && Canonical(c.sigCodec, 64)
    requires |bytes| == 320 && FromBytes(c, bytes).Some?
    ensures ToBytes(c, FromBytes(c, bytes).value) == bytes
  {
    var s := FromBytes(c, bytes).value;
    assert c.rkCodec.encode(s.rk) == bytes[32..64];
    assert c.sigCodec.encode(s.spendAuthSig) == bytes[256..320];
    assert bytes == bytes[0..32] + bytes[32..64] + bytes[64..256] + bytes[256..320];
  }

  // ---------------------------------------------------------------------------
  // The message digest

  /** `ZIP304_PERSONALIZATION_PREFIX`. */
  function Prefix(): (r: Bytes)
    ensures |r| == 12
  {
    Ascii("ZIP304Signed")
  }

  /** The BLAKE2b personalisation: the prefix followed by the SLIP 44 coin type as
      4 little-endian bytes. */
  function Personalization(coinType: nat): (r: Bytes)
    requires coinType < 0x1_0000_0000
    ensures |r| == 16 && r[..12] == Prefix() && FromLe32(r[12..]) == coinType
  {
    var r := Prefix() + Le32(coinType);
    assert r[12..] == Le32(coinType);
    r
  }

  /** Distinct coin types never share a personalisation. */
  lemma PersonalizationInjective(m: nat, n: nat)
    requires m < 0x1_0000_0000 && n < 0x1_0000_0000
    ensures Personalization(m) == Personalization(n) <==> m == n
  {
    if Personalization(m) == Personalization(n) {
      assert Personalization(m)[12..] == Personalization(n)[12..];
    }
  }

  /** The digest signed: BLAKE2b-256 over the proof bytes followed by the message. */
  function Digest<Key, Addr, PK, Sig, A, Proof, F>(
    c: Crypto<Key, Addr, PK, Sig, A, Proof, F>, coinType: nat, zkproof: Bytes192, message: Bytes)
    : (r: Bytes32)
    requires coinType < 0x1_0000_0000
    ensures exists input: Bytes ::
      && r == c.blake2b(Personalization(coinType), input)
      && |input| >= 192 && input[..192] == zkproof && input[192..] == message
  {
    var input := zkproof + message;
    assert input[..192] == zkproof && input[192..] == message;
    c.blake2b(Personalization(coinType), input)
  }

  /** The hashed input determines both the proof and the message, because the proof
      has a fixed width. */
  lemma DigestInputUnambiguous(z1: Bytes192, m1: Bytes, z2: Bytes192, m2: Bytes)
    ensures z1 + m1 == z2 + m2 <==> z1 == z2 && m1 == m2
  {
    if z1 + m1 == z2 + m2 {
      assert (z1 + m1)[..192] == z1 && (z2 + m2)[..192] == z2;
      assert (z1 + m1)[192..] == m1 && (z2 + m2)[192..] == m2;
    }
  }

  /** With a BLAKE2b that has no collisions under the message personalisation, a
      digest determines the proof and the message it was computed over. */
  lemma DigestBinds<Key, Addr, PK, Sig, A, Proof, F>(
    c: Crypto<Key, Addr, PK, Sig, A, Proof, F>, coinType: nat,
    z1: Bytes192, m1: Bytes, z2: Bytes192, m2: Bytes)
    requires coinType < 0x1_0000_0000
    requires forall x: Bytes, y: Bytes ::
      c.blake2b(Personalization(coinType), x) == c.blake2b(Personalization(coinType), y) ==> x == y
    ensures Digest(c, coinType, z1, m1) == Digest(c, coinType, z2, m2) <==> z1 == z2 && m1 == m2
  {
    if Digest(c, coinType, z1, m1) == Digest(c, coinType, z2, m2) {
      assert c.blake2b(Personalization(coinType), z1 + m1) == c.blake2b(Personalization(coinType), z2 + m2);
      DigestInputUnambiguous(z1, m1, z2, m2);
    }
  }

  // ---------------------------------------------------------------------------
  // Signing and verification

  /** The seven public inputs of the spend circuit for a signature:
      `rk` (u, v), the value commitment (u, v), the anchor, and the two packed
      nullifier limbs. */
  function PublicInput<Key, Addr, PK, Sig, A, Proof, F>(
    c: Crypto<Key, Addr, PK, Sig, A, Proof, F>, addr: Addr, rk: PK, nullifier: Bytes32)
    : (r: seq<F>)
    ensures |r| == 7
  {
    var rkUV := c.affine(rk);
    var cvUV := c.valueCommitment(FakeNoteValue, FakeRcv);
    var nf := c.pack(nullifier);
    [rkUV.0, rkUV.1, cvUV.0, cvUV.1, c.anchor(addr, FakeNoteValue, FakeRcm), nf.0, nf.1]
  }

  /** Where each public input sits: `rk` at 0 and 1, the fake note's value
      commitment at 2 and 3, its anchor at 4 and the nullifier limbs at 5 and 6. */
  lemma PublicInputLayout<Key, Addr, PK, Sig, A, Proof, F>(
    c: Crypto<Key, Addr, PK, Sig, A, Proof, F>, addr: Addr, rk: PK, nullifier: Bytes32)
    ensures var r := PublicInput(c, addr, rk, nullifier);
      && (r[0], r[1]) == c.affine(rk)
      && (r[2], r[3]) == c.valueCommitment(FakeNoteValue, FakeRcv)
      && r[4] == c.anchor(addr, FakeNoteValue, FakeRcm)
      && (r[5], r[6]) == c.pack(nullifier)
  {
  }

  /** `sign_message`, with alpha and the randomness of the proof and of the
      signature as parameters. */
  function SignMessage<Key, Addr, PK, Sig, A, Proof, F>(
    c: Crypto<Key, Addr, PK, Sig, A, Proof, F>, key: Key, addr: Addr, coinType: nat, message: Bytes,
    alpha: A, rng: nat)
    : (r: Signature<PK, Sig>)
    requires coinType < 0x1_0000_0000
    ensures r.nullifier == c.nullifier(key, addr, FakeNoteValue, FakeRcm)
    ensures r.rk == c.randomize(key, alpha)
    ensures r.zkproof == c.prove(key, addr, alpha, FakeNoteValue, FakeRcm, FakeRcv, rng)
    ensures r.spendAuthSig == c.spendSig(key, alpha, Digest(c, coinType, r.zkproof, message), rng)
  {
    var zkproof := c.prove(key, addr, alpha, FakeNoteValue, FakeRcm, FakeRcv, rng);
    Signature(
      c.nullifier(key, addr, FakeNoteValue, FakeRcm),
      c.randomize(key, alpha),
      zkproof,
      c.spendSig(key, alpha, Digest(c, coinType, zkproof, message), rng))
  }

  /** `verify_message`: the spend-authorization signature over `rk || digest` is
      checked first, and only then is the proof parsed and verified against the
      public input. Both failures are the unit error. */
  function VerifyMessage<Key, Addr, PK, Sig, A, Proof, F>(
    c: Crypto<Key, Addr, PK, Sig, A, Proof, F>, addr: Addr, coinType: nat, message: Bytes, s: Signature<PK, Sig>)
    : (r: Result<Unit, Unit>)
    requires coinType < 0x1_0000_0000
    requires |c.rkCodec.encode(s.rk)| == 32
    ensures r.Success? ==> c.verifySig(s.rk, c.rkCodec.encode(s.rk) + Digest(c, coinType, s.zkproof, message), s.spendAuthSig)
    ensures r.Success? <==>
      && c.verifySig(s.rk, c.rkCodec.encode(s.rk) + Digest(c, coinType, s.zkproof, message), s.spendAuthSig)
      && c.readProof(s.zkproof).Some?
      && c.verifyProof(c.readProof(s.zkproof).value, PublicInput(c, addr, s.rk, s.nullifier))
  {
    var data := c.rkCodec.encode(s.rk) + Digest(c, coinType, s.zkproof, message);
    if !c.verifySig(s.rk, data, s.spendAuthSig) then Failure(Unit)
    else match c.readProof(s.zkproof)
      case None => Failure(Unit)
      case Some(proof) => if c.verifyProof(proof, PublicInput(c, addr, s.rk, s.nullifier)) then Success(Unit) else Failure(Unit)
  }

  /** RedJubjub is correct: a signature made with `ask` randomised by alpha verifies
      under `ak` randomised by alpha over `rk || digest`. */
  ghost predicate SignaturesVerify<Key(!new), Addr, PK, Sig, A(!new), Proof, F>(c: Crypto<Key, Addr, PK, Sig, A, Proof, F>) {
    forall key: Key, alpha: A, digest: Bytes32, rng: nat ::
      c.verifySig(c.randomize(key, alpha), c.rkCodec.encode(c.randomize(key, alpha)) + digest, c.spendSig(key, alpha, digest, rng))
  }

  /** Groth16 is complete for the spend circuit: a proof for a note with value `v`,
      commitment randomness `rcm` and value-commitment randomness `rcv`, sent to an
      address the key owns, parses and verifies against the circuit's public input
      for that note. */
  ghost predicate ProofsVerify<Key(!new), Addr(!new), PK, Sig, A(!new), Proof, F>(c: Crypto<Key, Addr, PK, Sig, A, Proof, F>) {
    forall key: Key, addr: Addr, alpha: A, v: nat, rcm: int, rcv: int, rng: nat ::
      c.owns(key, addr) ==>
        var rk := c.randomize(key, alpha);
        var cv := c.valueCommitment(v, rcv);
        var nf := c.pack(c.nullifier(key, addr, v, rcm));
        && c.readProof(c.prove(key, addr, alpha, v, rcm, rcv, rng)).Some?
        && c.verifyProof(c.readProof(c.prove(key, addr, alpha, v, rcm, rcv, rng)).value,
             [c.affine(rk).0, c.affine(rk).1, cv.0, cv.1, c.anchor(addr, v, rcm), nf.0, nf.1])
  }

  /** A message signed with a key for one of its addresses verifies for that
      address, coin type and message: signing and verification use the same
      personalisation, digest, signed data, fake note and public-input order. */
  lemma SignThenVerify<Key(!new), Addr(!new), PK(!new), Sig, A(!new), Proof, F>(
    c: Crypto<Key, Addr, PK, Sig, A, Proof, F>, key: Key, addr: Addr, coinType: nat, message: Bytes, alpha: A, rng: nat)
    requires SignaturesVerify(c) && ProofsVerify(c) && EncodesTo(c.rkCodec, 32)
    requires coinType < 0x1_0000_0000 && c.owns(key, addr)
    ensures VerifyMessage(c, addr, coinType, message, SignMessage(c, key, addr, coinType, message, alpha, rng)) == Success(Unit)
  {
    var s := SignMessage(c, key, addr, coinType, message, alpha, rng);
    var digest := Digest(c, coinType, s.zkproof, message);
    assert c.verifySig(s.rk, c.rkCodec.encode(s.rk) + digest, s.spendAuthSig);
    var proofBytes := c.prove(key, addr, alpha, FakeNoteValue, FakeRcm, FakeRcv, rng);
    assert c.readProof(proofBytes).Some?;
  }
}
