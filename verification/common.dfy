/** Shared vocabulary: bytes, optional values, results, and abstract codecs for the
    cryptographic objects whose encodings are not part of this model. */
module Common {

  /** An octet, as the source's `u8`. */
  type byte = x: int | 0 <= x < 256

  type Bytes = seq<byte>

  /** A fixed-width 32-byte array (`[u8; 32]`). */
  type Bytes32 = s: Bytes | |s| == 32 witness Zeros(32)

  /** `n` zero bytes. */
  function Zeros(n: nat): (r: Bytes)
    ensures |r| == n
    ensures forall i :: 0 <= i < n ==> r[i] == 0
  {
    seq(n, i => 0)
  }

  /** The ASCII bytes of a string literal made of characters below 128. */
  function Ascii(s: string): (r: Bytes)
    requires forall i :: 0 <= i < |s| ==> s[i] as int < 128
    ensures |r| == |s|
    ensures forall i :: 0 <= i < |s| ==> r[i] == s[i] as int
  {
    seq(|s|, i requires 0 <= i < |s| => s[i] as int)
  }

  datatype Option<+T> = None | Some(value: T)

  datatype Result<+T, +E> = Success(value: T) | Failure(error: E) {
    predicate IsFailure() { Failure? }

    function PropagateFailure<U>(): Result<U, E>
      requires Failure?
    {
      Failure(error)
    }

    function Extract(): T
      requires Success?
    {
      value
    }
  }

  /** The unit value of a `Result<(), E>`. */
  datatype Unit = Unit

  /** A decoder/encoder pair for an opaque cryptographic object (a curve point, a
      scalar, a signature). Decoding may fail; encoding always succeeds. */
  datatype Codec<!T> = Codec(decode: Bytes -> Option<T>, encode: T -> Bytes)

  /** Every value encodes to exactly `width` bytes. */
  ghost predicate EncodesTo<T(!new)>(c: Codec<T>, width: nat) {
    forall x: T :: |c.encode(x)| == width
  }

  /** Decoding an encoding gives back the value. */
  ghost predicate RoundTrips<T(!new)>(c: Codec<T>) {
    forall x: T :: c.decode(c.encode(x)) == Some(x)
  }

  /** Every `width`-byte string that decodes is the encoding of what it decodes to:
      the decoder accepts only canonical encodings. */
  ghost predicate Canonical<T>(c: Codec<T>, width: nat) {
    forall b: Bytes :: |b| == width && c.decode(b).Some? ==> c.encode(c.decode(b).value) == b
  }

  /** The 4-byte little-endian encoding of a `u32` (`u32::to_le_bytes`). */
  function Le32(n: nat): (r: Bytes)
    requires n < 0x1_0000_0000
    ensures |r| == 4
    ensures FromLe32(r) == n
  {
    var q1 := n / 256;
    var q2 := q1 / 256;
    var q3 := q2 / 256;
    assert n == n % 256 + 256 * q1;
    assert q1 == q1 % 256 + 256 * q2;
    assert q2 == q2 % 256 + 256 * q3;
    assert q3 < 256;
    [n % 256, q1 % 256, q2 % 256, q3]
  }

  /** The `u32` a 4-byte little-endian array denotes. */
  function FromLe32(b: Bytes): nat
    requires |b| == 4
  {
    b[0] as int + 256 * (b[1] as int + 256 * (b[2] as int + 256 * (b[3] as int)))
  }

  /** `Le32` is injective: distinct coin types never share an encoding. */
  lemma Le32Injective(m: nat, n: nat)
    requires m < 0x1_0000_0000 && n < 0x1_0000_0000
    ensures Le32(m) == Le32(n) <==> m == n
  {
    if Le32(m) == Le32(n) {
      assert FromLe32(Le32(m)) == FromLe32(Le32(n));
    }
  }

  /** Why reading a fixed-width value from a byte buffer failed: the buffer was too
      short (an I/O error), or the bytes do not encode a value. */
  datatype ReadError = ShortRead | Invalid

  /** Reads a `width`-byte value from the front of a buffer, as `read_le` and `read`
      over a byte slice do: extra bytes are ignored. */
  function ReadPrefix<T>(c: Codec<T>, width: nat, b: Bytes): (r: Result<T, ReadError>)
    ensures r == Failure(ShortRead) <==> |b| < width
    ensures r == Failure(Invalid) <==> |b| >= width && c.decode(b[..width]).None?
    ensures r.Success? ==> |b| >= width && c.decode(b[..width]) == Some(r.value)
  {
    if |b| < width then Failure(ShortRead)
    else match c.decode(b[..width])
      case None => Failure(Invalid)
      case Some(x) => Success(x)
  }

  /** Reading back a fixed-width encoding gives the encoded value, whatever follows it. */
  lemma ReadPrefixOfEncoding<T(!new)>(c: Codec<T>, width: nat, x: T, rest: Bytes)
    requires RoundTrips(c) && EncodesTo(c, width)
    ensures ReadPrefix(c, width, c.encode(x) + rest) == Success(x)
  {
    var b := c.encode(x) + rest;
    assert b[..width] == c.encode(x);
  }

  /** BLAKE2b with a 32-byte digest, given its 16-byte personalisation and its input. */
  type Blake2b256 = (Bytes, Bytes) -> Bytes32
}
