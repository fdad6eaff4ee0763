/** The 88-byte checkpoint record: magic, version, reserved zeros, sequence, digest, checksum. */
module CheckpointCodec {
  import opened Results
  import opened Ordering
  import opened Arithmetic

  type Bytes = seq<uint8>

  const VERSION: nat := 1
  const BODY_BYTES := 56
  const CHECKPOINT_BYTES := 88

  datatype Checkpoint = Checkpoint(sequence: nat, digest: Bytes)

  datatype CheckpointError = Length | Magic | Version(version: nat) | Reserved | Checksum

  /** A checksum function with 32-byte results; nothing else about it is used. */
  ghost predicate IsChecksum(hash: Bytes -> Bytes) {
    forall b :: |hash(b)| == 32
  }

  ghost predicate ValidCheckpoint(c: Checkpoint) {
    c.sequence < 0x1_0000_0000_0000_0000 && |c.digest| == 32
  }

  function Power256(n: nat): nat {
    if n == 0 then 1 else 256 * Power256(n - 1)
  }

  /** The low `n` bytes of a number, least significant first. */
  function ToLe(x: nat, n: nat): (b: Bytes)
    ensures |b| == n
  {
    if n == 0 then [] else [(x % 256) as uint8] + ToLe(x / 256, n - 1)
  }

  function FromLe(b: Bytes): nat {
    if |b| == 0 then 0 else b[0] as nat + 256 * FromLe(b[1..])
  }

  lemma {:induction false} LeRoundTrip(x: nat, n: nat)
    requires x < Power256(n)
    ensures FromLe(ToLe(x, n)) == x
  {
    if n > 0 {
      LeRoundTrip(x / 256, n - 1);
      assert ToLe(x, n)[1..] == ToLe(x / 256, n - 1);
    }
  }

  lemma {:induction false} LeCanonical(b: Bytes)
    ensures FromLe(b) < Power256(|b|)
    ensures ToLe(FromLe(b), |b|) == b
  {
    if |b| > 0 {
      LeCanonical(b[1..]);
      assert FromLe(b) % 256 == b[0] as nat && FromLe(b) / 256 == FromLe(b[1..]);
      assert b == [b[0]] + b[1..];
    }
  }

  /** Byte `i` is the number's digit of weight 256 to the `i`: the order is little-endian. */
  lemma {:induction false} LeDigit(x: nat, n: nat, i: nat)
    requires i < n
    ensures Power256(i) > 0
    ensures ToLe(x, n)[i] as nat == (x / Power256(i)) % 256
  {
    if i > 0 {
      LeDigit(x / 256, n - 1, i - 1);
      NestedFloor(x, 256, 0, Power256(i - 1));
      assert ToLe(x, n)[i] == ToLe(x / 256, n - 1)[i - 1];
    }
  }

  const ZEROS: Bytes := [0, 0, 0, 0, 0, 0]

  function Body(magic: Bytes, c: Checkpoint): Bytes {
    magic + ToLe(VERSION, 2) + ZEROS + ToLe(c.sequence, 8) + c.digest
  }

  function Encode(magic: Bytes, c: Checkpoint, hash: Bytes -> Bytes): Bytes {
    Body(magic, c) + hash(Body(magic, c))
  }

  /** Fills a zeroed fixed-size buffer field by field. */
  method EncodeCheckpoint(magic: Bytes, c: Checkpoint, hash: Bytes -> Bytes) returns (bytes: array<uint8>)
    requires |magic| == 8 && ValidCheckpoint(c) && IsChecksum(hash)
    ensures fresh(bytes) && bytes[..] == Encode(magic, c, hash)
  {
    bytes := new uint8[CHECKPOINT_BYTES](i => 0);
    Copy(bytes, 0, magic);
    Copy(bytes, 8, ToLe(VERSION, 2));
    Copy(bytes, 16, ToLe(c.sequence, 8));
    Copy(bytes, 24, c.digest);
    assert bytes[10..16] == ZEROS;
    assert bytes[..BODY_BYTES] == Body(magic, c);
    Copy(bytes, BODY_BYTES, hash(bytes[..BODY_BYTES]));
    assert bytes[..] == bytes[..BODY_BYTES] + bytes[BODY_BYTES..];
  }

  method Copy(target: array<uint8>, start: nat, source: Bytes)
    requires start + |source| <= target.Length
    modifies target
    ensures forall i :: 0 <= i < target.Length ==>
      target[i] == if start <= i < start + |source| then source[i - start] else old(target[i])
  {
    for k := 0 to |source|
      invariant forall i :: 0 <= i < target.Length ==>
        target[i] == if start <= i < start + k then source[i - start] else old(target[i])
    {
      target[start + k] := source[k];
    }
  }

  function Decode(magic: Bytes, b: Bytes, hash: Bytes -> Bytes): Result<Checkpoint, CheckpointError> {
    if |b| != CHECKPOINT_BYTES then Err(Length)
    else if b[..8] != magic then Err(Magic)
    else if FromLe(b[8..10]) != VERSION then Err(Version(FromLe(b[8..10])))
    else if b[10..16] != ZEROS then Err(Reserved)
    else if hash(b[..BODY_BYTES]) != b[BODY_BYTES..] then Err(Checksum)
    else Ok(Checkpoint(FromLe(b[16..24]), b[24..BODY_BYTES]))
  }

  lemma BodyFields(magic: Bytes, c: Checkpoint)
    requires |magic| == 8 && |c.digest| == 32
    ensures var b := Body(magic, c);
      && |b| == BODY_BYTES
      && b[..8] == magic && b[8..10] == ToLe(VERSION, 2) && b[10..16] == ZEROS
      && b[16..24] == ToLe(c.sequence, 8) && b[24..] == c.digest
  {
  }

  /** Decoding an encoded checkpoint returns it. */
  lemma DecodeEncode(magic: Bytes, c: Checkpoint, hash: Bytes -> Bytes)
    requires |magic| == 8 && ValidCheckpoint(c) && IsChecksum(hash)
    ensures Decode(magic, Encode(magic, c, hash), hash) == Ok(c)
  {
    var body, b := Body(magic, c), Encode(magic, c, hash);
    BodyFields(magic, c);
    assert b[..BODY_BYTES] == body && b[BODY_BYTES..] == hash(body);
    assert b[..8] == body[..8] && b[8..10] == body[8..10] && b[10..16] == body[10..16];
    assert b[16..24] == body[16..24] && b[24..BODY_BYTES] == body[24..];
    assert Power256(8) == 0x1_0000_0000_0000_0000;
    LeRoundTrip(VERSION, 2);
    LeRoundTrip(c.sequence, 8);
  }

  /** Any bytes that decode are exactly the encoding of what they decode to. */
  lemma EncodeDecode(magic: Bytes, b: Bytes, hash: Bytes -> Bytes)
    requires Decode(magic, b, hash).Ok?
    ensures ValidCheckpoint(Decode(magic, b, hash).value)
    ensures Encode(magic, Decode(magic, b, hash).value, hash) == b
  {
    var c := Decode(magic, b, hash).value;
    LeCanonical(b[8..10]);
    LeCanonical(b[16..24]);
    assert Power256(8) == 0x1_0000_0000_0000_0000;
    assert b[..BODY_BYTES] == b[..8] + b[8..10] + b[10..16] + b[16..24] + b[24..BODY_BYTES];
    assert Body(magic, c) == b[..BODY_BYTES];
    assert b == b[..BODY_BYTES] + b[BODY_BYTES..];
  }

  /** The record at its offsets: magic, version 1, six zeros, the sequence little-endian, the digest, the checksum. */
  ghost predicate IsRecord(magic: Bytes, b: Bytes, c: Checkpoint, hash: Bytes -> Bytes) {
    && |b| == 88 && b[..8] == magic && b[8] == 1 && (forall i :: 9 <= i < 16 ==> b[i] == 0)
    && (forall i: nat :: i < 8 ==> Power256(i) > 0 && b[16 + i] as nat == (c.sequence / Power256(i)) % 256)
    && b[24..56] == c.digest && b[56..] == hash(b[..56])
  }

  lemma RecordLayout(magic: Bytes, c: Checkpoint, hash: Bytes -> Bytes)
    requires |magic| == 8 && ValidCheckpoint(c) && IsChecksum(hash)
    ensures IsRecord(magic, Encode(magic, c, hash), c, hash)
  {
    var body, b := Body(magic, c), Encode(magic, c, hash);
    BodyFields(magic, c);
    assert b[..56] == body && b[56..] == hash(body);
    assert b[..8] == body[..8] && b[8..10] == body[8..10] && b[10..16] == body[10..16];
    assert b[16..24] == body[16..24] && b[24..56] == body[24..];
    LeDigit(VERSION, 2, 0);
    LeDigit(VERSION, 2, 1);
    assert b[8] == b[8..10][0] && b[9] == b[8..10][1];
    forall i | 10 <= i < 16 ensures b[i] == 0 {
      assert b[i] == b[10..16][i - 10];
    }
    forall i: nat | i < 8
      ensures Power256(i) > 0 && b[16 + i] as nat == (c.sequence / Power256(i)) % 256
    {
      LeDigit(c.sequence, 8, i);
      assert b[16 + i] == b[16..24][i];
    }
  }

  /** Two byte sequences that are the records of one checkpoint are the same. */
  lemma RecordUnique(magic: Bytes, b: Bytes, d: Bytes, c: Checkpoint, hash: Bytes -> Bytes)
    requires IsRecord(magic, b, c, hash) && IsRecord(magic, d, c, hash)
    ensures b == d
  {
    forall i | 16 <= i < 24 ensures b[i] == d[i] {
      var k: nat := i - 16;
      assert Power256(k) > 0 && b[16 + k] as nat == d[16 + k] as nat;
    }
    assert b[9..16] == d[9..16] && b[16..24] == d[16..24];
    assert b[..56] == b[..8] + [b[8]] + b[9..16] + b[16..24] + b[24..56];
    assert d[..56] == d[..8] + [d[8]] + d[9..16] + d[16..24] + d[24..56];
    assert b == b[..56] + b[56..] && d == d[..56] + d[56..];
  }

  /** Bytes decode to a checkpoint exactly when they are its record. */
  lemma DecodeExactly(magic: Bytes, b: Bytes, c: Checkpoint, hash: Bytes -> Bytes)
    requires |magic| == 8 && IsChecksum(hash)
    ensures Decode(magic, b, hash) == Ok(c) <==> ValidCheckpoint(c) && IsRecord(magic, b, c, hash)
  {
    if Decode(magic, b, hash) == Ok(c) {
      EncodeDecode(magic, b, hash);
      RecordLayout(magic, c, hash);
    }
    if ValidCheckpoint(c) && IsRecord(magic, b, c, hash) {
      RecordLayout(magic, c, hash);
      RecordUnique(magic, b, Encode(magic, c, hash), c, hash);
      DecodeEncode(magic, c, hash);
    }
  }

  /** Records with one checksum are equal, unless their bodies are a collision of the checksum function. */
  lemma ChecksumCovers(magic: Bytes, b: Bytes, d: Bytes, hash: Bytes -> Bytes)
    requires Decode(magic, b, hash).Ok? && Decode(magic, d, hash).Ok? && b[56..] == d[56..]
    ensures b == d || (b[..56] != d[..56] && hash(b[..56]) == hash(d[..56]))
  {
    assert b == b[..56] + b[56..] && d == d[..56] + d[56..];
  }
}
