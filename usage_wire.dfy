/**
 * The value layout of one record of the "usage" table: two unsigned 64-bit
 * words, used bytes then number of objects, stored in the host's native byte
 * order. The C++ code reinterprets the 16 value bytes as a `uint64_t[2]`; here
 * the host's byte order is an explicit parameter.
 */
module UsageWire {
  import opened Wrappers

  newtype byte = b: int | 0 <= b < 256

  /** sizeof(uint64_t) */
  const WORD_SIZE: nat := 8
  /** sizeof(uint64_t) * 2, the only value length a record may have */
  const RECORD_SIZE: nat := 2 * WORD_SIZE
  const U64_LIMIT: nat := 0x1_0000_0000_0000_0000

  type u64 = n: nat | n < U64_LIMIT

  datatype ByteOrder = LittleEndian | BigEndian

  /** The two gauges kept per key. */
  datatype Counters = Counters(usedBytes: u64, numObjects: u64)

  function Pow256(n: nat): (r: nat)
    ensures r > 0
  {
    if n == 0 then 1 else 256 * Pow256(n - 1)
  }

  lemma WordLimit()
    ensures Pow256(WORD_SIZE) == U64_LIMIT
  {
  }

  // ---- little-endian words: least significant byte first ----

  function FromLE(b: seq<byte>): (n: nat)
    ensures n < Pow256(|b|)
  {
    if b == [] then 0 else b[0] as nat + 256 * FromLE(b[1..])
  }

  function ToLE(n: nat, len: nat): (b: seq<byte>)
    ensures |b| == len
  {
    if len == 0 then [] else [(n % 256) as byte] + ToLE(n / 256, len - 1)
  }

  lemma {:induction false} FromToLE(n: nat, len: nat)
    requires n < Pow256(len)
    ensures FromLE(ToLE(n, len)) == n
  {
    if len > 0 {
      var b := ToLE(n, len);
      assert b[1..] == ToLE(n / 256, len - 1);
      FromToLE(n / 256, len - 1);
    }
  }

  lemma {:induction false} ToFromLE(b: seq<byte>)
    ensures ToLE(FromLE(b), |b|) == b
  {
    if b != [] {
      var n := FromLE(b);
      var rest := FromLE(b[1..]);
      assert n == b[0] as nat + 256 * rest;
      assert n % 256 == b[0] as nat && n / 256 == rest;
      ToFromLE(b[1..]);
    }
  }

  // ---- big-endian words: most significant byte first ----

  function FromBE(b: seq<byte>): (n: nat)
    ensures n < Pow256(|b|)
  {
    if b == [] then 0 else 256 * FromBE(b[..|b| - 1]) + b[|b| - 1] as nat
  }

  function ToBE(n: nat, len: nat): (b: seq<byte>)
    ensures |b| == len
  {
    if len == 0 then [] else ToBE(n / 256, len - 1) + [(n % 256) as byte]
  }

  lemma {:induction false} FromToBE(n: nat, len: nat)
    requires n < Pow256(len)
    ensures FromBE(ToBE(n, len)) == n
  {
    if len > 0 {
      var b := ToBE(n, len);
      assert b[..len - 1] == ToBE(n / 256, len - 1);
      FromToBE(n / 256, len - 1);
    }
  }

  lemma {:induction false} ToFromBE(b: seq<byte>)
    ensures ToBE(FromBE(b), |b|) == b
  {
    if b != [] {
      var k := |b| - 1;
      var n := FromBE(b);
      var front := FromBE(b[..k]);
      assert n == 256 * front + b[k] as nat;
      assert n % 256 == b[k] as nat && n / 256 == front;
      ToFromBE(b[..k]);
      assert b == b[..k] + [b[k]];
    }
  }

  // ---- host-order words ----

  /** The value of an 8-byte word read in the host's byte order. */
  function Word(order: ByteOrder, b: seq<byte>): (n: u64)
    requires |b| == WORD_SIZE
  {
    WordLimit();
    match order
    case LittleEndian => FromLE(b)
    case BigEndian => FromBE(b)
  }

  /** The 8 bytes that hold `n` in the host's byte order. */
  function WordBytes(order: ByteOrder, n: u64): (b: seq<byte>)
    ensures |b| == WORD_SIZE
  {
    match order
    case LittleEndian => ToLE(n, WORD_SIZE)
    case BigEndian => ToBE(n, WORD_SIZE)
  }

  lemma WordOfWordBytes(order: ByteOrder, n: u64)
    ensures Word(order, WordBytes(order, n)) == n
  {
    WordLimit();
    match order
    case LittleEndian => FromToLE(n, WORD_SIZE);
    case BigEndian => FromToBE(n, WORD_SIZE);
  }

  lemma WordBytesOfWord(order: ByteOrder, b: seq<byte>)
    requires |b| == WORD_SIZE
    ensures WordBytes(order, Word(order, b)) == b
  {
    match order
    case LittleEndian => ToFromLE(b);
    case BigEndian => ToFromBE(b);
  }

  // ---- record values ----

  /**
   * Reads a record value: exactly RECORD_SIZE bytes give the pair
   * (used bytes, number of objects); any other length is malformed.
   */
  function DecodeUsage(order: ByteOrder, value: seq<byte>): (r: Option<Counters>)
    ensures r.Some? <==> |value| == RECORD_SIZE
  {
    if |value| == RECORD_SIZE then
      Some(Counters(Word(order, value[..WORD_SIZE]), Word(order, value[WORD_SIZE..])))
    else
      None
  }

  /** The record value a writer stores for `c`. */
  function EncodeUsage(order: ByteOrder, c: Counters): (value: seq<byte>)
    ensures |value| == RECORD_SIZE
  {
    WordBytes(order, c.usedBytes) + WordBytes(order, c.numObjects)
  }

  /** The first word decodes to the used bytes and the second to the object count. */
  lemma DecodeEncode(order: ByteOrder, c: Counters)
    ensures DecodeUsage(order, EncodeUsage(order, c)) == Some(c)
  {
    var v := EncodeUsage(order, c);
    assert v[..WORD_SIZE] == WordBytes(order, c.usedBytes);
    assert v[WORD_SIZE..] == WordBytes(order, c.numObjects);
    WordOfWordBytes(order, c.usedBytes);
    WordOfWordBytes(order, c.numObjects);
  }

  /** Every well-sized value is the encoding of what it decodes to: decoding loses nothing. */
  lemma EncodeDecode(order: ByteOrder, value: seq<byte>)
    requires |value| == RECORD_SIZE
    ensures EncodeUsage(order, DecodeUsage(order, value).value) == value
  {
    WordBytesOfWord(order, value[..WORD_SIZE]);
    WordBytesOfWord(order, value[WORD_SIZE..]);
    assert value == value[..WORD_SIZE] + value[WORD_SIZE..];
  }
}
