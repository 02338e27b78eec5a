/** The one-shot hash of FIPS 180-4, written from the standard rather than from the
    code: recursive message schedule, recursive rounds, padding of the whole message. */
module Sha256Spec {
  import opened Basics

  type word = bv32

  const TWO_64 := 0x1_0000_0000_0000_0000

  /** Unsigned 64-bit arithmetic. */
  function Wrap64(x: nat): (r: nat)
    ensures r < TWO_64
  {
    x % TWO_64
  }

  /** Section 4.2.2, eight constants to a row. */
  function Row(q: nat): (row: seq<word>)
    requires q < 8
    ensures |row| == 8
  {
    match q
    case 0 => [0x428a2f98, 0x71374491, 0xb5c0fbcf, 0xe9b5dba5, 0x3956c25b, 0x59f111f1, 0x923f82a4, 0xab1c5ed5]
    case 1 => [0xd807aa98, 0x12835b01, 0x243185be, 0x550c7dc3, 0x72be5d74, 0x80deb1fe, 0x9bdc06a7, 0xc19bf174]
    case 2 => [0xe49b69c1, 0xefbe4786, 0x0fc19dc6, 0x240ca1cc, 0x2de92c6f, 0x4a7484aa, 0x5cb0a9dc, 0x76f988da]
    case 3 => [0x983e5152, 0xa831c66d, 0xb00327c8, 0xbf597fc7, 0xc6e00bf3, 0xd5a79147, 0x06ca6351, 0x14292967]
    case 4 => [0x27b70a85, 0x2e1b2138, 0x4d2c6dfc, 0x53380d13, 0x650a7354, 0x766a0abb, 0x81c2c92e, 0x92722c85]
    case 5 => [0xa2bfe8a1, 0xa81a664b, 0xc24b8b70, 0xc76c51a3, 0xd192e819, 0xd6990624, 0xf40e3585, 0x106aa070]
    case 6 => [0x19a4c116, 0x1e376c08, 0x2748774c, 0x34b0bcb5, 0x391c0cb3, 0x4ed8aa4a, 0x5b9cca4f, 0x682e6ff3]
    case _ => [0x748f82ee, 0x78a5636f, 0x84c87814, 0x8cc70208, 0x90befffa, 0xa4506ceb, 0xbef9a3f7, 0xc67178f2]
  }

  function K(t: nat): word
    requires t < 64
  {
    Row(t / 8)[t % 8]
  }

  /** The eight words H0..H7, or the eight working variables a..h. */
  datatype Hash = Hash(a: word, b: word, c: word, d: word, e: word, f: word, g: word, h: word)

  /** Section 5.3.3. */
  const H0 := Hash(0x6a09e667, 0xbb67ae85, 0x3c6ef372, 0xa54ff53a,
                   0x510e527f, 0x9b05688c, 0x1f83d9ab, 0x5be0cd19)

  /** Section 4.1.2, with the rotations of section 3.2. */
  function Xor(x: word, y: word): word { x ^ y }
  function Plus(x: word, y: word): word { x + y }
  function Ch(x: word, y: word, z: word): word { (x & y) ^ (!x & z) }
  function Maj(x: word, y: word, z: word): word { (x & y) ^ (x & z) ^ (y & z) }
  function BigSigma0(x: word): word { Xor(x.RotateRight(2), Xor(x.RotateRight(13), x.RotateRight(22))) }
  function BigSigma1(x: word): word { Xor(x.RotateRight(6), Xor(x.RotateRight(11), x.RotateRight(25))) }
  function SmallSigma0(x: word): word { Xor(x.RotateRight(7), Xor(x.RotateRight(18), x >> 3)) }
  function SmallSigma1(x: word): word { Xor(x.RotateRight(17), Xor(x.RotateRight(19), x >> 10)) }

  /** Bit `i` of a word, counted from the least significant. */
  predicate Bit(w: word, i: nat)
    requires i < 32
  {
    if i == 0 then w & 1 == 1 else Bit(Half(w), i - 1)
  }

  function Half(w: word): word { w >> 1 }

  lemma HalfOfChoice(x: word, y: word, z: word)
    ensures Half(Ch(x, y, z)) == Ch(Half(x), Half(y), Half(z))
    ensures Half(Maj(x, y, z)) == Maj(Half(x), Half(y), Half(z))
  {}

  lemma LowestBits(x: word, y: word, z: word)
    ensures Bit(Ch(x, y, z), 0) == if Bit(x, 0) then Bit(y, 0) else Bit(z, 0)
    ensures Bit(Maj(x, y, z), 0) <==> (Bit(x, 0) && Bit(y, 0)) || (Bit(x, 0) && Bit(z, 0)) || (Bit(y, 0) && Bit(z, 0))
  {}

  /** At every position the first word chooses between the bits of the other two, and the
      majority is set exactly where at least two of the three are. */
  lemma {:induction false} ChoiceAndMajority(x: word, y: word, z: word, i: nat)
    requires i < 32
    ensures Bit(Ch(x, y, z), i) == if Bit(x, i) then Bit(y, i) else Bit(z, i)
    ensures Bit(Maj(x, y, z), i) <==> (Bit(x, i) && Bit(y, i)) || (Bit(x, i) && Bit(z, i)) || (Bit(y, i) && Bit(z, i))
  {
    if i == 0 {
      LowestBits(x, y, z);
      hide Bit, Ch, Maj;
    } else {
      hide Ch, Maj, Half;
      HalfOfChoice(x, y, z);
      ChoiceAndMajority(Half(x), Half(y), Half(z), i - 1);
    }
  }

  type Block = b: seq<byte> | |b| == 64 witness seq(64, _ => 0)

  /** Section 5.2.1: the t-th word of a block, most significant byte first. */
  function BlockWord(block: Block, t: nat): word
    requires t < 16
  {
    Join(block[4 * t], block[4 * t + 1], block[4 * t + 2], block[4 * t + 3])
  }

  function Join(b0: byte, b1: byte, b2: byte, b3: byte): word {
    (b0 as word << 24) | (b1 as word << 16) | (b2 as word << 8) | (b3 as word)
  }

  /** Section 6.2.2, step 1. */
  function Schedule(block: Block, t: nat): word
    requires t < 64
  {
    if t < 16 then BlockWord(block, t)
    else Plus(Plus(Plus(SmallSigma1(Schedule(block, t - 2)), Schedule(block, t - 7)),
                   SmallSigma0(Schedule(block, t - 15))), Schedule(block, t - 16))
  }

  /** Section 6.2.2, one iteration of step 3. */
  function Round(v: Hash, k: word, w: word): Hash {
    var t1 := Plus(Plus(Plus(Plus(v.h, BigSigma1(v.e)), Ch(v.e, v.f, v.g)), k), w);
    var t2 := Plus(BigSigma0(v.a), Maj(v.a, v.b, v.c));
    Hash(Plus(t1, t2), v.a, v.b, v.c, Plus(v.d, t1), v.e, v.f, v.g)
  }

  function Rounds(v: Hash, block: Block, t: nat): Hash
    requires t <= 64
  {
    if t == 0 then v else Round(Rounds(v, block, t - 1), K(t - 1), Schedule(block, t - 1))
  }

  /** Section 6.2.2, steps 2 to 4. */
  function Compress(v: Hash, block: Block): Hash {
    var w := Rounds(v, block, 64);
    Hash(Plus(v.a, w.a), Plus(v.b, w.b), Plus(v.c, w.c), Plus(v.d, w.d),
         Plus(v.e, w.e), Plus(v.f, w.f), Plus(v.g, w.g), Plus(v.h, w.h))
  }

  /** The intermediate hash value after all the blocks of `m`. */
  function HashBlocks(m: seq<byte>): Hash
    requires |m| % 64 == 0
  {
    if m == [] then H0
    else Compress(HashBlocks(m[..|m| - 64]), m[|m| - 64..])
  }

  function Zeros(n: nat): seq<byte> { seq(n, _ => 0) }

  /** Section 5.1.1: a one bit, the fewest zeros, and the 64-bit length. The standard
      defines it below 2^64 bits; beyond that the length field wraps, as in the code. */
  function Pad(m: seq<byte>): seq<byte> {
    m + [0x80] + Zeros((55 - |m|) % 64) + BigEndian(Wrap64(8 * |m|), 8)
  }

  lemma PadLength(m: seq<byte>)
    ensures |Pad(m)| % 64 == 0
  {}

  function Sha256(m: seq<byte>): Hash {
    PadLength(m);
    HashBlocks(Pad(m))
  }

  function HexDigit(n: word): char
    requires n < 16
  {
    if n < 10 then '0' + n as char else 'a' + (n - 10) as char
  }

  /** The j-th byte of a word, most significant first. */
  function ByteOf(w: word, j: nat): word
    requires j < 4
  {
    match j
    case 0 => (w >> 24) & 0xff
    case 1 => (w >> 16) & 0xff
    case 2 => (w >> 8) & 0xff
    case _ => w & 0xff
  }

  function WordAt(h: Hash, k: nat): word
    requires k < 8
  {
    match k
    case 0 => h.a case 1 => h.b case 2 => h.c case 3 => h.d
    case 4 => h.e case 5 => h.f case 6 => h.g case _ => h.h
  }

  /** The 32 bytes of a digest. */
  function DigestBytes(h: Hash): seq<word> {
    seq(32, j requires 0 <= j < 32 => ByteOf(WordAt(h, j / 4), j % 4))
  }

  function HighDigit(b: word): char { HexDigit((b >> 4) & 15) }
  function LowDigit(b: word): char { HexDigit(b & 15) }

  /** Two lower-case digits per byte. */
  function HexText(bytes: seq<word>): string {
    seq(2 * |bytes|, i requires 0 <= i < 2 * |bytes| =>
      if i % 2 == 0 then HighDigit(bytes[i / 2]) else LowDigit(bytes[i / 2]))
  }

  /** The 64-character text form of a digest. */
  function Hex(h: Hash): string { HexText(DigestBytes(h)) }

  function HexSha256(m: seq<byte>): string { Hex(Sha256(m)) }

  predicate IsHexDigit(c: char) { '0' <= c <= '9' || 'a' <= c <= 'f' }

  /** The digest text is 64 lower-case hexadecimal digits. */
  lemma HexSha256IsHex(m: seq<byte>)
    ensures |HexSha256(m)| == 64 && forall i | 0 <= i < 64 :: IsHexDigit(HexSha256(m)[i])
  {
    hide Sha256, ByteOf;
  }

  /** Section 5.1.1 in its own words: the padded message is a multiple of 512 bits, the
      zeros are the fewest that make it so, and it ends with the length in bits. */
  lemma PaddingIsStandard(m: seq<byte>)
    requires 8 * |m| < TWO_64
    ensures |Pad(m)| % 64 == 0 && m + [0x80] <= Pad(m)
    ensures ValueOf(Pad(m)[|Pad(m)| - 8..]) == 8 * |m|
    ensures forall i | |m| < i < |Pad(m)| - 8 :: Pad(m)[i] == 0
    ensures forall n | |m| + 9 <= n < |Pad(m)| :: n % 64 != 0
  {
    hide BigEndian, ValueOf;
    assert Pow256(8) == TWO_64;
    BigEndianValue(8 * |m|, 8);
    assert Pad(m)[|Pad(m)| - 8..] == BigEndian(8 * |m|, 8);
  }
}
