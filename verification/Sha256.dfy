/** The buffered hasher of sha256.hpp, proved equal to the one-shot function of the
    standard for every way of cutting the message into calls. */
module Sha256Stream {
  import opened Basics
  import opened Sha256Spec

  /** Rotation as the code writes it, with two shifts. */
  function Rotr(x: word, n: nat): word
    requires n < 32
  {
    if n == 0 then x else (x >> n) | (x << (32 - n))
  }

  lemma RotrIsRotation(x: word)
    ensures Rotr(x, 2) == x.RotateRight(2) && Rotr(x, 13) == x.RotateRight(13)
    ensures Rotr(x, 22) == x.RotateRight(22) && Rotr(x, 6) == x.RotateRight(6)
    ensures Rotr(x, 11) == x.RotateRight(11) && Rotr(x, 25) == x.RotateRight(25)
    ensures Rotr(x, 7) == x.RotateRight(7) && Rotr(x, 18) == x.RotateRight(18)
    ensures Rotr(x, 17) == x.RotateRight(17) && Rotr(x, 19) == x.RotateRight(19)
  {}

  function Upper0(x: word): (r: word)
    ensures r == BigSigma0(x)
  {
    hide Xor;
    RotrIsRotation(x);
    Xor(Rotr(x, 2), Xor(Rotr(x, 13), Rotr(x, 22)))
  }

  function Upper1(x: word): (r: word)
    ensures r == BigSigma1(x)
  {
    hide Xor;
    RotrIsRotation(x);
    Xor(Rotr(x, 6), Xor(Rotr(x, 11), Rotr(x, 25)))
  }

  function Lower0(x: word): (r: word)
    ensures r == SmallSigma0(x)
  {
    hide Xor;
    RotrIsRotation(x);
    Xor(Rotr(x, 7), Xor(Rotr(x, 18), x >> 3))
  }

  function Lower1(x: word): (r: word)
    ensures r == SmallSigma1(x)
  {
    hide Xor;
    RotrIsRotation(x);
    Xor(Rotr(x, 17), Xor(Rotr(x, 19), x >> 10))
  }

  function ToHash(s: seq<word>): Hash
    requires |s| == 8
  {
    Hash(s[0], s[1], s[2], s[3], s[4], s[5], s[6], s[7])
  }

  lemma HashBlocksSnoc(m: seq<byte>, block: Block)
    requires |m| % 64 == 0
    ensures HashBlocks(m + block) == Compress(HashBlocks(m), block)
  {
    var all := m + block;
    assert all[..|all| - 64] == m && all[|all| - 64..] == block;
  }

  lemma WrapAdd(x: nat, y: nat)
    ensures Wrap64(Wrap64(x) + y) == Wrap64(x + y)
  {}

  lemma ZerosNeeded(blocks: nat, n: int)
    requires blocks % 64 == 0 && 0 <= n < 64
    ensures (n - blocks) % 64 == n
  {}

  lemma EightBytes(x: nat)
    ensures BigEndian(x, 8) ==
      [(x / 0x100_0000_0000_0000 % 256) as byte, (x / 0x1_0000_0000_0000 % 256) as byte,
       (x / 0x100_0000_0000 % 256) as byte, (x / 0x1_0000_0000 % 256) as byte,
       (x / 0x100_0000 % 256) as byte, (x / 0x1_0000 % 256) as byte,
       (x / 0x100 % 256) as byte, (x % 256) as byte]
  {
    assert BigEndian(x / 0x1_0000_0000_0000, 2) ==
      [(x / 0x100_0000_0000_0000 % 256) as byte, (x / 0x1_0000_0000_0000 % 256) as byte];
    assert BigEndian(x / 0x1_0000_0000, 4) == BigEndian(x / 0x1_0000_0000_0000, 2) +
      [(x / 0x100_0000_0000 % 256) as byte, (x / 0x1_0000_0000 % 256) as byte];
    assert BigEndian(x / 0x1_0000, 6) == BigEndian(x / 0x1_0000_0000, 4) +
      [(x / 0x100_0000 % 256) as byte, (x / 0x1_0000 % 256) as byte];
  }

  /** The tail of the message fits the last block together with its length. */
  lemma PadShort(whole: seq<byte>, tail: seq<byte>)
    requires |whole| % 64 == 0 && |tail| < 56
    ensures Pad(whole + tail) ==
      whole + (tail + [0x80] + Zeros(55 - |tail|) + BigEndian(Wrap64(8 * |whole + tail|), 8))
  {
    hide BigEndian, Wrap64;
    ZerosNeeded(|whole|, 55 - |tail|);
  }

  /** The tail of the message pushes its length into one more block. */
  lemma PadLong(whole: seq<byte>, tail: seq<byte>)
    requires |whole| % 64 == 0 && 56 <= |tail| < 64
    ensures Pad(whole + tail) == whole + (tail + [0x80] + Zeros(63 - |tail|)) +
      (Zeros(56) + BigEndian(Wrap64(8 * |whole + tail|), 8))
  {
    hide BigEndian, Wrap64;
    ZerosNeeded(|whole|, 119 - |tail|);
    assert Zeros((55 - |whole + tail|) % 64) == Zeros(63 - |tail|) + Zeros(56);
  }

  /** The 64 words m[0..63] of `transform`. */
  method ScheduleOf(chunk: Block) returns (m: array<word>)
    ensures fresh(m) && m.Length == 64
    ensures forall t | 0 <= t < 64 :: m[t] == Schedule(chunk, t)
  {
    hide Join, Plus, Lower0, Lower1, SmallSigma0, SmallSigma1;
    m := new word[64];
    var i, j := 0, 0;
    while i < 16
      invariant 0 <= i <= 16 && j == 4 * i
      invariant forall t | 0 <= t < i :: m[t] == Schedule(chunk, t)
    {
      m[i] := Join(chunk[j], chunk[j + 1], chunk[j + 2], chunk[j + 3]);
      i, j := i + 1, j + 4;
    }
    while i < 64
      invariant 16 <= i <= 64
      invariant forall t | 0 <= t < i :: m[t] == Schedule(chunk, t)
    {
      m[i] := Plus(Plus(Plus(Lower1(m[i - 2]), m[i - 7]), Lower0(m[i - 15])), m[i - 16]);
      i := i + 1;
    }
  }

  /** The 64 rounds of `transform` on the working variables. */
  method MixBlock(v: Hash, m: array<word>, ghost chunk: Block) returns (w: Hash)
    requires m.Length == 64 && forall t | 0 <= t < 64 :: m[t] == Schedule(chunk, t)
    ensures w == Rounds(v, chunk, 64)
  {
    hide K, Schedule, Plus, Upper0, Upper1, BigSigma0, BigSigma1, Ch, Maj;
    var a, b, c, d, e, f, g, h := v.a, v.b, v.c, v.d, v.e, v.f, v.g, v.h;
    var i := 0;
    while i < 64
      invariant 0 <= i <= 64
      invariant Hash(a, b, c, d, e, f, g, h) == Rounds(v, chunk, i)
    {
      var t1 := Plus(Plus(Plus(Plus(h, Upper1(e)), Ch(e, f, g)), K(i)), m[i]);
      var t2 := Plus(Upper0(a), Maj(a, b, c));
      h := g; g := f; f := e; e := Plus(d, t1);
      d := c; c := b; b := a; a := Plus(t1, t2);
      i := i + 1;
    }
    w := Hash(a, b, c, d, e, f, g, h);
  }

  /** Byte `j` of each of the eight words is in place. */
  ghost predicate Column(hash: seq<word>, s: seq<word>, j: nat)
    requires |hash| == 32 && |s| == 8 && j < 4
  {
    && hash[j] == ByteOf(s[0], j) && hash[j + 4] == ByteOf(s[1], j)
    && hash[j + 8] == ByteOf(s[2], j) && hash[j + 12] == ByteOf(s[3], j)
    && hash[j + 16] == ByteOf(s[4], j) && hash[j + 20] == ByteOf(s[5], j)
    && hash[j + 24] == ByteOf(s[6], j) && hash[j + 28] == ByteOf(s[7], j)
  }

  lemma ColumnsMakeDigest(hash: seq<word>, s: seq<word>)
    requires |hash| == 32 && |s| == 8 && forall j | 0 <= j < 4 :: Column(hash, s, j)
    ensures hash == DigestBytes(ToHash(s))
  {
    hide ByteOf;
    forall i | 0 <= i < 32
      ensures hash[i] == DigestBytes(ToHash(s))[i]
    {
      assert Column(hash, s, i % 4) && i == i % 4 + 4 * (i / 4);
    }
  }

  /** Hexadecimal output with `setw(2)`, byte by byte. */
  method PrintBytes(bytes: seq<word>) returns (text: string)
    ensures text == HexText(bytes)
  {
    hide HighDigit, LowDigit;
    text := [];
    for i := 0 to |bytes|
      invariant text == HexText(bytes[..i])
    {
      text := text + [HighDigit(bytes[i]), LowDigit(bytes[i])];
    }
    assert bytes[..|bytes|] == bytes;
  }

  class Sha256 {
    const data: array<byte>
    const state: array<word>
    var datalen: nat
    var bitlen: nat
    /** The whole blocks already compressed into `state`. */
    ghost var whole: seq<byte>

    /** Every byte given to `Update` since the last reset. */
    ghost function Message(): seq<byte>
      requires datalen <= data.Length
      reads this, data
    {
      whole + data[..datalen]
    }

    /** The blocks of `whole`, and nothing else, have gone into `state` and `bitlen`. */
    ghost predicate Absorbed()
      reads this`whole, this`bitlen, state
    {
      && |whole| % 64 == 0 && state.Length == 8
      && ToHash(state[..]) == HashBlocks(whole)
      && bitlen == Wrap64(8 * |whole|)
    }

    ghost predicate Valid()
      reads this, data, state
    {
      data.Length == 64 && datalen < 64 && data as object != state && Absorbed()
    }

    constructor ()
      ensures Valid() && fresh(data) && fresh(state)
      ensures Message() == []
    {
      data := new byte[64];
      state := new word[8];
      new;
      Reset();
    }

    constructor Copy(other: Sha256)
      requires other.Valid()
      ensures Valid() && fresh(data) && fresh(state)
      ensures Message() == other.Message()
    {
      hide HashBlocks;
      data := new byte[64];
      state := new word[8];
      datalen, bitlen, whole := other.datalen, other.bitlen, other.whole;
      new;
      forall i | 0 <= i < 64 { data[i] := other.data[i]; }
      forall i | 0 <= i < 8 { state[i] := other.state[i]; }
      assert state[..] == other.state[..] && data[..] == other.data[..];
    }

    method Reset()
      requires data.Length == 64 && state.Length == 8
      modifies this, state
      ensures Valid() && Message() == []
    {
      hide Compress;
      datalen, bitlen, whole := 0, 0, [];
      state[0], state[1], state[2], state[3] := 0x6a09e667, 0xbb67ae85, 0x3c6ef372, 0xa54ff53a;
      state[4], state[5], state[6], state[7] := 0x510e527f, 0x9b05688c, 0x1f83d9ab, 0x5be0cd19;
    }

    /** One application of the compression function, in place. */
    method Transform(chunk: Block)
      requires state.Length == 8
      modifies state
      ensures ToHash(state[..]) == Compress(old(ToHash(state[..])), chunk)
    {
      hide Rounds, Plus;
      var m := ScheduleOf(chunk);
      var w := MixBlock(ToHash(state[..]), m, chunk);
      state[0] := Plus(state[0], w.a); state[1] := Plus(state[1], w.b);
      state[2] := Plus(state[2], w.c); state[3] := Plus(state[3], w.d);
      state[4] := Plus(state[4], w.e); state[5] := Plus(state[5], w.f);
      state[6] := Plus(state[6], w.g); state[7] := Plus(state[7], w.h);
    }

    /** `transform` followed by `bitlen_ += 512`. */
    method AbsorbBlock(block: Block)
      requires Absorbed()
      modifies this`bitlen, this`whole, state
      ensures Absorbed() && whole == old(whole) + block
    {
      hide Compress, HashBlocks, Wrap64;
      HashBlocksSnoc(whole, block);
      Transform(block);
      WrapAdd(8 * |whole|, 512);
      bitlen := Wrap64(bitlen + 512);
      whole := whole + block;
    }

    /** `memcpy` into the block buffer. */
    method CopyIn(at: nat, src: seq<byte>)
      requires data.Length == 64 && at + |src| <= 64
      modifies data
      ensures data[..at + |src|] == old(data[..at]) + src
    {
      forall i | 0 <= i < |src| { data[at + i] := src[i]; }
    }

    /** The loop over complete blocks, straight from the input. */
    method AbsorbBlocks(input: seq<byte>, from: nat) returns (offset: nat)
      requires Absorbed() && from <= |input|
      modifies this`bitlen, this`whole, state
      ensures Absorbed() && from <= offset <= |input| < offset + 64
      ensures whole == old(whole) + input[from..offset]
    {
      hide HashBlocks, Wrap64;
      offset := from;
      while offset + 64 <= |input|
        invariant from <= offset <= |input|
        invariant Absorbed() && whole == old(whole) + input[from..offset]
      {
        assert input[from..offset + 64] == input[from..offset] + input[offset..offset + 64];
        AbsorbBlock(input[offset..offset + 64]);
        offset := offset + 64;
      }
    }

    /** Appends `input` to the message. */
    method Update(input: seq<byte>)
      requires Valid()
      modifies this, data, state
      ensures Valid() && Message() == old(Message()) + input
    {
      hide Absorbed;
      if |input| == 0 { return; }
      var offset := 0;
      ghost var start, pending := whole, data[..datalen];
      if datalen > 0 {
        var toFill := 64 - datalen;
        if |input| < toFill {
          CopyIn(datalen, input);
          datalen := datalen + |input|;
          assert start + (pending + input) == start + pending + input;
          return;
        }
        CopyIn(datalen, input[..toFill]);
        assert data[..] == data[..64];
        AbsorbBlock(data[..]);
        datalen := 0;
        offset := offset + toFill;
      }
      assert whole == start + pending + input[..offset];
      ghost var from := offset;
      offset := AbsorbBlocks(input, offset);
      ghost var rest := input[offset..];
      assert whole + rest == start + pending + input;
      if offset < |input| {
        datalen := |input| - offset;
        CopyIn(0, input[offset..]);
        assert data[..datalen] == rest;
      }
    }

    /** A 0x80 byte after the pending ones, then zeros up to `end`. */
    method Terminate(end: nat)
      requires data.Length == 64 && datalen < end <= 64
      modifies data
      ensures data[..end] == old(data[..datalen]) + [0x80] + Zeros(end - datalen - 1)
    {
      var i := datalen;
      data[i] := 0x80;
      i := i + 1;
      while i < end
        invariant datalen < i <= end
        invariant data[..i] == old(data[..datalen]) + [0x80] + Zeros(i - datalen - 1)
      {
        data[i] := 0;
        i := i + 1;
      }
    }

    /** The eight length bytes of `finalize`. */
    method PutLength()
      requires data.Length == 64 && bitlen < TWO_64
      modifies data
      ensures data[..] == old(data[..56]) + BigEndian(bitlen, 8)
    {
      EightBytes(bitlen);
      data[63] := (bitlen % 256) as byte;
      data[62] := (bitlen / 0x100 % 256) as byte;
      data[61] := (bitlen / 0x1_0000 % 256) as byte;
      data[60] := (bitlen / 0x100_0000 % 256) as byte;
      data[59] := (bitlen / 0x1_0000_0000 % 256) as byte;
      data[58] := (bitlen / 0x100_0000_0000 % 256) as byte;
      data[57] := (bitlen / 0x1_0000_0000_0000 % 256) as byte;
      data[56] := (bitlen / 0x100_0000_0000_0000 % 256) as byte;
    }

    /** The second padding case: the block is full, its successor starts with zeros. */
    method ClearLow()
      requires data.Length == 64
      modifies data
      ensures data[..56] == Zeros(56)
    {
      for i := 0 to 56
        invariant data[..i] == Zeros(i)
      {
        data[i] := 0;
      }
    }

    /** Pads and finishes the hash; the object is spent afterwards. */
    method Finalize() returns (text: string)
      requires Valid()
      modifies this, data, state
      ensures text == HexSha256(old(Message()))
    {
      hide Compress, HashBlocks, Pad, Hex, Wrap64, BigEndian;
      ghost var start, tail := whole, data[..datalen];
      if datalen < 56 {
        PadShort(start, tail);
        Terminate(56);
        assert whole + (data[..56] + BigEndian(Wrap64(8 * |start + tail|), 8)) == Pad(start + tail);
      } else {
        PadLong(start, tail);
        Terminate(64);
        HashBlocksSnoc(whole, data[..]);
        Transform(data[..]);
        whole := whole + data[..];
        ClearLow();
        assert whole + (data[..56] + BigEndian(Wrap64(8 * |start + tail|), 8)) == Pad(start + tail);
      }
      WrapAdd(8 * |start|, datalen * 8);
      bitlen := Wrap64(bitlen + datalen * 8);
      PutLength();
      HashBlocksSnoc(whole, data[..]);
      Transform(data[..]);
      text := PrintState();
    }

    /** The last two loops of `finalize`: words to bytes, bytes to digits. */
    method PrintState() returns (text: string)
      requires state.Length == 8
      ensures text == Hex(ToHash(state[..]))
    {
      hide ByteOf, HexText;
      var hash := new word[32];
      for i := 0 to 4
        invariant forall j | 0 <= j < i :: Column(hash[..], state[..], j)
      {
        ghost var before := hash[..];
        FillColumn(hash, i);
        forall j | 0 <= j < i
          ensures Column(hash[..], state[..], j)
        {
          assert Column(before, state[..], j);
        }
      }
      ColumnsMakeDigest(hash[..], state[..]);
      text := PrintBytes(hash[..]);
    }

    method FillColumn(hash: array<word>, i: nat)
      requires hash.Length == 32 && state.Length == 8 && hash != state && i < 4
      modifies hash
      ensures Column(hash[..], state[..], i)
      ensures forall p | 0 <= p < 32 && p % 4 != i :: hash[p] == old(hash[p])
    {
      hide ByteOf;
      hash[i] := ByteOf(state[0], i);
      hash[i + 4] := ByteOf(state[1], i);
      hash[i + 8] := ByteOf(state[2], i);
      hash[i + 12] := ByteOf(state[3], i);
      hash[i + 16] := ByteOf(state[4], i);
      hash[i + 20] := ByteOf(state[5], i);
      hash[i + 24] := ByteOf(state[6], i);
      hash[i + 28] := ByteOf(state[7], i);
    }

    /** The digest of everything given so far; the object itself is not touched. */
    method Digest() returns (text: string)
      requires Valid()
      ensures text == HexSha256(Message())
    {
      hide Absorbed, HexSha256;
      var copy := new Sha256.Copy(this);
      text := copy.Finalize();
    }
  }

  /** `sha256(data)`: one update, one digest. */
  method HashOf(data: seq<byte>) returns (text: string)
    ensures text == HexSha256(data)
  {
    hide HexSha256, Sha256.Absorbed;
    var hasher := new Sha256();
    hasher.Update(data);
    assert hasher.Message() == data;
    text := hasher.Digest();
  }

  /** Any sequence of `update` calls, with a digest taken after each of them: every
      digest is the one-shot hash of the concatenation so far. */
  method DigestOfPieces(pieces: seq<seq<byte>>) returns (digests: seq<string>)
    ensures |digests| == |pieces|
    ensures forall i | 0 <= i < |pieces| :: digests[i] == HexSha256(Flatten(pieces[..i + 1]))
  {
    hide HexSha256, Sha256.Absorbed;
    var hasher := new Sha256();
    digests := [];
    for i := 0 to |pieces|
      invariant hasher.Valid() && fresh(hasher) && fresh(hasher.data) && fresh(hasher.state)
      invariant hasher.Message() == Flatten(pieces[..i])
      invariant |digests| == i
      invariant forall j | 0 <= j < i :: digests[j] == HexSha256(Flatten(pieces[..j + 1]))
    {
      assert pieces[..i + 1] == pieces[..i] + [pieces[i]];
      FlattenSnoc(pieces[..i], pieces[i]);
      hasher.Update(pieces[i]);
      var text := hasher.Digest();
      digests := digests + [text];
    }
  }
}
