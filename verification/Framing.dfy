/** Heartbeats on a byte stream: each payload is preceded by its length in four bytes, and
    both ends cope with a kernel that moves any number of bytes at a time. */
module Framing {

  import opened Basics

  type Bytes = seq<byte>

  const TWO_31 := 0x8000_0000
  const TWO_32 := 0x1_0000_0000

  /** A frame; the length field is 32 bits wide, so longer payloads wrap. */
  function Frame(payload: Bytes): (r: Bytes)
    ensures |r| == 4 + |payload|
  {
    BigEndian(|payload| % TWO_32, 4) + payload
  }

  function Wire(payloads: seq<Bytes>): Bytes {
    if payloads == [] then [] else Frame(payloads[0]) + Wire(payloads[1..])
  }

  /** The message parser takes the size as a signed 32-bit number and refuses a negative
      one; on the rest it is not interpreted. */
  predicate Accepts(parses: Bytes -> bool, payload: Bytes) { |payload| < TWO_31 && parses(payload) }

  /** What a receiver gets out of a whole byte stream before it stops. */
  function Decode(parses: Bytes -> bool, s: Bytes): seq<Bytes>
    decreases |s|
  {
    if |s| < 4 then []
    else
      var n := ValueOf(s[..4]);
      if |s| - 4 < n || !Accepts(parses, s[4..4 + n]) then []
      else [s[4..4 + n]] + Decode(parses, s[4 + n..])
  }

  lemma LengthField(payload: Bytes)
    ensures ValueOf(BigEndian(|payload| % TWO_32, 4)) == |payload| % TWO_32
  {
    assert Pow256(4) == TWO_32 by {
      assert Pow256(1) == 256 && Pow256(2) == 65536 && Pow256(3) == 16777216;
    }
    BigEndianValue(|payload| % TWO_32, 4);
  }

  /** The receiver's first step on a stream that starts with a frame. */
  lemma FirstFrame(parses: Bytes -> bool, payload: Bytes, rest: Bytes)
    ensures var s, n := Frame(payload) + rest, |payload| % TWO_32;
      && Decode(parses, s) ==
        (if Accepts(parses, payload[..n]) then [payload[..n]] + Decode(parses, s[4 + n..]) else [])
      && (n == |payload| ==> payload[..n] == payload && s[4 + n..] == rest)
  {
    hide BigEndian, ValueOf, Accepts;
    LengthField(payload);
    var s, n := Frame(payload) + rest, |payload| % TWO_32;
    assert s[..4] == BigEndian(n, 4);
    assert s[4..4 + n] == payload[..n];
  }

  ghost predicate AllParse(parses: Bytes -> bool) { forall p :: parses(p) }

  /** Every list of payloads below two to the thirty-one bytes is received as it was sent. */
  lemma {:induction false} ShortPayloadsArrive(parses: Bytes -> bool, payloads: seq<Bytes>)
    requires forall i | 0 <= i < |payloads| :: Accepts(parses, payloads[i])
    ensures Decode(parses, Wire(payloads)) == payloads
  {
    hide Frame, Decode;
    if payloads == [] {
      NothingLeft(parses);
    } else {
      assert Accepts(parses, payloads[0]);
      FirstFrame(parses, payloads[0], Wire(payloads[1..]));
      ShortPayloadsArrive(parses, payloads[1..]);
    }
  }

  lemma NothingLeft(parses: Bytes -> bool)
    ensures Decode(parses, []) == []
  {}

  /** The receiver delivers exactly what was sent if and only if every payload is shorter
      than two to the thirty-one bytes. */
  lemma {:induction false} DeliveredIffShort(parses: Bytes -> bool, payloads: seq<Bytes>)
    requires AllParse(parses)
    ensures Decode(parses, Wire(payloads)) == payloads <==> forall i | 0 <= i < |payloads| :: |payloads[i]| < TWO_31
  {
    hide Frame, Decode;
    if payloads == [] {
      NothingLeft(parses);
    } else {
      var p, rest := payloads[0], Wire(payloads[1..]);
      FirstFrame(parses, p, rest);
      DeliveredIffShort(parses, payloads[1..]);
      assert payloads == [p] + payloads[1..];
      if |p| < TWO_31 {
        assert Decode(parses, Wire(payloads)) == [p] + Decode(parses, rest);
        assert Decode(parses, Wire(payloads))[1..] == Decode(parses, rest);
        assert forall i | 0 <= i < |payloads| - 1 :: payloads[1..][i] == payloads[i + 1];
      } else {
        assert |p| % TWO_32 < TWO_31 ==> |p[..|p| % TWO_32]| < |p|;
        assert |payloads[0]| >= TWO_31;
      }
    }
  }

  /** A heartbeat of exactly that size is lost. */
  lemma FirstLostSize(parses: Bytes -> bool)
    ensures Decode(parses, Wire([seq(TWO_31, _ => 0)])) == []
  {
    hide Frame, Decode;
    var p: Bytes := seq(TWO_31, _ => 0);
    FirstFrame(parses, p, Wire([]));
    assert [p][1..] == [];
  }

  /** A stream that stops anywhere delivers a prefix of what was sent. */
  lemma {:induction false} CutStreamDeliversPrefix(parses: Bytes -> bool, payloads: seq<Bytes>, n: nat)
    requires n <= |Wire(payloads)| && forall i | 0 <= i < |payloads| :: Accepts(parses, payloads[i])
    ensures Decode(parses, Wire(payloads)[..n]) <= payloads
  {
    hide Frame, Decode;
    if payloads == [] {
      NothingLeft(parses);
    } else {
      var p, rest := payloads[0], Wire(payloads[1..]);
      var s, m := Wire(payloads)[..n], |Frame(p)|;
      assert Accepts(parses, p);
      if n < m {
        assert s == Frame(p)[..n];
        PartialFrame(parses, p, n);
      } else {
        assert s == Frame(p) + rest[..n - m];
        FirstFrame(parses, p, rest[..n - m]);
        CutStreamDeliversPrefix(parses, payloads[1..], n - m);
      }
    }
  }

  lemma PartialFrame(parses: Bytes -> bool, payload: Bytes, n: nat)
    requires n < |Frame(payload)| && |payload| < TWO_31
    ensures Decode(parses, Frame(payload)[..n]) == []
  {
    LengthField(payload);
    var s := Frame(payload)[..n];
    if n >= 4 { assert s[..4] == BigEndian(|payload| % TWO_32, 4); }
  }

  // ---- the receiving end

  datatype Received = Data(bytes: Bytes) | WouldBlock | Closed

  /** A connection as the receiver sees it: the bytes still to come, and how the kernel
      will cut them: the n-th call yields at most that many bytes, or would block at zero. */
  class Receiver {
    var pending: Bytes
    var cuts: seq<nat>

    constructor (stream: Bytes, schedule: seq<nat>)
      ensures pending == stream && cuts == schedule
    {
      pending, cuts := stream, schedule;
    }

    method Recv(max: nat) returns (r: Received)
      requires max > 0
      modifies this
      ensures |cuts| <= |old(cuts)|
      ensures r.Data? ==> 0 < |r.bytes| <= max && old(pending) == r.bytes + pending
      ensures r.WouldBlock? ==> pending == old(pending) && |cuts| < |old(cuts)|
      ensures r.Closed? ==> pending == old(pending) == []
    {
      var n := Min(max, |pending|);
      if cuts != [] {
        n := Min(n, cuts[0]);
        cuts := cuts[1..];
      }
      if pending == [] { return Closed; }
      if n == 0 { return WouldBlock; }
      r := Data(pending[..n]);
      pending := pending[n..];
    }

    /** Fill the buffer, however the bytes arrive. */
    method ReadExact(buf: array<byte>) returns (ok: bool)
      modifies this, buf
      ensures ok <==> |old(pending)| >= buf.Length
      ensures ok ==> buf[..] == old(pending)[..buf.Length] && pending == old(pending)[buf.Length..]
    {
      var off := 0;
      while off < buf.Length
        invariant 0 <= off <= buf.Length && off <= |old(pending)|
        invariant buf[..off] == old(pending)[..off] && pending == old(pending)[off..]
        decreases buf.Length - off, |cuts|
      {
        var r := Recv(buf.Length - off);
        match r {
          case Data(bytes) =>
            CopyIn(buf, off, bytes);
            assert old(pending)[..off] + bytes == old(pending)[..off + |bytes|];
            off := off + |bytes|;
          case WouldBlock =>
          case Closed => return false;
        }
      }
      ok := true;
      assert buf[..off] == buf[..];
    }

    /** One turn of the receive loop. */
    method RecvOne(parses: Bytes -> bool) returns (got: Option<Bytes>)
      modifies this
      ensures got.Some? ==> |pending| < |old(pending)|
      ensures got.Some? ==> Decode(parses, old(pending)) == [got.value] + Decode(parses, pending)
      ensures got.None? ==> Decode(parses, old(pending)) == []
    {
      hide ValueOf;
      ghost var s := pending;
      var sz := new byte[4];
      var ok := ReadExact(sz);
      if !ok { return None; }
      var n := ValueOf(sz[..]);
      assert sz[..] == s[..4];
      var buf := new byte[n];
      if n > 0 {
        ok := ReadExact(buf);
        if !ok { return None; }
      }
      var payload := buf[..];
      assert payload == s[4..4 + n] && pending == s[4 + n..];
      if n < TWO_31 && parses(payload) { return Some(payload); }
      got := None;
    }

    /** The receive loop: it delivers the decoding of the stream, for every fragmentation. */
    method RecvHeartbeats(parses: Bytes -> bool) returns (delivered: seq<Bytes>)
      modifies this
      ensures delivered == Decode(parses, old(pending))
    {
      hide Decode;
      delivered := [];
      while true
        invariant delivered + Decode(parses, pending) == Decode(parses, old(pending))
        decreases |pending|
      {
        ghost var before := pending;
        var got := RecvOne(parses);
        if got.None? { return; }
        assert (delivered + [got.value]) + Decode(parses, pending) == delivered + Decode(parses, before);
        delivered := delivered + [got.value];
      }
    }
  }

  method CopyIn(buf: array<byte>, off: nat, bytes: Bytes)
    requires off + |bytes| <= buf.Length
    modifies buf
    ensures buf[..off + |bytes|] == old(buf[..off]) + bytes
  {
    for i := 0 to |bytes|
      invariant buf[..off + i] == old(buf[..off]) + bytes[..i]
    {
      buf[off + i] := bytes[i];
      assert buf[..off + i + 1] == buf[..off + i] + [bytes[i]];
    }
  }

  // ---- the sending end

  /** A connection as the sender sees it: what the kernel has accepted, and how many bytes
      each call will accept: none at zero, and an error below. */
  class Sender {
    var sent: Bytes
    var cuts: seq<int>

    constructor (schedule: seq<int>)
      ensures sent == [] && cuts == schedule
    {
      sent, cuts := [], schedule;
    }

    method Send(data: Bytes) returns (n: int)
      requires data != []
      modifies this
      ensures n <= |data| && |cuts| <= |old(cuts)| && (n == 0 ==> |cuts| < |old(cuts)|)
      ensures sent == old(sent) + (if n > 0 then data[..n] else [])
    {
      n := |data|;
      if cuts != [] {
        n := Min(n, cuts[0]);
        cuts := cuts[1..];
      }
      if n > 0 { sent := sent + data[..n]; }
    }

    method SendAll(data: Bytes) returns (ok: bool)
      modifies this
      ensures ok ==> sent == old(sent) + data
      ensures exists n | 0 <= n <= |data| :: sent == old(sent) + data[..n]
    {
      var off := 0;
      assert sent == old(sent) + data[..0];
      while off < |data|
        invariant 0 <= off <= |data| && sent == old(sent) + data[..off]
        decreases |data| - off, |cuts|
      {
        var n := Send(data[off..]);
        if n > 0 {
          assert data[..off] + data[off..][..n] == data[..off + n];
          off := off + n;
        } else if n < 0 {
          return false;
        }
      }
      ok := true;
      assert data[..off] == data;
    }

    /** Sending frames one after the other puts their concatenation on the wire, or a
        prefix of it if the connection fails. */
    method SendHeartbeats(payloads: seq<Bytes>) returns (ok: bool)
      modifies this
      ensures ok ==> sent == old(sent) + Wire(payloads)
      ensures exists n | 0 <= n <= |Wire(payloads)| :: sent == old(sent) + Wire(payloads)[..n]
    {
      hide Wire, Frame;
      WireEnds(payloads);
      for i := 0 to |payloads|
        invariant sent == old(sent) + Wire(payloads[..i])
      {
        ghost var was := sent;
        ok := SendAll(Frame(payloads[i]));
        ghost var n :| 0 <= n <= |Frame(payloads[i])| && sent == was + Frame(payloads[i])[..n];
        PartOfWire(payloads, i, n);
        ghost var m := |Wire(payloads[..i])| + n;
        assert sent == old(sent) + Wire(payloads)[..m] by {
          assert (old(sent) + Wire(payloads[..i])) + Frame(payloads[i])[..n] ==
                 old(sent) + (Wire(payloads[..i]) + Frame(payloads[i])[..n]);
        }
        if !ok { return; }
        assert (old(sent) + Wire(payloads[..i])) + Frame(payloads[i]) ==
               old(sent) + (Wire(payloads[..i]) + Frame(payloads[i]));
      }
      ok := true;
      assert payloads[..|payloads|] == payloads;
      assert Wire(payloads)[..|Wire(payloads)|] == Wire(payloads);
    }
  }

  lemma WireEnds(payloads: seq<Bytes>)
    ensures Wire(payloads[..0]) == []
  {}

  lemma {:induction false} WireConcat(a: seq<Bytes>, b: seq<Bytes>)
    ensures Wire(a + b) == Wire(a) + Wire(b)
  {
    hide Frame;
    if a == [] {
      assert a + b == b;
    } else {
      WireConcat(a[1..], b);
      assert (a + b)[1..] == a[1..] + b;
    }
  }

  /** Whole frames followed by part of the next one are a prefix of the wire. */
  lemma PartOfWire(payloads: seq<Bytes>, i: nat, n: nat)
    requires i < |payloads| && n <= |Frame(payloads[i])|
    ensures Wire(payloads[..i + 1]) == Wire(payloads[..i]) + Frame(payloads[i])
    ensures var m := |Wire(payloads[..i])| + n;
      m <= |Wire(payloads)| && Wire(payloads)[..m] == Wire(payloads[..i]) + Frame(payloads[i])[..n]
  {
    hide Frame;
    var a, f := Wire(payloads[..i]), Frame(payloads[i]);
    assert payloads[..i + 1] == payloads[..i] + [payloads[i]];
    WireConcat(payloads[..i], [payloads[i]]);
    assert Wire([payloads[i]]) == f;
    assert payloads == payloads[..i + 1] + payloads[i + 1..];
    WireConcat(payloads[..i + 1], payloads[i + 1..]);
    assert (a + f)[..|a| + n] == a + f[..n];
  }

  /** From one end to the other, for every way in which the two kernels cut the stream:
      a sender that succeeds is understood completely, and one that fails in part. */
  method Session(payloads: seq<Bytes>, sending: seq<int>, receiving: seq<nat>, parses: Bytes -> bool)
    returns (delivered: seq<Bytes>, ok: bool)
    requires forall i | 0 <= i < |payloads| :: Accepts(parses, payloads[i])
    ensures delivered <= payloads && (ok ==> delivered == payloads)
  {
    var sender := new Sender(sending);
    ok := sender.SendHeartbeats(payloads);
    var receiver := new Receiver(sender.sent, receiving);
    delivered := receiver.RecvHeartbeats(parses);
    ghost var n :| 0 <= n <= |Wire(payloads)| && sender.sent == [] + Wire(payloads)[..n];
    assert sender.sent == Wire(payloads)[..n];
    CutStreamDeliversPrefix(parses, payloads, n);
    ShortPayloadsArrive(parses, payloads);
    assert [] + Wire(payloads) == Wire(payloads);
  }
}
