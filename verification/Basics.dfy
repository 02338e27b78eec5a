/** Shared vocabulary: optional values, bytes and sequences of sequences. */
module Basics {

  datatype Option<+T> = None | Some(value: T)

  /** One octet, `uint8_t` in the sources. */
  newtype byte = x: int | 0 <= x < 256

  function Min(a: int, b: int): int { if a < b then a else b }

  function Indices(n: nat): (s: set<int>)
    ensures forall i :: i in s <==> 0 <= i < n
  {
    if n == 0 then {} else Indices(n - 1) + {n - 1}
  }

  function Flatten<T>(pieces: seq<seq<T>>): seq<T> {
    if pieces == [] then [] else pieces[0] + Flatten(pieces[1..])
  }

  lemma FlattenSnoc<T>(pieces: seq<seq<T>>, last: seq<T>)
    ensures Flatten(pieces + [last]) == Flatten(pieces) + last
  {
    if pieces == [] {
      assert Flatten([last]) == last;
    } else {
      assert (pieces + [last])[1..] == pieces[1..] + [last];
      FlattenSnoc(pieces[1..], last);
    }
  }

  /** `out` holds the elements to keep, all of them and in their order; `from` says where
      they stood. */
  ghost predicate Picks<T(!new)>(from: seq<int>, s: seq<T>, keep: T -> bool, out: seq<T>) {
    && |from| == |out| && (forall i, j | 0 <= i < j < |from| :: from[i] < from[j])
    && (forall k | 0 <= k < |from| :: 0 <= from[k] < |s| && out[k] == s[from[k]])
    && forall i | 0 <= i < |s| :: i in from <==> keep(s[i])
  }

  lemma PicksSnoc<T(!new)>(from: seq<int>, s: seq<T>, last: T, keep: T -> bool, out: seq<T>)
    requires Picks(from, s, keep, out)
    ensures keep(last) ==> Picks(from + [|s|], s + [last], keep, out + [last])
    ensures !keep(last) ==> Picks(from, s + [last], keep, out)
  {}

  function Pow256(n: nat): (p: nat)
    ensures p > 0
  {
    if n == 0 then 1 else 256 * Pow256(n - 1)
  }

  /** The low `n` bytes of `x`, most significant first. */
  function BigEndian(x: nat, n: nat): (r: seq<byte>)
    ensures |r| == n
  {
    if n == 0 then [] else BigEndian(x / 256, n - 1) + [(x % 256) as byte]
  }

  /** The number that a byte string denotes, most significant byte first. */
  function ValueOf(s: seq<byte>): nat {
    if s == [] then 0 else 256 * ValueOf(s[..|s| - 1]) + s[|s| - 1] as nat
  }

  lemma {:induction false} BigEndianValue(x: nat, n: nat)
    requires x < Pow256(n)
    ensures ValueOf(BigEndian(x, n)) == x
  {
    if n > 0 {
      BigEndianValue(x / 256, n - 1);
      assert BigEndian(x, n)[..n - 1] == BigEndian(x / 256, n - 1);
    }
  }

  // ---- ordered iteration over sets of numbers

  lemma Member<T>(s: set<T>) returns (a: T)
    requires s != {}
    ensures a in s
  {
    a :| a in s;
  }

  lemma {:induction false} SmallestExists(s: set<int>) returns (a: int)
    requires s != {}
    ensures a in s && forall b | b in s :: a <= b
  {
    var x := Member(s);
    a := x;
    var rest := s - {x};
    if rest != {} {
      var y := SmallestExists(rest);
      a := if y < x then y else x;
      assert forall b | b in s :: b == x || b in rest;
    } else {
      assert s == {x};
    }
  }

  method Smallest(s: set<int>) returns (a: int)
    requires s != {}
    ensures a in s && forall b | b in s :: a <= b
  {
    ghost var first := SmallestExists(s);
    a :| a in s && forall b | b in s :: a <= b;
  }
}
