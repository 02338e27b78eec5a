/** Where the constants of FIPS 180-4 come from. */
module Sha256Constants {
  import opened Sha256Spec

  const TWO_32 := 0x1_0000_0000

  function CubeRootFloor(p: nat): nat {
    if p < 8 then 1 else if p < 27 then 2 else if p < 64 then 3 else if p < 125 then 4 else if p < 216 then 5 else 6
  }

  /** The first thirty-two bits of the fractional part of the cube root of p. */
  predicate IsCubeRoot(p: nat, w: word) {
    var x := CubeRootFloor(p) * TWO_32 + w as nat;
    x * x * x <= p * TWO_32 * TWO_32 * TWO_32 < (x + 1) * (x + 1) * (x + 1)
  }

  /** The first thirty-two bits of the fractional part of the square root of p. */
  predicate IsSquareRoot(p: nat, whole: nat, w: word) {
    var x := whole * TWO_32 + w as nat;
    x * x <= p * TWO_32 * TWO_32 < (x + 1) * (x + 1)
  }

  /** The first sixty-four primes, eight to a row. */
  function Primes(q: nat): (row: seq<nat>)
    requires q < 8
    ensures |row| == 8
  {
    match q
    case 0 => [2, 3, 5, 7, 11, 13, 17, 19]
    case 1 => [23, 29, 31, 37, 41, 43, 47, 53]
    case 2 => [59, 61, 67, 71, 73, 79, 83, 89]
    case 3 => [97, 101, 103, 107, 109, 113, 127, 131]
    case 4 => [137, 139, 149, 151, 157, 163, 167, 173]
    case 5 => [179, 181, 191, 193, 197, 199, 211, 223]
    case 6 => [227, 229, 233, 239, 241, 251, 257, 263]
    case _ => [269, 271, 277, 281, 283, 293, 307, 311]
  }

  lemma Row0Roots(i: nat)
    requires i < 8
    ensures IsCubeRoot(Primes(0)[i], Row(0)[i])
  {
    match i
    case 0 => case 1 => case 2 => case 3 => case 4 => case 5 => case 6 => case _ =>
  }

  lemma Row1Roots(i: nat)
    requires i < 8
    ensures IsCubeRoot(Primes(1)[i], Row(1)[i])
  {
    match i
    case 0 => case 1 => case 2 => case 3 => case 4 => case 5 => case 6 => case _ =>
  }

  lemma Row2Roots(i: nat)
    requires i < 8
    ensures IsCubeRoot(Primes(2)[i], Row(2)[i])
  {
    match i
    case 0 => case 1 => case 2 => case 3 => case 4 => case 5 => case 6 => case _ =>
  }

  lemma Row3Roots(i: nat)
    requires i < 8
    ensures IsCubeRoot(Primes(3)[i], Row(3)[i])
  {
    match i
    case 0 => case 1 => case 2 => case 3 => case 4 => case 5 => case 6 => case _ =>
  }

  lemma Row4Roots(i: nat)
    requires i < 8
    ensures IsCubeRoot(Primes(4)[i], Row(4)[i])
  {
    match i
    case 0 => case 1 => case 2 => case 3 => case 4 => case 5 => case 6 => case _ =>
  }

  lemma Row5Roots(i: nat)
    requires i < 8
    ensures IsCubeRoot(Primes(5)[i], Row(5)[i])
  {
    match i
    case 0 => case 1 => case 2 => case 3 => case 4 => case 5 => case 6 => case _ =>
  }

  lemma Row6Roots(i: nat)
    requires i < 8
    ensures IsCubeRoot(Primes(6)[i], Row(6)[i])
  {
    match i
    case 0 => case 1 => case 2 => case 3 => case 4 => case 5 => case 6 => case _ =>
  }

  lemma Row7Roots(i: nat)
    requires i < 8
    ensures IsCubeRoot(Primes(7)[i], Row(7)[i])
  {
    match i
    case 0 => case 1 => case 2 => case 3 => case 4 => case 5 => case 6 => case _ =>
  }

  /** Section 4.2.2: the round constants are the cube roots of the first sixty-four primes. */
  lemma CubeRoots(q: nat, i: nat)
    requires q < 8 && i < 8
    ensures IsCubeRoot(Primes(q)[i], Row(q)[i])
  {
    hide Primes, Row, IsCubeRoot;
    match q
    case 0 => Row0Roots(i);
    case 1 => Row1Roots(i);
    case 2 => Row2Roots(i);
    case 3 => Row3Roots(i);
    case 4 => Row4Roots(i);
    case 5 => Row5Roots(i);
    case 6 => Row6Roots(i);
    case _ => Row7Roots(i);
  }

  /** Section 5.3.3: the initial hash words are the square roots of the first eight primes. */
  lemma SquareRoots()
    ensures IsSquareRoot(2, 1, H0.a) && IsSquareRoot(3, 1, H0.b) && IsSquareRoot(5, 2, H0.c)
    ensures IsSquareRoot(7, 2, H0.d) && IsSquareRoot(11, 3, H0.e) && IsSquareRoot(13, 3, H0.f)
    ensures IsSquareRoot(17, 4, H0.g) && IsSquareRoot(19, 4, H0.h)
  {}
}
