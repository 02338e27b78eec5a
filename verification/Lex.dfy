/** The order of `std::string`, in which ordered maps list their keys. */
module Lex {

  predicate Less(a: string, b: string) {
    b != "" && (a == "" || a[0] < b[0] || (a[0] == b[0] && Less(a[1..], b[1..])))
  }

  predicate AtMost(a: string, b: string) { a == b || Less(a, b) }

  lemma {:induction false} LessIsStrict(a: string, b: string)
    ensures !(Less(a, b) && Less(b, a)) && !Less(a, a)
    ensures Less(a, b) || Less(b, a) || a == b
  {
    if a != "" && b != "" && a[0] == b[0] {
      LessIsStrict(a[1..], b[1..]);
      assert a == [a[0]] + a[1..] && b == [b[0]] + b[1..];
    }
    if a != "" {
      LessIsStrict(a[1..], a[1..]);
    }
  }

  lemma {:induction false} LessIsTransitive(a: string, b: string, c: string)
    requires Less(a, b) && Less(b, c)
    ensures Less(a, c)
  {
    if a != "" && a[0] == b[0] == c[0] {
      LessIsTransitive(a[1..], b[1..], c[1..]);
    }
  }

  predicate IsLeast(a: string, s: set<string>) { a in s && forall b | b in s :: AtMost(a, b) }

  /** Every non-empty set of keys has a first one. */
  lemma {:induction false} LeastExists(s: set<string>) returns (a: string)
    requires s != {}
    ensures IsLeast(a, s)
  {
    hide Less;
    var x :| x in s;
    a := x;
    var rest := s - {x};
    if rest != {} {
      var y := LeastExists(rest);
      LessIsStrict(x, y);
      a := if Less(x, y) then x else y;
      forall b | b in s
        ensures AtMost(a, b)
      {
        if b != x {
          assert b in rest;
          if a == x && b != y { LessIsTransitive(x, y, b); }
        }
      }
    } else {
      assert s == {x};
    }
  }

  method Least(s: set<string>) returns (a: string)
    requires s != {}
    ensures IsLeast(a, s)
  {
    ghost var first := LeastExists(s);
    a :| a in s && IsLeast(a, s);
  }
}
