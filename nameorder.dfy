/** The ordering `std::set<QualifiedName>` iterates in: lexicographic over
    segments, each segment compared lexicographically by character. The
    structure resolver visits its pending names in this order. */
module NameOrder {
  import opened TypeModel

  predicate StrLess(a: string, b: string) {
    if a == [] then b != []
    else b != [] && (a[0] < b[0] || (a[0] == b[0] && StrLess(a[1..], b[1..])))
  }

  predicate NameLess(a: QName, b: QName) {
    if a == [] then b != []
    else b != [] && (StrLess(a[0], b[0]) || (a[0] == b[0] && NameLess(a[1..], b[1..])))
  }

  lemma {:induction false} StrLessIrreflexive(a: string)
    ensures !StrLess(a, a)
  {
    if a != [] { StrLessIrreflexive(a[1..]); }
  }

  lemma {:induction false} StrLessTransitive(a: string, b: string, c: string)
    requires StrLess(a, b) && StrLess(b, c)
    ensures StrLess(a, c)
  {
    if a != [] && a[0] == b[0] && b[0] == c[0] {
      StrLessTransitive(a[1..], b[1..], c[1..]);
    }
  }

  lemma {:induction false} StrLessTotal(a: string, b: string)
    requires a != b
    ensures StrLess(a, b) || StrLess(b, a)
  {
    if a != [] && b != [] && a[0] == b[0] {
      assert a == [a[0]] + a[1..] && b == [b[0]] + b[1..];
      StrLessTotal(a[1..], b[1..]);
    }
  }

  lemma {:induction false} NameLessIrreflexive(a: QName)
    ensures !NameLess(a, a)
  {
    if a != [] {
      StrLessIrreflexive(a[0]);
      NameLessIrreflexive(a[1..]);
    }
  }

  lemma {:induction false} NameLessTransitive(a: QName, b: QName, c: QName)
    requires NameLess(a, b) && NameLess(b, c)
    ensures NameLess(a, c)
  {
    if a != [] {
      if StrLess(a[0], b[0]) && StrLess(b[0], c[0]) {
        StrLessTransitive(a[0], b[0], c[0]);
      } else if a[0] == b[0] && b[0] == c[0] {
        NameLessTransitive(a[1..], b[1..], c[1..]);
      }
    }
  }

  lemma {:induction false} NameLessTotal(a: QName, b: QName)
    requires a != b
    ensures NameLess(a, b) || NameLess(b, a)
  {
    if a != [] && b != [] {
      if a[0] != b[0] {
        StrLessTotal(a[0], b[0]);
      } else {
        assert a == [a[0]] + a[1..] && b == [b[0]] + b[1..];
        NameLessTotal(a[1..], b[1..]);
      }
    }
  }

  lemma NameLessAsymmetric(a: QName, b: QName)
    requires NameLess(a, b)
    ensures !NameLess(b, a)
  {
    if NameLess(b, a) {
      NameLessTransitive(a, b, a);
      NameLessIrreflexive(a);
    }
  }

  /** `m` comes before every other element of `s`. */
  predicate IsLeast(m: QName, s: set<QName>) {
    m in s && forall x :: x in s && x != m ==> NameLess(m, x)
  }

  /** Every finite non-empty set of names has a first element: the one a
      `std::set` iteration visits first. */
  lemma {:induction false} LeastExists(s: set<QName>)
    requires s != {}
    ensures exists m :: IsLeast(m, s)
    decreases |s|
  {
    var x :| x in s;
    var rest := s - {x};
    if rest == {} {
      assert s == {x};
      assert IsLeast(x, s);
    } else {
      LeastExists(rest);
      var m :| IsLeast(m, rest);
      if NameLess(m, x) {
        assert IsLeast(m, s);
      } else {
        NameLessTotal(m, x);
        forall y | y in s && y != x
          ensures NameLess(x, y)
        {
          if y != m { NameLessTransitive(x, m, y); }
        }
        assert IsLeast(x, s);
      }
    }
  }
}
