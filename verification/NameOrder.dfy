/** The order of file names and of map keys: by character, a prefix first. */
module NameOrder {
  type Name = string

  predicate Before(a: Name, b: Name) {
    b != [] && (a == [] || a[0] < b[0] || (a[0] == b[0] && Before(a[1..], b[1..])))
  }

  lemma BeforeTotal(a: Name, b: Name)
    ensures a == b || Before(a, b) || Before(b, a)
  {
    if a != [] && b != [] && a[0] == b[0] {
      BeforeTotal(a[1..], b[1..]);
      assert a == [a[0]] + a[1..] && b == [b[0]] + b[1..];
    }
  }

  lemma BeforeTrans(a: Name, b: Name, c: Name)
    requires Before(a, b) && Before(b, c)
    ensures Before(a, c)
  {
  }

  predicate IsLeast(n: Name, names: set<Name>) {
    n in names && forall m :: m in names ==> m == n || Before(n, m)
  }

  lemma LeastExists(names: set<Name>) returns (n: Name)
    requires names != {}
    ensures IsLeast(n, names)
  {
    n :| n in names;
    var rest := names - {n};
    assert names == rest + {n};
    if rest != {} {
      var m := LeastExists(rest);
      BeforeTotal(n, m);
      if Before(m, n) {
        n := m;
      } else {
        forall x | x in rest ensures Before(n, x) {
          if x != m { BeforeTrans(n, m, x); }
        }
      }
    }
  }

  predicate SortedNames(names: seq<Name>) {
    forall i, j :: 0 <= i < j < |names| ==> Before(names[i], names[j])
  }

  lemma BeforeIrreflexive(a: Name)
    ensures !Before(a, a)
  {
  }
}
