/** The order of paths in a `BTreeMap`: component by component, each component byte by byte. */
module PathOrder {
  import opened QueryState

  predicate NameLess(a: Name, b: Name) {
    b != [] && (a == [] || a[0] < b[0] || (a[0] == b[0] && NameLess(a[1..], b[1..])))
  }

  predicate PathLess(a: Path, b: Path) {
    b != [] && (a == [] || NameLess(a[0], b[0]) || (a[0] == b[0] && PathLess(a[1..], b[1..])))
  }

  lemma {:induction false} NamesOrdered(a: Name, b: Name)
    ensures NameLess(a, b) || NameLess(b, a) || a == b
    ensures !(NameLess(a, b) && NameLess(b, a)) && !NameLess(a, a)
  {
    if a == [] {
    } else {
      NamesOrdered(a[1..], a[1..]);
      assert a == [a[0]] + a[1..];
      if b != [] {
        assert b == [b[0]] + b[1..];
        NamesOrdered(a[1..], b[1..]);
      }
    }
  }

  lemma {:induction false} NamesTransitive(a: Name, b: Name, c: Name)
    requires NameLess(a, b) && NameLess(b, c)
    ensures NameLess(a, c)
  {
    if a == [] || !(a[0] == b[0] == c[0]) {
    } else {
      NamesTransitive(a[1..], b[1..], c[1..]);
    }
  }

  /** The order is total and strict. */
  lemma {:induction false} PathsOrdered(a: Path, b: Path)
    ensures PathLess(a, b) || PathLess(b, a) || a == b
    ensures !(PathLess(a, b) && PathLess(b, a)) && !PathLess(a, a)
  {
    if a == [] {
    } else {
      PathsOrdered(a[1..], a[1..]);
      NamesOrdered(a[0], a[0]);
      assert a == [a[0]] + a[1..];
      if b != [] {
        assert b == [b[0]] + b[1..];
        NamesOrdered(a[0], b[0]);
        PathsOrdered(a[1..], b[1..]);
      }
    }
  }

  lemma {:induction false} PathsTransitive(a: Path, b: Path, c: Path)
    requires PathLess(a, b) && PathLess(b, c)
    ensures PathLess(a, c)
  {
    if a == [] {
    } else {
      NamesOrdered(b[0], b[0]);
      if a[0] == b[0] == c[0] {
        PathsTransitive(a[1..], b[1..], c[1..]);
      } else if NameLess(a[0], b[0]) && NameLess(b[0], c[0]) {
        NamesTransitive(a[0], b[0], c[0]);
      }
    }
  }

  // ---------- what the order is ----------

  /** At the first byte that differs `a` has the smaller one, or `a` is a proper beginning of `b`. */
  ghost predicate NameBefore(a: Name, b: Name) {
    exists k :: NameParts(a, b, k)
  }

  predicate NameParts(a: Name, b: Name, k: int) {
    0 <= k < |b| && k <= |a| && a[..k] == b[..k] && (k < |a| ==> a[k] < b[k])
  }

  /** At the first component that differs `a` has the smaller one, or `a` is a proper beginning of `b`. */
  ghost predicate PathBefore(a: Path, b: Path) {
    exists k :: PathParts(a, b, k)
  }

  ghost predicate PathParts(a: Path, b: Path, k: int) {
    0 <= k < |b| && k <= |a| && a[..k] == b[..k] && (k < |a| ==> NameBefore(a[k], b[k]))
  }

  lemma {:induction false} NameOrderMeans(a: Name, b: Name)
    ensures NameLess(a, b) <==> NameBefore(a, b)
  {
    if b == [] {
    } else if a == [] || a[0] != b[0] {
      assert NameParts(a, b, 0) || a[0] > b[0];
      if NameBefore(a, b) {
        var k :| NameParts(a, b, k);
        assert k > 0 ==> a[..k][0] == b[..k][0];
      }
    } else {
      NameOrderMeans(a[1..], b[1..]);
      if NameBefore(a[1..], b[1..]) {
        var k :| NameParts(a[1..], b[1..], k);
        assert a[..k + 1] == [a[0]] + a[1..][..k] && b[..k + 1] == [b[0]] + b[1..][..k];
        assert NameParts(a, b, k + 1);
      }
      if NameBefore(a, b) {
        var k :| NameParts(a, b, k);
        assert a[1..][..k - 1] == a[..k][1..] && b[1..][..k - 1] == b[..k][1..];
        assert NameParts(a[1..], b[1..], k - 1);
      }
    }
  }

  /** Paths are compared component by component, components byte by byte. */
  lemma {:induction false} PathOrderMeans(a: Path, b: Path)
    ensures PathLess(a, b) <==> PathBefore(a, b)
  {
    hide NameLess, NameBefore;
    if b == [] {
    } else if a == [] || a[0] != b[0] {
      if a != [] {
        NameOrderMeans(a[0], b[0]);
      }
      assert PathLess(a, b) ==> PathParts(a, b, 0);
      if PathBefore(a, b) {
        var k :| PathParts(a, b, k);
        assert k > 0 ==> a[..k][0] == b[..k][0];
      }
    } else {
      PathOrderMeans(a[1..], b[1..]);
      NamesOrdered(a[0], a[0]);
      if PathBefore(a[1..], b[1..]) {
        var k :| PathParts(a[1..], b[1..], k);
        assert a[..k + 1] == [a[0]] + a[1..][..k] && b[..k + 1] == [b[0]] + b[1..][..k];
        assert PathParts(a, b, k + 1);
      }
      if PathBefore(a, b) {
        var k :| PathParts(a, b, k);
        NameOrderMeans(a[0], b[0]);
        assert k > 0;
        assert a[1..][..k - 1] == a[..k][1..] && b[1..][..k - 1] == b[..k][1..];
        assert PathParts(a[1..], b[1..], k - 1);
      }
    }
  }
}
