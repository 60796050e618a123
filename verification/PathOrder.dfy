/** The order in which SQLite's BINARY collation lists path keys. The empty string precedes every path. */
module PathOrder {

  type Path = string

  predicate Less(a: Path, b: Path)
  {
    b != "" && (a == "" || a[0] < b[0] || (a[0] == b[0] && Less(a[1..], b[1..])))
  }

  lemma {:induction false} LessIrreflexive(a: Path)
    ensures !Less(a, a)
  {
    if a != "" {
      LessIrreflexive(a[1..]);
    }
  }

  lemma {:induction false} LessTransitive(a: Path, b: Path, c: Path)
    requires Less(a, b) && Less(b, c)
    ensures Less(a, c)
  {
    if a != "" && a[0] == b[0] == c[0] {
      LessTransitive(a[1..], b[1..], c[1..]);
    }
  }

  lemma {:induction false} LessTotal(a: Path, b: Path)
    ensures a == b || Less(a, b) || Less(b, a)
  {
    if a != "" && b != "" && a[0] == b[0] {
      LessTotal(a[1..], b[1..]);
      assert a == [a[0]] + a[1..];
      assert b == [b[0]] + b[1..];
    }
  }

  /** The first difference decides: a path comes before its extensions, and otherwise by the code point there. */
  lemma {:induction false} FirstDifference(a: Path, b: Path, k: nat)
    requires k <= |a| && k <= |b| && a[..k] == b[..k]
    ensures k == |a| < |b| ==> Less(a, b) && !Less(b, a)
    ensures k < |a| && k < |b| && a[k] < b[k] ==> Less(a, b) && !Less(b, a)
  {
    if k > 0 {
      assert a[0] == a[..k][0] == b[..k][0] == b[0];
      assert a[1..][..k - 1] == a[..k][1..] && b[1..][..k - 1] == b[..k][1..];
      FirstDifference(a[1..], b[1..], k - 1);
    }
  }

  /** Strictly ascending in path order. */
  ghost predicate Ascending(s: seq<Path>)
  {
    forall i, j :: 0 <= i < j < |s| ==> Less(s[i], s[j])
  }

  /** The least element of a non-empty set of paths. */
  method Least(s: set<Path>) returns (p: Path)
    requires s != {}
    ensures p in s
    ensures forall q :: q in s && q != p ==> Less(p, q)
  {
    p :| p in s;
    var rest := s - {p};
    while rest != {}
      invariant p in s && p !in rest && rest <= s
      invariant forall q :: q in s && q !in rest && q != p ==> Less(p, q)
      decreases rest
    {
      var q :| q in rest;
      if Less(q, p) {
        forall r | r in s && r !in rest && r != p ensures Less(q, r) {
          LessTransitive(q, p, r);
        }
        p := q;
      } else {
        LessTotal(p, q);
      }
      rest := rest - {q};
    }
  }
}
