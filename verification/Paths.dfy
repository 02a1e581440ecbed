/** Filecache paths as lists of segments: `files/a/b` is `["files", "a", "b"]`
    and the storage root is `[]`.  `PathText` shows that the string code of the
    server computes the same things. */
module Paths {
  type Path = seq<string>

  /** `q` is `p` itself or lies somewhere under it. */
  predicate AtOrBelow(q: Path, p: Path) {
    |p| <= |q| && q[..|p|] == p
  }

  /** `p` is a strict ancestor of `q`. */
  predicate Above(p: Path, q: Path) {
    |p| < |q| && q[..|p|] == p
  }

  function Parent(p: Path): Path
    requires p != []
  {
    p[..|p| - 1]
  }

  function Last(p: Path): string
    requires p != []
  {
    p[|p| - 1]
  }

  /** Where `q` goes when the subtree `from` is moved onto `to`. */
  function Rebase(q: Path, from: Path, to: Path): Path {
    if AtOrBelow(q, from) then to + q[|from|..] else q
  }

  lemma AboveParent(q: Path)
    requires q != []
    ensures Above(Parent(q), q)
  {
  }

  /** The strict ancestors of a path are its parent and the parent's ancestors. */
  lemma AboveSplit(p: Path, q: Path)
    requires q != []
    ensures Above(p, q) <==> p == Parent(q) || Above(p, Parent(q))
  {
    if |p| < |q| {
      assert q[..|q| - 1][..|p|] == q[..|p|];
    }
  }

  lemma AboveTransitive(p: Path, q: Path, r: Path)
    requires Above(p, q) && AtOrBelow(r, q)
    ensures Above(p, r)
  {
    assert r[..|q|][..|p|] == r[..|p|];
  }

  lemma AtOrBelowTransitive(r: Path, q: Path, p: Path)
    requires AtOrBelow(r, q) && AtOrBelow(q, p)
    ensures AtOrBelow(r, p)
  {
    assert r[..|q|][..|p|] == r[..|p|];
  }

  /** Two prefixes of one path are comparable. */
  lemma Comparable(a: Path, b: Path, q: Path)
    requires AtOrBelow(q, a) && AtOrBelow(q, b)
    ensures Above(a, b) || AtOrBelow(a, b)
  {
    if |a| < |b| {
      assert q[..|b|][..|a|] == q[..|a|];
    } else {
      assert q[..|a|][..|b|] == q[..|b|];
    }
  }

  /** Rebasing keeps the position below the moved node and is injective. */
  lemma RebaseShape(q: Path, from: Path, to: Path)
    requires AtOrBelow(q, from)
    ensures AtOrBelow(Rebase(q, from, to), to)
    ensures Rebase(q, from, to)[|to|..] == q[|from|..]
    ensures Rebase(Rebase(q, from, to), to, from) == q
  {
    assert Rebase(q, from, to)[..|to|] == to;
    assert q == q[..|from|] + q[|from|..];
  }

  /** Rebasing commutes with taking the parent, except at the moved node. */
  lemma RebaseParent(q: Path, from: Path, to: Path)
    requires Above(from, q)
    ensures AtOrBelow(Parent(q), from)
    ensures Rebase(q, from, to) != []
    ensures Parent(Rebase(q, from, to)) == Rebase(Parent(q), from, to)
    ensures Last(Rebase(q, from, to)) == Last(q)
  {
    assert Parent(q)[..|from|] == q[..|from|];
    assert Parent(q)[|from|..] == q[|from|..|q| - 1];
    assert Parent(to + q[|from|..]) == to + q[|from|..|q| - 1];
  }

  /** Inside a moved subtree, who is above whom does not change. */
  lemma RebaseAbove(p: Path, q: Path, from: Path, to: Path)
    requires AtOrBelow(p, from) && AtOrBelow(q, from)
    ensures Above(p, q) <==> Above(Rebase(p, from, to), Rebase(q, from, to))
    ensures Above(p, q) ==> Rebase(q, from, to)[|Rebase(p, from, to)|..] == q[|p|..]
  {
    var p', q' := Rebase(p, from, to), Rebase(q, from, to);
    RebaseShape(p, from, to);
    RebaseShape(q, from, to);
    var d := |p| - |from|;
    if |p| < |q| {
      assert p == from + p[|from|..];
      assert q == from + q[|from|..];
      assert p' == to + p[|from|..];
      assert q' == to + q[|from|..];
      assert q[..|p|] == from + q[|from|..][..d];
      assert q'[..|p'|] == to + q[|from|..][..d];
      if q[..|p|] == p {
        assert q[|from|..][..d] == q[..|p|][|from|..] == p[|from|..];
      }
      if q'[..|p'|] == p' {
        assert q[|from|..][..d] == q'[..|p'|][|to|..] == p'[|to|..];
      }
      assert q'[|p'|..] == q[|p|..];
    }
  }
}
