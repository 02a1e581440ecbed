/** The string form of filecache paths: the text code of the server computes the
    segment operations of `Paths`. */
module PathText {
  import opened Paths

  predicate IsSegment(s: string) {
    s != [] && '/' !in s
  }

  predicate IsPath(p: Path) {
    forall i :: 0 <= i < |p| ==> IsSegment(p[i])
  }

  function Render(p: Path): string {
    if p == [] then ""
    else if |p| == 1 then p[0]
    else Render(Parent(p)) + "/" + Last(p)
  }

  /** The position of the last slash, or -1. */
  function LastSlash(s: string): (i: int)
    ensures -1 <= i < |s|
    ensures i >= 0 ==> s[i] == '/'
    ensures forall j :: i < j < |s| ==> s[j] != '/'
  {
    if s == [] then -1
    else if s[|s| - 1] == '/' then |s| - 1
    else LastSlash(s[..|s| - 1])
  }

  /** `parent_fc_path`: everything before the last slash. */
  function ParentText(s: string): string {
    if LastSlash(s) == -1 then "" else s[..LastSlash(s)]
  }

  /** The part after the last slash. */
  function NameText(s: string): string {
    s[LastSlash(s) + 1..]
  }

  lemma LastSlashUnique(s: string, i: int)
    requires -1 <= i < |s| && (i >= 0 ==> s[i] == '/')
    requires forall j :: i < j < |s| ==> s[j] != '/'
    ensures LastSlash(s) == i
  {
  }

  lemma RenderStep(p: Path)
    requires |p| > 1 && IsPath(p)
    ensures LastSlash(Render(p)) == |Render(Parent(p))|
  {
    var s, i := Render(p), |Render(Parent(p))|;
    assert IsSegment(p[|p| - 1]);
    forall j | i < j < |s|
      ensures s[j] != '/'
    {
      assert s[j] == Last(p)[j - i - 1];
    }
    LastSlashUnique(s, i);
  }

  lemma RenderOne(p: Path)
    requires |p| == 1 && IsPath(p)
    ensures LastSlash(Render(p)) == -1
  {
    assert IsSegment(p[0]);
    LastSlashUnique(Render(p), -1);
  }

  /** Cutting at the last slash gives the parent path and the last segment. */
  lemma ParentAndName(p: Path)
    requires p != [] && IsPath(p)
    ensures ParentText(Render(p)) == Render(Parent(p))
    ensures NameText(Render(p)) == Last(p)
  {
    if |p| == 1 {
      RenderOne(p);
    } else {
      RenderStep(p);
    }
  }

  lemma RenderNonEmpty(p: Path)
    requires p != [] && IsPath(p)
    ensures Render(p) != ""
  {
    assert IsSegment(p[0]);
  }

  /** Different paths have different texts, so a hash of the text identifies the
      path wherever the hash is injective. */
  lemma {:induction false} RenderInjective(p: Path, q: Path)
    requires IsPath(p) && IsPath(q) && Render(p) == Render(q)
    ensures p == q
    decreases |p|
  {
    if p == [] || q == [] {
      if p != [] {
        RenderNonEmpty(p);
      }
      if q != [] {
        RenderNonEmpty(q);
      }
    } else {
      ParentAndName(p);
      ParentAndName(q);
      RenderInjective(Parent(p), Parent(q));
      assert p == Parent(p) + [Last(p)] && q == Parent(q) + [Last(q)];
    }
  }

  /** `split('/')`: the pieces between slashes, always at least one. */
  function Split(s: string): (parts: seq<string>)
    ensures parts != []
    decreases |s|
  {
    var i := LastSlash(s);
    if i == -1 then [s] else Split(s[..i]) + [s[i + 1..]]
  }

  lemma {:induction false} SplitRender(p: Path)
    requires p != [] && IsPath(p)
    ensures Split(Render(p)) == p
    decreases |p|
  {
    ParentAndName(p);
    if |p| == 1 {
      RenderOne(p);
    } else {
      RenderStep(p);
      SplitRender(Parent(p));
      assert p == Parent(p) + [Last(p)];
    }
  }

  /** `get_parents`: for any path it lists the texts of the strict ancestors, root
      first. */
  method GetParents(path: string) returns (parents: seq<string>)
    ensures |parents| == |Split(path)| && parents[0] == ""
    ensures forall p :: p != [] && IsPath(p) && Render(p) == path ==>
              |parents| == |p| && forall i :: 0 <= i < |p| ==> parents[i] == Render(p[..i])
  {
    var parts := Split(path);
    var parent := "";
    parents := [];
    for i := 0 to |parts|
      invariant |parents| == i
      invariant i > 0 ==> parents[0] == ""
      invariant i == 0 ==> parent == ""
      invariant IsPath(parts) ==> parent == Render(parts[..i])
      invariant IsPath(parts) ==> forall j :: 0 <= j < i ==> parents[j] == Render(parts[..j])
    {
      parents := parents + [parent];
      if IsPath(parts) {
        RenderNext(parts, i);
      }
      parent := if parent == "" then parts[i] else parent + "/" + parts[i];
    }
    forall p | p != [] && IsPath(p) && Render(p) == path
      ensures parts == p
    {
      SplitRender(p);
    }
  }

  lemma RenderNext(p: Path, i: nat)
    requires IsPath(p) && i < |p|
    ensures Render(p[..i]) == "" <==> i == 0
    ensures Render(p[..i + 1]) == if i == 0 then p[0] else Render(p[..i]) + "/" + p[i]
  {
    if i > 0 {
      RenderNonEmpty(p[..i]);
      assert Parent(p[..i + 1]) == p[..i];
    }
  }

  /** The rows below `top`: their text starts with `top/`. */
  predicate StartsBelow(s: string, top: string) {
    |top| < |s| && s[..|top|] == top && s[|top|] == '/'
  }

  lemma {:induction false} RenderPrefix(p: Path, q: Path)
    requires p != [] && IsPath(q) && Above(p, q)
    ensures StartsBelow(Render(q), Render(p))
    decreases |q|
  {
    AboveSplit(p, q);
    if Parent(q) != p {
      RenderPrefix(p, Parent(q));
    }
  }

  lemma {:induction false} PrefixIsAbove(p: Path, q: Path)
    requires p != [] && IsPath(p) && IsPath(q) && StartsBelow(Render(q), Render(p))
    ensures Above(p, q)
    decreases |q|
  {
    var s, r := Render(q), Render(p);
    if |q| == 0 {
    } else if |q| == 1 {
      RenderOne(q);
    } else {
      RenderStep(q);
      var k := |Render(Parent(q))|;
      assert s[..k] == Render(Parent(q));
      if k == |r| {
        assert s[..k] == r;
        RenderInjective(p, Parent(q));
      } else {
        assert |r| < k;
        assert s[..k][..|r|] == s[..|r|];
        PrefixIsAbove(p, Parent(q));
      }
      AboveSplit(p, q);
    }
  }

  /** The prefix test on texts is the ancestor test on paths. */
  lemma PrefixMeansAbove(p: Path, q: Path)
    requires p != [] && IsPath(p) && IsPath(q)
    ensures StartsBelow(Render(q), Render(p)) <==> Above(p, q)
  {
    if Above(p, q) {
      RenderPrefix(p, q);
    }
    if StartsBelow(Render(q), Render(p)) {
      PrefixIsAbove(p, q);
    }
  }

  /** `rekey_subtree_paths` replaces the old prefix text by the new one, which is
      rebasing. */
  lemma {:induction false} RekeyText(q: Path, from: Path, to: Path)
    requires from != [] && to != [] && IsPath(q) && IsPath(from) && IsPath(to) && Above(from, q)
    ensures |Render(from)| <= |Render(q)|
    ensures Render(to) + Render(q)[|Render(from)|..] == Render(Rebase(q, from, to))
    decreases |q|
  {
    RenderPrefix(from, q);
    AboveSplit(from, q);
    RebaseParent(q, from, to);
    var r := Rebase(q, from, to);
    assert r == Rebase(Parent(q), from, to) + [Last(q)];
    if Parent(q) == from {
      assert Rebase(from, from, to) == to;
    } else {
      RekeyText(Parent(q), from, to);
    }
    assert Render(q)[|Render(from)|..] == Render(Parent(q))[|Render(from)|..] + "/" + Last(q);
  }

  /** `dav_to_fc_path` after slashes are trimmed. */
  function DavToFilecache(trimmed: string): string {
    if trimmed == "" then "files" else "files/" + trimmed
  }

  /** Every request path is mapped to `files` or below it. */
  lemma {:induction false} DavIsUnderFiles(p: Path)
    requires IsPath(p)
    ensures DavToFilecache(Render(p)) == Render(["files"] + p)
    decreases |p|
  {
    if p == [] {
      assert ["files"] + p == ["files"];
    } else {
      RenderNonEmpty(p);
      DavIsUnderFiles(Parent(p));
      assert Parent(["files"] + p) == ["files"] + Parent(p);
    }
  }
}
