/** Searching and trimming text. */
module Texts {
  import opened Options

  // ── Searching ──────────────────────────────────────────────────────────────

  predicate At(h: string, n: string, i: int) {
    0 <= i && i + |n| <= |h| && h[i..i + |n|] == n
  }

  /** The first occurrence of `n` in `h`. */
  function Find(h: string, n: string): (r: Option<nat>)
    ensures r.Some? ==> At(h, n, r.value) && forall j :: 0 <= j < r.value ==> !At(h, n, j)
    ensures r.None? ==> forall j :: 0 <= j ==> !At(h, n, j)
    decreases |h|
  {
    if At(h, n, 0) then Some(0)
    else if h == "" then None
    else
      var r := Find(h[1..], n);
      assert forall j :: 1 <= j ==> (At(h, n, j) <==> At(h[1..], n, j - 1)) by {
        forall j | 1 <= j
          ensures At(h, n, j) <==> At(h[1..], n, j - 1)
        {
          if j + |n| <= |h| {
            assert h[1..][j - 1..j - 1 + |n|] == h[j..j + |n|];
          }
        }
      }
      if r.None? then None else Some(r.value + 1)
  }

  /** `find_subsequence`: the windows of the needle's length, left to right. */
  method FindSubsequence(h: string, n: string) returns (r: Option<nat>)
    ensures r == Find(h, n)
  {
    var i := 0;
    while i + |n| <= |h|
      invariant forall j :: 0 <= j < i ==> !At(h, n, j)
    {
      if h[i..i + |n|] == n {
        assert At(h, n, i);
        return Some(i);
      }
      i := i + 1;
    }
    assert forall j :: 0 <= j ==> !At(h, n, j);
    return None;
  }

  lemma FindIs(h: string, n: string, i: nat)
    requires At(h, n, i) && forall j :: 0 <= j < i ==> !At(h, n, j)
    ensures Find(h, n) == Some(i)
  {
  }

  /** White space among the first 128 characters. */
  predicate IsSpace(c: char) {
    c == ' ' || '\t' <= c <= '\r'
  }

  function Trim(s: string): string
    decreases |s|
  {
    if s != "" && IsSpace(s[0]) then Trim(s[1..])
    else if s != "" && IsSpace(s[|s| - 1]) then Trim(s[..|s| - 1])
    else s
  }

  const WHITE := " \t\n\U{000B}\U{000C}\r"

  ghost predicate Cut(s: string, i: int, j: int) {
    && 0 <= i <= j <= |s| && Trim(s) == s[i..j]
    && (forall k :: 0 <= k < |s| && !(i <= k < j) ==> s[k] in WHITE)
    && (i < j ==> s[i] !in WHITE && s[j - 1] !in WHITE)
  }

  /** The longest stretch between two characters that are not white space. */
  lemma {:induction false} TrimIs(s: string)
    ensures exists i, j :: Cut(s, i, j)
    decreases |s|
  {
    if s == "" {
      assert Cut(s, 0, 0);
    } else if IsSpace(s[0]) {
      TrimIs(s[1..]);
      var i, j :| Cut(s[1..], i, j);
      assert Cut(s, i + 1, j + 1) by {
        assert s[1..][i..j] == s[i + 1..j + 1];
      }
    } else if IsSpace(s[|s| - 1]) {
      TrimIs(s[..|s| - 1]);
      var i, j :| Cut(s[..|s| - 1], i, j);
      assert Cut(s, i, j) by {
        assert s[..|s| - 1][i..j] == s[i..j];
      }
    } else {
      assert Cut(s, 0, |s|);
    }
  }
}
