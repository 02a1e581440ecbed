/** Names in the trash: `basename.d<timestamp>`. */
module TrashNames {
  import Decimal

  /** `trash_fc_name` without its folder. */
  function TrashName(base: string, stamp: nat): string {
    base + ".d" + Decimal.Digits(stamp)
  }

  /** Where the last `.d` of a name starts. */
  function LastMark(name: string): (i: int)
    ensures -1 <= i
    ensures i == -1 ==> forall j :: 0 <= j < |name| - 1 ==> !MarkAt(name, j)
    ensures i >= 0 ==> MarkAt(name, i) && forall j :: i < j < |name| - 1 ==> !MarkAt(name, j)
    decreases |name|
  {
    if |name| < 2 then -1
    else if MarkAt(name, |name| - 2) then |name| - 2
    else
      var i := LastMark(name[..|name| - 1]);
      assert forall j :: 0 <= j < |name| - 2 ==> (MarkAt(name, j) <==> MarkAt(name[..|name| - 1], j));
      i
  }

  predicate MarkAt(name: string, i: int) {
    0 <= i < |name| - 1 && name[i] == '.' && name[i + 1] == 'd'
  }

  /** The position of the last dot, or -1. */
  function LastDot(name: string): (i: int)
    ensures -1 <= i < |name|
    ensures i >= 0 ==> name[i] == '.'
    ensures forall j :: i < j < |name| ==> name[j] != '.'
  {
    if name == "" then -1
    else if name[|name| - 1] == '.' then |name| - 1
    else LastDot(name[..|name| - 1])
  }

  /** The part after the last dot; the whole name without one. */
  function Extension(name: string): string {
    name[LastDot(name) + 1..]
  }

  predicate IsTrashExtension(e: string) {
    |e| >= 2 && e[0] == 'd' && Decimal.AllDigits(e[1..])
  }

  lemma LastDotUnique(name: string, i: int)
    requires 0 <= i < |name| && name[i] == '.'
    requires forall j :: i < j < |name| ==> name[j] != '.'
    ensures LastDot(name) == i
  {
  }

  /** Splitting a trash name at its last `.d` gives back basename and timestamp,
      and its extension is recognised, whatever the basename contains. */
  lemma TrashNameParses(base: string, stamp: nat)
    ensures var name := TrashName(base, stamp);
      && LastMark(name) == |base|
      && name[..LastMark(name)] == base
      && Decimal.AllDigits(name[LastMark(name) + 2..])
      && Decimal.Number(name[LastMark(name) + 2..]) == stamp
      && IsTrashExtension(Extension(name))
  {
    var name, ds := TrashName(base, stamp), Decimal.Digits(stamp);
    assert name[|base| + 2..] == ds;
    assert MarkAt(name, |base|);
    forall j | |base| < j < |name| - 1
      ensures !MarkAt(name, j)
    {
      if j >= |base| + 2 {
        assert name[j] == ds[j - |base| - 2];
        assert Decimal.IsDigit(ds[j - |base| - 2]);
      }
    }
    assert LastMark(name) == |base|;
    assert name[..|base|] == base;
    Decimal.NumberOfDigits(stamp);
    var e := "d" + ds;
    assert name[|base| + 1..] == e;
    forall j | |base| < j < |name|
      ensures name[j] != '.'
    {
      assert name[j] == e[j - |base| - 1];
      assert j > |base| + 1 ==> Decimal.IsDigit(ds[j - |base| - 2]);
    }
    LastDotUnique(name, |base|);
    assert e[1..] == ds;
  }

  /** Different timestamps give different names. */
  lemma TrashNameInjective(base: string, m: nat, n: nat)
    requires TrashName(base, m) == TrashName(base, n)
    ensures m == n
  {
    TrashNameParses(base, m);
    TrashNameParses(base, n);
  }
}
