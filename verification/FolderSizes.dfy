/** The folder sizes that a listing shows. */
module FolderSizes {
  import opened FileTree
  import opened LeastOfSet
  import opened Options

  function Weight(t: Forest, x: string): int {
    if x in t && !t[x].isFolder then t[x].size else 0
  }

  /** SUM over a set of rows. */
  ghost function Sum(t: Forest, s: set<string>): int
    decreases |s|
  {
    if s == {} then 0
    else
      var x :| x in s;
      Weight(t, x) + Sum(t, s - {x})
  }

  lemma {:induction false} SumWithout(t: Forest, s: set<string>, x: string)
    requires x in s
    ensures Sum(t, s) == Weight(t, x) + Sum(t, s - {x})
    decreases |s|
  {
    var y :| y in s && Sum(t, s) == Weight(t, y) + Sum(t, s - {y});
    if y != x {
      SumWithout(t, s - {y}, x);
      SumWithout(t, s - {x}, y);
      assert s - {y} - {x} == s - {x} - {y};
    }
  }

  lemma {:induction false} SumUnion(t: Forest, a: set<string>, b: set<string>)
    requires a !! b
    ensures Sum(t, a + b) == Sum(t, a) + Sum(t, b)
    decreases |a|
  {
    if a == {} {
      assert a + b == b;
    } else {
      var x := Pick(a);
      SumWithout(t, a, x);
      SumWithout(t, a + b, x);
      assert a + b - {x} == (a - {x}) + b;
      SumUnion(t, a - {x}, b);
    }
  }

  /** The rows below a folder that the listing sums over. */
  ghost function LiveBelow(t: Forest, folder: string): set<string> {
    set x | x in t && exists n: nat :: n > 0 && Up(t, true, x, n) == Some(folder)
  }

  /** The size list_space_files shows for a folder. */
  ghost function ListedSize(t: Forest, folder: string): int {
    Sum(t, LiveBelow(t, folder))
  }

  ghost function LiveChildren(t: Forest, folder: string): set<string> {
    set c | c in t && !t[c].deleted && t[c].parent == Some(folder)
  }

  /** What the listing shows for one entry. */
  ghost function Shown(t: Forest, c: string): int {
    if c in t && t[c].isFolder then ListedSize(t, c) else Weight(t, c)
  }

  ghost function SumShown(t: Forest, s: set<string>): int
    decreases |s|
  {
    if s == {} then 0
    else
      var c :| c in s;
      Shown(t, c) + SumShown(t, s - {c})
  }

  lemma {:induction false} SumShownWithout(t: Forest, s: set<string>, x: string)
    requires x in s
    ensures SumShown(t, s) == Shown(t, x) + SumShown(t, s - {x})
    decreases |s|
  {
    hide Shown;
    var y :| y in s && SumShown(t, s) == Shown(t, y) + SumShown(t, s - {y});
    if y != x {
      SumShownWithout(t, s - {y}, x);
      SumShownWithout(t, s - {x}, y);
      assert s - {y} - {x} == s - {x} - {y};
    }
  }

  /** The rows at or below any of `cs`, by live paths. */
  ghost function LiveUnder(t: Forest, cs: set<string>): set<string> {
    set x | x in t && exists c :: c in cs && Under(t, true, c, x)
  }

  /** One child's part: itself and what lies below it. */
  lemma ChildPart(t: Forest, c: string)
    requires Acyclic(t) && FoldersHold(t) && c in t
    ensures LiveUnder(t, {c}) == {c} + LiveBelow(t, c) && c !in LiveBelow(t, c)
    ensures Sum(t, LiveUnder(t, {c})) == Shown(t, c)
  {
    hide Sum;
    forall x | x in t ensures Under(t, true, c, x) <==> x == c || x in LiveBelow(t, c) {
      if Under(t, true, c, x) {
        var n: nat :| Up(t, true, x, n) == Some(c);
        assert n > 0 ==> x in LiveBelow(t, c);
      }
      if x == c {
        assert Up(t, true, x, 0) == Some(c);
      }
    }
    if c in LiveBelow(t, c) {
      var n: nat :| n > 0 && Up(t, true, c, n) == Some(c);
      UpOnce(t, true, c, 0, n);
    }
    if !t[c].isFolder {
      NothingBelowFile(t, c);
    }
    SumUnion(t, {c}, LiveBelow(t, c));
    SumWithout(t, {c}, c);
    assert {c} - {c} == {};
    SumNothing(t);
  }

  lemma SumNothing(t: Forest)
    ensures Sum(t, {}) == 0
  {
  }

  lemma NothingBelowFile(t: Forest, c: string)
    requires FoldersHold(t) && Acyclic(t) && c in t && !t[c].isFolder
    ensures LiveBelow(t, c) == {}
  {
    forall x | x in t && x in LiveBelow(t, c) ensures false {
      var n: nat :| n > 0 && Up(t, true, x, n) == Some(c);
      if x == c {
        UpOnce(t, true, c, 0, n);
      } else {
        LiveIsPath(t, x, n);
        FilesHoldNothing(t, c, x);
      }
    }
  }

  /** Two children of one folder share nothing. */
  lemma ChildrenApart(t: Forest, folder: string, c: string, d: string, x: string, m: nat, n: nat)
    requires Acyclic(t) && c in LiveChildren(t, folder) && d in LiveChildren(t, folder)
    requires Up(t, true, x, m) == Some(c) && Up(t, true, x, n) == Some(d)
    ensures c == d
  {
    UpAdds(t, true, x, m, 1);
    UpAdds(t, true, x, n, 1);
    assert Up(t, true, c, 1) == Some(folder) && Up(t, true, d, 1) == Some(folder);
    UpOnce(t, true, x, m + 1, n + 1);
  }

  lemma {:induction false} PartsAdd(t: Forest, folder: string, cs: set<string>)
    requires Acyclic(t) && FoldersHold(t) && cs <= LiveChildren(t, folder)
    ensures Sum(t, LiveUnder(t, cs)) == SumShown(t, cs)
    decreases |cs|
  {
    hide Sum, SumShown, Acyclic, Up, Shown, LiveUnder;
    if cs == {} {
      NothingUnder(t);
    } else {
      var c := Pick(cs);
      var rest := cs - {c};
      PartsAdd(t, folder, rest);
      SumShownWithout(t, cs, c);
      ChildPart(t, c);
      LiveUnderSplits(t, cs, c);
      PartApart(t, folder, cs, c);
      SumUnion(t, LiveUnder(t, {c}), LiveUnder(t, rest));
    }
  }

  lemma NothingUnder(t: Forest)
    ensures Sum(t, LiveUnder(t, {})) == 0 && SumShown(t, {}) == 0
  {
    assert LiveUnder(t, {}) == {};
  }

  lemma LiveUnderSplits(t: Forest, cs: set<string>, c: string)
    requires c in cs
    ensures LiveUnder(t, cs) == LiveUnder(t, {c}) + LiveUnder(t, cs - {c})
  {
    hide Under;
    forall x | x in LiveUnder(t, cs) ensures x in LiveUnder(t, {c}) + LiveUnder(t, cs - {c}) {
      var d :| d in cs && Under(t, true, d, x);
      assert d in {c} || d in cs - {c};
    }
    forall x | x in LiveUnder(t, {c}) + LiveUnder(t, cs - {c}) ensures x in LiveUnder(t, cs) {
      if x in LiveUnder(t, {c}) {
        assert Under(t, true, c, x);
      }
    }
  }

  lemma PartApart(t: Forest, folder: string, cs: set<string>, c: string)
    requires Acyclic(t) && cs <= LiveChildren(t, folder) && c in cs
    ensures LiveUnder(t, {c}) !! LiveUnder(t, cs - {c})
  {
    hide Acyclic, Up, LiveChildren;
    forall x, d | x in LiveUnder(t, {c}) && d in cs && Under(t, true, d, x) ensures d == c {
      var m: nat :| Up(t, true, x, m) == Some(c);
      var n: nat :| Up(t, true, x, n) == Some(d);
      ChildrenApart(t, folder, c, d, x, m, n);
    }
  }

  /** A folder is listed with the sizes of its live files plus the listed sizes of its live folders. */
  lemma ListedSizeAdds(t: Forest, folder: string)
    requires Acyclic(t) && FoldersHold(t)
    ensures ListedSize(t, folder) == SumShown(t, LiveChildren(t, folder))
  {
    hide Sum, Acyclic;
    var cs := LiveChildren(t, folder);
    PartsAdd(t, folder, cs);
    forall x | x in t ensures x in LiveBelow(t, folder) <==> x in LiveUnder(t, cs) {
      if x in LiveBelow(t, folder) {
        var n: nat :| n > 0 && Up(t, true, x, n) == Some(folder);
        UpPrefix(t, true, x, n - 1, 1);
        UpAdds(t, true, x, n - 1, 1);
        var c := Up(t, true, x, n - 1).value;
        assert Up(t, true, c, 1) == Some(folder);
        assert c in cs && Under(t, true, c, x);
      }
      if x in LiveUnder(t, cs) {
        var c :| c in cs && Under(t, true, c, x);
        var n: nat :| Up(t, true, x, n) == Some(c);
        UpAdds(t, true, x, n, 1);
        assert Up(t, true, c, 1) == Some(folder);
        assert Up(t, true, x, n + 1) == Some(folder);
      }
    }
    assert LiveBelow(t, folder) == LiveUnder(t, cs);
  }

  // ---- A new file adds its size to the folders above it ----

  lemma {:induction false} SumSame(t: Forest, u: Forest, s: set<string>)
    requires forall x :: x in s ==> Weight(t, x) == Weight(u, x)
    ensures Sum(t, s) == Sum(u, s)
    decreases |s|
  {
    hide Weight;
    if s != {} {
      var x := Pick(s);
      SumWithout(t, s, x);
      SumWithout(u, s, x);
      SumSame(t, u, s - {x});
    }
  }

  lemma NewBelow(t: Forest, id: string, folder: string, size: int, a: string)
    requires Acyclic(t) && id !in t && MayCreate(t, Some(folder)) && a in t
    ensures LiveBelow(Created(t, id, Some(folder), false, size), a)
         == LiveBelow(t, a) + if Under(t, true, a, folder) then {id} else {}
  {
    var s := Created(t, id, Some(folder), false, size);
    forall x | x in t ensures x in LiveBelow(s, a) <==> x in LiveBelow(t, a) {
      if x in LiveBelow(s, a) {
        var n: nat :| n > 0 && Up(s, true, x, n) == Some(a);
        UpOfOld(t, true, id, Some(folder), false, size, x, n);
      }
      if x in LiveBelow(t, a) {
        var n: nat :| n > 0 && Up(t, true, x, n) == Some(a);
        UpOfOld(t, true, id, Some(folder), false, size, x, n);
      }
    }
    if id in LiveBelow(s, a) {
      var n: nat :| n > 0 && Up(s, true, id, n) == Some(a);
      UpOfOld(t, true, id, Some(folder), false, size, folder, n - 1);
      assert Up(t, true, folder, n - 1) == Some(a);
    }
    if Under(t, true, a, folder) {
      var n: nat :| Up(t, true, folder, n) == Some(a);
      UpOfOld(t, true, id, Some(folder), false, size, folder, n);
      assert Up(s, true, id, n + 1) == Some(a);
    }
  }

  /** A file created in a folder adds its size to what is listed for that folder and for every folder it
      lies in by a live path, and to no other. */
  lemma CreatedSizeAdds(t: Forest, id: string, folder: string, size: int, a: string)
    requires Acyclic(t) && id !in t && MayCreate(t, Some(folder)) && a in t
    ensures ListedSize(Created(t, id, Some(folder), false, size), a)
         == ListedSize(t, a) + if Under(t, true, a, folder) then size else 0
  {
    hide Sum, Under, Acyclic, LiveBelow;
    var s, was := Created(t, id, Some(folder), false, size), LiveBelow(t, a);
    NewBelow(t, id, folder, size, a);
    OldOnly(t, a);
    SumSame(s, t, was);
    if Under(t, true, a, folder) {
      SumWithout(s, was + {id}, id);
      assert was + {id} - {id} == was;
    } else {
      assert was + {} == was;
    }
  }

  lemma OldOnly(t: Forest, a: string)
    ensures LiveBelow(t, a) <= t.Keys
  {
  }
}
