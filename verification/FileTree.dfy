/** The space_files tree: recursive queries over parent_id, creation, moves, soft and hard deletion. */
module FileTree {
  import opened LeastOfSet
  import opened Options

  datatype Node = Node(parent: Option<string>, isFolder: bool, deleted: bool, size: int)

  type Forest = map<string, Node>

  // ---- Paths ----

  /** The node n steps above x; with `live` the steps leave live nodes only. */
  function Up(t: Forest, live: bool, x: string, n: nat): Option<string>
    decreases n
  {
    if n == 0 then Some(x)
    else if x in t && t[x].parent.Some? && (live ==> !t[x].deleted) then Up(t, live, t[x].parent.value, n - 1)
    else None
  }

  /** x lies at or below a. */
  ghost predicate Under(t: Forest, live: bool, a: string, x: string) {
    exists n: nat :: Up(t, live, x, n) == Some(a)
  }

  ghost predicate Ranked(t: Forest, rank: map<string, nat>) {
    forall x :: x in t && t[x].parent.Some? ==>
      t[x].parent.value in t && x in rank && t[x].parent.value in rank && rank[t[x].parent.value] < rank[x]
  }

  /** Every node's parent exists, and no node is its own ancestor. */
  ghost predicate Acyclic(t: Forest) {
    exists rank :: Ranked(t, rank)
  }

  ghost predicate FoldersHold(t: Forest) {
    forall x :: x in t && t[x].parent.Some? ==> t[x].parent.value in t && t[t[x].parent.value].isFolder
  }

  ghost predicate LiveParents(t: Forest) {
    forall x :: x in t && !t[x].deleted && t[x].parent.Some? ==> t[x].parent.value in t && !t[t[x].parent.value].deleted
  }

  /** A tree whose inner nodes are folders. */
  ghost predicate Sound(t: Forest) {
    Acyclic(t) && FoldersHold(t)
  }

  ghost predicate Invariant(t: Forest) {
    Sound(t) && LiveParents(t)
  }

  lemma {:induction false} UpAdds(t: Forest, live: bool, x: string, m: nat, n: nat)
    requires Up(t, live, x, m).Some?
    ensures Up(t, live, x, m + n) == Up(t, live, Up(t, live, x, m).value, n)
    decreases m
  {
    if m > 0 {
      UpAdds(t, live, t[x].parent.value, m - 1, n);
    }
  }

  lemma {:induction false} UpRank(t: Forest, rank: map<string, nat>, live: bool, x: string, n: nat)
    requires Ranked(t, rank) && Up(t, live, x, n).Some? && n > 0
    ensures var a := Up(t, live, x, n).value; a in rank && x in rank && rank[a] + n <= rank[x]
    decreases n
  {
    if n > 1 {
      UpRank(t, rank, live, t[x].parent.value, n - 1);
    }
  }

  /** Going on upwards never comes back. */
  lemma UpMovesOn(t: Forest, live: bool, x: string, m: nat, n: nat)
    requires Acyclic(t) && Up(t, live, x, m).Some? && m < n
    ensures Up(t, live, x, n) != Up(t, live, x, m)
  {
    var rank :| Ranked(t, rank);
    var a := Up(t, live, x, m).value;
    UpAdds(t, live, x, m, n - m);
    if Up(t, live, a, n - m).Some? {
      UpRank(t, rank, live, a, n - m);
    }
  }

  /** A node has one distance to each ancestor. */
  lemma UpOnce(t: Forest, live: bool, x: string, m: nat, n: nat)
    requires Acyclic(t) && Up(t, live, x, m).Some? && Up(t, live, x, m) == Up(t, live, x, n)
    ensures m == n
  {
    hide Up, Acyclic;
    if m < n {
      UpMovesOn(t, live, x, m, n);
    } else if n < m {
      UpMovesOn(t, live, x, n, m);
    }
  }

  /** What lies below a node's parent includes the node. */
  lemma ChildUnder(t: Forest, live: bool, a: string, x: string)
    requires x in t && t[x].parent.Some? && (live ==> !t[x].deleted)
    ensures Under(t, live, a, t[x].parent.value) ==> Under(t, live, a, x)
  {
    var p := t[x].parent.value;
    if Under(t, live, a, p) {
      var n: nat :| Up(t, live, p, n) == Some(a);
      assert Up(t, live, x, n + 1) == Some(a);
    }
  }

  /** Below a live node every path is live. */
  lemma {:induction false} LivePath(t: Forest, x: string, n: nat)
    requires LiveParents(t) && x in t && !t[x].deleted && Up(t, false, x, n).Some?
    ensures Up(t, true, x, n) == Up(t, false, x, n)
    decreases n
  {
    if n > 1 {
      LivePath(t, t[x].parent.value, n - 1);
    }
  }

  lemma {:induction false} LiveIsPath(t: Forest, x: string, n: nat)
    requires Up(t, true, x, n).Some?
    ensures Up(t, false, x, n) == Up(t, true, x, n)
    ensures n > 0 ==> x in t && !t[x].deleted
    decreases n
  {
    if n > 0 {
      LiveIsPath(t, t[x].parent.value, n - 1);
    }
  }

  /** A live node has only live ancestors. */
  lemma {:induction false} LiveAncestors(t: Forest, x: string, n: nat)
    requires LiveParents(t) && x in t && !t[x].deleted && Up(t, false, x, n).Some?
    ensures var a := Up(t, false, x, n).value; a in t && !t[a].deleted
    decreases n
  {
    if n > 0 {
      LiveAncestors(t, t[x].parent.value, n - 1);
    }
  }

  // ---- The recursive query ----

  /** The rows one round of the query adds n rounds after the root. */
  ghost function Level(t: Forest, live: bool, root: string, n: nat): set<string> {
    set x | x in t && Up(t, live, x, n) == Some(root)
  }

  /** All rows the query returns. */
  ghost function Descendants(t: Forest, live: bool, root: string): set<string> {
    set x | x in t && Under(t, live, root, x)
  }

  /** found lists the descendants level by level, each once. */
  ghost predicate ListsLevels(t: Forest, live: bool, root: string, found: seq<string>, levels: seq<nat>) {
    && |levels| == |found|
    && (forall i :: 0 <= i < |found| ==> found[i] in t && Up(t, live, found[i], levels[i]) == Some(root))
    && (forall i, j :: 0 <= i < j < |found| ==> levels[i] <= levels[j])
    && (forall i, j :: 0 <= i < j < |found| ==> found[i] != found[j])
  }

  ghost predicate ListsDescendants(t: Forest, live: bool, root: string, found: seq<string>) {
    && (exists levels :: ListsLevels(t, live, root, found, levels))
    && (forall x :: x in found <==> x in Descendants(t, live, root))
  }

  /** A set in some order. */
  method AsSeq(s: set<string>) returns (xs: seq<string>)
    ensures forall x :: x in xs <==> x in s
    ensures forall i, j :: 0 <= i < j < |xs| ==> xs[i] != xs[j]
  {
    xs := [];
    var rest := s;
    while rest != {}
      invariant rest <= s
      invariant forall x :: x in xs <==> x in s - rest
      invariant forall i, j :: 0 <= i < j < |xs| ==> xs[i] != xs[j]
      decreases |rest|
    {
      ghost var some := Pick(rest);
      var x :| x in rest;
      assert x !in xs;
      xs := xs + [x];
      rest := rest - {x};
    }
  }

  lemma LevelZero(t: Forest, live: bool, root: string)
    ensures Level(t, live, root, 0) == if root in t then {root} else {}
  {
  }

  lemma NextLevel(t: Forest, live: bool, root: string, n: nat)
    requires Acyclic(t)
    ensures Level(t, live, root, n + 1)
         == set x | x in t && (live ==> !t[x].deleted) && t[x].parent.Some? && t[x].parent.value in Level(t, live, root, n)
  {
    var rank :| Ranked(t, rank);
  }

  lemma LevelFromRoot(t: Forest, live: bool, root: string, n: nat)
    requires Level(t, live, root, n) != {} && Acyclic(t)
    ensures forall k: nat :: k <= n ==> Level(t, live, root, k) != {}
  {
    forall k: nat | k <= n ensures Level(t, live, root, k) != {} {
      var x := Pick(Level(t, live, root, n));
      UpPrefix(t, live, x, n - k, k);
      var y := Up(t, live, x, n - k).value;
      UpAdds(t, live, x, n - k, k);
      UpStays(t, live, x, n - k);
      assert y in Level(t, live, root, k);
    }
  }

  lemma {:induction false} UpPrefix(t: Forest, live: bool, x: string, m: nat, n: nat)
    requires Up(t, live, x, m + n).Some?
    ensures Up(t, live, x, m).Some?
    decreases m
  {
    if m > 0 {
      UpPrefix(t, live, t[x].parent.value, m - 1, n);
    }
  }

  lemma {:induction false} UpStays(t: Forest, live: bool, x: string, n: nat)
    requires Acyclic(t) && x in t && Up(t, live, x, n).Some?
    ensures Up(t, live, x, n).value in t
    decreases n
  {
    if n > 0 {
      var rank :| Ranked(t, rank);
      UpStays(t, live, t[x].parent.value, n - 1);
    }
  }

  function Repeated(n: nat, k: nat): (ns: seq<nat>)
    ensures |ns| == k && forall i :: 0 <= i < k ==> ns[i] == n
  {
    seq(k, i => n)
  }

  /** The join of the recursive part: children of the rows found last. */
  method NextRound(t: Forest, live: bool, working: seq<string>) returns (next: seq<string>)
    ensures ChildrenOf(t, live, working, next)
  {
    next := AsSeq(set x | x in t && (live ==> !t[x].deleted) && t[x].parent.Some? && t[x].parent.value in working);
  }

  /** After n rounds: found holds the first n levels, working the next one. */
  ghost predicate Round(t: Forest, live: bool, root: string, found: seq<string>, levels: seq<nat>, working: seq<string>, n: nat) {
    && (forall x :: x in working <==> x in Level(t, live, root, n))
    && (forall i, j :: 0 <= i < j < |working| ==> working[i] != working[j])
    && ListsLevels(t, live, root, found, levels)
    && (forall i :: 0 <= i < |levels| ==> levels[i] < n)
    && HoldsLevels(t, live, root, found, n)
  }

  /** The first n levels are in found. */
  ghost predicate HoldsLevels(t: Forest, live: bool, root: string, found: seq<string>, n: nat) {
    forall k: nat, x :: k < n && x in Level(t, live, root, k) ==> x in found
  }

  lemma FirstRound(t: Forest, live: bool, root: string)
    ensures Round(t, live, root, [], [], if root in t then [root] else [], 0)
  {
    LevelZero(t, live, root);
  }

  ghost predicate ChildrenOf(t: Forest, live: bool, working: seq<string>, next: seq<string>) {
    && (forall x :: x in next <==> x in t && (live ==> !t[x].deleted) && t[x].parent.Some? && t[x].parent.value in working)
    && (forall i, j :: 0 <= i < j < |next| ==> next[i] != next[j])
  }

  lemma RoundStep(t: Forest, live: bool, root: string, found: seq<string>, levels: seq<nat>, working: seq<string>, n: nat, next: seq<string>)
    requires Acyclic(t) && Round(t, live, root, found, levels, working, n) && ChildrenOf(t, live, working, next)
    ensures Round(t, live, root, found + working, levels + Repeated(n, |working|), next, n + 1)
    ensures working != [] ==> |t.Keys - Members(found + working)| < |t.Keys - Members(found)|
  {
    hide Up, Acyclic, ListsLevels, Members, Repeated, Level, HoldsLevels;
    Disjoint(t, live, root, found, levels, n);
    Appended(t, live, root, found, levels, working, n);
    NextWorking(t, live, root, working, n, next);
    HoldsOneMore(t, live, root, found, working, n);
    if |working| > 0 {
      assert working[0] in working;
      Shrinks(t, found, working);
    }
  }

  lemma HoldsOneMore(t: Forest, live: bool, root: string, found: seq<string>, working: seq<string>, n: nat)
    requires HoldsLevels(t, live, root, found, n)
    requires forall x :: x in Level(t, live, root, n) ==> x in working
    ensures HoldsLevels(t, live, root, found + working, n + 1)
  {
    hide Up, Level;
    forall k: nat, x | k < n + 1 && x in Level(t, live, root, k) ensures x in found + working {
      if k < n {
        assert x in found;
      }
    }
  }

  lemma NextWorking(t: Forest, live: bool, root: string, working: seq<string>, n: nat, next: seq<string>)
    requires Acyclic(t) && ChildrenOf(t, live, working, next)
    requires forall x :: x in working <==> x in Level(t, live, root, n)
    ensures forall x :: x in next <==> x in Level(t, live, root, n + 1)
  {
    hide Up, Acyclic, Level;
    NextLevel(t, live, root, n);
  }

  /** Rounds of the recursive query: the rows found last select the rows of the next round. Rows come
      round by round; the order inside a round is the database's. */
  method RecursiveQuery(t: Forest, live: bool, root: string) returns (found: seq<string>)
    requires Acyclic(t)
    ensures ListsDescendants(t, live, root, found)
  {
    hide Acyclic, ListsDescendants, Round, ChildrenOf, Members, Repeated;
    found := [];
    var working: seq<string> := if root in t then [root] else [];
    ghost var levels: seq<nat>, n: nat := [], 0;
    FirstRound(t, live, root);
    while working != []
      invariant Round(t, live, root, found, levels, working, n)
      decreases |t.Keys - Members(found)|
    {
      var next := NextRound(t, live, working);
      RoundStep(t, live, root, found, levels, working, n, next);
      found, levels := found + working, levels + Repeated(n, |working|);
      working, n := next, n + 1;
    }
    LastRound(t, live, root, found, levels, n);
  }

  lemma LastRound(t: Forest, live: bool, root: string, found: seq<string>, levels: seq<nat>, n: nat)
    requires Acyclic(t) && Round(t, live, root, found, levels, [], n)
    ensures ListsDescendants(t, live, root, found)
  {
    hide Up, Acyclic, ListsLevels, ListsDescendants;
    EndOfRounds(t, live, root, found, levels, n);
  }

  ghost function Members(xs: seq<string>): set<string> {
    set x | x in xs
  }

  lemma Shrinks(t: Forest, found: seq<string>, working: seq<string>)
    requires working != [] && working[0] in t && working[0] !in found
    ensures |t.Keys - Members(found + working)| < |t.Keys - Members(found)|
  {
    var a, b := t.Keys - Members(found + working), t.Keys - Members(found);
    assert a <= b - {working[0]};
    SizeBelow(a, b - {working[0]});
  }

  lemma {:induction false} SizeBelow<T>(a: set<T>, b: set<T>)
    requires a <= b
    ensures |a| <= |b|
  {
    assert b == a + (b - a);
  }

  lemma Disjoint(t: Forest, live: bool, root: string, found: seq<string>, levels: seq<nat>, n: nat)
    requires Acyclic(t) && ListsLevels(t, live, root, found, levels) && forall i :: 0 <= i < |levels| ==> levels[i] < n
    ensures forall x :: x in Level(t, live, root, n) ==> x in t && x !in found
  {
    hide Up, Acyclic;
    forall i, x | 0 <= i < |found| && x in Level(t, live, root, n) ensures x != found[i] {
      if x == found[i] {
        UpOnce(t, live, x, levels[i], n);
      }
    }
  }

  lemma Appended(t: Forest, live: bool, root: string, found: seq<string>, levels: seq<nat>, more: seq<string>, n: nat)
    requires ListsLevels(t, live, root, found, levels) && forall i :: 0 <= i < |levels| ==> levels[i] < n
    requires forall x :: x in more ==> x in Level(t, live, root, n) && x !in found
    requires forall i, j :: 0 <= i < j < |more| ==> more[i] != more[j]
    ensures var allLevels := levels + Repeated(n, |more|);
            ListsLevels(t, live, root, found + more, allLevels) && forall i :: 0 <= i < |allLevels| ==> allLevels[i] < n + 1
  {
    hide Up, Repeated;
    var moreLevels := Repeated(n, |more|);
    var all, allLevels := found + more, levels + moreLevels;
    forall i | 0 <= i < |all| ensures all[i] in t && Up(t, live, all[i], allLevels[i]) == Some(root) {
      if i >= |found| {
        assert all[i] in more;
      }
    }
    forall i, j | 0 <= i < j < |all| ensures all[i] != all[j] {
      if j >= |found| && i < |found| {
        assert all[j] in more && all[i] in found;
      }
    }
  }

  /** An empty round is the last. */
  lemma EndOfRounds(t: Forest, live: bool, root: string, found: seq<string>, levels: seq<nat>, n: nat)
    requires Acyclic(t) && ListsLevels(t, live, root, found, levels) && Level(t, live, root, n) == {}
    requires HoldsLevels(t, live, root, found, n)
    ensures ListsDescendants(t, live, root, found)
  {
    hide Up, Acyclic;
    forall x | x in Descendants(t, live, root) ensures x in found {
      var k: nat :| Up(t, live, x, k) == Some(root);
      assert x in Level(t, live, root, k);
      if k >= n {
        LevelFromRoot(t, live, root, k);
      }
    }
    forall x | x in found ensures x in Descendants(t, live, root) {
      var i :| 0 <= i < |found| && found[i] == x;
      assert Up(t, live, x, levels[i]) == Some(root);
    }
  }

  // ---- Soft deletion ----

  ghost function SoftDeleted(t: Forest, id: string): Forest {
    map x | x in t :: if x in Descendants(t, true, id) then t[x].(deleted := true) else t[x]
  }

  /** Between x and the target a stands a deleted node. */
  ghost predicate BehindDeleted(t: Forest, a: string, x: string) {
    exists m: nat, n: nat :: m < n && DeletedOnPath(t, a, x, m, n)
  }

  ghost predicate DeletedOnPath(t: Forest, a: string, x: string, m: nat, n: nat) {
    && Up(t, false, x, n) == Some(a) && Up(t, false, x, m).Some?
    && Up(t, false, x, m).value in t && t[Up(t, false, x, m).value].deleted
  }

  /** The node m steps above x is live. */
  predicate LiveAt(t: Forest, x: string, m: nat) {
    Up(t, false, x, m).Some? && Up(t, false, x, m).value in t && !t[Up(t, false, x, m).value].deleted
  }

  /** A path of live steps is a path whose every node before the last is live. */
  lemma {:induction false} LiveSteps(t: Forest, x: string, n: nat)
    requires Up(t, false, x, n).Some?
    ensures Up(t, true, x, n).Some? <==> forall m: nat :: m < n ==> LiveAt(t, x, m)
    ensures Up(t, true, x, n).Some? ==> Up(t, true, x, n) == Up(t, false, x, n)
    decreases n
  {
    if n > 0 {
      var p := t[x].parent.value;
      LiveSteps(t, p, n - 1);
      LiveAtParent(t, x);
      if Up(t, true, x, n).Some? {
        forall m: nat | m < n ensures LiveAt(t, x, m) {
          assert m > 0 ==> LiveAt(t, p, m - 1);
        }
      }
      if forall m: nat :: m < n ==> LiveAt(t, x, m) {
        forall m: nat | m < n - 1 ensures LiveAt(t, p, m) {
          assert LiveAt(t, x, m + 1);
        }
        assert LiveAt(t, x, 0);
      }
    }
  }

  lemma LiveAtParent(t: Forest, x: string)
    requires x in t && t[x].parent.Some?
    ensures LiveAt(t, x, 0) <==> !t[x].deleted
    ensures forall m: nat :: m > 0 ==> (LiveAt(t, x, m) <==> LiveAt(t, t[x].parent.value, m - 1))
  {
  }

  /** x, live and below the target, is reached unless a deleted node stands between. */
  lemma ReachedUnlessBehind(t: Forest, id: string, x: string)
    requires Acyclic(t) && x in t && Under(t, false, id, x)
    ensures Under(t, true, id, x) <==> !BehindDeleted(t, id, x)
  {
    hide Up, Acyclic;
    var n: nat :| Up(t, false, x, n) == Some(id);
    LiveSteps(t, x, n);
    if Under(t, true, id, x) {
      var k: nat :| Up(t, true, x, k) == Some(id);
      LiveIsPath(t, x, k);
      UpOnce(t, false, x, k, n);
      forall i: nat, j: nat | i < j ensures !DeletedOnPath(t, id, x, i, j) {
        assert i < n ==> LiveAt(t, x, i);
        if Up(t, false, x, j) == Some(id) {
          UpOnce(t, false, x, j, n);
        }
      }
    } else {
      var m: nat :| m < n && !LiveAt(t, x, m);
      UpPrefix(t, false, x, m, n - m);
      UpStays(t, false, x, m);
      assert DeletedOnPath(t, id, x, m, n);
    }
  }

  /** The update marks the target and live descendants only; it marks all of them exactly when none sits
      behind a deleted node, and so always where live nodes have live parents. */
  lemma SoftDeleteMarks(t: Forest, id: string)
    requires Acyclic(t)
    ensures var marked := Descendants(t, true, id);
            var live := set x | x in t && (x == id || (!t[x].deleted && Under(t, false, id, x)));
            && marked <= live
            && (marked == live <==> forall x :: x in live && x != id ==> !BehindDeleted(t, id, x))
            && (LiveParents(t) ==> marked == live)
  {
    hide Up, Acyclic, BehindDeleted;
    var marked := Descendants(t, true, id);
    var live := set x | x in t && (x == id || (!t[x].deleted && Under(t, false, id, x)));
    assert Up(t, true, id, 0) == Some(id) by { UpZero(t, id); }
    forall x | x in t && x != id
      ensures Under(t, true, id, x) ==> !t[x].deleted && Under(t, false, id, x)
      ensures Under(t, false, id, x) ==> (Under(t, true, id, x) <==> !BehindDeleted(t, id, x))
      ensures LiveParents(t) && !t[x].deleted && Under(t, false, id, x) ==> Under(t, true, id, x)
    {
      MarkedIsLive(t, id, x);
      if Under(t, false, id, x) {
        ReachedUnlessBehind(t, id, x);
        if LiveParents(t) && !t[x].deleted {
          var n: nat :| Up(t, false, x, n) == Some(id);
          LivePath(t, x, n);
        }
      }
    }
    if marked == live {
      forall x | x in live && x != id ensures !BehindDeleted(t, id, x) {
        assert x in marked;
      }
    }
    if forall x :: x in live && x != id ==> !BehindDeleted(t, id, x) {
      forall x | x in live ensures x in marked {
        assert x != id ==> !BehindDeleted(t, id, x);
      }
    }
  }

  lemma UpZero(t: Forest, id: string)
    ensures Up(t, true, id, 0) == Some(id) && Up(t, false, id, 0) == Some(id)
  {
  }

  lemma MarkedIsLive(t: Forest, id: string, x: string)
    requires x in t && x != id
    ensures Under(t, true, id, x) ==> !t[x].deleted && Under(t, false, id, x)
  {
    if Under(t, true, id, x) {
      var n: nat :| Up(t, true, x, n) == Some(id);
      LiveIsPath(t, x, n);
    }
  }

  lemma SoftDeleteKeeps(t: Forest, id: string)
    ensures Sound(t) ==> Sound(SoftDeleted(t, id))
    ensures LiveParents(t) ==> LiveParents(SoftDeleted(t, id))
  {
    var s := SoftDeleted(t, id);
    if Sound(t) {
      var rank :| Ranked(t, rank);
      assert Ranked(s, rank);
    }
    if LiveParents(t) {
      forall x | x in s && !s[x].deleted && s[x].parent.Some? ensures s[x].parent.value in s && !s[s[x].parent.value].deleted {
        ChildUnder(t, true, id, x);
      }
    }
  }

  // ---- Moves ----

  function Moved(t: Forest, id: string, parent: Option<string>): Forest
    requires id in t
  {
    t[id := t[id].(parent := parent)]
  }

  /** The route's checks before it moves a node: the new parent is a live folder, not the node itself,
      and a folder is not moved below itself. */
  ghost predicate MayMove(t: Forest, id: string, parent: Option<string>) {
    && id in t && !t[id].deleted
    && (parent.Some? ==>
        && parent.value != id && parent.value in t && t[parent.value].isFolder && !t[parent.value].deleted
        && (t[id].isFolder ==> !Under(t, false, id, parent.value)))
  }

  lemma FilesHoldNothing(t: Forest, id: string, x: string)
    requires FoldersHold(t) && id in t && !t[id].isFolder && x != id
    ensures !Under(t, false, id, x)
  {
    if Under(t, false, id, x) {
      var n: nat :| Up(t, false, x, n) == Some(id);
      var y := LastStep(t, x, n);
    }
  }

  /** The node just below an ancestor. */
  lemma {:induction false} LastStep(t: Forest, x: string, n: nat) returns (y: string)
    requires n > 0 && Up(t, false, x, n).Some?
    ensures y in t && t[y].parent == Up(t, false, x, n)
    decreases n
  {
    if n == 1 {
      y := x;
    } else {
      y := LastStep(t, t[x].parent.value, n - 1);
    }
  }

  /** A parent that lies at or below the node, and only that, closes a cycle. */
  lemma MoveAcyclic(t: Forest, id: string, parent: Option<string>)
    requires Acyclic(t) && id in t && (parent.Some? ==> parent.value in t)
    ensures Acyclic(Moved(t, id, parent)) <==> (parent.Some? ==> !Under(t, false, id, parent.value))
  {
    if parent.Some? && Under(t, false, id, parent.value) {
      MoveCloses(t, id, parent.value);
    } else {
      MoveStaysOpen(t, id, parent);
    }
  }

  lemma MoveStaysOpen(t: Forest, id: string, parent: Option<string>)
    requires Acyclic(t) && id in t && (parent.Some? ==> parent.value in t && !Under(t, false, id, parent.value))
    ensures Acyclic(Moved(t, id, parent))
  {
    var s := Moved(t, id, parent);
    var rank :| Ranked(t, rank);
    var lift := if parent.Some? && parent.value in rank then rank[parent.value] + 1 else 1;
    var all := map x | x in t :: (if x in rank then rank[x] else 0) + if Under(t, false, id, x) then lift else 0;
    forall x | x in s && s[x].parent.Some?
      ensures s[x].parent.value in s && all[s[x].parent.value] < all[x]
    {
      if x == id {
        assert Up(t, false, id, 0) == Some(id);
      } else {
        UnderParent(t, id, x);
      }
    }
    assert Ranked(s, all);
  }

  lemma MoveCloses(t: Forest, id: string, p: string)
    requires Acyclic(t) && id in t && p in t && Under(t, false, id, p)
    ensures !Acyclic(Moved(t, id, Some(p)))
  {
    hide Acyclic;
    var s := Moved(t, id, Some(p));
    var n: nat :| Up(t, false, p, n) == Some(id);
    forall m: nat | m < n ensures Up(t, false, p, m) != Some(id) {
      if Up(t, false, p, m) == Some(id) {
        UpOnce(t, false, p, m, n);
      }
    }
    UpAvoids(t, s, id, p, n);
    assert Up(s, false, id, n + 1) == Some(id) && Up(s, false, id, 0) == Some(id);
    if Acyclic(s) {
      UpMovesOn(s, false, id, 0, n + 1);
    }
  }

  /** Steps that do not start at id are the same in both. */
  lemma {:induction false} UpAvoids(t: Forest, s: Forest, id: string, x: string, n: nat)
    requires forall y :: y != id ==> (y in t <==> y in s) && (y in t ==> t[y] == s[y])
    requires forall m: nat :: m < n ==> Up(t, false, x, m) != Some(id)
    ensures Up(s, false, x, n) == Up(t, false, x, n)
    decreases n
  {
    if n > 0 {
      assert Up(t, false, x, 0) == Some(x);
      if x in t && t[x].parent.Some? {
        var p := t[x].parent.value;
        forall m: nat | m < n - 1 ensures Up(t, false, p, m) != Some(id) {
          assert Up(t, false, x, m + 1) == Up(t, false, p, m);
        }
        UpAvoids(t, s, id, p, n - 1);
      }
    }
  }

  /** The condition under which a move keeps the tree sound, and the one under which it keeps live nodes
      below live nodes. */
  ghost predicate MoveSound(t: Forest, id: string, parent: Option<string>) {
    parent.Some? ==> parent.value in t && t[parent.value].isFolder && !Under(t, false, id, parent.value)
  }

  ghost predicate MoveFits(t: Forest, id: string, parent: Option<string>) {
    MoveSound(t, id, parent) && (id in t && !t[id].deleted && parent.Some? ==> parent.value in t && !t[parent.value].deleted)
  }

  lemma MoveExactly(t: Forest, id: string, parent: Option<string>)
    requires Sound(t) && id in t && (parent.Some? ==> parent.value in t)
    ensures Sound(Moved(t, id, parent)) <==> MoveSound(t, id, parent)
    ensures LiveParents(t) ==> (Invariant(Moved(t, id, parent)) <==> MoveFits(t, id, parent))
  {
    hide Acyclic, Under;
    MoveAcyclic(t, id, parent);
    var s := Moved(t, id, parent);
    assert s[id] == t[id].(parent := parent);
    MoveFolders(t, id, parent);
    MoveLive(t, id, parent);
  }

  lemma MoveFolders(t: Forest, id: string, parent: Option<string>)
    requires FoldersHold(t) && id in t && (parent.Some? ==> parent.value in t)
    ensures FoldersHold(Moved(t, id, parent)) <==> (parent.Some? ==> t[parent.value].isFolder)
  {
    var s := Moved(t, id, parent);
    assert s[id].parent == parent && forall x :: x in s ==> s[x].isFolder == t[x].isFolder;
  }

  lemma MoveLive(t: Forest, id: string, parent: Option<string>)
    requires id in t && (parent.Some? ==> parent.value in t)
    ensures LiveParents(t) ==>
              (LiveParents(Moved(t, id, parent)) <==> (!t[id].deleted && parent.Some? ==> !t[parent.value].deleted))
  {
    var s := Moved(t, id, parent);
    assert s[id].parent == parent && forall x :: x in s ==> s[x].deleted == t[x].deleted;
  }

  /** What the route accepts does fit. */
  lemma MayMoveFits(t: Forest, id: string, parent: Option<string>)
    requires FoldersHold(t) && MayMove(t, id, parent)
    ensures MoveFits(t, id, parent)
  {
    if parent.Some? && !t[id].isFolder {
      FilesHoldNothing(t, id, parent.value);
    }
  }

  lemma UnderParent(t: Forest, id: string, x: string)
    requires x in t && t[x].parent.Some? && x != id
    ensures Under(t, false, id, x) <==> Under(t, false, id, t[x].parent.value)
  {
    var p := t[x].parent.value;
    if Under(t, false, id, x) {
      var n: nat :| Up(t, false, x, n) == Some(id);
      assert Up(t, false, p, n - 1) == Some(id);
    }
    if Under(t, false, id, p) {
      var n: nat :| Up(t, false, p, n) == Some(id);
      assert Up(t, false, x, n + 1) == Some(id);
    }
  }

  // ---- Creation and hard deletion ----

  function Created(t: Forest, id: string, parent: Option<string>, isFolder: bool, size: int): Forest {
    t[id := Node(parent, isFolder, false, size)]
  }

  /** What the routes check before they create a node. */
  ghost predicate MayCreate(t: Forest, parent: Option<string>) {
    parent.Some? ==> parent.value in t && t[parent.value].isFolder && !t[parent.value].deleted
  }

  /** A new node keeps the tree sound exactly below a folder, and keeps live nodes below live nodes exactly
      where the check would still pass. */
  lemma CreateExactly(t: Forest, id: string, parent: Option<string>, isFolder: bool, size: int)
    requires Sound(t) && id !in t
    ensures Sound(Created(t, id, parent, isFolder, size)) <==> (parent.Some? ==> parent.value in t && t[parent.value].isFolder)
    ensures LiveParents(t) ==> (Invariant(Created(t, id, parent, isFolder, size)) <==> MayCreate(t, parent))
  {
    hide Acyclic;
    var s := Created(t, id, parent, isFolder, size);
    assert s[id] == Node(parent, isFolder, false, size);
    if parent.Some? ==> parent.value in t {
      CreateAcyclic(t, id, parent, isFolder, size);
      CreateFolders(t, id, parent, isFolder, size);
    } else {
      DanglingIsCyclic(t, id, parent, isFolder, size);
    }
  }

  lemma CreateFolders(t: Forest, id: string, parent: Option<string>, isFolder: bool, size: int)
    requires FoldersHold(t) && id !in t && (parent.Some? ==> parent.value in t)
    ensures FoldersHold(Created(t, id, parent, isFolder, size)) <==> (parent.Some? ==> t[parent.value].isFolder)
    ensures LiveParents(t) ==>
              (LiveParents(Created(t, id, parent, isFolder, size)) <==> (parent.Some? ==> !t[parent.value].deleted))
  {
    var s := Created(t, id, parent, isFolder, size);
    assert s[id].parent == parent && !s[id].deleted;
    assert forall x :: x in t ==> x in s && s[x] == t[x];
  }

  lemma DanglingIsCyclic(t: Forest, id: string, parent: Option<string>, isFolder: bool, size: int)
    requires id !in t && parent.Some? && parent.value !in t
    ensures !Acyclic(Created(t, id, parent, isFolder, size))
  {
    var s := Created(t, id, parent, isFolder, size);
    assert id in s && s[id].parent == parent;
  }

  lemma CreateAcyclic(t: Forest, id: string, parent: Option<string>, isFolder: bool, size: int)
    requires Acyclic(t) && id !in t && (parent.Some? ==> parent.value in t)
    ensures Acyclic(Created(t, id, parent, isFolder, size))
  {
    var s := Created(t, id, parent, isFolder, size);
    var rank :| Ranked(t, rank);
    var above := if parent.Some? && parent.value in rank then rank[parent.value] else 0;
    var all := map x | x in s :: if x == id then above + 1 else if x in rank then rank[x] else 0;
    forall x | x in s && s[x].parent.Some? ensures s[x].parent.value in s && all[s[x].parent.value] < all[x] {
      assert s[x].parent.value in t && s[x].parent.value != id;
    }
    assert Ranked(s, all);
  }

  /** A new node is no ancestor of those that were there. */
  lemma {:induction false} UpOfOld(t: Forest, live: bool, id: string, parent: Option<string>, isFolder: bool, size: int, x: string, n: nat)
    requires Acyclic(t) && id !in t && x in t
    ensures Up(Created(t, id, parent, isFolder, size), live, x, n) == Up(t, live, x, n)
    decreases n
  {
    if n > 0 && t[x].parent.Some? {
      ParentThere(t, x);
      UpOfOld(t, live, id, parent, isFolder, size, t[x].parent.value, n - 1);
    }
  }

  lemma ParentThere(t: Forest, x: string)
    requires Acyclic(t) && x in t && t[x].parent.Some?
    ensures t[x].parent.value in t
  {
  }

  ghost function HardDeleted(t: Forest, id: string): Forest {
    t - Descendants(t, false, id)
  }

  lemma HardDeleteKeeps(t: Forest, id: string)
    ensures Sound(t) ==> Sound(HardDeleted(t, id))
    ensures LiveParents(t) ==> LiveParents(HardDeleted(t, id))
  {
    var s := HardDeleted(t, id);
    forall x | x in s && s[x].parent.Some? && s[x].parent.value in t ensures s[x].parent.value in s {
      ChildUnder(t, false, id, x);
    }
    if Sound(t) {
      var rank :| Ranked(t, rank);
      assert Ranked(s, rank);
    }
  }

  /** In a level order every child stands behind its parent. */
  lemma ChildBehindParent(t: Forest, root: string, found: seq<string>, i: nat, j: nat)
    requires Acyclic(t) && ListsDescendants(t, false, root, found)
    requires i < |found| && j < |found| && t[found[j]].parent == Some(found[i])
    ensures i < j
  {
    var levels :| ListsLevels(t, false, root, found, levels);
    assert Up(t, false, found[j], levels[i] + 1) == Some(root);
    UpOnce(t, false, found[j], levels[i] + 1, levels[j]);
  }

  // ---- The table ----

  class FileTable {
    var rows: Forest

    constructor ()
      ensures rows == map[]
    {
      rows := map[];
    }

    method SoftDeleteSpaceFile(id: string)
      requires Acyclic(rows)
      modifies this
      ensures rows == SoftDeleted(old(rows), id)
    {
      hide Acyclic, Descendants;
      var found := RecursiveQuery(rows, true, id);
      rows := map x | x in rows :: if x in found then rows[x].(deleted := true) else rows[x];
      assert rows == SoftDeleted(old(rows), id);
    }

    /** Deletes one row. No row may still name it as its parent: the foreign key would object, or take
        the child along. */
    method DeleteRow(id: string)
      requires forall x :: x in rows ==> rows[x].parent != Some(id)
      modifies this
      ensures rows == old(rows) - {id}
    {
      rows := rows - {id};
    }

    /** Rows go in reverse order of the query, so no row is deleted while another still names it as its
        parent. */
    method HardDeleteSpaceFile(id: string)
      requires Acyclic(rows)
      modifies this
      ensures rows == HardDeleted(old(rows), id)
    {
      hide Acyclic, Descendants, ListsDescendants;
      ghost var before := rows;
      var ids := RecursiveQuery(rows, false, id);
      var k := |ids|;
      NoneDeleted(before, ids);
      while k > 0
        invariant 0 <= k <= |ids|
        invariant rows == before - Members(ids[k..])
        decreases k
      {
        k := k - 1;
        NoOrphan(before, id, ids, k);
        MembersStep(before, ids, k);
        DeleteRow(ids[k]);
      }
      AllDeleted(before, id, ids);
    }

    /** get_space_file_path: the node and all that it lies under, the root first. */
    method GetSpaceFilePath(id: string) returns (path: seq<string>)
      requires Acyclic(rows)
      ensures forall x :: x in path <==> id in rows && Under(rows, false, x, id)
      ensures forall i :: 0 <= i < |path| ==> Up(rows, false, id, |path| - 1 - i) == Some(path[i])
    {
      hide Acyclic, Up, Under;
      path := [];
      ghost var rank := RankOf(rows);
      var next := Some(id);
      UpStart(rows, id);
      while next.Some? && next.value in rows
        invariant Up(rows, false, id, |path|) == next
        invariant forall i :: 0 <= i < |path| ==> Up(rows, false, id, |path| - 1 - i) == Some(path[i])
        invariant path != [] ==> id in rows
        invariant next == Some(id) || id in rows
        decreases if next.None? || next.value !in rows then 0 else if next.value in rank then 2 + rank[next.value] else 1
      {
        UpOneMore(rows, id, |path|);
        RankFalls(rows, rank, next.value);
        path := [next.value] + path;
        next := rows[next.value].parent;
      }
      PathIsAll(rows, id, path, next);
    }

    /** The checks of the route. */
    method CheckMove(id: string, parent: Option<string>) returns (ok: bool)
      requires Acyclic(rows)
      ensures ok <==> MayMove(rows, id, parent)
    {
      hide Acyclic, Under;
      if id !in rows || rows[id].deleted {
        return false;
      }
      if parent.Some? {
        if parent.value == id {
          return false;
        }
        if parent.value !in rows || !rows[parent.value].isFolder || rows[parent.value].deleted {
          return false;
        }
        if rows[id].isFolder {
          var path := GetSpaceFilePath(parent.value);
          for i := 0 to |path|
            invariant id !in path[..i]
          {
            if path[i] == id {
              return false;
            }
            assert path[..i + 1] == path[..i] + [path[i]];
          }
          assert path[..|path|] == path;
        }
      }
      return true;
    }

    /** The update makes no check of its own; the foreign key refuses a parent that is gone. */
    method MoveSpaceFile(id: string, parent: Option<string>) returns (ok: bool)
      modifies this
      ensures rows == Applied(old(rows), Shift(id, parent))
      ensures !ok ==> rows == old(rows)
    {
      ok := id !in rows || parent.None? || parent.value in rows;
      if ok && id in rows {
        rows := rows[id := rows[id].(parent := parent)];
      }
    }

    /** Neither does the insert. */
    method CreateSpaceNode(id: string, parent: Option<string>, isFolder: bool, size: int) returns (ok: bool)
      requires id !in rows
      modifies this
      ensures rows == Applied(old(rows), Put(id, parent, isFolder, size))
      ensures ok <==> id in rows
    {
      ok := parent.None? || parent.value in rows;
      if ok {
        rows := rows[id := Node(parent, isFolder, false, size)];
      }
    }
  }

  lemma UpStart(t: Forest, id: string)
    ensures Up(t, false, id, 0) == Some(id)
  {
  }

  lemma UpOneMore(t: Forest, id: string, n: nat)
    requires Up(t, false, id, n).Some? && Up(t, false, id, n).value in t
    ensures Up(t, false, id, n + 1) == t[Up(t, false, id, n).value].parent
    decreases n
  {
    UpAdds(t, false, id, n, 1);
    var p := t[Up(t, false, id, n).value].parent;
    assert p.Some? ==> Up(t, false, p.value, 0) == p;
  }

  ghost function RankOf(t: Forest): (rank: map<string, nat>)
    requires Acyclic(t)
    ensures Ranked(t, rank)
  {
    var rank :| Ranked(t, rank);
    rank
  }

  lemma RankFalls(t: Forest, rank: map<string, nat>, x: string)
    requires Ranked(t, rank) && x in t
    ensures t[x].parent.Some? ==> x in rank && t[x].parent.value in t && t[x].parent.value in rank && rank[t[x].parent.value] < rank[x]
  {
  }

  /** A path that has come to its end holds every ancestor. */
  lemma PathIsAll(t: Forest, id: string, path: seq<string>, next: Option<string>)
    requires Acyclic(t) && Up(t, false, id, |path|) == next && (next.Some? ==> next.value !in t)
    requires forall i :: 0 <= i < |path| ==> Up(t, false, id, |path| - 1 - i) == Some(path[i])
    requires path != [] ==> id in t
    ensures forall x :: x in path <==> id in t && Under(t, false, x, id)
  {
    hide Up, Acyclic;
    forall x | x in path ensures Under(t, false, x, id) {
      var i :| 0 <= i < |path| && path[i] == x;
      assert Up(t, false, id, |path| - 1 - i) == Some(x);
    }
    forall x | id in t && Under(t, false, x, id) ensures x in path {
      var n: nat :| Up(t, false, id, n) == Some(x);
      PathEnds(t, id, |path|, n);
      assert path[|path| - 1 - n] == x;
    }
  }

  lemma PathEnds(t: Forest, id: string, m: nat, n: nat)
    requires Acyclic(t) && id in t && Up(t, false, id, n).Some?
    requires Up(t, false, id, m).Some? ==> Up(t, false, id, m).value !in t
    ensures n < m
  {
    hide Acyclic, Up;
    if m <= n {
      UpPrefix(t, false, id, m, n - m);
      UpStays(t, false, id, m);
      assert false;
    }
  }

  lemma NoneDeleted(t: Forest, ids: seq<string>)
    ensures t == t - Members(ids[|ids|..])
  {
  }

  lemma MembersStep(t: Forest, ids: seq<string>, k: nat)
    requires k < |ids|
    ensures t - Members(ids[k..]) == t - Members(ids[k + 1..]) - {ids[k]}
  {
    assert ids[k..] == [ids[k]] + ids[k + 1..];
    assert Members(ids[k..]) == {ids[k]} + Members(ids[k + 1..]);
  }

  lemma AllDeleted(t: Forest, id: string, ids: seq<string>)
    requires ListsDescendants(t, false, id, ids)
    ensures t - Members(ids[0..]) == HardDeleted(t, id)
  {
    hide Descendants;
    assert Members(ids[0..]) == Descendants(t, false, id);
  }

  /** When only ids[..k + 1] are left of the list, nothing left is a child of ids[k]. */
  lemma NoOrphan(t: Forest, id: string, ids: seq<string>, k: nat)
    requires Acyclic(t) && ListsDescendants(t, false, id, ids) && k < |ids|
    ensures forall x :: x in t && x !in Members(ids[k + 1..]) ==> t[x].parent != Some(ids[k])
  {
    hide Acyclic, ListsDescendants;
    forall x | x in t && t[x].parent == Some(ids[k]) ensures x in Members(ids[k + 1..]) {
      ChildIsListed(t, id, ids, k, x);
      var j :| 0 <= j < |ids| && ids[j] == x;
      ChildBehindParent(t, id, ids, k, j);
      assert ids[k + 1..][j - k - 1] == x;
    }
  }

  lemma ChildIsListed(t: Forest, id: string, ids: seq<string>, k: nat, x: string)
    requires ListsDescendants(t, false, id, ids) && k < |ids| && x in t && t[x].parent == Some(ids[k])
    ensures x in ids
  {
    assert ids[k] in Descendants(t, false, id);
    var n: nat :| Up(t, false, ids[k], n) == Some(id);
    assert Up(t, false, x, n + 1) == Some(id);
    assert x in Descendants(t, false, id);
  }

  // ---- Requests that check first and act later ----

  datatype Request =
    | Put(id: string, parent: Option<string>, isFolder: bool, size: int)
    | Shift(id: string, parent: Option<string>)

  /** What a request does to the table when its statement runs, whatever has happened since its check. */
  function Applied(t: Forest, r: Request): Forest {
    if r.parent.Some? && r.parent.value !in t then t
    else
      match r
      case Put(id, parent, isFolder, size) => Created(t, id, parent, isFolder, size)
      case Shift(id, parent) => if id in t then Moved(t, id, parent) else t
  }

  ghost predicate Passes(t: Forest, r: Request) {
    match r
    case Put(_, parent, _, _) => MayCreate(t, parent)
    case Shift(id, parent) => MayMove(t, id, parent)
  }
}
