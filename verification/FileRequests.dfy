/** Requests on the file tree that check in one transaction and act in a later one, in any interleaving. */
module FileRequests {
  import opened FileTree
  import opened LeastOfSet
  import opened Options

  // issued: every node id ever given out; ids are not used twice. checked: the requests between their
  // check and their statement, such as a chunked upload from its first chunk to its completion.
  datatype System = System(rows: Forest, issued: set<string>, checked: map<nat, Request>)

  datatype Action =
    | Check(w: nat, r: Request)
    | Apply(w: nat)
    | SoftDelete(id: string)
    | HardDelete(id: string)

  ghost predicate Enabled(s: System, a: Action) {
    match a
    case Check(w, r) => w !in s.checked && Passes(s.rows, r) && (r.Put? ==> r.id !in s.issued)
    case Apply(w) => w in s.checked
    case SoftDelete(_) => true
    case HardDelete(_) => true
  }

  ghost function Next(s: System, a: Action): System
    requires Enabled(s, a)
  {
    match a
    case Check(w, r) => s.(issued := if r.Put? then s.issued + {r.id} else s.issued, checked := s.checked[w := r])
    case Apply(w) => s.(rows := Applied(s.rows, s.checked[w]), checked := s.checked - {w})
    case SoftDelete(id) => s.(rows := SoftDeleted(s.rows, id))
    case HardDelete(id) => s.(rows := HardDeleted(s.rows, id))
  }

  ghost predicate CanRun(s: System, run: seq<Action>)
    decreases |run|
  {
    run == [] || (Enabled(s, run[0]) && CanRun(Next(s, run[0]), run[1..]))
  }

  ghost function After(s: System, run: seq<Action>): System
    requires CanRun(s, run)
    decreases |run|
  {
    if run == [] then s else After(Next(s, run[0]), run[1..])
  }

  const EMPTY := System(map[], {}, map[])

  /** Ids are issued once, a pending node is not there yet, and a checked parent, as long as it is there, is
      a folder. */
  ghost predicate Issued(s: System) {
    && s.rows.Keys <= s.issued
    && (forall w :: w in s.checked ==> s.checked[w].id in s.issued)
    && (forall w :: w in s.checked && s.checked[w].Put? ==> s.checked[w].id !in s.rows)
    && (forall v, w :: v in s.checked && w in s.checked && v != w && s.checked[v].Put? && s.checked[w].Put? ==>
          s.checked[v].id != s.checked[w].id)
    && (forall w :: w in s.checked && s.checked[w].Shift? ==> NotPending(s, s.checked[w].id))
    && (forall w :: w in s.checked && s.checked[w].parent.Some? ==> ParentIssued(s, s.checked[w].parent.value))
  }

  ghost predicate ParentIssued(s: System, p: string) {
    p in s.issued && (p in s.rows ==> s.rows[p].isFolder) && NotPending(s, p)
  }

  ghost predicate NotPending(s: System, x: string) {
    forall w :: w in s.checked && s.checked[w].Put? ==> s.checked[w].id != x
  }

  /** A request still keeps the tree sound: a move still has no cycle to close. */
  ghost predicate StillSound(t: Forest, r: Request) {
    r.Shift? && r.id in t && r.parent.Some? && r.parent.value in t ==> !Under(t, false, r.id, r.parent.value)
  }

  /** And still keeps live nodes below live nodes: the parent has not been deleted meanwhile. */
  ghost predicate StillFits(t: Forest, r: Request) {
    StillSound(t, r)
    && (r.parent.Some? && r.parent.value in t && (r.Put? || (r.id in t && !t[r.id].deleted)) ==> !t[r.parent.value].deleted)
  }

  lemma ApplyExactly(t: Forest, r: Request)
    requires Sound(t) && (r.Put? ==> r.id !in t) && (r.parent.Some? && r.parent.value in t ==> t[r.parent.value].isFolder)
    ensures Sound(Applied(t, r)) <==> StillSound(t, r)
    ensures LiveParents(t) ==> (Invariant(Applied(t, r)) <==> StillFits(t, r))
  {
    hide Sound, Invariant, LiveParents, Under;
    assert LiveParents(t) ==> Invariant(t) by { InvariantIs(t); }
    if !(r.parent.Some? && r.parent.value !in t) {
      match r {
        case Put(id, parent, isFolder, size) => CreateExactly(t, id, parent, isFolder, size);
        case Shift(id, parent) =>
          if id in t {
            MoveExactly(t, id, parent);
          }
      }
    }
  }

  lemma InvariantIs(t: Forest)
    ensures Invariant(t) <==> Sound(t) && LiveParents(t)
  {
  }

  ghost predicate StepSound(s: System, a: Action) {
    a.Apply? && a.w in s.checked ==> StillSound(s.rows, s.checked[a.w])
  }

  ghost predicate StepFits(s: System, a: Action) {
    a.Apply? && a.w in s.checked ==> StillFits(s.rows, s.checked[a.w])
  }

  lemma StepExactly(s: System, a: Action)
    requires Issued(s) && Sound(s.rows) && Enabled(s, a)
    ensures Sound(Next(s, a).rows) <==> StepSound(s, a)
    ensures LiveParents(s.rows) ==> (Invariant(Next(s, a).rows) <==> StepFits(s, a))
  {
    hide Sound, Invariant, LiveParents, StillSound, StillFits, Applied;
    InvariantIs(Next(s, a).rows);
    match a {
      case Check(_, _) =>
      case Apply(w) => ApplyExactly(s.rows, s.checked[w]);
      case SoftDelete(id) => SoftDeleteKeeps(s.rows, id);
      case HardDelete(id) => HardDeleteKeeps(s.rows, id);
    }
  }

  lemma StepKeepsIssued(s: System, a: Action)
    requires Issued(s) && Enabled(s, a)
    ensures Issued(Next(s, a))
  {
    hide Issued, Passes;
    match a {
      case Check(w, r) => CheckKeepsIssued(s, w, r);
      case Apply(w) => ApplyKeepsIssued(s, w);
      case SoftDelete(id) => FewerRowsIssued(s, SoftDeleted(s.rows, id));
      case HardDelete(id) => FewerRowsIssued(s, HardDeleted(s.rows, id));
    }
  }

  lemma CheckKeepsIssued(s: System, w: nat, r: Request)
    requires Issued(s) && Enabled(s, Check(w, r))
    ensures Issued(Next(s, Check(w, r)))
  {
    hide Under;
  }

  lemma ApplyKeepsIssued(s: System, w: nat)
    requires Issued(s) && Enabled(s, Apply(w))
    ensures Issued(Next(s, Apply(w)))
  {
  }

  lemma FewerRowsIssued(s: System, rows: Forest)
    requires Issued(s) && forall x :: x in rows ==> x in s.rows && rows[x].isFolder == s.rows[x].isFolder
    ensures Issued(s.(rows := rows))
  {
  }

  /** All states of the run are sound trees. */
  ghost predicate SoundThroughout(s: System, run: seq<Action>)
    requires CanRun(s, run)
    decreases |run|
  {
    Sound(s.rows) && (run == [] || SoundThroughout(Next(s, run[0]), run[1..]))
  }

  ghost predicate InvariantThroughout(s: System, run: seq<Action>)
    requires CanRun(s, run)
    decreases |run|
  {
    Invariant(s.rows) && (run == [] || InvariantThroughout(Next(s, run[0]), run[1..]))
  }

  /** Every statement finds its request still sound, or still fitting. */
  ghost predicate AllSound(s: System, run: seq<Action>)
    requires CanRun(s, run)
    decreases |run|
  {
    run == [] || (StepSound(s, run[0]) && AllSound(Next(s, run[0]), run[1..]))
  }

  ghost predicate AllFit(s: System, run: seq<Action>)
    requires CanRun(s, run)
    decreases |run|
  {
    run == [] || (StepFits(s, run[0]) && AllFit(Next(s, run[0]), run[1..]))
  }

  /** Through every interleaving of checks, inserts, updates and deletions, uploads completed late included,
      the rows stay a tree of folders and files exactly as long as no move is applied onto a node that has
      come to lie at or below the moved one; and live nodes stay below live nodes exactly as long as, besides,
      nothing live is put below a folder deleted since its check. */
  lemma {:induction false} RunExactly(s: System, run: seq<Action>)
    requires Issued(s) && Sound(s.rows) && CanRun(s, run)
    ensures SoundThroughout(s, run) <==> AllSound(s, run)
    ensures LiveParents(s.rows) ==> (InvariantThroughout(s, run) <==> AllFit(s, run))
    decreases |run|
  {
    hide Issued, Sound, Invariant, LiveParents, Enabled, Next, StepSound, StepFits;
    InvariantIs(s.rows);
    if run != [] {
      var n := Next(s, run[0]);
      StepExactly(s, run[0]);
      StepKeepsIssued(s, run[0]);
      InvariantIs(n.rows);
      UnsoundNow(n, run[1..]);
      FitsIsSound(s, run[0]);
      if Sound(n.rows) {
        RunExactly(n, run[1..]);
      }
    }
  }

  lemma UnsoundNow(s: System, run: seq<Action>)
    requires CanRun(s, run)
    ensures SoundThroughout(s, run) ==> Sound(s.rows)
    ensures InvariantThroughout(s, run) ==> Invariant(s.rows)
  {
  }

  lemma FitsIsSound(s: System, a: Action)
    ensures StepFits(s, a) ==> StepSound(s, a)
  {
    hide Under;
  }

  lemma EmptyIsSound()
    ensures Issued(EMPTY) && Invariant(EMPTY.rows)
  {
    assert Ranked(map[], map[]);
  }

  /** From the empty table on. */
  lemma ReachableExactly(run: seq<Action>)
    requires CanRun(EMPTY, run)
    ensures SoundThroughout(EMPTY, run) <==> AllSound(EMPTY, run)
    ensures InvariantThroughout(EMPTY, run) <==> AllFit(EMPTY, run)
  {
    hide CanRun, Issued, SoundThroughout, InvariantThroughout, AllSound, AllFit;
    EmptyIsSound();
    RunExactly(EMPTY, run);
  }

  // ---- Runs that need no condition ----

  /** Each statement directly follows its own check. */
  ghost predicate Serial(run: seq<Action>) {
    forall i :: 0 <= i < |run| && run[i].Apply? ==> i > 0 && run[i - 1].Check? && run[i - 1].w == run[i].w
  }

  /** Requests that are not interleaved keep everything. */
  lemma {:induction false} SerialFits(s: System, run: seq<Action>)
    requires Issued(s) && Invariant(s.rows) && CanRun(s, run)
    requires forall i :: 0 < i < |run| && run[i].Apply? ==> run[i - 1].Check? && run[i - 1].w == run[i].w
    requires run != [] && run[0].Apply? ==> run[0].w in s.checked && StillFits(s.rows, s.checked[run[0].w])
    ensures AllFit(s, run)
    decreases |run|
  {
    hide Issued, Invariant, Passes, StillFits;
    if run != [] {
      var n := Next(s, run[0]);
      StepFitsExactly(s, run[0]);
      StepKeepsIssued(s, run[0]);
      if |run| > 1 && run[1].Apply? {
        assert run[1 - 1].Check?;
        PassesFits(s.rows, run[0].r);
      }
      forall i | 0 < i < |run[1..]| && run[1..][i].Apply? ensures run[1..][i - 1].Check? && run[1..][i - 1].w == run[1..][i].w {
        assert run[i + 1].Apply? && run[i + 1 - 1].Check?;
      }
      SerialFits(n, run[1..]);
    }
  }

  lemma StepFitsExactly(s: System, a: Action)
    requires Issued(s) && Invariant(s.rows) && Enabled(s, a)
    ensures Invariant(Next(s, a).rows) <==> StepFits(s, a)
  {
    InvariantIs(s.rows);
    StepExactly(s, a);
  }

  lemma PassesFits(t: Forest, r: Request)
    requires Invariant(t) && Passes(t, r)
    ensures StillFits(t, r)
  {
    if r.Shift? {
      MayMoveFits(t, r.id, r.parent);
    }
  }

  lemma SerialKeeps(run: seq<Action>)
    requires CanRun(EMPTY, run) && Serial(run)
    ensures InvariantThroughout(EMPTY, run)
  {
    hide CanRun, AllFit, InvariantThroughout;
    EmptyIsSound();
    assert run != [] ==> !run[0].Apply?;
    SerialFits(EMPTY, run);
    ReachableExactly(run);
  }

  // ---- Moves that do not overlap ----

  /** The requests in `overtaken` are moves whose check is older than another move's update. */
  ghost predicate MovesApart(s: System, run: seq<Action>, overtaken: set<nat>)
    requires CanRun(s, run)
    decreases |run|
  {
    run == [] ||
    match run[0]
    case Apply(w) =>
      (s.checked[w].Shift? ==> w !in overtaken)
      && MovesApart(Next(s, run[0]), run[1..], if s.checked[w].Shift? then s.checked.Keys - {w} else overtaken)
    case Check(w, _) => MovesApart(Next(s, run[0]), run[1..], overtaken - {w})
    case _ => MovesApart(Next(s, run[0]), run[1..], overtaken)
  }

  /** Ancestors of what is left are those it had. */
  lemma {:induction false} UpSub(t: Forest, s: Forest, x: string, n: nat)
    requires forall y :: y in s ==> y in t && s[y].parent == t[y].parent
    requires Up(s, false, x, n).Some?
    ensures Up(t, false, x, n) == Up(s, false, x, n)
    decreases n
  {
    if n > 0 {
      UpSub(t, s, s[x].parent.value, n - 1);
    }
  }

  lemma SubUnder(t: Forest, s: Forest, a: string, x: string)
    requires forall y :: y in s ==> y in t && s[y].parent == t[y].parent
    ensures Under(s, false, a, x) ==> Under(t, false, a, x)
  {
    if Under(s, false, a, x) {
      var n: nat :| Up(s, false, x, n) == Some(a);
      UpSub(t, s, x, n);
    }
  }

  lemma OldUnder(t: Forest, id: string, parent: Option<string>, isFolder: bool, size: int, a: string, x: string)
    requires Acyclic(t) && id !in t && x in t
    ensures Under(Created(t, id, parent, isFolder, size), false, a, x) ==> Under(t, false, a, x)
  {
    var s := Created(t, id, parent, isFolder, size);
    if Under(s, false, a, x) {
      var n: nat :| Up(s, false, x, n) == Some(a);
      UpOfOld(t, false, id, parent, isFolder, size, x, n);
    }
  }

  /** A checked move stays sound until another move is applied. */
  lemma CheckHolds(s: System, a: Action, w: nat)
    requires Issued(s) && Sound(s.rows) && Enabled(s, a) && w in s.checked && s.checked[w].Shift?
    requires StillSound(s.rows, s.checked[w])
    requires a.Apply? ==> a.w != w && s.checked[a.w].Put?
    requires a.Check? ==> a.w != w
    ensures w in Next(s, a).checked && Next(s, a).checked[w] == s.checked[w]
    ensures StillSound(Next(s, a).rows, s.checked[w])
  {
    hide Under, Acyclic;
    var m := s.checked[w];
    if m.parent.Some? {
      var p := m.parent.value;
      match a {
        case Check(_, _) =>
        case Apply(v) =>
          var put := s.checked[v];
          if p in s.rows {
            OldUnder(s.rows, put.id, put.parent, put.isFolder, put.size, m.id, p);
          }
        case SoftDelete(id) => SubUnder(s.rows, SoftDeleted(s.rows, id), m.id, p);
        case HardDelete(id) => SubUnder(s.rows, HardDeleted(s.rows, id), m.id, p);
      }
    }
  }

  lemma PassesIsSound(t: Forest, r: Request)
    requires Sound(t) && Passes(t, r)
    ensures StillSound(t, r)
  {
    if r.Shift? {
      MayMoveFits(t, r.id, r.parent);
    }
  }

  /** The moves whose check no other move has overtaken are still sound. */
  ghost predicate ChecksHold(s: System, overtaken: set<nat>) {
    forall w :: w in s.checked && s.checked[w].Shift? && w !in overtaken ==> StillSound(s.rows, s.checked[w])
  }

  ghost function Overtaken(s: System, a: Action, overtaken: set<nat>): set<nat> {
    match a
    case Apply(w) => if w in s.checked && s.checked[w].Shift? then s.checked.Keys - {w} else overtaken
    case Check(w, _) => overtaken - {w}
    case _ => overtaken
  }

  lemma ChecksStillHold(s: System, a: Action, overtaken: set<nat>)
    requires Issued(s) && Sound(s.rows) && Enabled(s, a) && ChecksHold(s, overtaken)
    ensures ChecksHold(Next(s, a), Overtaken(s, a, overtaken))
  {
    hide Issued, Sound, StillSound, Passes, SoftDeleted, HardDeleted, Applied;
    var n, later := Next(s, a), Overtaken(s, a, overtaken);
    forall w | w in n.checked && n.checked[w].Shift? && w !in later ensures StillSound(n.rows, n.checked[w]) {
      if a.Check? && a.w == w {
        PassesIsSound(s.rows, a.r);
      } else {
        CheckHolds(s, a, w);
      }
    }
  }

  /** If no move is applied between another move's check and its update, the rows stay a tree, whatever else
      is interleaved. */
  lemma {:induction false} ApartIsSound(s: System, run: seq<Action>, overtaken: set<nat>)
    requires Issued(s) && Sound(s.rows) && CanRun(s, run) && ChecksHold(s, overtaken) && MovesApart(s, run, overtaken)
    ensures AllSound(s, run)
    decreases |run|
  {
    hide Issued, Sound, ChecksHold, StillSound, Passes, Applied, SoftDeleted, HardDeleted;
    if run != [] {
      var a := run[0];
      MoveHolds(s, a, overtaken);
      StepExactly(s, a);
      StepKeepsIssued(s, a);
      ChecksStillHold(s, a, overtaken);
      ApartIsSound(Next(s, a), run[1..], Overtaken(s, a, overtaken));
    }
  }

  lemma MoveHolds(s: System, a: Action, overtaken: set<nat>)
    requires ChecksHold(s, overtaken) && (a.Apply? && a.w in s.checked && s.checked[a.w].Shift? ==> a.w !in overtaken)
    ensures StepSound(s, a)
  {
    hide Under;
  }

  lemma MovesApartIsSound(run: seq<Action>)
    requires CanRun(EMPTY, run) && MovesApart(EMPTY, run, {})
    ensures SoundThroughout(EMPTY, run)
  {
    hide CanRun, MovesApart, SoundThroughout, AllSound;
    EmptyIsSound();
    ApartIsSound(EMPTY, run, {});
    ReachableExactly(run);
  }

  // ---- Runs that go wrong ----

  function FolderIn(parent: Option<string>): Node {
    Node(parent, true, false, 0)
  }

  lemma UnderUnfolds(t: Forest, live: bool, a: string, x: string)
    ensures Under(t, live, a, x) <==>
            x == a || (x in t && t[x].parent.Some? && (live ==> !t[x].deleted) && Under(t, live, a, t[x].parent.value))
  {
    assert Up(t, live, x, 0) == Some(x);
    if Under(t, live, a, x) && x != a {
      var n: nat :| Up(t, live, x, n) == Some(a);
      assert Up(t, live, t[x].parent.value, n - 1) == Some(a);
    }
    if x in t && t[x].parent.Some? && (live ==> !t[x].deleted) && Under(t, live, a, t[x].parent.value) {
      ChildUnder(t, live, a, x);
    }
  }

  lemma FourSteps(s0: System, run: seq<Action>, s1: System, s2: System, s3: System, s4: System)
    requires |run| == 4 && Enabled(s0, run[0]) && Next(s0, run[0]) == s1 && Enabled(s1, run[1]) && Next(s1, run[1]) == s2
    requires Enabled(s2, run[2]) && Next(s2, run[2]) == s3 && Enabled(s3, run[3]) && Next(s3, run[3]) == s4
    ensures CanRun(s0, run) && After(s0, run) == s4
  {
    hide Enabled, Next;
    var three, two, one := run[1..], run[1..][1..], run[1..][1..][1..];
    assert one[1..] == [] && one[0] == run[3] && two[0] == run[2] && three[0] == run[1];
    assert CanRun(s4, []) && After(s4, []) == s4;
    assert CanRun(s3, one) && After(s3, one) == s4;
    assert CanRun(s2, two) && After(s2, two) == s4;
    assert CanRun(s1, three) && After(s1, three) == s4;
  }

  /** F in A. */
  function Nested(A: string, F: string, gone: bool): Forest {
    map[A := FolderIn(None), F := FolderIn(Some(A)).(deleted := gone)]
  }

  /** A live file x in F, which is deleted. */
  function WithFile(A: string, F: string, x: string, gone: bool): Forest {
    map[A := FolderIn(None).(deleted := gone), F := FolderIn(Some(A)).(deleted := true), x := Node(Some(F), false, false, 1)]
  }

  /** An upload into F is checked, F is deleted, the upload completes: a live file below a deleted folder. A
      later soft delete of the folder around F does not mark it. */
  lemma LateUploadEscapes(A: string, F: string, x: string)
    requires A != F && A != x && F != x
    ensures var s := System(Nested(A, F, false), {A, F}, map[]);
            var run := [Check(0, Put(x, Some(F), false, 1)), SoftDelete(F), Apply(0), SoftDelete(A)];
            && Issued(s) && Invariant(s.rows) && CanRun(s, run)
            && After(s, run).rows == WithFile(A, F, x, true) && !WithFile(A, F, x, true)[x].deleted
  {
    var put := Put(x, Some(F), false, 1);
    var run := [Check(0, put), SoftDelete(F), Apply(0), SoftDelete(A)];
    var s0, s1 := System(Nested(A, F, false), {A, F}, map[]), System(Nested(A, F, false), {A, F} + {x}, map[0 := put]);
    var s2, s3 := s1.(rows := Nested(A, F, true)), System(WithFile(A, F, x, false), s1.issued, map[]);
    NestedIsSound(A, F);
    assert s1.checked - {0} == map[] && s0.checked[0 := put] == s1.checked;
    DeleteInner(A, F);
    UploadLate(A, F, x);
    DeleteOuter(A, F, x);
    assert Passes(s0.rows, put) && x !in {A, F};
    hide SoftDeleted, Issued, Invariant, Nested, WithFile, Applied, Passes;
    FourSteps(s0, run, s1, s2, s3, s3.(rows := WithFile(A, F, x, true)));
  }

  lemma NestedIsSound(A: string, F: string)
    requires A != F
    ensures Invariant(Nested(A, F, false)) && Issued(System(Nested(A, F, false), {A, F}, map[]))
  {
    assert Ranked(Nested(A, F, false), map[A := 0, F := 1]);
  }

  lemma UploadLate(A: string, F: string, x: string)
    requires A != F && A != x && F != x
    ensures Applied(Nested(A, F, true), Put(x, Some(F), false, 1)) == WithFile(A, F, x, false)
    ensures !WithFile(A, F, x, true)[x].deleted
  {
  }

  lemma DeleteInner(A: string, F: string)
    requires A != F
    ensures SoftDeleted(Nested(A, F, false), F) == Nested(A, F, true)
  {
    hide Under;
    UnderUnfolds(Nested(A, F, false), true, F, A);
    UnderUnfolds(Nested(A, F, false), true, F, F);
  }

  lemma DeleteOuter(A: string, F: string, x: string)
    requires A != F && A != x && F != x
    ensures SoftDeleted(WithFile(A, F, x, false), A) == WithFile(A, F, x, true)
  {
    hide Under;
    var t := WithFile(A, F, x, false);
    UnderUnfolds(t, true, A, A);
    UnderUnfolds(t, true, A, F);
    UnderUnfolds(t, true, A, x);
  }

  function TwoFolders(A: string, B: string, inA: Option<string>, inB: Option<string>): Forest {
    map[A := FolderIn(inA), B := FolderIn(inB)]
  }

  /** Two moves that check before either is applied close a cycle. */
  lemma OverlappingMovesCloseCycle(A: string, B: string)
    requires A != B
    ensures var s := System(TwoFolders(A, B, None, None), {A, B}, map[]);
            var run := [Check(0, Shift(A, Some(B))), Check(1, Shift(B, Some(A))), Apply(0), Apply(1)];
            Issued(s) && Invariant(s.rows) && CanRun(s, run) && !Acyclic(After(s, run).rows)
  {
    var first, second := Shift(A, Some(B)), Shift(B, Some(A));
    var run := [Check(0, first), Check(1, second), Apply(0), Apply(1)];
    var t, t3, t4 := TwoFolders(A, B, None, None), TwoFolders(A, B, Some(B), None), TwoFolders(A, B, Some(B), Some(A));
    var s0, s1 := System(t, {A, B}, map[]), System(t, {A, B}, map[0 := first]);
    var s2, s3, s4 := s1.(checked := map[0 := first, 1 := second]), System(t3, {A, B}, map[1 := second]), System(t4, {A, B}, map[]);
    TwoFoldersPass(A, B);
    TwoFoldersMove(A, B);
    assert s0.checked[0 := first] == s1.checked;
    assert s1.checked[1 := second] == s2.checked && s2.checked - {0} == s3.checked && s3.checked - {1} == s4.checked;
    hide TwoFolders, Passes, Applied, Issued, Invariant, Acyclic;
    FourSteps(s0, run, s1, s2, s3, s4);
  }

  lemma TwoFoldersPass(A: string, B: string)
    requires A != B
    ensures var t := TwoFolders(A, B, None, None);
            Invariant(t) && Issued(System(t, {A, B}, map[])) && Passes(t, Shift(A, Some(B))) && Passes(t, Shift(B, Some(A)))
  {
    var t := TwoFolders(A, B, None, None);
    assert Ranked(t, map[]);
    UnderUnfolds(t, false, A, B);
    UnderUnfolds(t, false, B, A);
  }

  lemma TwoFoldersMove(A: string, B: string)
    requires A != B
    ensures Applied(TwoFolders(A, B, None, None), Shift(A, Some(B))) == TwoFolders(A, B, Some(B), None)
    ensures Applied(TwoFolders(A, B, Some(B), None), Shift(B, Some(A))) == TwoFolders(A, B, Some(B), Some(A))
    ensures !Acyclic(TwoFolders(A, B, Some(B), Some(A)))
  {
    var t := TwoFolders(A, B, Some(B), Some(A));
    assert t[A].parent == Some(B) && t[B].parent == Some(A);
  }
}
