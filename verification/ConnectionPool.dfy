/** The database connection pool: a queue under a mutex with one condition variable, and the handles
    that give a connection back when they end. */
module Pooling {
  import opened Options

  // ---- One run of the pool, step by step ----

  /** What a handle owes: the checkout it stands for and the connection. */
  datatype Lease = Lease(ticket: nat, conn: nat)

  /** attached: the handle still points to its pool. */
  datatype Handle = Handle(attached: bool, lease: Option<Lease>)

  /** Where a thread is. Testing threads are awake inside acquire and about to look at the queue. */
  datatype Thread =
    | Outside
    | Testing(timedOut: bool)
    | Sleeping
    | Checking(conn: nat)
    | Failing
    | Releasing(conn: nat)
    | Returning(back: Option<nat>)

  /** lost counts slots whose replacement could not be created; released lists the checkouts given back. */
  datatype State = State(
    poolSize: nat, mayTimeOut: bool, idle: seq<nat>,
    threads: map<string, Thread>, handles: map<string, Handle>,
    lost: nat, nextConn: nat, nextTicket: nat, released: seq<nat>)

  function Pc(threads: map<string, Thread>, t: string): Thread {
    if t in threads then threads[t] else Outside
  }

  function AtPc(s: State, t: string, pc: Thread): State {
    s.(threads := s.threads[t := pc])
  }

  datatype Action =
    /** acquire takes the mutex */
    | Arrive(t: string)
    /** a sleeper wakes for no reason */
    | Wake(t: string)
    /** the deadline of a bounded wait passes */
    | Expire(t: string)
    /** under the mutex: pop, sleep, or throw after the deadline */
    | Test(t: string)
    /** outside the mutex: keep an open connection or replace it */
    | Validate(t: string, h: string, open: bool, created: bool)
    /** the catch block of acquire */
    | Repair(t: string, created: bool, woken: Option<string>)
    | Destroy(t: string, h: string)
    | MoveConstruct(t: string, h: string, src: string)
    | MoveAssign(t: string, dst: string, src: string)
    /** release before the mutex: keep an open connection or replace it */
    | Inspect(t: string, open: bool, created: bool)
    /** release under the mutex: push and notify */
    | Return(t: string, woken: Option<string>)

  /** notify_one wakes a sleeper if there is one. */
  ghost predicate MayNotify(threads: map<string, Thread>, woken: Option<string>) {
    match woken
    case Some(w) => Pc(threads, w) == Sleeping
    case None => forall t :: t in threads ==> threads[t] != Sleeping
  }

  ghost predicate Enabled(s: State, a: Action) {
    match a
    case Arrive(t) => Pc(s.threads, t) == Outside
    case Wake(t) => Pc(s.threads, t) == Sleeping
    case Expire(t) => s.mayTimeOut && (Pc(s.threads, t) == Sleeping || Pc(s.threads, t).Testing?)
    case Test(t) => Pc(s.threads, t).Testing?
    case Validate(t, h, _, _) => Pc(s.threads, t).Checking? && h !in s.handles
    case Repair(t, _, woken) => Pc(s.threads, t).Failing? && MayNotify(s.threads, woken)
    case Destroy(t, h) => Pc(s.threads, t) == Outside && h in s.handles
    case MoveConstruct(t, h, src) => Pc(s.threads, t) == Outside && h !in s.handles && src in s.handles
    case MoveAssign(t, dst, src) => Pc(s.threads, t) == Outside && dst in s.handles && src in s.handles
    case Inspect(t, _, _) => Pc(s.threads, t).Releasing?
    case Return(t, woken) => Pc(s.threads, t).Returning? && MayNotify(s.threads, woken)
  }

  function Notified(s: State, woken: Option<string>): State {
    if woken.Some? then AtPc(s, woken.value, Testing(false)) else s
  }

  function CheckedOut(s: State, t: string, h: string, conn: nat): State {
    AtPc(s.(handles := s.handles[h := Handle(true, Some(Lease(s.nextTicket, conn)))], nextTicket := s.nextTicket + 1),
         t, Outside)
  }

  /** The thread calls release with what the handle held, if anything. */
  function GivenBack(s: State, t: string, lease: Option<Lease>): State {
    if lease.Some? then AtPc(s.(released := s.released + [lease.value.ticket]), t, Releasing(lease.value.conn)) else s
  }

  /** What release puts back: an open connection itself, else its replacement if one could be made. */
  function Kept(conn: nat, open: bool, replacement: Option<nat>): Option<nat> {
    if open then Some(conn) else replacement
  }

  function Pushed(idle: seq<nat>, back: Option<nat>): seq<nat> {
    if back.Some? then idle + [back.value] else idle
  }

  function Next(s: State, a: Action): State
    requires Enabled(s, a)
  {
    match a
    case Arrive(t) => AtPc(s, t, Testing(false))
    case Wake(t) => AtPc(s, t, Testing(false))
    case Expire(t) => AtPc(s, t, Testing(true))
    case Test(t) =>
      if s.idle != [] then AtPc(s.(idle := s.idle[1..]), t, Checking(s.idle[0]))
      else if Pc(s.threads, t).timedOut then AtPc(s, t, Outside)
      else AtPc(s, t, Sleeping)
    case Validate(t, h, open, created) =>
      if open then CheckedOut(s, t, h, Pc(s.threads, t).conn)
      else if created then CheckedOut(s.(nextConn := s.nextConn + 1), t, h, s.nextConn)
      else AtPc(s, t, Failing)
    case Repair(t, created, woken) =>
      var pushed := if created then s.(idle := s.idle + [s.nextConn], nextConn := s.nextConn + 1) else s.(lost := s.lost + 1);
      Notified(AtPc(pushed, t, Outside), woken)
    case Destroy(t, h) => GivenBack(s.(handles := s.handles - {h}), t, s.handles[h].lease)
    case MoveConstruct(t, h, src) => s.(handles := s.handles[h := s.handles[src]][src := Handle(false, None)])
    case MoveAssign(t, dst, src) =>
      if dst == src then s
      else GivenBack(s.(handles := s.handles[dst := s.handles[src]][src := Handle(false, None)]), t, s.handles[dst].lease)
    case Inspect(t, open, created) =>
      if open then AtPc(s, t, Returning(Some(Pc(s.threads, t).conn)))
      else if created then AtPc(s.(nextConn := s.nextConn + 1), t, Returning(Some(s.nextConn)))
      else AtPc(s.(lost := s.lost + 1), t, Returning(None))
    case Return(t, woken) =>
      var back := Pc(s.threads, t).back;
      Notified(AtPc(s.(idle := if back.Some? then s.idle + [back.value] else s.idle), t, Outside), woken)
  }

  /** The pool as constructed: connections 0, 1, .. wait in the queue. */
  function Initial(poolSize: nat, mayTimeOut: bool): State {
    State(poolSize, mayTimeOut, seq(poolSize, i => i), map[], map[], 0, poolSize, 0, [])
  }

  // ---- Counting ----

  predicate HasSlot(pc: Thread) {
    pc.Checking? || pc.Failing? || pc.Releasing? || (pc.Returning? && pc.back.Some?)
  }

  /** Threads that carry a slot between the queue and a handle. */
  function Busy(threads: map<string, Thread>): set<string> {
    set t | t in threads && HasSlot(threads[t])
  }

  function Testers(threads: map<string, Thread>): set<string> {
    set t | t in threads && threads[t].Testing?
  }

  function Sleepers(threads: map<string, Thread>): set<string> {
    set t | t in threads && threads[t].Sleeping?
  }

  /** Handles that hold a connection. */
  function Held(handles: map<string, Handle>): set<string> {
    set h | h in handles && handles[h].lease.Some?
  }

  /** Every slot is idle, on its way, held or lost. */
  predicate Conserved(s: State) {
    |s.idle| + |Busy(s.threads)| + |Held(s.handles)| + s.lost == s.poolSize
  }

  /** While somebody sleeps, there is an awake thread for each idle connection. */
  predicate NoLostWakeUp(s: State) {
    Sleepers(s.threads) != {} ==> |s.idle| <= |Testers(s.threads)|
  }

  function One(b: bool): nat {
    if b then 1 else 0
  }

  lemma OneDiffers<T>(before: set<T>, after: set<T>, x: T)
    requires before - {x} == after - {x}
    ensures |after| == |before| - One(x in before) + One(x in after)
  {
    assert after == (after - {x}) + if x in after then {x} else {};
    assert before == (before - {x}) + if x in before then {x} else {};
  }

  lemma BusyChanges(threads: map<string, Thread>, t: string, pc: Thread)
    ensures |Busy(threads[t := pc])| == |Busy(threads)| - One(HasSlot(Pc(threads, t))) + One(HasSlot(pc))
  {
    var after := threads[t := pc];
    assert Busy(after) - {t} == Busy(threads) - {t};
    OneDiffers(Busy(threads), Busy(after), t);
  }

  lemma TestersChange(threads: map<string, Thread>, t: string, pc: Thread)
    ensures |Testers(threads[t := pc])| == |Testers(threads)| - One(Pc(threads, t).Testing?) + One(pc.Testing?)
  {
    var after := threads[t := pc];
    assert Testers(after) - {t} == Testers(threads) - {t};
    OneDiffers(Testers(threads), Testers(after), t);
  }

  lemma PcChanges(threads: map<string, Thread>, t: string, pc: Thread)
    ensures |Busy(threads[t := pc])| == |Busy(threads)| - One(HasSlot(Pc(threads, t))) + One(HasSlot(pc))
    ensures |Testers(threads[t := pc])| == |Testers(threads)| - One(Pc(threads, t).Testing?) + One(pc.Testing?)
    ensures Sleepers(threads[t := pc]) == Sleepers(threads) - {t} + (if pc.Sleeping? then {t} else {})
  {
    BusyChanges(threads, t, pc);
    TestersChange(threads, t, pc);
  }

  lemma HeldChanges(handles: map<string, Handle>, h: string, handle: Handle)
    ensures |Held(handles[h := handle])| == |Held(handles)| - One(h in Held(handles)) + One(handle.lease.Some?)
  {
    var after := handles[h := handle];
    assert Held(after) - {h} == Held(handles) - {h};
    OneDiffers(Held(handles), Held(after), h);
  }

  lemma HeldRemoved(handles: map<string, Handle>, h: string)
    ensures |Held(handles - {h})| == |Held(handles)| - One(h in Held(handles))
  {
    assert Held(handles - {h}) == Held(handles) - {h};
  }

  /** Moving between two handles keeps what the other handles hold. */
  lemma HandleMoves(handles: map<string, Handle>, dst: string, src: string)
    requires src in handles && dst != src
    ensures |Held(handles[dst := handles[src]][src := Handle(false, None)])| == |Held(handles)| - One(dst in Held(handles))
  {
    HeldChanges(handles, dst, handles[src]);
    HeldChanges(handles[dst := handles[src]], src, Handle(false, None));
  }

  /** The thread that acts; notify_one may move a second one. */
  lemma NotifyChanges(s: State, t: string, woken: Option<string>)
    requires MayNotify(s.threads, woken) && Pc(s.threads, t) != Sleeping
    ensures var done := Notified(AtPc(s, t, Outside), woken).threads;
            && |Busy(done)| == |Busy(s.threads)| - One(HasSlot(Pc(s.threads, t)))
            && |Testers(done)| == |Testers(s.threads)| - One(Pc(s.threads, t).Testing?) + One(woken.Some?)
            && Sleepers(done) == Sleepers(s.threads) - (if woken.Some? then {woken.value} else {})
            && (woken.None? ==> Sleepers(done) == {})
  {
    hide Busy, Testers;
    PcChanges(s.threads, t, Outside);
    if woken.Some? {
      PcChanges(s.threads[t := Outside], woken.value, Testing(false));
    }
  }

  /** Each step counts as one change of the acting thread's place. */
  lemma ActorChanges(s: State, a: Action)
    requires Enabled(s, a)
    ensures a.Return? ==> NotifiedCounts(s, Next(s, a), a.t, a.woken)
    ensures a.Repair? ==> NotifiedCounts(s, Next(s, a), a.t, a.woken)
  {
    if a.Return? || a.Repair? {
      NotifyChanges(s, a.t, a.woken);
    }
  }

  predicate NotifiedCounts(s: State, after: State, t: string, woken: Option<string>) {
    && |Busy(after.threads)| == |Busy(s.threads)| - One(HasSlot(Pc(s.threads, t)))
    && |Testers(after.threads)| == |Testers(s.threads)| + One(woken.Some?)
    && Sleepers(after.threads) <= Sleepers(s.threads)
    && (woken.None? ==> Sleepers(after.threads) == {})
  }

  lemma StepConserves(s: State, a: Action)
    requires Enabled(s, a) && Conserved(s)
    ensures Conserved(Next(s, a))
  {
    hide Busy, Testers, Sleepers, Held, MayNotify;
    ActorChanges(s, a);
    PcChanges(s.threads, a.t, Pc(Next(s, a).threads, a.t));
    match a {
      case Validate(t, h, open, created) =>
        HeldChanges(s.handles, h, Handle(true, Some(Lease(s.nextTicket, if open then Pc(s.threads, t).conn else s.nextConn))));
        HeldOnly(s.handles, h);
      case Destroy(t, h) =>
        HeldRemoved(s.handles, h);
        HeldOnly(s.handles, h);
      case MoveConstruct(t, h, src) =>
        HandleMoves(s.handles, h, src);
        HeldOnly(s.handles, h);
      case MoveAssign(t, dst, src) =>
        if dst != src {
          HandleMoves(s.handles, dst, src);
          HeldOnly(s.handles, dst);
        }
      case _ =>
    }
  }

  lemma HeldOnly(handles: map<string, Handle>, h: string)
    ensures h in Held(handles) <==> h in handles && handles[h].lease.Some?
  {
  }

  lemma StepKeepsWakeUps(s: State, a: Action)
    requires Enabled(s, a) && NoLostWakeUp(s)
    ensures NoLostWakeUp(Next(s, a))
  {
    hide Busy, Testers, Sleepers, Held, MayNotify;
    ActorChanges(s, a);
    PcChanges(s.threads, a.t, Pc(Next(s, a).threads, a.t));
  }

  // ---- One connection, one place ----

  datatype Place = InQueue(i: int) | WithThread(t: string) | InHandle(h: string)

  function ConnOf(pc: Thread): Option<nat> {
    match pc
    case Checking(conn) => Some(conn)
    case Releasing(conn) => Some(conn)
    case Returning(back) => back
    case _ => None
  }

  /** The connection at a place. */
  function At(s: State, p: Place): Option<nat> {
    match p
    case InQueue(i) => if 0 <= i < |s.idle| then Some(s.idle[i]) else None
    case WithThread(t) => ConnOf(Pc(s.threads, t))
    case InHandle(h) => if h in s.handles && s.handles[h].lease.Some? then Some(s.handles[h].lease.value.conn) else None
  }

  /** No connection is at two places. */
  ghost predicate Distinct(s: State) {
    && (forall p, q :: p != q && At(s, p).Some? ==> At(s, p) != At(s, q))
    && (forall p :: At(s, p).Some? ==> At(s, p).value < s.nextConn)
  }

  /** Where the connection that a step leaves at p came from. */
  function From(s: State, a: Action, p: Place): Place
    requires Enabled(s, a)
  {
    match a
    case Test(t) =>
      if s.idle != [] && p == WithThread(t) then InQueue(0)
      else if s.idle != [] && p.InQueue? then InQueue(p.i + 1)
      else p
    case Validate(t, h, _, _) => if p == InHandle(h) then WithThread(t) else p
    case Destroy(t, h) => if p == WithThread(t) then InHandle(h) else p
    case MoveConstruct(_, h, src) => if p == InHandle(h) then InHandle(src) else p
    case MoveAssign(t, dst, src) =>
      if dst == src then p
      else if p == WithThread(t) then InHandle(dst)
      else if p == InHandle(dst) then InHandle(src)
      else p
    case Return(t, _) => if p == InQueue(|s.idle|) then WithThread(t) else p
    case _ => p
  }

  /** A step moves connections, drops some, and puts at most one new one somewhere. */
  ghost predicate Rearranged(s: State, a: Action, p: Place)
    requires Enabled(s, a)
  {
    At(Next(s, a), p).Some? ==> At(Next(s, a), p) == At(s, From(s, a, p)) || Fresh(s, a, p)
  }

  ghost predicate Fresh(s: State, a: Action, p: Place)
    requires Enabled(s, a)
  {
    && At(Next(s, a), p) == Some(s.nextConn) && Next(s, a).nextConn == s.nextConn + 1
    && p == match a
            case Validate(_, h, _, _) => InHandle(h)
            case Inspect(t, _, _) => WithThread(t)
            case _ => InQueue(|s.idle|)
  }

  lemma QueueRearranges(s: State, a: Action, i: int)
    requires Enabled(s, a)
    ensures Rearranged(s, a, InQueue(i))
  {
  }

  lemma ThreadRearranges(s: State, a: Action, t: string)
    requires Enabled(s, a)
    ensures Rearranged(s, a, WithThread(t))
  {
  }

  lemma HandleRearranges(s: State, a: Action, h: string)
    requires Enabled(s, a)
    ensures Rearranged(s, a, InHandle(h))
  {
  }

  lemma StepRearranges(s: State, a: Action, p: Place)
    requires Enabled(s, a)
    ensures Rearranged(s, a, p)
  {
    hide Rearranged;
    match p {
      case InQueue(i) => QueueRearranges(s, a, i);
      case WithThread(t) => ThreadRearranges(s, a, t);
      case InHandle(h) => HandleRearranges(s, a, h);
    }
  }

  lemma FromApart(s: State, a: Action, p: Place, q: Place)
    requires Enabled(s, a) && p != q && At(Next(s, a), p).Some? && At(Next(s, a), q).Some?
    requires !Fresh(s, a, p) && !Fresh(s, a, q)
    ensures From(s, a, p) != From(s, a, q)
  {
    hide At, Next, Fresh, Enabled, From;
    match a {
      case Test(_) => PopApart(s, a, p, q);
      case MoveConstruct(_, _, _) => MovesApart(s, a, p, q);
      case MoveAssign(_, _, _) => MovesApart(s, a, p, q);
      case _ => OthersApart(s, a, p, q);
    }
  }

  lemma PopApart(s: State, a: Action, p: Place, q: Place)
    requires a.Test? && Enabled(s, a) && p != q && At(Next(s, a), p).Some? && At(Next(s, a), q).Some?
    ensures From(s, a, p) != From(s, a, q)
  {
  }

  lemma MovesApart(s: State, a: Action, p: Place, q: Place)
    requires (a.MoveConstruct? || a.MoveAssign?) && Enabled(s, a) && p != q
    requires At(Next(s, a), p).Some? && At(Next(s, a), q).Some?
    ensures From(s, a, p) != From(s, a, q)
  {
  }

  lemma OthersApart(s: State, a: Action, p: Place, q: Place)
    requires !a.Test? && !a.MoveConstruct? && !a.MoveAssign? && Enabled(s, a) && p != q
    requires At(Next(s, a), p).Some? && At(Next(s, a), q).Some? && !Fresh(s, a, p) && !Fresh(s, a, q)
    ensures From(s, a, p) != From(s, a, q)
  {
  }

  lemma StepKeepsDistinct(s: State, a: Action)
    requires Enabled(s, a) && Distinct(s)
    ensures Distinct(Next(s, a))
  {
    hide At, From, Next, Enabled;
    var n := Next(s, a);
    assert n.nextConn >= s.nextConn by { CountersGrow(s, a); }
    forall p | At(n, p).Some? ensures At(n, p).value < n.nextConn {
      StepRearranges(s, a, p);
    }
    forall p, q | p != q && At(n, p).Some? && At(n, q).Some? ensures At(n, p) != At(n, q) {
      StepRearranges(s, a, p);
      StepRearranges(s, a, q);
      if !Fresh(s, a, p) && !Fresh(s, a, q) {
        FromApart(s, a, p, q);
      }
    }
  }

  lemma CountersGrow(s: State, a: Action)
    requires Enabled(s, a)
    ensures Next(s, a).nextConn >= s.nextConn && Next(s, a).nextTicket >= s.nextTicket
  {
  }

  /** The connection is gone for good: it is nowhere, and new ones have higher numbers. */
  ghost predicate Nowhere(s: State, conn: nat) {
    conn < s.nextConn && forall p :: At(s, p) != Some(conn)
  }

  lemma StepKeepsNowhere(s: State, a: Action, conn: nat)
    requires Enabled(s, a) && Nowhere(s, conn)
    ensures Nowhere(Next(s, a), conn)
  {
    hide At, From, Next, Enabled;
    CountersGrow(s, a);
    forall p ensures At(Next(s, a), p) != Some(conn) {
      StepRearranges(s, a, p);
    }
  }

  /** A connection that acquire or release finds broken leaves the pool. */
  lemma BrokenLeaves(s: State, a: Action, conn: nat)
    requires Enabled(s, a) && Distinct(s)
    requires (a.Validate? && !a.open && Pc(s.threads, a.t) == Checking(conn))
             || (a.Inspect? && !a.open && Pc(s.threads, a.t) == Releasing(conn))
    ensures Nowhere(Next(s, a), conn)
  {
    hide Distinct;
    OnlyWith(s, a.t, conn);
    CountersGrow(s, a);
    var n := Next(s, a);
    forall p ensures At(n, p) != Some(conn) {
      if p != WithThread(a.t) {
        assert At(n, p) == At(s, p) || At(n, p) == Some(s.nextConn);
      }
    }
  }

  lemma OnlyWith(s: State, t: string, conn: nat)
    requires Distinct(s) && ConnOf(Pc(s.threads, t)) == Some(conn)
    ensures conn < s.nextConn && forall p :: p != WithThread(t) ==> At(s, p) != Some(conn)
  {
    assert At(s, WithThread(t)) == Some(conn);
  }

  // ---- One release for each checkout ----

  function TicketOf(s: State, h: string): Option<nat> {
    if h in s.handles && s.handles[h].lease.Some? then Some(s.handles[h].lease.value.ticket) else None
  }

  /** A checkout is held by one handle, or was released, and never both; nothing is released twice. */
  ghost predicate ReleasedOnce(s: State) {
    && (forall i, j :: 0 <= i < j < |s.released| ==> s.released[i] != s.released[j])
    && (forall k :: k in s.released ==> k < s.nextTicket)
    && (forall h :: TicketOf(s, h).Some? ==> TicketOf(s, h).value < s.nextTicket && TicketOf(s, h).value !in s.released)
    && (forall g, h :: g != h && TicketOf(s, g).Some? ==> TicketOf(s, g) != TicketOf(s, h))
  }

  /** No checkout is forgotten. */
  predicate AllAccounted(s: State) {
    |s.released| + |Held(s.handles)| == s.nextTicket
  }

  /** A handle with a connection points to its pool, so the destructor may call release. */
  predicate Attached(s: State) {
    forall h :: h in s.handles && s.handles[h].lease.Some? ==> s.handles[h].attached
  }

  lemma StepKeepsAttached(s: State, a: Action)
    requires Enabled(s, a) && Attached(s)
    ensures Attached(Next(s, a))
  {
  }

  lemma StepKeepsAccount(s: State, a: Action)
    requires Enabled(s, a) && AllAccounted(s)
    ensures AllAccounted(Next(s, a))
  {
    hide Held;
    match a {
      case Validate(t, h, open, created) =>
        HeldChanges(s.handles, h, Handle(true, Some(Lease(s.nextTicket, if open then Pc(s.threads, t).conn else s.nextConn))));
        HeldOnly(s.handles, h);
      case Destroy(t, h) =>
        HeldRemoved(s.handles, h);
        HeldOnly(s.handles, h);
      case MoveConstruct(t, h, src) =>
        HandleMoves(s.handles, h, src);
        HeldOnly(s.handles, h);
      case MoveAssign(t, dst, src) =>
        if dst != src {
          HandleMoves(s.handles, dst, src);
          HeldOnly(s.handles, dst);
        }
      case _ =>
    }
  }

  /** The tickets a step leaves in handles: one may be new, the others stay or move. */
  lemma TicketsMove(s: State, a: Action, h: string)
    requires Enabled(s, a)
    ensures var n := Next(s, a);
            match a
            case Validate(_, to, _, _) =>
              if h == to && n.nextTicket > s.nextTicket then TicketOf(n, h) == Some(s.nextTicket)
              else TicketOf(n, h) == TicketOf(s, h)
            case Destroy(_, gone) => TicketOf(n, h) == if h == gone then None else TicketOf(s, h)
            case MoveConstruct(_, dst, src) => TicketOf(n, h) == Shuffled(s, dst, src, h)
            case MoveAssign(_, dst, src) => TicketOf(n, h) == if dst == src then TicketOf(s, h) else Shuffled(s, dst, src, h)
            case _ => TicketOf(n, h) == TicketOf(s, h)
  {
  }

  function Shuffled(s: State, dst: string, src: string, h: string): Option<nat> {
    if h == src then None else if h == dst then TicketOf(s, src) else TicketOf(s, h)
  }

  /** The log grows by the ticket of the handle that ends or is overwritten. */
  lemma LogGrows(s: State, a: Action)
    requires Enabled(s, a)
    ensures Next(s, a).released == s.released + Dropped(s, a)
    ensures Next(s, a).nextTicket == s.nextTicket + One(a.Validate? && (a.open || a.created))
  {
  }

  function Dropped(s: State, a: Action): seq<nat> {
    match a
    case Destroy(_, h) => if TicketOf(s, h).Some? then [TicketOf(s, h).value] else []
    case MoveAssign(_, dst, src) => if dst != src && TicketOf(s, dst).Some? then [TicketOf(s, dst).value] else []
    case _ => []
  }

  lemma StepKeepsReleasedOnce(s: State, a: Action)
    requires Enabled(s, a) && ReleasedOnce(s)
    ensures ReleasedOnce(Next(s, a))
  {
    var n := Next(s, a);
    LogGrows(s, a);
    hide Next, Enabled, TicketOf;
    forall h | TicketOf(n, h).Some? ensures TicketOf(n, h).value < n.nextTicket && TicketOf(n, h).value !in n.released {
      TicketsMove(s, a, h);
    }
    forall g, h | g != h && TicketOf(n, g).Some? ensures TicketOf(n, g) != TicketOf(n, h) {
      TicketsMove(s, a, g);
      TicketsMove(s, a, h);
    }
  }

  // ---- Every run ----

  ghost predicate Invariant(s: State) {
    Conserved(s) && NoLostWakeUp(s) && Distinct(s) && ReleasedOnce(s) && AllAccounted(s) && Attached(s)
  }

  lemma InitialHolds(poolSize: nat, mayTimeOut: bool)
    ensures Invariant(Initial(poolSize, mayTimeOut))
  {
    assert Busy(map[]) == {} && Sleepers(map[]) == {} && Held(map[]) == {};
  }

  lemma StepKeeps(s: State, a: Action)
    requires Enabled(s, a) && Invariant(s)
    ensures Invariant(Next(s, a))
  {
    hide Enabled, Next, Conserved, NoLostWakeUp, Distinct, ReleasedOnce, AllAccounted, Attached;
    StepConserves(s, a);
    StepKeepsWakeUps(s, a);
    StepKeepsDistinct(s, a);
    StepKeepsReleasedOnce(s, a);
    StepKeepsAccount(s, a);
    StepKeepsAttached(s, a);
  }

  ghost predicate CanRun(s: State, run: seq<Action>)
    decreases |run|
  {
    run == [] || (Enabled(s, run[0]) && CanRun(Next(s, run[0]), run[1..]))
  }

  ghost function After(s: State, run: seq<Action>): State
    requires CanRun(s, run)
    decreases |run|
  {
    if run == [] then s else After(Next(s, run[0]), run[1..])
  }

  /** In every interleaving: slots are conserved, no wake-up is lost, no connection is at two places, and
      every checkout is released at most once. */
  lemma {:induction false} RunKeeps(s: State, run: seq<Action>)
    requires Invariant(s) && CanRun(s, run)
    ensures Invariant(After(s, run))
    decreases |run|
  {
    hide Enabled, Next, Invariant;
    if run != [] {
      StepKeeps(s, run[0]);
      RunKeeps(Next(s, run[0]), run[1..]);
    }
  }

  lemma {:induction false} RunKeepsNowhere(s: State, run: seq<Action>, conn: nat)
    requires CanRun(s, run) && Nowhere(s, conn)
    ensures Nowhere(After(s, run), conn)
    decreases |run|
  {
    hide Enabled, Next, Nowhere;
    if run != [] {
      StepKeepsNowhere(s, run[0], conn);
      RunKeepsNowhere(Next(s, run[0]), run[1..], conn);
    }
  }

  /** A connection once found broken is never idle, on its way or held again. */
  lemma BrokenNeverReturns(s: State, a: Action, run: seq<Action>, conn: nat)
    requires Invariant(s) && Enabled(s, a) && CanRun(Next(s, a), run)
    requires (a.Validate? && !a.open && Pc(s.threads, a.t) == Checking(conn))
             || (a.Inspect? && !a.open && Pc(s.threads, a.t) == Releasing(conn))
    ensures forall p :: At(After(Next(s, a), run), p) != Some(conn)
  {
    hide Next, Enabled, CanRun, After, At, Distinct;
    BrokenLeaves(s, a, conn);
    RunKeepsNowhere(Next(s, a), run, conn);
  }

  // ---- Timeouts ----

  /** A thread that tests the queue takes a connection if there is one, even after its deadline; otherwise
      it gives up exactly when the deadline has passed, and sleeps before that. */
  lemma TestMeans(s: State, t: string)
    requires Enabled(s, Test(t))
    ensures Pc(Next(s, Test(t)).threads, t)
         == if s.idle != [] then Checking(s.idle[0]) else if Pc(s.threads, t) == Testing(true) then Outside else Sleeping
    ensures Enabled(s, Expire(t)) ==> Pc(Next(s, Expire(t)).threads, t) == Testing(true)
  {
  }

  /** A thread's deadline passes by Expire only, and only where waiting is bounded. */
  lemma {:induction false} DeadlineNeedsExpire(s: State, run: seq<Action>, t: string)
    requires CanRun(s, run) && Pc(s.threads, t) != Testing(true)
    requires !s.mayTimeOut || forall i :: 0 <= i < |run| ==> run[i] != Expire(t)
    ensures Pc(After(s, run).threads, t) != Testing(true)
    decreases |run|
  {
    hide Enabled, Next;
    if run != [] {
      StepNeedsExpire(s, run[0], t);
      DeadlineNeedsExpire(Next(s, run[0]), run[1..], t);
    }
  }

  lemma StepNeedsExpire(s: State, a: Action, t: string)
    requires Enabled(s, a) && Pc(s.threads, t) != Testing(true) && (!s.mayTimeOut || a != Expire(t))
    ensures Pc(Next(s, a).threads, t) != Testing(true) && Next(s, a).mayTimeOut == s.mayTimeOut
  {
    hide MayNotify;
    assert a.Expire? ==> s.mayTimeOut && a.t != t;
  }

  /** The steps whose replacement connection cannot be created. */
  function Failures(run: seq<Action>): nat
    decreases |run|
  {
    if run == [] then 0
    else One((run[0].Repair? && !run[0].created) || (run[0].Inspect? && !run[0].open && !run[0].created)) + Failures(run[1..])
  }

  /** Slots are lost at failed replacements only, one each, and no release ever brings one back. */
  lemma {:induction false} LostCountsFailures(s: State, run: seq<Action>)
    requires CanRun(s, run)
    ensures After(s, run).lost == s.lost + Failures(run) && After(s, run).poolSize == s.poolSize
    decreases |run|
  {
    if run != [] {
      LostCountsFailures(Next(s, run[0]), run[1..]);
    }
  }

  /** What size_in_use reports. */
  function InUse(poolSize: nat, idle: seq<nat>): nat {
    if poolSize >= |idle| then poolSize - |idle| else 0
  }

  /** Every run of a pool: the invariant holds, each failed replacement has cost one slot for good, and when
      everybody inside acquire sleeps no connection is idle. What size_in_use reports is the number checked out exactly when no slot is on its way or lost. */
  lemma ReachableIsSound(poolSize: nat, mayTimeOut: bool, run: seq<Action>)
    requires CanRun(Initial(poolSize, mayTimeOut), run)
    ensures var s := After(Initial(poolSize, mayTimeOut), run);
            && Invariant(s)
            && |s.idle| + |Busy(s.threads)| + |Held(s.handles)| + Failures(run) == poolSize
            && (Sleepers(s.threads) != {} && Testers(s.threads) == {} ==> s.idle == [])
            && InUse(poolSize, s.idle) == |Busy(s.threads)| + |Held(s.handles)| + Failures(run)
            && (InUse(poolSize, s.idle) == |Held(s.handles)| <==> Busy(s.threads) == {} && Failures(run) == 0)
  {
    hide CanRun, After, Failures, Busy, Held, Sleepers, Testers, Distinct, ReleasedOnce, AllAccounted, Attached;
    InitialHolds(poolSize, mayTimeOut);
    RunKeeps(Initial(poolSize, mayTimeOut), run);
    LostCountsFailures(Initial(poolSize, mayTimeOut), run);
  }

  /** A pool that has lost every slot serves nobody any more. */
  lemma {:induction false} AllLostIsFinal(s: State, run: seq<Action>)
    requires Invariant(s) && CanRun(s, run) && s.lost == s.poolSize
    ensures var end := After(s, run); end.lost == end.poolSize && end.idle == [] && Held(end.handles) == {}
  {
    hide Enabled, Next, Busy, Held;
    RunKeeps(s, run);
    LostCountsFailures(s, run);
  }

  // ---- The objects ----

  /** What an object shows: whether it points to a pool, and its connection. */
  datatype Holding = Holding(attached: bool, conn: Option<nat>)

  const NOTHING := Holding(false, None)

  function Seen(h: Handle): Holding {
    Holding(h.attached, if h.lease.Some? then Some(h.lease.value.conn) else None)
  }

  /** The queue after an operation that releases what was held, if anything. */
  function QueueAfter(idle: seq<nat>, held: Option<nat>, open: bool, replacement: Option<nat>): seq<nat> {
    if held.Some? then Pushed(idle, Kept(held.value, open, replacement)) else idle
  }

  /** release, as the thread runs it: outside the mutex, then under it. */
  function ReleaseSteps(t: string, held: Option<nat>, open: bool, created: bool, woken: Option<string>): seq<Action> {
    if held.Some? then [Inspect(t, open, created), Return(t, woken)] else []
  }

  function Replacement(s: State, created: bool): Option<nat> {
    if created then Some(s.nextConn) else None
  }

  /** In the step system a release does to the queue what the object's method promises. */
  lemma ReleaseRefines(s: State, t: string, held: Option<nat>, open: bool, created: bool, woken: Option<string>)
    requires MayNotify(s.threads, woken) && (held.Some? ==> Pc(s.threads, t) == Releasing(held.value))
    ensures var steps := ReleaseSteps(t, held, open, created, woken);
            && CanRun(s, steps)
            && After(s, steps).idle == QueueAfter(s.idle, held, open, Replacement(s, created))
            && After(s, steps).handles == s.handles && After(s, steps).released == s.released
  {
    if held.Some? {
      var steps := ReleaseSteps(t, held, open, created, woken);
      var middle := Next(s, steps[0]);
      assert steps[1..] == [Return(t, woken)] && [Return(t, woken)][1..] == [];
      assert MayNotify(middle.threads, woken);
      var end := Next(middle, Return(t, woken));
      assert CanRun(end, []) && After(end, []) == end;
      RunStep(middle, [Return(t, woken)]);
      RunStep(s, steps);
    }
  }

  /** An acquire in the step system, by a thread that finds the queue filled. */
  lemma AcquireRefines(s: State, t: string, h: string, open: bool, created: bool, repaired: bool, woken: Option<string>)
    requires Pc(s.threads, t).Testing? && s.idle != [] && h !in s.handles && MayNotify(s.threads, woken)
    ensures var back := Kept(s.idle[0], open, Replacement(s, created));
            var run := [Test(t), Validate(t, h, open, created)] + if back.None? then [Repair(t, repaired, woken)] else [];
            && CanRun(s, run)
            && var end := After(s, run);
               && end.idle == (if back.Some? then s.idle[1..] else Pushed(s.idle[1..], Replacement(s, repaired)))
               && end.handles.Keys == s.handles.Keys + (if back.Some? then {h} else {})
               && (back.Some? ==> Seen(end.handles[h]) == Holding(true, back))
               && (forall g :: g in s.handles ==> end.handles[g] == s.handles[g])
               && end.released == s.released
  {
    var back := Kept(s.idle[0], open, Replacement(s, created));
    var last := if back.None? then [Repair(t, repaired, woken)] else [];
    var run := [Test(t), Validate(t, h, open, created)] + last;
    assert run[0] == Test(t) && run[1..] == [Validate(t, h, open, created)] + last && run[1..][1..] == last;
    PoppedAndValidated(s, t, h, open, created, woken);
    var popped := Next(s, Test(t));
    var checked := Next(popped, Validate(t, h, open, created));
    if back.None? {
      RepairRefines(checked, t, repaired, woken);
      assert last[1..] == [];
    }
    var end := if back.None? then Next(checked, Repair(t, repaired, woken)) else checked;
    hide Next, Enabled;
    assert CanRun(end, []) && After(end, []) == end;
    assert CanRun(checked, last) && After(checked, last) == end;
    hide CanRun, After;
    RunStep(popped, run[1..]);
    RunStep(s, run);
  }

  lemma PoppedAndValidated(s: State, t: string, h: string, open: bool, created: bool, woken: Option<string>)
    requires Pc(s.threads, t).Testing? && s.idle != [] && h !in s.handles && MayNotify(s.threads, woken)
    ensures Enabled(Next(s, Test(t)), Validate(t, h, open, created))
    ensures var back := Kept(s.idle[0], open, Replacement(s, created));
            var n := Next(Next(s, Test(t)), Validate(t, h, open, created));
            && n.idle == s.idle[1..] && n.released == s.released && MayNotify(n.threads, woken)
            && (if back.Some? then
                  n.handles == s.handles[h := n.handles[h]] && Seen(n.handles[h]) == Holding(true, back)
                else n.handles == s.handles && n.nextConn == s.nextConn && Pc(n.threads, t) == Failing)
  {
  }

  lemma RepairRefines(s: State, t: string, repaired: bool, woken: Option<string>)
    requires Pc(s.threads, t) == Failing && MayNotify(s.threads, woken)
    ensures var n := Next(s, Repair(t, repaired, woken));
            n.idle == Pushed(s.idle, Replacement(s, repaired)) && n.handles == s.handles && n.released == s.released
  {
  }

  /** A move assignment in the step system: handles and queue end up as MoveAssign promises, and the
      overwritten checkout is released once. */
  lemma MoveAssignRefines(s: State, t: string, dst: string, src: string, open: bool, created: bool, woken: Option<string>)
    requires Enabled(s, MoveAssign(t, dst, src)) && dst != src && MayNotify(s.threads, woken)
    ensures var held := Seen(s.handles[dst]).conn;
            var run := [MoveAssign(t, dst, src)] + ReleaseSteps(t, held, open, created, woken);
            && CanRun(s, run)
            && var end := After(s, run);
               && end.idle == QueueAfter(s.idle, held, open, Replacement(s, created))
               && end.handles.Keys == s.handles.Keys
               && Seen(end.handles[dst]) == Seen(s.handles[src]) && Seen(end.handles[src]) == NOTHING
               && (forall h :: h in s.handles && h != dst && h != src ==> end.handles[h] == s.handles[h])
               && end.released == s.released + if held.Some? then [s.handles[dst].lease.value.ticket] else []
  {
    var held := Seen(s.handles[dst]).conn;
    var steps := ReleaseSteps(t, held, open, created, woken);
    var run := [MoveAssign(t, dst, src)] + steps;
    assert run[0] == MoveAssign(t, dst, src) && run[1..] == steps;
    var next := Next(s, run[0]);
    assert MayNotify(next.threads, woken);
    hide CanRun, After, ReleaseSteps, QueueAfter;
    ReleaseRefines(next, t, held, open, created, woken);
    RunStep(s, run);
  }

  lemma RunStep(s: State, run: seq<Action>)
    requires run != [] && Enabled(s, run[0]) && CanRun(Next(s, run[0]), run[1..])
    ensures CanRun(s, run) && After(s, run) == After(Next(s, run[0]), run[1..])
  {
  }

  /** A destructor in the step system. */
  lemma DestroyRefines(s: State, t: string, h: string, open: bool, created: bool, woken: Option<string>)
    requires Enabled(s, Destroy(t, h)) && MayNotify(s.threads, woken)
    ensures var held := Seen(s.handles[h]).conn;
            var run := [Destroy(t, h)] + ReleaseSteps(t, held, open, created, woken);
            && CanRun(s, run)
            && var end := After(s, run);
               && end.idle == QueueAfter(s.idle, held, open, Replacement(s, created))
               && end.handles == s.handles - {h}
               && end.released == s.released + if held.Some? then [s.handles[h].lease.value.ticket] else []
  {
    var held := Seen(s.handles[h]).conn;
    var steps := ReleaseSteps(t, held, open, created, woken);
    var run := [Destroy(t, h)] + steps;
    assert run[0] == Destroy(t, h) && run[1..] == steps;
    var next := Next(s, run[0]);
    assert MayNotify(next.threads, woken);
    hide CanRun, After, ReleaseSteps, QueueAfter;
    ReleaseRefines(next, t, held, open, created, woken);
    RunStep(s, run);
  }

  class ConnectionPool {
    const poolSize: nat
    var connections: seq<nat>
    /** The connections given to release so far. */
    ghost var returned: seq<nat>

    constructor (poolSize: nat)
      ensures this.poolSize == poolSize && returned == []
      ensures connections == Initial(poolSize, true).idle
    {
      this.poolSize := poolSize;
      connections, returned := [], [];
      new;
      var i := 0;
      while i < poolSize
        invariant i <= poolSize && connections == seq(i, k => k) && returned == []
      {
        connections := connections + [i];
        i := i + 1;
      }
    }

    /** acquire after the wait: a connection from the front of the queue, replaced if it is broken; if that
        fails, one more attempt to fill the slot, and an error (null). */
    method Acquire(open: bool, replacement: Option<nat>, repaired: Option<nat>) returns (handle: PooledConnection?)
      requires connections != []
      modifies this
      ensures returned == old(returned)
      ensures var back := Kept(old(connections)[0], open, replacement);
              && connections == (if back.Some? then old(connections)[1..] else Pushed(old(connections)[1..], repaired))
              && (handle != null <==> back.Some?)
              && (handle != null ==> fresh(handle) && handle.pool == this && handle.View() == Holding(true, back))
    {
      var conn := connections[0];
      connections := connections[1..];
      if !open {
        if replacement.None? {
          if repaired.Some? {
            connections := connections + [repaired.value];
          }
          return null;
        }
        conn := replacement.value;
      }
      handle := new PooledConnection(this, conn);
    }

    /** open: is the connection still usable; replacement: what create_connection yields, None when it
        throws. */
    method Release(conn: nat, open: bool, replacement: Option<nat>)
      modifies this
      ensures returned == old(returned) + [conn]
      ensures connections == Pushed(old(connections), Kept(conn, open, replacement))
    {
      returned := returned + [conn];
      var back := Some(conn);
      if !open {
        back := replacement;
      }
      if back.Some? {
        connections := connections + [back.value];
      }
    }

    method SizeInUse() returns (n: nat)
      ensures n == InUse(poolSize, connections)
    {
      var available := |connections|;
      n := if poolSize >= available then poolSize - available else 0;
    }
  }

  class PooledConnection {
    var pool: ConnectionPool?
    var conn: Option<nat>

    ghost predicate Ready()
      reads this
    {
      conn.Some? ==> pool != null
    }

    ghost function View(): Holding
      reads this
    {
      Holding(pool != null, conn)
    }

    constructor (pool: ConnectionPool, conn: nat)
      ensures Ready() && this.pool == pool && this.conn == Some(conn)
    {
      this.pool := pool;
      this.conn := Some(conn);
    }

    /** The move constructor. */
    constructor MoveFrom(other: PooledConnection)
      requires other.Ready()
      modifies other
      ensures Ready() && other.Ready()
      ensures pool == old(other.pool) && View() == old(other.View())
      ensures other.View() == NOTHING
    {
      pool := other.pool;
      conn := other.conn;
      new;
      other.conn := None;
      other.pool := null;
    }

    method Destroy(open: bool, replacement: Option<nat>)
      requires Ready()
      modifies this, pool
      ensures pool == old(pool) && conn == None
      ensures pool != null ==>
                && pool.returned == old(pool.returned) + (if old(conn).Some? then [old(conn).value] else [])
                && pool.connections == QueueAfter(old(pool.connections), old(conn), open, replacement)
    {
      if conn.Some? {
        var given := conn.value;
        conn := None;
        pool.Release(given, open, replacement);
      }
    }

    /** What this handle held is released once; what the other held moves here. */
    method MoveAssign(other: PooledConnection, open: bool, replacement: Option<nat>)
      requires Ready() && other.Ready()
      modifies this, other, pool
      ensures Ready() && other.Ready()
      ensures this == other ==> unchanged(this) && (pool != null ==> unchanged(pool))
      ensures this != other ==>
                && pool == old(other.pool) && View() == old(other.View()) && other.View() == NOTHING
      ensures this != other && old(pool) != null ==>
                && old(pool).returned == old(pool.returned) + (if old(conn).Some? then [old(conn).value] else [])
                && old(pool).connections == QueueAfter(old(pool.connections), old(conn), open, replacement)
    {
      if this != other {
        if conn.Some? {
          var given := conn.value;
          conn := None;
          pool.Release(given, open, replacement);
        }
        pool := other.pool;
        conn := other.conn;
        other.conn := None;
        other.pool := null;
      }
    }
  }
}
