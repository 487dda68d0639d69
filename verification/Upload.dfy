/** Chunked uploads served by several instances: the session row in the shared database, its JSON
    staging state, and every interleaving of the single-statement steps that touch it. */
module Upload {
  import opened LeastOfSet
  import opened Options
  import opened Text

  // ---- Staging state and its JSON ----

  datatype MultipartState = MultipartState(handle: string, totalSize: int, chunkCount: int, chunkSize: int,
                                           partTokens: map<int, string>)

  // The JSON object: part_tokens is keyed by decimal text.
  datatype StoredState = StoredState(handle: string, totalSize: int, chunkCount: int, chunkSize: int,
                                     partTokens: map<string, string>)

  function Texts(indices: set<int>): set<string> {
    set i | i in indices :: ToString(i)
  }

  lemma TextsOf(indices: set<int>)
    ensures forall i: int :: ToString(i) in Texts(indices) <==> i in indices
    ensures forall s :: s in Texts(indices) ==> IsInteger(s) && IntegerValue(s) in indices && ToString(IntegerValue(s)) == s
  {
    hide ToString, IsInteger, IntegerValue;
    forall i: int ensures ToString(i) in Texts(indices) <==> i in indices {
      if ToString(i) in Texts(indices) {
        var j :| j in indices && ToString(j) == ToString(i);
        ToStringInjective(i, j);
      }
    }
    forall s | s in Texts(indices)
      ensures IsInteger(s) && IntegerValue(s) in indices && ToString(IntegerValue(s)) == s
    {
      var i :| i in indices && ToString(i) == s;
      ReadsBack(i);
    }
  }

  lemma ReadsBack(i: int)
    ensures IsInteger(ToString(i)) && IntegerValue(ToString(i)) == i
  {
    PrintfIsInteger(0, i);
  }

  function TokensToJson(tokens: map<int, string>): map<string, string> {
    TextsOf(tokens.Keys);
    map s | s in Texts(tokens.Keys) :: tokens[IntegerValue(s)]
  }

  function StateToJson(st: MultipartState): StoredState {
    StoredState(st.handle, st.totalSize, st.chunkCount, st.chunkSize, TokensToJson(st.partTokens))
  }

  predicate AllIntegers(keys: set<string>) {
    forall s :: s in keys ==> IsInteger(s)
  }

  /** std::stoi over the keys. */
  function Indices(keys: set<string>): set<int>
    requires AllIntegers(keys)
  {
    set s | s in keys :: IntegerValue(s)
  }

  /** load_state gives nothing when a key is not a number. */
  ghost function StateFromJson(j: StoredState): Option<MultipartState> {
    if !AllIntegers(j.partTokens.Keys) then None
    else
      Some(MultipartState(j.handle, j.totalSize, j.chunkCount, j.chunkSize,
        map i | i in Indices(j.partTokens.Keys) ::
          var s :| s in j.partTokens && IntegerValue(s) == i; j.partTokens[s]))
  }

  /** The staging state survives the trip through the database column. */
  lemma JsonRoundTrip(st: MultipartState)
    ensures StateFromJson(StateToJson(st)) == Some(st)
  {
    hide ToString, IsInteger, IntegerValue;
    var j := StateToJson(st).partTokens;
    TextsOf(st.partTokens.Keys);
    assert j.Keys == Texts(st.partTokens.Keys);
    forall i ensures i in Indices(j.Keys) <==> i in st.partTokens {
      if i in st.partTokens {
        ReadsBack(i);
        assert ToString(i) in j.Keys;
      }
    }
    forall i, s | i in st.partTokens && s in j && IntegerValue(s) == i ensures j[s] == st.partTokens[i] {
    }
    assert StateFromJson(StateToJson(st)).value.partTokens == st.partTokens;
  }

  method ComputeTokensToJson(tokens: map<int, string>) returns (parts: map<string, string>)
    ensures parts == TokensToJson(tokens)
  {
    hide ToString, IsInteger, IntegerValue;
    parts := map[];
    var rest := tokens.Keys;
    ghost var done: set<int> := {};
    while rest != {}
      invariant rest + done == tokens.Keys && rest !! done
      invariant parts.Keys == Texts(done)
      invariant forall i :: i in done ==> ToString(i) in parts && parts[ToString(i)] == tokens[i]
      decreases |rest|
    {
      ghost var some := Pick(rest);
      var idx :| idx in rest;
      TextsOf(done);
      parts := parts[ToString(idx) := tokens[idx]];
      assert Texts(done + {idx}) == Texts(done) + {ToString(idx)};
      done := done + {idx};
      rest := rest - {idx};
    }
    TextsOf(done);
    assert parts == TokensToJson(tokens) by {
      assert done == tokens.Keys;
      forall s | s in parts ensures parts[s] == tokens[IntegerValue(s)] {
        assert ToString(IntegerValue(s)) == s;
      }
    }
  }

  // ---- The session table ----

  datatype Row = Row(userId: string, totalSize: int, chunkCount: int, chunkSize: int, metadata: string,
                     received: seq<int>, storage: StoredState, createdAt: int)

  type Table = map<string, Row>

  /** The one UPDATE of record_upload_chunk. */
  function Recorded(t: Table, id: string, index: int, token: string): Table {
    if id !in t then t
    else
      var row := t[id];
      t[id := row.(received := if index in row.received then row.received else row.received + [index],
                   storage := row.storage.(partTokens := row.storage.partTokens[ToString(index) := token]))]
  }

  /** The INSERT; the primary key refuses an id in use. */
  function Inserted(t: Table, id: string, row: Row): Table {
    if id in t then t else t[id := row]
  }

  function Deleted(t: Table, id: string): Table {
    t - {id}
  }

  function Stale(t: Table, maxAge: int, now: int): set<string> {
    set id | id in t && t[id].createdAt < now - maxAge
  }

  function Reaped(t: Table, maxAge: int, now: int): Table {
    t - Stale(t, maxAge, now)
  }

  /** store_chunk_err when nobody else acts in between; put is the backend's answer, a token or an error. */
  ghost function ChunkStored(t: Table, id: string, index: int, put: Result<string>): (Table, string) {
    if LoadState(t, id).None? then (t, "session_not_found")
    else
      match put
      case Err(error) => (t, error)
      case Ok(token) => (Recorded(t, id, index, token), "")
  }

  /** load_state. */
  ghost function LoadState(t: Table, id: string): Option<MultipartState> {
    if id in t then StateFromJson(t[id].storage) else None
  }

  /** is_complete. */
  predicate IsComplete(t: Table, id: string) {
    id in t && |t[id].received| == t[id].chunkCount
  }

  class UploadDatabase {
    var sessions: Table

    constructor ()
      ensures sessions == map[]
    {
      sessions := map[];
    }

    method CreateUploadSession(id: string, row: Row) returns (ok: bool)
      modifies this
      ensures ok == (id !in old(sessions))
      ensures sessions == Inserted(old(sessions), id, row)
    {
      if id in sessions {
        return false;
      }
      sessions := sessions[id := row];
      return true;
    }

    method GetUploadSession(id: string) returns (row: Option<Row>)
      ensures row == if id in sessions then Some(sessions[id]) else None
    {
      if id in sessions {
        return Some(sessions[id]);
      }
      return None;
    }

    /** The number of chunks received, or -1 when the session is gone. */
    method RecordUploadChunk(id: string, index: int, token: string) returns (count: int)
      modifies this
      ensures sessions == Recorded(old(sessions), id, index, token)
      ensures count == if id in old(sessions) then |sessions[id].received| else -1
    {
      if id !in sessions {
        return -1;
      }
      var row := sessions[id];
      if index !in row.received {
        row := row.(received := row.received + [index]);
      }
      row := row.(storage := row.storage.(partTokens := row.storage.partTokens[ToString(index) := token]));
      sessions := sessions[id := row];
      return |row.received|;
    }

    method DeleteUploadSession(id: string)
      modifies this
      ensures sessions == Deleted(old(sessions), id)
    {
      sessions := sessions - {id};
    }

    method ReapStaleUploadSessions(maxAgeSeconds: int, now: int) returns (reaped: map<string, StoredState>)
      modifies this
      ensures reaped.Keys == Stale(old(sessions), maxAgeSeconds, now)
      ensures forall id :: id in reaped ==> reaped[id] == old(sessions)[id].storage
      ensures sessions == Reaped(old(sessions), maxAgeSeconds, now)
      ensures forall id :: id in sessions <==> id in old(sessions) && old(sessions)[id].createdAt >= now - maxAgeSeconds
      ensures forall id :: id in sessions ==> sessions[id] == old(sessions)[id]
    {
      reaped := map id | id in sessions && sessions[id].createdAt < now - maxAgeSeconds :: sessions[id].storage;
      sessions := sessions - reaped.Keys;
    }
  }

  const DEFAULT_MAX_AGE := 3600

  /** The manager of one instance; the database is shared. */
  class UploadManager {
    const db: UploadDatabase

    constructor (db: UploadDatabase)
      ensures this.db == db
    {
      this.db := db;
    }

    method CleanupStale(maxAgeSeconds: int, now: int)
      modifies db
      ensures db.sessions == Reaped(old(db.sessions), maxAgeSeconds, now)
    {
      var stale := db.ReapStaleUploadSessions(maxAgeSeconds, now);
    }

    /** Old sessions go first; the id is random. */
    method CreateSession(id: string, row: Row, now: int) returns (ok: bool)
      modifies db
      ensures db.sessions == Inserted(Reaped(old(db.sessions), DEFAULT_MAX_AGE, now), id, row)
      ensures ok ==> id in db.sessions && db.sessions[id] == row
      ensures forall other :: other in db.sessions && (other != id || !ok) <==>
                (other != id || !ok) && other in old(db.sessions) && old(db.sessions)[other].createdAt >= now - 3600
      ensures forall other :: other in db.sessions && (other != id || !ok) ==> db.sessions[other] == old(db.sessions)[other]
    {
      CleanupStale(DEFAULT_MAX_AGE, now);
      ok := db.CreateUploadSession(id, row);
    }

    method StoreChunkErr(id: string, index: int, put: Result<string>) returns (err: string)
      modifies db
      ensures (db.sessions, err) == ChunkStored(old(db.sessions), id, index, put)
      ensures id !in old(db.sessions) ==> err == "session_not_found"
    {
      hide IsInteger, IntegerValue;
      var row := db.GetUploadSession(id);
      if row.None? || !AllIntegers(row.value.storage.partTokens.Keys) {
        return "session_not_found";
      }
      match put {
        case Err(error) => return error;
        case Ok(token) =>
          var count := db.RecordUploadChunk(id, index, token);
          if count < 0 {
            return "session_gone";
          }
          return "";
      }
    }

    method IsCompleteNow(id: string) returns (complete: bool)
      ensures complete <==> IsComplete(db.sessions, id)
    {
      var row := db.GetUploadSession(id);
      return row.Some? && |row.value.received| == row.value.chunkCount;
    }

    method RemoveSession(id: string)
      modifies db
      ensures db.sessions == Deleted(old(db.sessions), id)
    {
      db.DeleteUploadSession(id);
    }
  }

  // ---- Interleavings ----

  // Where one request of store_chunk_err stands: nothing loaded, state loaded, part stored.
  datatype Worker = Idle | Loaded(id: string, st: MultipartState, index: int) | Stored(id: string, index: int, token: string)

  // issued: every upload id ever given out; ids are 128 random bits and taken not to repeat.
  datatype System = System(table: Table, issued: set<string>, workers: map<nat, Worker>)

  datatype Action =
    | Create(id: string, userId: string, totalSize: int, chunkCount: int, chunkSize: int, metadata: string, handle: string, now: int)
    | Load(w: nat, id: string, index: int)
    | PutPart(w: nat, token: string)
    | PutFails(w: nat)
    | Record(w: nat)
    | Remove(id: string)
    | Reap(maxAge: int, now: int)

  ghost function WorkerAt(s: System, w: nat): Worker {
    if w in s.workers then s.workers[w] else Idle
  }

  ghost predicate Enabled(s: System, a: Action) {
    match a
    case Create(id, _, _, _, _, _, _, _) => id !in s.issued
    case Load(w, id, _) => WorkerAt(s, w).Idle?
    case PutPart(w, _) => WorkerAt(s, w).Loaded? && 0 <= WorkerAt(s, w).index < WorkerAt(s, w).st.chunkCount
    case PutFails(w) => WorkerAt(s, w).Loaded?
    case Record(w) => WorkerAt(s, w).Stored?
    case Remove(_) => true
    case Reap(_, _) => true
  }

  function FreshRow(a: Action): Row
    requires a.Create?
  {
    Row(a.userId, a.totalSize, a.chunkCount, a.chunkSize, a.metadata, [],
        StoredState(a.handle, a.totalSize, a.chunkCount, a.chunkSize, map[]), a.now)
  }

  /** One atomic step: one SQL statement, or one call of the storage backend. */
  ghost function Next(s: System, a: Action): System
    requires Enabled(s, a)
  {
    match a
    case Create(id, _, _, _, _, _, _, _) => s.(table := Inserted(s.table, id, FreshRow(a)), issued := s.issued + {id})
    case Load(w, id, index) =>
      var st := LoadState(s.table, id);
      if st.None? then s else s.(workers := s.workers[w := Loaded(id, st.value, index)])
    case PutPart(w, token) => s.(workers := s.workers[w := Stored(WorkerAt(s, w).id, WorkerAt(s, w).index, token)])
    case PutFails(w) => s.(workers := s.workers[w := Idle])
    case Record(w) =>
      var worker := WorkerAt(s, w);
      s.(table := Recorded(s.table, worker.id, worker.index, worker.token), workers := s.workers[w := Idle])
    case Remove(id) => s.(table := Deleted(s.table, id))
    case Reap(maxAge, now) => s.(table := Reaped(s.table, maxAge, now))
  }

  ghost predicate CanRun(s: System, run: seq<Action>)
    decreases |run|
  {
    run == [] || (Enabled(s, run[0]) && CanRun(Next(s, run[0]), run[1..]))
  }

  ghost function After(s: System, run: seq<Action>): System
    requires CanRun(s, run)
    decreases |run|
  {
    if run == [] then s else After(Next(s, run[0]), run[1..])
  }

  /** A worker that nobody interrupts does what StoreChunkErr promises. */
  lemma StoreChunkRefines(s: System, w: nat, id: string, index: int, put: Result<string>)
    requires WorkerAt(s, w).Idle?
    requires put.Ok? && LoadState(s.table, id).Some? ==> 0 <= index < LoadState(s.table, id).value.chunkCount
    ensures var loads := LoadState(s.table, id).Some?;
            var run := [Load(w, id, index)]
                       + if !loads then [] else if put.Ok? then [PutPart(w, put.value), Record(w)] else [PutFails(w)];
            CanRun(s, run) && After(s, run).table == ChunkStored(s.table, id, index, put).0
  {
    hide StateFromJson, Recorded;
    var rest := if LoadState(s.table, id).None? then [] else if put.Ok? then [PutPart(w, put.value), Record(w)] else [PutFails(w)];
    var run := [Load(w, id, index)] + rest;
    assert run[0] == Load(w, id, index) && run[1..] == rest;
    var loaded := Next(s, run[0]);
    if rest != [] {
      var put1 := Next(loaded, rest[0]);
      if put.Ok? {
        assert rest[1..] == [Record(w)] && [Record(w)][1..] == [];
        var end := Next(put1, Record(w));
        assert CanRun(end, []) && After(end, []) == end;
        assert CanRun(put1, [Record(w)]) && After(put1, [Record(w)]) == end;
      } else {
        assert rest[1..] == [] && CanRun(put1, []) && After(put1, []) == put1;
      }
      assert CanRun(loaded, rest);
    }
  }

  const EMPTY := System(map[], {}, map[])

  // ---- What every step keeps ----

  ghost predicate Distinct(xs: seq<int>) {
    forall i, j :: 0 <= i < j < |xs| ==> xs[i] != xs[j]
  }

  function Elements(xs: seq<int>): set<int> {
    set i | 0 <= i < |xs| :: xs[i]
  }

  /** A row's received indices are distinct, in range, and exactly those with a token. */
  ghost predicate RowSound(row: Row) {
    && Distinct(row.received)
    && (forall i :: i in Elements(row.received) ==> 0 <= i < row.chunkCount)
    && row.storage.partTokens.Keys == Texts(Elements(row.received))
    && row.storage.chunkCount == row.chunkCount
  }

  /** A request on its way agrees with its session, as long as that exists. */
  ghost predicate WorkerSound(t: Table, w: Worker) {
    match w
    case Idle => true
    case Loaded(id, st, index) => id in t ==> st.chunkCount == t[id].chunkCount
    case Stored(id, index, _) => id in t ==> 0 <= index < t[id].chunkCount
  }

  ghost predicate WorkerIssued(issued: set<string>, w: Worker) {
    w.Idle? || w.id in issued
  }

  ghost predicate Invariant(s: System) {
    && s.table.Keys <= s.issued
    && (forall id :: id in s.table ==> RowSound(s.table[id]))
    && (forall w :: w in s.workers ==> WorkerSound(s.table, s.workers[w]) && WorkerIssued(s.issued, s.workers[w]))
  }

  lemma RecordedRow(row: Row, index: int, token: string)
    requires RowSound(row) && 0 <= index < row.chunkCount
    ensures RowSound(Recorded(map["" := row], "", index, token)[""])
  {
    hide ToString, Texts;
    var received := if index in row.received then row.received else row.received + [index];
    assert Elements(received) == Elements(row.received) + {index} by {
      forall i ensures i in Elements(received) <==> i in Elements(row.received) || i == index {
        InElements(received, i);
        InElements(row.received, i);
      }
    }
    hide Elements;
    TextsPlus(Elements(row.received), index);
    if index !in row.received {
      forall i, j | 0 <= i < j < |received| ensures received[i] != received[j] {
      }
    }
  }

  lemma TextsPlus(indices: set<int>, i: int)
    ensures Texts(indices + {i}) == Texts(indices) + {ToString(i)}
  {
  }

  lemma InElements(xs: seq<int>, x: int)
    ensures x in Elements(xs) <==> x in xs
  {
  }

  lemma LoadedCount(t: Table, id: string)
    ensures LoadState(t, id).Some? ==> id in t && LoadState(t, id).value.chunkCount == t[id].storage.chunkCount
  {
  }

  lemma EmptyRowSound(a: Action)
    requires a.Create?
    ensures RowSound(FreshRow(a))
  {
    assert Elements([]) == {};
    assert Texts({}) == {};
  }

  lemma StepKeepsInvariant(s: System, a: Action)
    requires Invariant(s) && Enabled(s, a)
    ensures Invariant(Next(s, a))
  {
    hide ToString, Texts, Elements, Distinct, LoadState;
    match a {
      case Create(id, _, _, _, _, _, _, _) => EmptyRowSound(a);
      case Load(w, id, index) => LoadedCount(s.table, id);
      case PutPart(w, token) =>
      case PutFails(w) =>
      case Record(w) =>
        var worker := WorkerAt(s, w);
        if worker.id in s.table {
          RecordedRow(s.table[worker.id], worker.index, worker.token);
        }
      case Remove(id) =>
      case Reap(maxAge, now) =>
    }
  }

  lemma {:induction false} RunKeepsInvariant(s: System, run: seq<Action>)
    requires Invariant(s) && CanRun(s, run)
    ensures Invariant(After(s, run))
    decreases |run|
  {
    hide Invariant, Enabled, Next;
    if run != [] {
      StepKeepsInvariant(s, run[0]);
      RunKeepsInvariant(Next(s, run[0]), run[1..]);
    }
  }

  /** In every interleaving of any number of instances, each session's received indices are distinct, in
      range, and exactly the indices that have a token. */
  lemma ReachableIsSound(run: seq<Action>)
    requires CanRun(EMPTY, run)
    ensures Invariant(After(EMPTY, run))
  {
    hide CanRun, After;
    RunKeepsInvariant(EMPTY, run);
  }

  // ---- Removed sessions stay removed; received chunks stay received ----

  /** A session that exists afterwards existed before, is otherwise unchanged, and has lost nothing. */
  ghost predicate Grown(before: Table, after: Table, issued: set<string>) {
    forall id :: id in after && id in issued ==>
      && id in before && after[id].chunkCount == before[id].chunkCount
      && before[id].received <= after[id].received
  }

  lemma StepGrows(s: System, a: Action)
    requires Enabled(s, a)
    ensures Grown(s.table, Next(s, a).table, s.issued) && s.issued <= Next(s, a).issued
  {
    hide LoadState, ToString;
  }

  lemma {:induction false} RunGrows(s: System, run: seq<Action>)
    requires CanRun(s, run)
    ensures Grown(s.table, After(s, run).table, s.issued)
    decreases |run|
  {
    hide Enabled, Next;
    if run != [] {
      StepGrows(s, run[0]);
      RunGrows(Next(s, run[0]), run[1..]);
    }
  }

  /** A removed or reaped session never comes back, whatever late requests are still on their way. */
  lemma RemovedStaysRemoved(s: System, run: seq<Action>, id: string)
    requires CanRun(s, run) && id in s.issued && id !in s.table
    ensures id !in After(s, run).table
  {
    hide CanRun, After;
    RunGrows(s, run);
  }

  /** Chunks of different indices commute, so no instance overwrites another's token; a chunk stored again,
      whatever came in between, counts once and has its last token. */
  lemma RecordsCommute(t: Table, id: string, i: int, a: string, j: int, b: string)
    ensures var ij, ji := Recorded(Recorded(t, id, i, a), id, j, b), Recorded(Recorded(t, id, j, b), id, i, a);
            id in t && i != j ==> ij[id].storage == ji[id].storage && Elements(ij[id].received) == Elements(ji[id].received)
    ensures var iji := Recorded(Recorded(Recorded(t, id, i, a), id, j, b), id, i, a);
            id in t ==>
              && iji[id].received == Recorded(Recorded(t, id, i, a), id, j, b)[id].received
              && iji[id].storage.partTokens[ToString(i)] == a
  {
    hide ToString;
    if id in t && i != j {
      if ToString(i) == ToString(j) {
        ToStringInjective(i, j);
      }
      var ij, ji := Recorded(Recorded(t, id, i, a), id, j, b), Recorded(Recorded(t, id, j, b), id, i, a);
      forall x ensures x in Elements(ij[id].received) <==> x in Elements(ji[id].received) {
        InElements(ij[id].received, x);
        InElements(ji[id].received, x);
      }
      assert ij[id].storage.partTokens == ji[id].storage.partTokens;
    }
  }

  /** The row is still there with all its chunks. */
  ghost predicate Kept(before: Row, t: Table, id: string) {
    && id in t && t[id].createdAt == before.createdAt && t[id].chunkCount == before.chunkCount
    && before.received <= t[id].received
    && before.storage.partTokens.Keys <= t[id].storage.partTokens.Keys
  }

  lemma StepKeepsSession(s: System, a: Action, before: Row, id: string)
    requires Enabled(s, a) && Kept(before, s.table, id)
    requires a.Remove? ==> a.id != id
    requires a.Reap? ==> before.createdAt >= a.now - a.maxAge
    ensures Kept(before, Next(s, a).table, id)
  {
    hide StateFromJson, ToString;
  }

  lemma {:induction false} SessionStays(s: System, run: seq<Action>, before: Row, id: string)
    requires CanRun(s, run) && Kept(before, s.table, id)
    requires forall i :: 0 <= i < |run| && run[i].Remove? ==> run[i].id != id
    requires forall i :: 0 <= i < |run| && run[i].Reap? ==> before.createdAt >= run[i].now - run[i].maxAge
    ensures Kept(before, After(s, run).table, id)
    decreases |run|
  {
    hide Kept, Next, Enabled;
    if run != [] {
      StepKeepsSession(s, run[0], before, id);
      SessionStays(Next(s, run[0]), run[1..], before, id);
    }
  }

  /** In every interleaving, a session that is not removed, and young enough at every reap, is still there
      with all its chunks. */
  lemma LiveSessionStays(s: System, run: seq<Action>, id: string)
    requires CanRun(s, run) && id in s.table
    requires forall i :: 0 <= i < |run| && run[i].Remove? ==> run[i].id != id
    requires forall i :: 0 <= i < |run| && run[i].Reap? ==> s.table[id].createdAt >= run[i].now - run[i].maxAge
    ensures var was, later := s.table[id], After(s, run).table;
            && id in later && later[id].chunkCount == was.chunkCount
            && (forall i :: i in was.received ==> i in later[id].received)
            && (forall key :: key in was.storage.partTokens ==> key in later[id].storage.partTokens)
  {
    hide CanRun, After;
    SessionStays(s, run, s.table[id], id);
    var was, later := s.table[id], After(s, run).table;
    forall i | i in was.received ensures i in later[id].received {
      var j :| 0 <= j < |was.received| && was.received[j] == i;
      assert later[id].received[j] == i;
    }
  }

  // ---- Complete means every chunk has a token ----

  function Range(n: nat): (r: set<int>)
    ensures forall i :: i in r <==> 0 <= i < n
    ensures |r| == n
  {
    if n == 0 then {} else Range(n - 1) + {n - 1}
  }

  lemma {:induction false} DistinctCount(xs: seq<int>)
    requires Distinct(xs)
    ensures |Elements(xs)| == |xs|
  {
    if xs == [] {
      assert Elements(xs) == {};
    } else {
      var front, last := xs[..|xs| - 1], xs[|xs| - 1];
      DistinctCount(front);
      assert Elements(xs) == Elements(front) + {last} by {
        forall x ensures x in Elements(xs) <==> x in Elements(front) || x == last {
          InElements(xs, x);
          InElements(front, x);
        }
      }
      InElements(front, last);
    }
  }

  lemma SameSize<T>(a: set<T>, b: set<T>)
    requires a <= b && |a| == |b|
    ensures a == b
  {
    assert a + (b - a) == b;
    assert b - a == {};
  }

  lemma {:induction false} SubsetSize(a: set<int>, b: set<int>)
    requires a <= b
    ensures |a| <= |b|
    decreases |a|
  {
    if a != {} {
      var x := Pick(a);
      SubsetSize(a - {x}, b - {x});
    }
  }

  lemma FullRow(row: Row)
    requires RowSound(row) && |row.received| == row.chunkCount
    ensures Elements(row.received) == Range(row.chunkCount)
  {
    hide Elements, Texts;
    DistinctCount(row.received);
    SameSize(Elements(row.received), Range(row.chunkCount));
  }

  /** is_complete holds exactly when every chunk has been received. */
  lemma CompleteExactly(t: Table, id: string)
    requires id in t && RowSound(t[id])
    ensures IsComplete(t, id) <==> t[id].chunkCount >= 0 && forall i :: 0 <= i < t[id].chunkCount ==> i in t[id].received
  {
    hide Texts, Elements;
    var row := t[id];
    forall i ensures i in row.received <==> i in Elements(row.received) {
      InElements(row.received, i);
    }
    if IsComplete(t, id) {
      FullRow(row);
    } else if row.chunkCount >= 0 && forall i :: 0 <= i < row.chunkCount ==> i in row.received {
      DistinctCount(row.received);
      assert Elements(row.received) == Range(row.chunkCount);
    }
  }

  lemma LoadedTokens(row: Row)
    requires RowSound(row)
    ensures StateFromJson(row.storage).Some? && StateFromJson(row.storage).value.partTokens.Keys == Elements(row.received)
  {
    hide ToString, IsInteger, IntegerValue, Elements;
    TextsOf(Elements(row.received));
    var keys := row.storage.partTokens.Keys;
    forall i ensures i in Indices(keys) <==> i in Elements(row.received) {
      if i in Elements(row.received) {
        ReadsBack(i);
        assert ToString(i) in keys;
      }
    }
  }

  lemma PrefixFull(row: Row, later: Row)
    requires RowSound(row) && RowSound(later) && |row.received| == row.chunkCount
    requires row.chunkCount == later.chunkCount && row.received <= later.received
    ensures later.received == row.received
  {
    hide Texts, Elements;
    DistinctCount(later.received);
    SubsetSize(Elements(later.received), Range(row.chunkCount));
  }

  /** Once a session is seen complete, every state that any instance loads afterwards, while the session
      lives, has a token for every chunk, and the session stays complete. */
  lemma CompleteHasEveryToken(s: System, run: seq<Action>, id: string)
    requires Invariant(s) && CanRun(s, run) && IsComplete(s.table, id)
    ensures var later := After(s, run).table;
            id in later ==> && IsComplete(later, id)
                            && LoadState(later, id).Some?
                            && LoadState(later, id).value.partTokens.Keys == Range(later[id].chunkCount)
  {
    hide CanRun, After, RowSound, StateFromJson;
    RunKeepsInvariant(s, run);
    RunGrows(s, run);
    var later := After(s, run).table;
    if id in later {
      PrefixFull(s.table[id], later[id]);
      FullRow(later[id]);
      LoadedTokens(later[id]);
    }
  }
}
