/** File rows and their stored versions: uploads, new versions, and the purge of old versions. */
module Versions {
  import opened LeastOfSet
  import opened Options

  datatype Content = Content(blob: string, size: int, mime: string)

  /** A folder row has no content. */
  datatype FileRow = FileRow(space: string, content: Option<Content>)

  datatype Version = Version(file: string, number: int, content: Content, createdAt: int)

  datatype Store = Store(files: map<string, FileRow>, versions: map<string, Version>)

  /** id is a version of the file. */
  predicate Of(s: Store, file: string, id: string) {
    id in s.versions && s.versions[id].file == file
  }

  /** id is the version of the file with the highest number. */
  ghost predicate IsNewest(s: Store, file: string, id: string) {
    Of(s, file, id) && forall other :: Of(s, file, other) ==> s.versions[other].number <= s.versions[id].number
  }

  ghost predicate NumbersUnique(s: Store) {
    forall i, j :: i in s.versions && j in s.versions && i != j ==>
      s.versions[i].file != s.versions[j].file || s.versions[i].number != s.versions[j].number
  }

  ghost predicate VersionsHaveFiles(s: Store) {
    forall id :: id in s.versions ==> s.versions[id].file in s.files
  }

  /** A row with content repeats its newest version; a row without content has no version. */
  ghost predicate RowAgrees(s: Store, file: string)
    requires file in s.files
  {
    match s.files[file].content
    case Some(content) => exists id :: IsNewest(s, file, id) && s.versions[id].content == content
    case None => forall id :: !Of(s, file, id)
  }

  ghost predicate Invariant(s: Store) {
    NumbersUnique(s) && VersionsHaveFiles(s) && forall file :: file in s.files ==> RowAgrees(s, file)
  }

  // ---- Creating files and versions ----

  function FolderCreated(s: Store, file: string, space: string): Store {
    s.(files := s.files[file := FileRow(space, None)])
  }

  function FileCreated(s: Store, file: string, space: string, content: Content, id: string, now: int): Store {
    Store(s.files[file := FileRow(space, Some(content))], s.versions[id := Version(file, 1, content, now)])
  }

  /** n is COALESCE(MAX(version_number), 0) + 1 over the file's versions. */
  ghost predicate IsNext(s: Store, file: string, n: int) {
    if exists id :: Of(s, file, id) then exists id :: IsNewest(s, file, id) && n == s.versions[id].number + 1
    else n == 1
  }

  function VersionCreated(s: Store, file: string, n: int, content: Content, id: string, now: int): Store
    requires file in s.files
  {
    Store(s.files[file := s.files[file].(content := Some(content))], s.versions[id := Version(file, n, content, now)])
  }

  lemma FolderKeeps(s: Store, file: string, space: string)
    requires Invariant(s) && file !in s.files
    ensures Invariant(FolderCreated(s, file, space))
  {
    hide RowAgrees;
    var t := FolderCreated(s, file, space);
    FolderAgrees(t, file);
    forall f | f in t.files ensures RowAgrees(t, f) {
      if f != file {
        SameVersions(s, t, f);
      }
    }
  }

  lemma FolderAgrees(t: Store, file: string)
    requires file in t.files && t.files[file].content == None && forall id :: id in t.versions ==> !Of(t, file, id)
    ensures RowAgrees(t, file)
  {
  }

  /** A row and its versions as before agree as before. */
  lemma SameVersions(s: Store, t: Store, file: string)
    requires file in s.files && file in t.files && RowAgrees(s, file)
    requires s.files[file].content == t.files[file].content
    requires forall id :: Of(s, file, id) ==> Of(t, file, id) && t.versions[id] == s.versions[id]
    requires forall id :: Of(t, file, id) ==> Of(s, file, id)
    ensures RowAgrees(t, file)
  {
    if s.files[file].content.Some? {
      var id :| IsNewest(s, file, id) && s.versions[id].content == s.files[file].content.value;
      assert IsNewest(t, file, id);
    }
  }

  lemma NewestAgrees(t: Store, file: string, id: string)
    requires file in t.files && IsNewest(t, file, id) && t.files[file].content == Some(t.versions[id].content)
    ensures RowAgrees(t, file)
  {
  }

  lemma FileKeeps(s: Store, file: string, space: string, content: Content, id: string, now: int)
    requires Invariant(s) && file !in s.files && id !in s.versions
    ensures Invariant(FileCreated(s, file, space, content, id, now))
  {
    hide RowAgrees;
    var t := FileCreated(s, file, space, content, id, now);
    NewestAgrees(t, file, id);
    forall f | f in t.files ensures RowAgrees(t, f) {
      if f != file {
        SameVersions(s, t, f);
      }
    }
  }

  /** The next number lies above every number the file has. */
  lemma NextIsAbove(s: Store, file: string, n: int)
    requires IsNext(s, file, n)
    ensures forall id :: Of(s, file, id) ==> s.versions[id].number < n
  {
  }

  lemma VersionKeeps(s: Store, file: string, n: int, content: Content, id: string, now: int)
    requires Invariant(s) && file in s.files && id !in s.versions && IsNext(s, file, n)
    ensures Invariant(VersionCreated(s, file, n, content, id, now))
    ensures IsNewest(VersionCreated(s, file, n, content, id, now), file, id)
  {
    hide RowAgrees;
    var t := VersionCreated(s, file, n, content, id, now);
    NextIsAbove(s, file, n);
    NewestAgrees(t, file, id);
    forall f | f in t.files ensures RowAgrees(t, f) {
      if f != file {
        SameVersions(s, t, f);
      }
    }
  }

  // ---- The purge ----

  /** A version of the space that is not its file's newest. */
  ghost predicate Candidate(s: Store, space: string, id: string) {
    && id in s.versions && s.versions[id].file in s.files && s.files[s.versions[id].file].space == space
    && exists newer :: Of(s, s.versions[id].file, newer) && s.versions[id].number < s.versions[newer].number
  }

  /** rows lists the candidates oldest first, in some order where the times are equal. */
  ghost predicate ListsCandidates(s: Store, space: string, rows: seq<string>) {
    && (forall id :: id in rows <==> Candidate(s, space, id))
    && (forall i, j :: 0 <= i < j < |rows| ==> rows[i] != rows[j])
    && (forall i, j :: 0 <= i < j < |rows| && rows[i] in s.versions && rows[j] in s.versions ==>
          s.versions[rows[i]].createdAt <= s.versions[rows[j]].createdAt)
  }

  function SizeOf(s: Store, id: string): int {
    if id in s.versions then s.versions[id].content.size else 0
  }

  function TotalSize(s: Store, rows: seq<string>): int
    decreases |rows|
  {
    if rows == [] then 0 else TotalSize(s, rows[..|rows| - 1]) + SizeOf(s, rows[|rows| - 1])
  }

  /** k is the length of the shortest prefix whose sizes reach `bytes`, or of all rows when none does. */
  ghost predicate ShortestEnough(s: Store, rows: seq<string>, bytes: int, k: nat) {
    && k <= |rows|
    && (forall j :: 0 <= j < k ==> TotalSize(s, rows[..j]) < bytes)
    && (k < |rows| ==> TotalSize(s, rows[..k]) >= bytes)
  }

  ghost function Members(rows: seq<string>): set<string> {
    set id | id in rows
  }

  function Without(s: Store, gone: set<string>): Store {
    s.(versions := s.versions - gone)
  }

  ghost predicate PurgedBy(s: Store, space: string, bytes: int, rows: seq<string>, k: int, t: Store) {
    && 0 <= k <= |rows|
    && ListsCandidates(s, space, rows)
    && ShortestEnough(s, rows, bytes, k)
    && t == Without(s, Members(rows[..k]))
  }

  /** t is s after one purge. */
  ghost predicate Purged(s: Store, space: string, bytes: int, t: Store) {
    exists rows, k :: PurgedBy(s, space, bytes, rows, k, t)
  }

  /** The purge removes candidates only. */
  lemma PurgeRemovesCandidates(s: Store, space: string, bytes: int, t: Store)
    requires Purged(s, space, bytes, t)
    ensures t.files == s.files && t.versions.Keys <= s.versions.Keys
    ensures forall id :: id in t.versions ==> t.versions[id] == s.versions[id]
    ensures forall id :: id in s.versions && id !in t.versions ==> Candidate(s, space, id)
  {
    hide Candidate, ShortestEnough;
    var rows, k :| PurgedBy(s, space, bytes, rows, k, t);
    forall id | id in s.versions && id !in t.versions ensures id in rows {
      assert id in rows[..k];
    }
  }

  lemma PrefixHolds(rows: seq<string>, k: nat)
    requires k <= |rows|
    ensures forall i :: 0 <= i < k ==> rows[i] in rows[..k]
  {
    forall i | 0 <= i < k ensures rows[i] in rows[..k] {
      assert rows[..k][i] == rows[i];
    }
  }

  /** A newest version is never purged and stays the newest. */
  lemma NewestStays(s: Store, space: string, bytes: int, t: Store, file: string, id: string)
    requires Purged(s, space, bytes, t) && IsNewest(s, file, id)
    ensures IsNewest(t, file, id) && t.versions[id] == s.versions[id]
  {
    hide Purged;
    PurgeRemovesCandidates(s, space, bytes, t);
  }

  /** What is purged is no younger than any candidate that stays. */
  lemma PurgeTakesOldest(s: Store, space: string, bytes: int, t: Store, gone: string, kept: string)
    requires Purged(s, space, bytes, t)
    requires gone in s.versions && gone !in t.versions && kept in t.versions && Candidate(s, space, kept)
    ensures kept in s.versions && s.versions[gone].createdAt <= s.versions[kept].createdAt
  {
    hide Candidate, ShortestEnough;
    PurgeRemovesCandidates(s, space, bytes, t);
    var rows, k :| PurgedBy(s, space, bytes, rows, k, t);
    assert gone in rows[..k] && kept in rows && kept !in rows[..k];
    var i :| 0 <= i < k && rows[i] == gone;
    var j :| 0 <= j < |rows| && rows[j] == kept;
    PrefixHolds(rows, k);
  }

  /** Files of other spaces lose nothing, and no file row changes. */
  lemma OtherSpacesStay(s: Store, space: string, bytes: int, t: Store, id: string)
    requires Purged(s, space, bytes, t) && id in s.versions
    requires s.versions[id].file in s.files && s.files[s.versions[id].file].space != space
    ensures t.files == s.files && id in t.versions && t.versions[id] == s.versions[id]
  {
    hide Purged;
    PurgeRemovesCandidates(s, space, bytes, t);
  }

  /** The sizes added up are those stored with the versions. */
  lemma TotalSizeAdds(s: Store, rows: seq<string>, id: string)
    requires id in s.versions
    ensures TotalSize(s, []) == 0 && TotalSize(s, rows + [id]) == TotalSize(s, rows) + s.versions[id].content.size
  {
    assert (rows + [id])[..|rows|] == rows;
  }

  /** Nothing is purged when nothing need be freed. */
  lemma NothingToFree(s: Store, space: string, bytes: int, t: Store)
    requires Purged(s, space, bytes, t) && bytes <= 0
    ensures t == s
  {
    hide ListsCandidates;
    var rows, k :| PurgedBy(s, space, bytes, rows, k, t);
    assert TotalSize(s, rows[..0]) == 0;
    assert k == 0;
    assert Members(rows[..0]) == {};
  }

  /** A candidate stays only when enough was freed, and then all that was deleted is at least as old. */
  lemma KeptWhenEnough(s: Store, space: string, bytes: int, t: Store, kept: string)
    requires Purged(s, space, bytes, t) && Candidate(s, space, kept) && kept in t.versions
    ensures exists gone: seq<string> :: JustEnough(s, t, bytes, gone)
    ensures forall gone :: gone in s.versions && gone !in t.versions && kept in s.versions ==>
              s.versions[gone].createdAt <= s.versions[kept].createdAt
  {
    hide Candidate, TotalSize, JustEnough;
    var rows, k :| PurgedBy(s, space, bytes, rows, k, t);
    CandidatesExist(s, space, rows);
    var j :| 0 <= j < |rows| && rows[j] == kept;
    assert kept !in rows[..k];
    PrefixHolds(rows, k);
    PrefixIsEnough(s, space, bytes, rows, k, t);
    forall gone | gone in s.versions && gone !in t.versions && kept in s.versions
      ensures s.versions[gone].createdAt <= s.versions[kept].createdAt
    {
      PurgeTakesOldest(s, space, bytes, t, gone, kept);
    }
  }

  /** What was deleted, in the order of deletion, frees enough, and would not without its last version. */
  ghost predicate JustEnough(s: Store, t: Store, bytes: int, gone: seq<string>) {
    && TotalSize(s, gone) >= bytes
    && Members(gone) == s.versions.Keys - t.versions.Keys
    && (forall i, j :: 0 <= i < j < |gone| ==> gone[i] != gone[j])
    && (gone != [] ==> TotalSize(s, gone[..|gone| - 1]) < bytes)
  }

  lemma PrefixIsEnough(s: Store, space: string, bytes: int, rows: seq<string>, k: nat, t: Store)
    requires PurgedBy(s, space, bytes, rows, k, t) && k < |rows| && forall id :: id in rows ==> id in s.versions
    ensures JustEnough(s, t, bytes, rows[..k])
  {
    hide Candidate, TotalSize;
    var gone := rows[..k];
    assert Members(gone) == s.versions.Keys - t.versions.Keys;
    assert k > 0 ==> gone[..k - 1] == rows[..k - 1];
  }

  lemma CandidatesExist(s: Store, space: string, rows: seq<string>)
    requires ListsCandidates(s, space, rows)
    ensures forall id :: id in rows ==> id in s.versions
  {
  }

  lemma PurgeKeeps(s: Store, space: string, bytes: int, t: Store)
    requires Invariant(s) && Purged(s, space, bytes, t)
    ensures Invariant(t)
  {
    hide Purged, Candidate, RowAgrees;
    PurgeRemovesCandidates(s, space, bytes, t);
    forall file | file in t.files ensures RowAgrees(t, file) {
      PurgeKeepsRow(s, space, bytes, t, file);
    }
  }

  lemma PurgeKeepsRow(s: Store, space: string, bytes: int, t: Store, file: string)
    requires Purged(s, space, bytes, t) && file in s.files && RowAgrees(s, file)
    ensures file in t.files && RowAgrees(t, file)
  {
    hide Purged, Candidate;
    PurgeRemovesCandidates(s, space, bytes, t);
    if t.files[file].content.Some? {
      var id :| IsNewest(s, file, id) && s.versions[id].content == s.files[file].content.value;
      NewestStays(s, space, bytes, t, file, id);
      NewestAgrees(t, file, id);
    } else {
      assert forall id :: Of(t, file, id) ==> Of(s, file, id);
    }
  }

  // ---- The tables ----

  class VersionTables {
    var files: map<string, FileRow>
    var versions: map<string, Version>

    ghost function State(): Store
      reads this
    {
      Store(files, versions)
    }

    constructor ()
      ensures State() == Store(map[], map[]) && Invariant(State())
    {
      files, versions := map[], map[];
    }

    method CreateSpaceFolder(file: string, space: string)
      requires Invariant(State()) && file !in files
      modifies this
      ensures State() == FolderCreated(old(State()), file, space) && Invariant(State())
    {
      FolderKeeps(State(), file, space);
      files := files[file := FileRow(space, None)];
    }

    /** The database chooses the row ids and the time. */
    method CreateSpaceFile(file: string, space: string, content: Content, id: string, now: int)
      requires Invariant(State()) && file !in files && id !in versions
      modifies this
      ensures State() == FileCreated(old(State()), file, space, content, id, now) && Invariant(State())
    {
      FileKeeps(State(), file, space, content, id, now);
      files := files[file := FileRow(space, Some(content))];
      versions := versions[id := Version(file, 1, content, now)];
    }

    /** COALESCE(MAX(version_number), 0) + 1 */
    method NextNumber(file: string) returns (n: int)
      ensures IsNext(State(), file, n)
    {
      var rest := set id | id in versions && versions[id].file == file;
      if rest == {} {
        n := 1;
        assert forall id :: Of(State(), file, id) ==> id in rest;
      } else {
        ghost var all := rest;
        ghost var best := Pick(rest);
        var id :| id in rest;
        best := id;
        var top := versions[id].number;
        rest := rest - {id};
        while rest != {}
          invariant best in all && versions[best].number == top
          invariant rest <= all && forall other :: other in all - rest ==> versions[other].number <= top
          decreases |rest|
        {
          ghost var some := Pick(rest);
          var next :| next in rest;
          if versions[next].number > top {
            top := versions[next].number;
            best := next;
          }
          rest := rest - {next};
        }
        n := top + 1;
        assert IsNewest(State(), file, best);
      }
    }

    /** Fails when there is no such file row: the foreign key rejects the version. */
    method CreateFileVersion(file: string, content: Content, id: string, now: int) returns (number: Option<int>)
      requires Invariant(State()) && id !in versions
      modifies this
      ensures number.Some? <==> file in old(files)
      ensures number == None ==> State() == old(State())
      ensures number.Some? ==>
                && IsNext(old(State()), file, number.value)
                && State() == VersionCreated(old(State()), file, number.value, content, id, now)
                && IsNewest(State(), file, id)
      ensures Invariant(State())
    {
      var n := NextNumber(file);
      if file !in files {
        return None;
      }
      VersionKeeps(State(), file, n, content, id, now);
      versions := versions[id := Version(file, n, content, now)];
      files := files[file := files[file].(content := Some(content))];
      number := Some(n);
    }

    /** The select of the purge. */
    method OldVersions(space: string) returns (rows: seq<string>)
      ensures ListsCandidates(State(), space, rows)
    {
      var rest := set id | id in versions && versions[id].file in files && files[versions[id].file].space == space
                           && exists newer :: newer in versions && versions[newer].file == versions[id].file
                                              && versions[id].number < versions[newer].number;
      rows := OldestFirst(versions, rest);
    }

    method DeleteOldestFileVersions(space: string, bytesToFree: int)
      requires Invariant(State())
      modifies this
      ensures Purged(old(State()), space, bytesToFree, State()) && Invariant(State())
    {
      hide Invariant, Candidate;
      ghost var before := State();
      var rows := OldVersions(space);
      CandidatesExistIn(before, space, rows);
      NothingGone(before, rows);
      var freed := 0;
      var k := 0;
      hide TotalSize, Members, ListsCandidates, Purged;
      while k < |rows|
        invariant 0 <= k <= |rows|
        invariant State() == Without(before, Members(rows[..k]))
        invariant freed == TotalSize(before, rows[..k])
        invariant forall j :: 0 <= j < k ==> TotalSize(before, rows[..j]) < bytesToFree
      {
        if freed >= bytesToFree {
          break;
        }
        OneMoreGone(before, rows, k);
        freed := freed + versions[rows[k]].content.size;
        versions := versions - {rows[k]};
        k := k + 1;
      }
      EnoughGone(before, space, bytesToFree, rows, k);
      PurgeKeeps(before, space, bytesToFree, State());
    }
  }

  /** ORDER BY created_at ASC; the order of equal times is the database's. */
  method OldestFirst(versions: map<string, Version>, ids: set<string>) returns (rows: seq<string>)
    requires ids <= versions.Keys
    ensures forall id :: id in rows <==> id in ids
    ensures forall i, j :: 0 <= i < j < |rows| ==> rows[i] != rows[j]
    ensures forall i, j :: 0 <= i < j < |rows| && rows[i] in versions && rows[j] in versions ==>
              versions[rows[i]].createdAt <= versions[rows[j]].createdAt
  {
    var rest := ids;
    rows := [];
    while rest != {}
      invariant rest <= ids
      invariant forall id :: id in rows <==> id in ids - rest
      invariant forall i :: 0 <= i < |rows| ==> rows[i] in versions
      invariant forall i, j :: 0 <= i < j < |rows| ==> rows[i] != rows[j]
      invariant forall i, j :: 0 <= i < j < |rows| ==> versions[rows[i]].createdAt <= versions[rows[j]].createdAt
      invariant forall i, id :: 0 <= i < |rows| && id in rest ==> versions[rows[i]].createdAt <= versions[id].createdAt
      decreases |rest|
    {
      ghost var some := Oldest(versions, rest);
      var id :| id in rest && forall other :: other in rest ==> versions[id].createdAt <= versions[other].createdAt;
      assert id !in rows;
      rows := rows + [id];
      rest := rest - {id};
    }
  }

  lemma NothingGone(s: Store, rows: seq<string>)
    ensures s == Without(s, Members(rows[..0])) && TotalSize(s, rows[..0]) == 0
  {
  }

  lemma OneMoreGone(s: Store, rows: seq<string>, k: nat)
    requires k < |rows|
    ensures TotalSize(s, rows[..k + 1]) == TotalSize(s, rows[..k]) + SizeOf(s, rows[k])
    ensures Without(s, Members(rows[..k + 1])) == Store(s.files, Without(s, Members(rows[..k])).versions - {rows[k]})
  {
    assert rows[..k + 1][..k] == rows[..k];
    assert rows[..k + 1] == rows[..k] + [rows[k]];
    assert Members(rows[..k + 1]) == Members(rows[..k]) + {rows[k]};
  }

  lemma EnoughGone(s: Store, space: string, bytes: int, rows: seq<string>, k: nat)
    requires ListsCandidates(s, space, rows) && ShortestEnough(s, rows, bytes, k)
    ensures Purged(s, space, bytes, Without(s, Members(rows[..k])))
  {
    assert PurgedBy(s, space, bytes, rows, k, Without(s, Members(rows[..k])));
  }

  lemma CandidatesExistIn(s: Store, space: string, rows: seq<string>)
    requires ListsCandidates(s, space, rows)
    ensures forall k :: 0 <= k < |rows| ==> rows[k] in s.versions && rows[k] !in Members(rows[..k])
  {
    forall k | 0 <= k < |rows| ensures rows[k] in s.versions && rows[k] !in Members(rows[..k]) {
      assert rows[k] in rows;
    }
  }

  lemma {:induction false} Oldest(versions: map<string, Version>, ids: set<string>) returns (id: string)
    requires ids != {} && ids <= versions.Keys
    ensures id in ids && forall other :: other in ids ==> versions[id].createdAt <= versions[other].createdAt
    decreases |ids|
  {
    id := Pick(ids);
    if ids - {id} != {} {
      var older := Oldest(versions, ids - {id});
      if versions[older].createdAt < versions[id].createdAt {
        id := older;
      }
    }
  }

  // ---- Every run ----

  datatype Action =
    | CreateFolder(file: string, space: string)
    | CreateFile(file: string, space: string, content: Content, id: string, now: int)
    | CreateVersion(file: string, content: Content, id: string, now: int)
    | Purge(space: string, bytes: int)

  ghost predicate Step(s: Store, a: Action, t: Store) {
    match a
    case CreateFolder(file, space) => file !in s.files && t == FolderCreated(s, file, space)
    case CreateFile(file, space, content, id, now) =>
      file !in s.files && id !in s.versions && t == FileCreated(s, file, space, content, id, now)
    case CreateVersion(file, content, id, now) =>
      if file in s.files then
        id !in s.versions && exists n :: IsNext(s, file, n) && t == VersionCreated(s, file, n, content, id, now)
      else t == s
    case Purge(space, bytes) => Purged(s, space, bytes, t)
  }

  ghost predicate Run(states: seq<Store>, actions: seq<Action>) {
    |states| == |actions| + 1 && forall i :: 0 <= i < |actions| ==> Step(states[i], actions[i], states[i + 1])
  }

  lemma StepKeeps(s: Store, a: Action, t: Store)
    requires Invariant(s) && Step(s, a, t)
    ensures Invariant(t)
  {
    hide Invariant, Purged, IsNext, VersionCreated, FileCreated, FolderCreated;
    match a {
      case CreateFolder(file, space) => FolderKeeps(s, file, space);
      case CreateFile(file, space, content, id, now) => FileKeeps(s, file, space, content, id, now);
      case CreateVersion(file, content, id, now) =>
        if file in s.files {
          var n :| IsNext(s, file, n) && t == VersionCreated(s, file, n, content, id, now);
          VersionKeeps(s, file, n, content, id, now);
        }
      case Purge(space, bytes) => PurgeKeeps(s, space, bytes, t);
    }
  }

  /** Through every run version numbers stay unique per file and each row repeats its newest version. */
  lemma {:induction false} RunKeeps(states: seq<Store>, actions: seq<Action>, k: nat)
    requires Run(states, actions) && Invariant(states[0]) && k < |states|
    ensures Invariant(states[k])
    decreases k
  {
    hide Invariant, Step;
    if k > 0 {
      RunKeeps(states, actions, k - 1);
      StepKeeps(states[k - 1], actions[k - 1], states[k]);
    }
  }

  /** From empty tables on. */
  lemma ReachableIsSound(states: seq<Store>, actions: seq<Action>, k: nat)
    requires Run(states, actions) && states[0] == Store(map[], map[]) && k < |states|
    ensures Invariant(states[k])
  {
    hide Run;
    RunKeeps(states, actions, k);
  }

  /** The file has a version numbered n or higher. */
  ghost predicate Reaches(s: Store, file: string, n: int) {
    exists id :: Of(s, file, id) && n <= s.versions[id].number
  }

  /** A version of the file that this step adds gets a number above all before it. */
  lemma NewNumberIsHigher(s: Store, a: Action, t: Store, file: string, n: int, id: string)
    requires Invariant(s) && Step(s, a, t) && Reaches(s, file, n)
    requires id !in s.versions && Of(t, file, id)
    ensures n < t.versions[id].number
  {
    if a.CreateVersion? {
      hide RowAgrees, Purged;
    } else if a.Purge? {
      hide RowAgrees, Purged;
      PurgeRemovesCandidates(s, a.space, a.bytes, t);
    }
  }

  lemma ReachesNewest(s: Store, file: string, n: int) returns (id: string)
    requires Invariant(s) && Reaches(s, file, n)
    ensures IsNewest(s, file, id) && n <= s.versions[id].number
  {
    var some :| Of(s, file, some) && n <= s.versions[some].number;
    assert file in s.files && RowAgrees(s, file);
    id :| IsNewest(s, file, id);
  }

  lemma StepKeepsReach(s: Store, a: Action, t: Store, file: string, n: int)
    requires Invariant(s) && Step(s, a, t) && Reaches(s, file, n)
    ensures Reaches(t, file, n)
  {
    var id := ReachesNewest(s, file, n);
    if a.Purge? {
      NewestStays(s, a.space, a.bytes, t, file, id);
    }
    hide Purged, RowAgrees, IsNext, IsNewest, Reaches;
    assert id in t.versions && t.versions[id] == s.versions[id];
    assert Of(t, file, id);
    assert Reaches(t, file, n);
  }

  lemma {:induction false} RunKeepsReach(states: seq<Store>, actions: seq<Action>, i: nat, j: nat, file: string, n: int)
    requires Run(states, actions) && Invariant(states[0]) && i <= j < |states|
    requires Reaches(states[i], file, n)
    ensures Reaches(states[j], file, n)
    decreases j - i
  {
    hide Invariant, Step, Reaches;
    if i < j {
      RunKeeps(states, actions, i);
      StepKeepsReach(states[i], actions[i], states[i + 1], file, n);
      RunKeepsReach(states, actions, i + 1, j, file, n);
    }
  }

  /** A file's version numbers are never used twice: a version that a later step adds has a higher
      number, even when the purge has removed versions in between. */
  lemma NumbersNeverReused(states: seq<Store>, actions: seq<Action>, i: nat, j: nat, file: string, earlier: string, later: string)
    requires Run(states, actions) && Invariant(states[0]) && i <= j < |actions|
    requires Of(states[i], file, earlier)
    requires later !in states[j].versions && Of(states[j + 1], file, later)
    ensures states[i].versions[earlier].number < states[j + 1].versions[later].number
  {
    hide Invariant, Step;
    var n := states[i].versions[earlier].number;
    RunKeepsReach(states, actions, i, j, file, n);
    RunKeeps(states, actions, j);
    NewNumberIsHigher(states[j], actions[j], states[j + 1], file, n, later);
  }
}
