/** The operations of dealroom/service.go on one room, step by step. */
module RoomService {
  import opened FolderTree
  import opened GoStrings
  import opened LockScope
  import opened Options
  import opened Paths
  import RoomLaws
  import opened Rooms

  /** The method did what the outcome says; a failed one changed nothing. */
  ghost predicate Effect(outcome: Outcome, before: RoomState, after: RoomState, err: Option<Error>) {
    match outcome
    case Done(room) => err.None? && after == room
    case Failed(e) => err == Some(e) && after == before
  }

  // ---- the path map of a rename ----

  ghost function PathMap(paths: set<string>, from: string, dest: string): map<string, string> {
    map p | p in paths && Under(from, p) :: Subst(from, dest, p)
  }

  /** Updates one path at a time do not run into each other. */
  ghost predicate StepsApart(m: map<string, string>) {
    (forall k :: k in m ==> m[k] == k) || (forall k :: k in m ==> m[k] !in m)
  }

  ghost function After(m: map<string, string>, done: set<string>, p: string): string {
    if p in done && p in m then m[p] else p
  }

  ghost function DocsAfter(docs: map<DocId, DocRow>, m: map<string, string>, done: set<string>): map<DocId, DocRow> {
    map d | d in docs :: docs[d].(folder := After(m, done, docs[d].folder))
  }

  ghost function PermsAfter(perms: seq<PermRow>, m: map<string, string>, done: set<string>): seq<PermRow> {
    seq(|perms|, i requires 0 <= i < |perms| => perms[i].(path := After(m, done, perms[i].path)))
  }

  /** Renames between siblings keep their steps apart, whatever else the room holds. */
  lemma SiblingStepsAreApart(paths: set<string>, from: string, dest: string)
    requires WellFormed(from) && WellFormed(dest) && Above(from) == Above(dest)
    ensures StepsApart(PathMap(paths, from, dest))
  {
    var m := PathMap(paths, from, dest);
    forall k | k in m ensures if dest == from then m[k] == k else m[k] !in m {
      if dest == from {
        SubstSame(k, from);
      } else {
        SubstMovesUnder(from, dest, k);
        SiblingsAreDisjoint(from, dest, m[k]);
      }
    }
  }

  lemma SoundStepsAreApart(s: RoomState, from: string, name: string)
    requires Sound(s) && Slugify(name) != []
    ensures var dest := Join(Parent(from), Slugify(name));
            RenameError(s, from, dest).None? ==> StepsApart(PathMap(PathSet(Loaded(s.stored)), from, dest))
  {
    var dest := Join(Parent(from), Slugify(name));
    if RenameError(s, from, dest).None? {
      RoomLaws.RenameIsRename(s, from, name);
      SiblingStepsAreApart(PathSet(Loaded(s.stored)), from, dest);
    }
  }

  /** UPDATE deal_room_documents SET folder_path = newPath WHERE folder_path = oldPath */
  function UpdateDocs(docs: map<DocId, DocRow>, oldPath: string, newPath: string): map<DocId, DocRow> {
    map d | d in docs :: if docs[d].folder == oldPath then docs[d].(folder := newPath) else docs[d]
  }

  lemma StepOfDocs(docs: map<DocId, DocRow>, m: map<string, string>, done: set<string>, k: string)
    requires StepsApart(m) && k in m && k !in done
    ensures UpdateDocs(DocsAfter(docs, m, done), k, m[k]) == DocsAfter(docs, m, done + {k})
  {
  }

  function UpdatePerms(perms: seq<PermRow>, oldPath: string, newPath: string): seq<PermRow> {
    seq(|perms|, i requires 0 <= i < |perms| =>
      if perms[i].path == oldPath then perms[i].(path := newPath) else perms[i])
  }

  lemma StepOfPerms(perms: seq<PermRow>, m: map<string, string>, done: set<string>, k: string)
    requires StepsApart(m) && k in m && k !in done
    ensures UpdatePerms(PermsAfter(perms, m, done), k, m[k]) == PermsAfter(perms, m, done + {k})
  {
  }

  /** A clash of permission rows after some steps is still there after all of them. */
  lemma ClashPersists(perms: seq<PermRow>, m: map<string, string>, done: set<string>)
    requires StepsApart(m) && !PermsUnique(PermsAfter(perms, m, done))
    ensures !PermsUnique(PermsAfter(perms, m, m.Keys))
  {
    var part, full := PermsAfter(perms, m, done), PermsAfter(perms, m, m.Keys);
    var i, j :| 0 <= i < j < |part| && part[i].email == part[j].email && part[i].path == part[j].path;
    assert full[i].email == full[j].email && full[i].path == full[j].path;
  }

  /** service.go:2573-2588: the updates of the path map in any order, inside the
      transaction.  A unique violation among the permissions aborts it. */
  method CascadePaths(docs: map<DocId, DocRow>, perms: seq<PermRow>, pathMap: map<string, string>)
    returns (ok: bool, newDocs: map<DocId, DocRow>, newPerms: seq<PermRow>)
    requires PermsUnique(perms)
    ensures StepsApart(pathMap) ==>
              ok == PermsUnique(PermsAfter(perms, pathMap, pathMap.Keys))
    ensures StepsApart(pathMap) && ok ==>
              newDocs == DocsAfter(docs, pathMap, pathMap.Keys) && newPerms == PermsAfter(perms, pathMap, pathMap.Keys)
    ensures ok ==> PermsUnique(newPerms)
  {
    newDocs, newPerms := docs, perms;
    var left := pathMap.Keys;
    while left != {}
      invariant left <= pathMap.Keys
      invariant PermsUnique(newPerms)
      invariant StepsApart(pathMap) ==> newDocs == DocsAfter(docs, pathMap, pathMap.Keys - left)
      invariant StepsApart(pathMap) ==> newPerms == PermsAfter(perms, pathMap, pathMap.Keys - left)
      decreases left
    {
      var oldPath :| oldPath in left;
      ghost var done := pathMap.Keys - left;
      newDocs := UpdateDocs(newDocs, oldPath, pathMap[oldPath]);
      newPerms := UpdatePerms(newPerms, oldPath, pathMap[oldPath]);
      left := left - {oldPath};
      if StepsApart(pathMap) {
        StepOfDocs(docs, pathMap, done, oldPath);
        StepOfPerms(perms, pathMap, done, oldPath);
        assert pathMap.Keys - left == done + {oldPath};
      }
      if !PermsUnique(newPerms) {
        if StepsApart(pathMap) { ClashPersists(perms, pathMap, done + {oldPath}); }
        return false, docs, perms;
      }
    }
    assert pathMap.Keys - left == pathMap.Keys;
    ok := true;
  }

  lemma PathMapOneMore(folders: seq<Folder>, i: nat, from: string, dest: string)
    requires i < |folders|
    ensures var p, m := folders[i].path, PathMap(PathSet(folders[..i]) + {from}, from, dest);
            PathMap(PathSet(folders[..i + 1]) + {from}, from, dest)
            == if from + "/" <= p then m[p := dest + p[|from|..]] else m
  {
    assert folders[..i + 1] == folders[..i] + [folders[i]];
    RoomLaws.AppendedPathSet(folders[..i], folders[i]);
  }

  /** service.go:2549-2556 */
  method BuildPathMap(folders: seq<Folder>, from: string, dest: string) returns (m: map<string, string>)
    requires from in PathSet(folders)
    ensures m == PathMap(PathSet(folders), from, dest)
  {
    m := map[from := dest];
    assert dest + from[|from|..] == dest;
    for i := 0 to |folders|
      invariant m == PathMap(PathSet(folders[..i]) + {from}, from, dest)
    {
      var p := folders[i].path;
      PathMapOneMore(folders, i, from, dest);
      if from + "/" <= p {
        m := m[p := dest + p[|from|..]];
      }
    }
    assert folders[..|folders|] == folders;
    assert PathSet(folders) + {from} == PathSet(folders);
  }

  /** service.go:2558-2568 */
  method RenameInMemory(folders: seq<Folder>, m: map<string, string>, from: string, dest: string, name: string)
    returns (renamed: seq<Folder>)
    requires m == PathMap(PathSet(folders), from, dest)
    ensures renamed == RenameEntries(folders, from, dest, name)
  {
    renamed := folders;
    for i := 0 to |folders|
      invariant |renamed| == |folders|
      invariant forall k :: 0 <= k < i ==> renamed[k] == RenameEntry(folders[k], from, dest, name)
      invariant forall k :: i <= k < |folders| ==> renamed[k] == folders[k]
    {
      assert folders[i] in folders;
      if renamed[i].path == from {
        renamed := renamed[i := renamed[i].(path := dest, name := name)];
      } else if from + "/" <= renamed[i].path {
        var p := m[renamed[i].path];
        renamed := renamed[i := renamed[i].(path := p, name := Name(p))];
      }
    }
  }

  method RescopeLink(scope: seq<string>, from: string, dest: string) returns (r: seq<string>)
    ensures r == MoveScope(scope, from, dest)
  {
    r := scope;
    for i := 0 to |scope|
      invariant |r| == |scope|
      invariant forall k :: 0 <= k < |scope| ==> r[k] == if k < i then Subst(from, dest, scope[k]) else scope[k]
    {
      var p := scope[i];
      if p == from {
        assert dest + p[|from|..] == dest;
        r := r[i := dest];
      } else if from + "/" <= p {
        r := r[i := dest + p[|from|..]];
      }
    }
  }

  /** service.go:2590-2609 */
  method RescopeLinks(scopes: map<LinkId, seq<string>>, from: string, dest: string)
    returns (r: map<LinkId, seq<string>>)
    ensures r == MoveScopes(scopes, from, dest)
  {
    r := scopes;
    var left := scopes.Keys;
    while left != {}
      invariant left <= scopes.Keys == r.Keys
      invariant forall l :: l in scopes ==> r[l] == if l in left then scopes[l] else MoveScope(scopes[l], from, dest)
      decreases left
    {
      var l :| l in left;
      var paths := RescopeLink(scopes[l], from, dest);
      r := r[l := paths];
      left := left - {l};
    }
  }

  lemma {:induction false} KeepFoldersOfSum(a: seq<Folder>, b: seq<Folder>, top: string)
    ensures KeepFolders(a + b, top) == KeepFolders(a, top) + KeepFolders(b, top)
  {
    if a == [] {
      assert a + b == b;
    } else {
      assert (a + b)[1..] == a[1..] + b;
      KeepFoldersOfSum(a[1..], b, top);
    }
  }

  lemma KeepFoldersOfLast(folders: seq<Folder>, top: string)
    requires folders != []
    ensures var init, last := folders[..|folders| - 1], folders[|folders| - 1];
            KeepFolders(folders, top) == KeepFolders(init, top) + if Under(top, last.path) then [] else [last]
  {
    var init, last := folders[..|folders| - 1], folders[|folders| - 1];
    assert folders == init + [last];
    KeepFoldersOfSum(init, [last], top);
  }

  /** service.go:2768-2774 */
  method FoldersOutside(folders: seq<Folder>, top: string) returns (kept: seq<Folder>)
    ensures kept == KeepFolders(folders, top)
  {
    kept := [];
    for i := 0 to |folders|
      invariant kept == KeepFolders(folders[..i], top)
    {
      KeepFoldersOfLast(folders[..i + 1], top);
      assert folders[..i + 1][..i] == folders[..i];
      if !(folders[i].path == top || top + "/" <= folders[i].path) {
        kept := kept + [folders[i]];
      }
    }
    assert folders[..|folders|] == folders;
  }

  /** service.go:2486-2491 */
  method HighestOrder(folders: seq<Folder>) returns (maxOrder: int)
    ensures maxOrder == MaxOrder(folders)
  {
    maxOrder := -1;
    for i := 0 to |folders|
      invariant maxOrder == MaxOrder(folders[..i])
    {
      assert folders[..i + 1][..i] == folders[..i];
      if folders[i].sortOrder > maxOrder {
        maxOrder := folders[i].sortOrder;
      }
    }
    assert folders[..|folders|] == folders;
  }

  lemma {:induction false} KeepPermsIsUnique(perms: seq<PermRow>, top: string)
    requires PermsUnique(perms)
    ensures PermsUnique(KeepPerms(perms, top))
  {
    if perms != [] {
      var rest := KeepPerms(perms[1..], top);
      KeepPermsIsUnique(perms[1..], top);
      forall i | 0 <= i < |rest|
        ensures rest[i].email != perms[0].email || rest[i].path != perms[0].path
      {
        assert rest[i] in perms[1..];
      }
    }
  }

  lemma AfterIsMoved(paths: set<string>, from: string, dest: string, p: string)
    ensures After(PathMap(paths, from, dest), PathMap(paths, from, dest).Keys, p) == MovedPath(paths, from, dest, p)
  {
  }

  lemma CascadeIsMove(docs: map<DocId, DocRow>, perms: seq<PermRow>, paths: set<string>, from: string, dest: string)
    ensures var m := PathMap(paths, from, dest);
            && DocsAfter(docs, m, m.Keys) == MoveDocs(docs, paths, from, dest)
            && PermsAfter(perms, m, m.Keys) == MovePerms(perms, paths, from, dest)
  {
    forall p
      ensures After(PathMap(paths, from, dest), PathMap(paths, from, dest).Keys, p) == MovedPath(paths, from, dest, p)
    {
      AfterIsMoved(paths, from, dest, p);
    }
  }

  method CheckCreate(folders: seq<Folder>, parent: string, path: string) returns (err: Option<Error>)
    ensures err == CreateError(folders, parent, path)
  {
    if parent != ROOT && !Exists(folders, parent) { return Some(FolderNotFound); }
    if parent != ROOT && IsLocked(folders, parent) { return Some(ResourceLocked); }
    if Exists(folders, path) { return Some(FolderExists); }
    err := None;
  }

  class Room {
    var stored: seq<Folder>
    var docs: map<DocId, DocRow>
    var perms: seq<PermRow>
    var scopes: map<LinkId, seq<string>>

    ghost function State(): RoomState
      reads this
    {
      RoomState(stored, docs, perms, scopes)
    }

    /** The unique index on the permission table. */
    ghost predicate Valid()
      reads this
    {
      PermsUnique(perms)
    }

    constructor (folders: seq<Folder>)
      ensures Valid() && State() == RoomState(folders, map[], [], map[])
    {
      stored, docs, perms, scopes := folders, map[], [], map[];
    }

    method CreateFolder(rawName: string, rawParent: string) returns (err: Option<Error>)
      requires Valid()
      modifies this`stored
      ensures Valid()
      ensures Effect(Rooms.CreateFolder(old(State()), rawName, rawParent), old(State()), State(), err)
    {
      var name := TrimSpace(rawName);
      if NameError(name).Some? { return NameError(name); }
      var folders := Loaded(stored);
      var parent := Normalize(if rawParent == [] then folders[0].path else rawParent);
      err := CreateAt(folders, parent, Join(parent, Slugify(name)), name);
    }

    /** service.go:2474-2502 */
    method CreateAt(folders: seq<Folder>, parent: string, path: string, name: string) returns (err: Option<Error>)
      requires Valid() && folders == Loaded(stored)
      modifies this`stored
      ensures Valid()
      ensures Effect(Rooms.CreateAt(old(State()), parent, path, name), old(State()), State(), err)
    {
      err := CheckCreate(folders, parent, path);
      if err.Some? { return; }
      var maxOrder := HighestOrder(folders);
      stored := folders + [Folder(path, name, "", maxOrder + 1, false)];
    }

    /** Whatever order the path map is walked in, the result is the one substitution: in
        every sound room, and in any other where the steps do not run into each other. */
    method RenameFolder(rawPath: string, rawName: string) returns (err: Option<Error>)
      requires Valid()
      modifies this
      ensures Valid()
      ensures Sound(old(State())) ||
              StepsApart(PathMap(PathSet(Loaded(old(stored))), Normalize(rawPath),
                                 Join(Parent(Normalize(rawPath)), Slugify(TrimSpace(rawName))))) ==>
                Effect(Rooms.RenameFolder(old(State()), rawPath, rawName), old(State()), State(), err)
    {
      var from, name := Normalize(rawPath), TrimSpace(rawName);
      if from == ROOT { return Some(FolderNotFound); }
      if NameError(name).Some? { return NameError(name); }
      var folders := Loaded(stored);
      if Sound(State()) { SoundStepsAreApart(State(), from, name); }
      err := RenameAt(folders, from, Join(Parent(from), Slugify(name)), name);
    }

    /** service.go:2531-2615 */
    method RenameAt(folders: seq<Folder>, from: string, dest: string, name: string) returns (err: Option<Error>)
      requires Valid() && folders == Loaded(stored)
      modifies this
      ensures Valid()
      ensures StepsApart(PathMap(PathSet(Loaded(old(stored))), from, dest)) ||
              RenameError(old(State()), from, dest).Some? ==>
                Effect(Rooms.RenameAt(old(State()), from, dest, name), old(State()), State(), err)
    {
      var idx := FolderIndex(folders, from);
      if idx < 0 { return Some(FolderNotFound); }
      if folders[idx].locked { return Some(ResourceLocked); }
      if dest != from && Exists(folders, dest) { return Some(FolderExists); }
      RoomLaws.ExistsMeansListed(folders, from);
      var pathMap := BuildPathMap(folders, from, dest);
      var renamed := RenameInMemory(folders, pathMap, from, dest, name);
      var ok, newDocs, newPerms := CascadePaths(docs, perms, pathMap);
      CascadeIsMove(docs, perms, PathSet(folders), from, dest);
      if !ok { return Some(PermissionConflict); }
      var newScopes := RescopeLinks(scopes, from, dest);
      docs, perms, scopes, stored := newDocs, newPerms, newScopes, renamed;
      err := None;
    }

    /** service.go:2733-2817 */
    method DeleteFolder(rawPath: string) returns (err: Option<Error>)
      requires Valid()
      modifies this
      ensures Valid()
      ensures Effect(Rooms.DeleteFolder(old(State()), rawPath), old(State()), State(), err)
    {
      var path := Normalize(rawPath);
      if path == ROOT { return Some(FolderNotFound); }
      var folders := Loaded(stored);
      if !Exists(folders, path) { return Some(FolderNotFound); }
      if IsLocked(folders, path) { return Some(ResourceLocked); }
      if HasDocuments(docs, path) { return Some(FolderNotEmpty); }
      var kept := FoldersOutside(folders, path);
      KeepPermsIsUnique(perms, path);
      perms := KeepPerms(perms, path);
      stored := kept;
      scopes := KeepScopes(scopes, path);
      err := None;
    }

    /** service.go:1900-2022 */
    method AddDocument(doc: DocId, rawFolder: string, sortOrder: int, documentCheck: Check, membershipCheck: Check)
      returns (err: Option<Error>)
      requires Valid()
      modifies this`docs
      ensures Valid()
      ensures Effect(Rooms.AddDocument(old(State()), doc, rawFolder, sortOrder, documentCheck, membershipCheck),
                     old(State()), State(), err)
    {
      var folders := Loaded(stored);
      var folder := Normalize(rawFolder);
      if folder == ROOT { return Some(FolderPathRequired); }
      if !Exists(folders, folder) { return Some(FolderNotFound); }
      if IsLocked(folders, folder) { return Some(ResourceLocked); }
      if documentCheck.Refuse? { return Some(DocumentRefused(documentCheck.reason)); }
      if doc in docs {
        docs := docs[doc := docs[doc].(folder := folder, sortOrder := sortOrder)];
        return None;
      }
      if membershipCheck.Refuse? { return Some(DocumentRefused(membershipCheck.reason)); }
      docs := docs[doc := DocRow(folder, sortOrder, false)];
      err := None;
    }

    /** service.go:2156-2208 */
    method MoveDocument(doc: DocId, folder: string, sortOrder: Option<int>) returns (err: Option<Error>)
      requires Valid()
      modifies this`docs
      ensures Valid()
      ensures Effect(Rooms.MoveDocument(old(State()), doc, folder, sortOrder), old(State()), State(), err)
    {
      var folders := Loaded(stored);
      if !Exists(folders, folder) { return Some(FolderNotFound); }
      if IsLocked(folders, folder) { return Some(ResourceLocked); }
      if doc !in docs { return Some(DocumentNotFound); }
      if docs[doc].locked { return Some(ResourceLocked); }
      docs := docs[doc := docs[doc].(folder := folder)];
      if sortOrder.Some? {
        docs := docs[doc := docs[doc].(sortOrder := sortOrder.value)];
      }
      err := None;
    }

    /** service.go:2652-2667 */
    method LockFolders(rawPaths: seq<string>, locked: bool) returns (err: Option<Error>)
      requires Valid()
      modifies this`stored
      ensures Valid()
      ensures Effect(Rooms.LockFolders(old(State()), rawPaths, locked), old(State()), State(), err)
    {
      var folders := Loaded(stored);
      for i := 0 to |rawPaths|
        invariant LockEntries(folders, rawPaths[i..], locked) == LockEntries(Loaded(stored), rawPaths, locked)
        invariant stored == old(stored)
      {
        assert rawPaths[i..][1..] == rawPaths[i + 1..];
        var idx := FolderIndex(folders, Normalize(rawPaths[i]));
        if idx < 0 { return Some(FolderNotFound); }
        folders := folders[idx := folders[idx].(locked := locked)];
      }
      stored := folders;
      err := None;
    }
  }
}
