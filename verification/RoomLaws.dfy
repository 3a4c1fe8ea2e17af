/** What holds of a data room after any sequence of operations. */
module RoomLaws {
  import opened FolderTree
  import opened GoStrings
  import opened LockScope
  import opened Options
  import opened Paths
  import opened Rooms
  import opened SqlLike

  lemma ExistsMeansListed(folders: seq<Folder>, path: string)
    ensures Exists(folders, path) <==> path in PathSet(folders)
  {
    var i := FolderIndex(folders, path);
    if i >= 0 {
      assert folders[i] in folders;
    }
  }

  lemma {:induction false} WithoutRootIsIdentity(folders: seq<Folder>)
    requires forall f :: f in folders ==> f.path != ROOT
    ensures WithoutRoot(folders) == folders
  {
    if folders != [] {
      assert folders[0] in folders;
      WithoutRootIsIdentity(folders[1..]);
    }
  }

  lemma {:induction false} WithoutRootIsShorter(folders: seq<Folder>)
    ensures |WithoutRoot(folders)| <= |folders|
    ensures (exists f :: f in folders && f.path == ROOT) ==> |WithoutRoot(folders)| < |folders|
  {
    if folders != [] { WithoutRootIsShorter(folders[1..]); }
  }

  lemma RootIsNotLoaded(folders: seq<Folder>)
    ensures ROOT !in PathSet(Loaded(folders))
  {
    assert GENERAL.path != ROOT;
  }

  /** A saved list is what the next load returns exactly when it is not empty and does not list the root;
      an empty list becomes General. */
  lemma LoadAfterSave(folders: seq<Folder>)
    ensures Loaded(folders) == folders <==> folders != [] && ROOT !in PathSet(folders)
    ensures folders == [] ==> Loaded(folders) == [Folder("/general", "General", "", 0, false)]
  {
    if ROOT !in PathSet(folders) {
      WithoutRootIsIdentity(folders);
    } else {
      WithoutRootIsShorter(folders);
      RootIsNotLoaded(folders);
    }
  }

  lemma LoadOfTree(folders: seq<Folder>)
    requires IsTree(PathSet(folders))
    ensures Loaded(folders) == if folders == [] then [GENERAL] else folders
  {
    LoadAfterSave(folders);
    if ROOT in PathSet(folders) { WellFormedIsNotRoot(ROOT); }
  }

  lemma GeneralIsTopLevel()
    ensures WellFormed(GENERAL.path) && Above(GENERAL.path) == ROOT
  {
    var name := "general";
    assert [] + "/" + name == GENERAL.path;
    assert Segment(name);
    AppendSegment([], name);
  }

  lemma GeneralIsTree()
    ensures IsTree(PathSet([GENERAL])) && Unique([GENERAL])
  {
    GeneralIsTopLevel();
  }

  /** A list saved by an operation: what Sound asks of it. */
  lemma SaveIsSound(s: RoomState)
    requires IsTree(PathSet(s.stored)) && Unique(s.stored)
    requires forall d :: d in s.docs ==> s.docs[d].folder in PathSet(s.stored)
    ensures Sound(s)
  {
    LoadOfTree(s.stored);
    GeneralIsTree();
    if s.stored == [] {
      assert PathSet(s.stored) == {};
    }
  }

  lemma CreatedRoom(s: RoomState, parent: string, path: string, name: string)
    ensures var folders, r := Loaded(s.stored), CreateAt(s, parent, path, name);
            r.Done? ==> !Exists(folders, path) && r.room == s.(stored := folders + [NewFolder(folders, path, name)])
  {}

  lemma AppendedPathSet(folders: seq<Folder>, f: Folder)
    ensures PathSet(folders + [f]) == PathSet(folders) + {f.path}
    ensures Unique(folders) && f.path !in PathSet(folders) ==> Unique(folders + [f])
  {
    assert forall g :: g in folders + [f] <==> g in folders || g == f;
    assert forall i :: 0 <= i < |folders| ==> folders[i] in folders;
  }

  lemma AppendingKeepsSound(s: RoomState, parent: string, slug: string, f: Folder)
    requires Sound(s) && (parent == ROOT || parent in PathSet(Loaded(s.stored)))
    requires Segment(slug)
    requires f.path == Child(parent, slug) && f.path !in PathSet(Loaded(s.stored))
    ensures Sound(s.(stored := Loaded(s.stored) + [f]))
  {
    var folders := Loaded(s.stored);
    AddKeepsTree(PathSet(folders), parent, slug);
    AppendedPathSet(folders, f);
    SaveIsSound(s.(stored := folders + [f]));
  }

  lemma AddingKeepsSound(s: RoomState, parent: string, slug: string, name: string)
    requires Sound(s) && (parent == ROOT || parent in PathSet(Loaded(s.stored)))
    requires Segment(slug)
    ensures var r := CreateAt(s, parent, Child(parent, slug), name); r.Done? ==> Sound(r.room)
  {
    var folders, path := Loaded(s.stored), Child(parent, slug);
    ExistsMeansListed(folders, path);
    CreatedRoom(s, parent, path, name);
    if path !in PathSet(folders) { AppendingKeepsSound(s, parent, slug, NewFolder(folders, path, name)); }
  }

  lemma CreateAtKeepsSound(s: RoomState, parent: string, name: string)
    requires Sound(s) && Slugify(name) != []
    ensures var r := CreateAt(s, parent, Join(parent, Slugify(name)), name); r.Done? ==> Sound(r.room)
  {
    var folders, slug := Loaded(s.stored), Slugify(name);
    SlugIsSegment(name);
    ExistsMeansListed(folders, parent);
    if parent == ROOT || parent in PathSet(folders) {
      OfWellFormed(parent, slug);
      AddingKeepsSound(s, parent, slug, name);
    }
  }

  lemma CreateKeepsSound(s: RoomState, rawName: string, rawParent: string)
    requires Sound(s)
    ensures var r := CreateFolder(s, rawName, rawParent); r.Done? ==> Sound(r.room)
  {
    var name := TrimSpace(rawName);
    if NameError(name).None? {
      var parent := Normalize(if rawParent == [] then Loaded(s.stored)[0].path else rawParent);
      CreateAtKeepsSound(s, parent, name);
    }
  }

  lemma KeptPathSet(folders: seq<Folder>, top: string)
    ensures PathSet(KeepFolders(folders, top)) == set p | p in PathSet(folders) && !Under(top, p)
  {
  }

  lemma {:induction false} KeepFoldersIsUnique(folders: seq<Folder>, top: string)
    requires Unique(folders)
    ensures Unique(KeepFolders(folders, top))
  {
    if folders != [] {
      var rest := KeepFolders(folders[1..], top);
      KeepFoldersIsUnique(folders[1..], top);
      forall i | 0 <= i < |rest| ensures rest[i].path != folders[0].path {
        assert rest[i] in folders[1..];
      }
    }
  }

  /** No document is in the folder or below it. */
  ghost predicate EmptyBelow(docs: map<DocId, DocRow>, path: string) {
    forall d :: d in docs ==> !Under(path, docs[d].folder)
  }

  lemma DeletedRoom(s: RoomState, rawPath: string)
    requires DeleteFolder(s, rawPath).Done?
    ensures var path, folders := Normalize(rawPath), Loaded(s.stored);
            && path in PathSet(folders) && !HasDocuments(s.docs, path)
            && DeleteFolder(s, rawPath).room.stored == KeepFolders(folders, path)
            && DeleteFolder(s, rawPath).room.docs == s.docs
  {
    ExistsMeansListed(Loaded(s.stored), Normalize(rawPath));
  }

  lemma DeleteOfEmptyKeepsSound(s: RoomState, rawPath: string)
    requires Sound(s) && DeleteFolder(s, rawPath).Done? && EmptyBelow(s.docs, Normalize(rawPath))
    ensures Sound(DeleteFolder(s, rawPath).room)
  {
    var path, folders := Normalize(rawPath), Loaded(s.stored);
    DeletedRoom(s, rawPath);
    KeptPathSet(folders, path);
    RemoveKeepsTree(PathSet(folders), path);
    KeepFoldersIsUnique(folders, path);
    SaveIsSound(DeleteFolder(s, rawPath).room);
  }

  /** General, which takes the place of an empty list, is not strictly inside any folder. */
  lemma GeneralIsOnTop(path: string)
    requires path != [] && Under(path, GENERAL.path)
    ensures path == GENERAL.path
  {
    GeneralIsTopLevel();
    UnderStepsToParent(path, GENERAL.path);
  }

  /** What is under a dropped folder is in no folder that is left, nor in General in place of none. */
  lemma NothingUnderIsKept(folders: seq<Folder>, path: string, p: string)
    requires WellFormed(path) && Under(path, p) && p != path
    ensures p !in PathSet(Loaded(KeepFolders(folders, path)))
  {
    if p == GENERAL.path { GeneralIsOnTop(path); }
    var kept := KeepFolders(folders, path);
    forall f | f in Loaded(kept) ensures f.path != p {
      assert f in kept || f == GENERAL;
    }
  }

  lemma DeletedDocumentIsOrphaned(s: RoomState, rawPath: string, d: DocId)
    requires Sound(s) && DeleteFolder(s, rawPath).Done?
    requires d in s.docs && Under(Normalize(rawPath), s.docs[d].folder)
    ensures s.docs[d].folder !in PathSet(Loaded(DeleteFolder(s, rawPath).room.stored))
  {
    DeletedRoom(s, rawPath);
    assert !SelectedBy(Normalize(rawPath), s.docs[d].folder);
    NothingUnderIsKept(Loaded(s.stored), Normalize(rawPath), s.docs[d].folder);
  }

  lemma StrayMeansUnsound(s: RoomState, d: DocId)
    requires d in s.docs && s.docs[d].folder !in PathSet(Loaded(s.stored))
    ensures !Sound(s)
  {}

  /** A folder that is deleted leaves the room sound exactly when no document was in it or below it;
      otherwise these documents are left in no folder. */
  lemma DeleteKeepsSoundExactly(s: RoomState, rawPath: string)
    requires Sound(s) && DeleteFolder(s, rawPath).Done?
    ensures Sound(DeleteFolder(s, rawPath).room) <==> EmptyBelow(s.docs, Normalize(rawPath))
  {
    if EmptyBelow(s.docs, Normalize(rawPath)) {
      DeleteOfEmptyKeepsSound(s, rawPath);
    } else {
      var d :| d in s.docs && Under(Normalize(rawPath), s.docs[d].folder);
      DeletedRoom(s, rawPath);
      DeletedDocumentIsOrphaned(s, rawPath, d);
      StrayMeansUnsound(DeleteFolder(s, rawPath).room, d);
    }
  }

  /** The guard of DeleteFolder has counted everything below when the query sees the path's subtree. */
  lemma SeenPathIsEmptyBelow(s: RoomState, rawPath: string)
    requires DeleteFolder(s, rawPath).Done?
    requires LikeUnder(Normalize(rawPath), Normalize(rawPath) + "/")
    ensures EmptyBelow(s.docs, Normalize(rawPath))
  {
    var path := Normalize(rawPath);
    LikeUnderSeesAllExactly(path);
    forall d | d in s.docs ensures !Under(path, s.docs[d].folder) {
      assert !SelectedBy(path, s.docs[d].folder);
    }
  }

  lemma SamePathsKeepSound(s: RoomState, t: RoomState)
    requires Sound(s) && |t.stored| == |Loaded(s.stored)| && t.docs == s.docs
    requires forall i :: 0 <= i < |t.stored| ==> t.stored[i].path == Loaded(s.stored)[i].path
    ensures Sound(t)
  {
    var folders := Loaded(s.stored);
    forall f | f in t.stored ensures f.path in PathSet(folders) {
      var i :| 0 <= i < |t.stored| && t.stored[i] == f;
      assert folders[i] in folders;
    }
    forall f | f in folders ensures f.path in PathSet(t.stored) {
      var i :| 0 <= i < |folders| && folders[i] == f;
      assert t.stored[i] in t.stored;
    }
    assert PathSet(t.stored) == PathSet(folders);
    SaveIsSound(t);
  }

  // ---- renaming ----

  lemma RenameIsRename(s: RoomState, from: string, name: string)
    requires Sound(s) && Slugify(name) != []
    requires RenameError(s, from, Join(Parent(from), Slugify(name))).None?
    ensures IsRename(PathSet(Loaded(s.stored)), from, Join(Parent(from), Slugify(name)))
  {
    var folders, slug := Loaded(s.stored), Slugify(name);
    ExistsMeansListed(folders, from);
    SlugIsSegment(name);
    OfWellFormed(from, []);
    SplitWellFormed(from);
    OfWellFormed(Above(from), slug);
    ExistsMeansListed(folders, Child(Above(from), slug));
    RenameTargetIsRename(PathSet(folders), from, slug);
  }

  lemma EntryPath(f: Folder, from: string, dest: string, name: string)
    ensures RenameEntry(f, from, dest, name).path == Subst(from, dest, f.path)
    ensures RenameEntry(f, from, dest, name).locked == f.locked
  {
    if f.path == from { assert dest + f.path[|from|..] == dest; }
  }

  lemma RenamedPathSet(folders: seq<Folder>, from: string, dest: string, name: string)
    ensures PathSet(RenameEntries(folders, from, dest, name)) == Renamed(PathSet(folders), from, dest)
  {
    var after := RenameEntries(folders, from, dest, name);
    forall f | f in folders ensures Subst(from, dest, f.path) in PathSet(after) {
      var i :| 0 <= i < |folders| && folders[i] == f;
      EntryPath(f, from, dest, name);
      assert after[i] in after;
    }
    forall g | g in after ensures g.path in Renamed(PathSet(folders), from, dest) {
      var i :| 0 <= i < |after| && after[i] == g;
      EntryPath(folders[i], from, dest, name);
      assert folders[i] in folders;
    }
  }

  lemma RenamedIsUnique(folders: seq<Folder>, from: string, dest: string, name: string)
    requires Unique(folders) && IsRename(PathSet(folders), from, dest)
    ensures Unique(RenameEntries(folders, from, dest, name))
  {
    var after := RenameEntries(folders, from, dest, name);
    forall i, j | 0 <= i < j < |after| ensures after[i].path != after[j].path {
      EntryPath(folders[i], from, dest, name);
      EntryPath(folders[j], from, dest, name);
      assert folders[i] in folders && folders[j] in folders;
      SubstUndone(PathSet(folders), from, dest, folders[i].path);
      SubstUndone(PathSet(folders), from, dest, folders[j].path);
    }
  }

  lemma RenamingKeepsSound(s: RoomState, from: string, dest: string, name: string)
    requires Sound(s) && IsRename(PathSet(Loaded(s.stored)), from, dest)
    ensures var r := Renaming(s, from, dest, name); r.Done? ==> Sound(r.room)
    ensures var r := Renaming(s, from, dest, name);
            r.Done? ==> PathSet(Loaded(r.room.stored)) == Renamed(PathSet(Loaded(s.stored)), from, dest)
  {
    var r := Renaming(s, from, dest, name);
    if r.Done? {
      var folders := Loaded(s.stored);
      RenamedPathSet(folders, from, dest, name);
      RenamedIsUnique(folders, from, dest, name);
      RenameKeepsTree(PathSet(folders), from, dest);
      SaveIsSound(r.room);
      LoadOfTree(r.room.stored);
    }
  }

  lemma DocsSubstituted(docs: map<DocId, DocRow>, paths: set<string>, from: string, dest: string)
    requires forall d :: d in docs ==> docs[d].folder in paths
    ensures MoveDocs(docs, paths, from, dest)
            == map d | d in docs :: docs[d].(folder := Subst(from, dest, docs[d].folder))
  {}

  /** In a sound room a rename is one simultaneous substitution on every folder, document
      and link scope, and on every permission row of a listed folder. */
  lemma RenameIsSubstitution(s: RoomState, from: string, dest: string, name: string)
    requires Sound(s) && IsRename(PathSet(Loaded(s.stored)), from, dest)
    requires Renaming(s, from, dest, name).Done?
    ensures var t := Renaming(s, from, dest, name).room;
            && PathSet(Loaded(t.stored)) == (set p | p in PathSet(Loaded(s.stored)) :: Subst(from, dest, p))
            && t.docs == (map d | d in s.docs :: s.docs[d].(folder := Subst(from, dest, s.docs[d].folder)))
            && t.scopes == MoveScopes(s.scopes, from, dest)
  {
    RenamingKeepsSound(s, from, dest, name);
    DocsSubstituted(s.docs, PathSet(Loaded(s.stored)), from, dest);
  }

  lemma RenameAtKeepsSound(s: RoomState, from: string, name: string)
    requires Sound(s) && Slugify(name) != []
    ensures var r := RenameAt(s, from, Join(Parent(from), Slugify(name)), name); r.Done? ==> Sound(r.room)
  {
    var dest := Join(Parent(from), Slugify(name));
    if RenameError(s, from, dest).None? {
      RenameIsRename(s, from, name);
      RenamingKeepsSound(s, from, dest, name);
    }
  }

  lemma RenameKeepsSound(s: RoomState, rawPath: string, rawName: string)
    requires Sound(s)
    ensures var r := RenameFolder(s, rawPath, rawName); r.Done? ==> Sound(r.room)
  {
    var name := TrimSpace(rawName);
    if NameError(name).None? { RenameAtKeepsSound(s, Normalize(rawPath), name); }
  }

  // ---- runs ----

  lemma PlacingKeepsSound(s: RoomState, doc: DocId, row: DocRow)
    requires Sound(s) && Exists(Loaded(s.stored), row.folder)
    ensures Sound(s.(docs := s.docs[doc := row]))
  {
    ExistsMeansListed(Loaded(s.stored), row.folder);
  }

  lemma AddKeepsSound(s: RoomState, doc: DocId, rawFolder: string, order: int, check1: Check, check2: Check)
    requires Sound(s)
    ensures var r := AddDocument(s, doc, rawFolder, order, check1, check2); r.Done? ==> Sound(r.room)
  {
    var r := AddDocument(s, doc, rawFolder, order, check1, check2);
    if r.Done? { PlacingKeepsSound(s, doc, r.room.docs[doc]); }
  }

  lemma MoveKeepsSound(s: RoomState, doc: DocId, folder: string, order: Option<int>)
    requires Sound(s)
    ensures var r := MoveDocument(s, doc, folder, order); r.Done? ==> Sound(r.room)
  {
    var r := MoveDocument(s, doc, folder, order);
    if r.Done? { PlacingKeepsSound(s, doc, r.room.docs[doc]); }
  }

  lemma LocksKeepSound(s: RoomState, rawPaths: seq<string>, locked: bool)
    requires Sound(s)
    ensures var r := LockFolders(s, rawPaths, locked); r.Done? ==> Sound(r.room)
  {
    var r := LockFolders(s, rawPaths, locked);
    if r.Done? { SamePathsKeepSound(s, r.room); }
  }

  /** op deletes a folder although documents are in it or below it. */
  ghost predicate LosesDocuments(s: RoomState, op: Operation) {
    op.Delete? && DeleteFolder(s, op.path).Done? && !EmptyBelow(s.docs, Normalize(op.path))
  }

  lemma DeletionKeepsSoundExactly(s: RoomState, path: string)
    requires Sound(s)
    ensures Sound(Next(s, Delete(path))) <==> !LosesDocuments(s, Delete(path))
  {
    if DeleteFolder(s, path).Done? { DeleteKeepsSoundExactly(s, path); }
  }

  lemma CreationKeepsSound(s: RoomState, name: string, parent: string)
    requires Sound(s)
    ensures Sound(Next(s, Create(name, parent)))
  {
    CreateKeepsSound(s, name, parent);
  }

  lemma RenamingOfFolderKeepsSound(s: RoomState, path: string, name: string)
    requires Sound(s)
    ensures Sound(Next(s, Rename(path, name)))
  {
    RenameKeepsSound(s, path, name);
  }

  lemma NextOfLocking(s: RoomState, paths: seq<string>, locked: bool)
    ensures var r := LockFolders(s, paths, locked);
            Next(s, SetFolderLocks(paths, locked)) == if r.Done? then r.room else s
  {}

  lemma LockingKeepsSound(s: RoomState, paths: seq<string>, locked: bool)
    requires Sound(s)
    ensures Sound(Next(s, SetFolderLocks(paths, locked)))
  {
    LocksKeepSound(s, paths, locked);
    NextOfLocking(s, paths, locked);
  }

  lemma NextOfAdding(s: RoomState, doc: DocId, folder: string, order: int, check1: Check, check2: Check)
    ensures var r := AddDocument(s, doc, folder, order, check1, check2);
            Next(s, Add(doc, folder, order, check1, check2)) == if r.Done? then r.room else s
  {}

  lemma NextOfMoving(s: RoomState, doc: DocId, folder: string, order: Option<int>)
    ensures var r := MoveDocument(s, doc, folder, order);
            Next(s, Move(doc, folder, order)) == if r.Done? then r.room else s
  {}

  lemma SameFoldersStaySound(s: RoomState, t: RoomState)
    requires Sound(s) && t.stored == s.stored
    requires forall d :: d in t.docs ==> d in s.docs && t.docs[d].folder == s.docs[d].folder
    ensures Sound(t)
  {}

  lemma NextOfRemoving(s: RoomState, doc: DocId)
    ensures var t := Next(s, Remove(doc));
            t.stored == s.stored && forall d :: d in t.docs ==> d in s.docs && t.docs[d] == s.docs[d]
  {}

  lemma RemoveKeepsSound(s: RoomState, doc: DocId)
    requires Sound(s)
    ensures Sound(Next(s, Remove(doc)))
  {
    NextOfRemoving(s, doc);
    SameFoldersStaySound(s, Next(s, Remove(doc)));
  }

  lemma DocumentLocksKeepFolders(s: RoomState, ids: set<DocId>, locked: bool)
    ensures var t := LockDocuments(s, ids, locked).room;
            t.stored == s.stored &&
            forall d :: d in t.docs ==> d in s.docs && t.docs[d].folder == s.docs[d].folder
  {}

  lemma NextOfDocumentLocks(s: RoomState, ids: set<DocId>, locked: bool)
    ensures Next(s, SetDocumentLocks(ids, locked)) == LockDocuments(s, ids, locked).room
  {}

  lemma DocumentLocksKeepSound(s: RoomState, ids: set<DocId>, locked: bool)
    requires Sound(s)
    ensures Sound(Next(s, SetDocumentLocks(ids, locked)))
  {
    DocumentLocksKeepFolders(s, ids, locked);
    SameFoldersStaySound(s, LockDocuments(s, ids, locked).room);
    NextOfDocumentLocks(s, ids, locked);
  }

  lemma DocumentOperationKeepsSound(s: RoomState, op: Operation)
    requires Sound(s) && !op.Create? && !op.Rename? && !op.SetFolderLocks? && !op.Delete?
    ensures Sound(Next(s, op))
  {
    match op
    case Add(doc, folder, order, check1, check2) =>
      AddKeepsSound(s, doc, folder, order, check1, check2);
      NextOfAdding(s, doc, folder, order, check1, check2);
    case Move(doc, folder, order) =>
      MoveKeepsSound(s, doc, folder, order);
      NextOfMoving(s, doc, folder, order);
    case Remove(doc) => RemoveKeepsSound(s, doc);
    case SetDocumentLocks(ids, locked) => DocumentLocksKeepSound(s, ids, locked);
  }

  /** One operation keeps the room sound exactly when it loses no documents. */
  lemma OperationKeepsSoundExactly(s: RoomState, op: Operation)
    requires Sound(s)
    ensures Sound(Next(s, op)) <==> !LosesDocuments(s, op)
  {
    if op.Delete? {
      DeletionKeepsSoundExactly(s, op.path);
    } else if op.Create? {
      CreationKeepsSound(s, op.name, op.parent);
    } else if op.Rename? {
      RenamingOfFolderKeepsSound(s, op.path, op.name);
    } else if op.SetFolderLocks? {
      LockingKeepsSound(s, op.paths, op.locked);
    } else {
      DocumentOperationKeepsSound(s, op);
    }
  }

  ghost predicate SoundThroughout(s: RoomState, ops: seq<Operation>)
    decreases |ops|
  {
    Sound(s) && (ops == [] || SoundThroughout(Next(s, ops[0]), ops[1..]))
  }

  ghost predicate NeverLosesDocuments(s: RoomState, ops: seq<Operation>)
    decreases |ops|
  {
    ops == [] || (!LosesDocuments(s, ops[0]) && NeverLosesDocuments(Next(s, ops[0]), ops[1..]))
  }

  /** From any room whose folders are well-formed, different and each with its parent, and whose documents
      are in them, a run keeps all that exactly when no deletion in it loses documents. */
  lemma {:induction false} RunKeepsSoundExactly(s: RoomState, ops: seq<Operation>)
    requires Sound(s)
    ensures SoundThroughout(s, ops) <==> NeverLosesDocuments(s, ops)
    decreases |ops|
  {
    if ops != [] {
      OperationKeepsSoundExactly(s, ops[0]);
      if !LosesDocuments(s, ops[0]) { RunKeepsSoundExactly(Next(s, ops[0]), ops[1..]); }
    }
  }

  /** So every run keeps the room sound whose deletions name paths that the count query sees through,
      such as all paths without a backslash. */
  lemma {:induction false} RunKeepsSound(s: RoomState, ops: seq<Operation>)
    requires Sound(s)
    requires forall i :: 0 <= i < |ops| && ops[i].Delete? ==>
               '\\' !in Normalize(ops[i].path) || LikeUnder(Normalize(ops[i].path), Normalize(ops[i].path) + "/")
    ensures Sound(Run(s, ops))
    decreases |ops|
  {
    if ops != [] {
      if ops[0].Delete? && DeleteFolder(s, ops[0].path).Done? {
        LikeUnderSeesAllExactly(Normalize(ops[0].path));
        SeenPathIsEmptyBelow(s, ops[0].path);
      }
      OperationKeepsSoundExactly(s, ops[0]);
      RunKeepsSound(Next(s, ops[0]), ops[1..]);
    }
  }

  // ---- locks ----

  /** In a tree the set built from the settings holds the locked folders' own paths. */
  lemma LockedPathsInTree(folders: seq<Folder>, p: string)
    requires IsTree(PathSet(folders)) && WellFormed(p)
    ensures FolderPathLocked(p, LockedPaths(folders)) <==>
            exists f :: f in folders && f.locked && Under(f.path, p)
  {
    var locked := LockedPaths(folders);
    forall f | f in folders && f.locked ensures f.path in locked && f.path != [] {
      assert f.path in PathSet(folders);
      NormalizeKeepsWellFormed(f.path);
      assert MarksLocked(f);
    }
    forall l | l in locked ensures exists f :: f in folders && f.locked && f.path == l && l != [] {
      var f :| f in folders && MarksLocked(f) && Normalize(f.path) == l;
      assert f.path in PathSet(folders);
      NormalizeKeepsWellFormed(f.path);
    }
    PrefixScanIsAncestorWalk(p, locked);
  }

  lemma RenamedLocks(folders: seq<Folder>, from: string, dest: string, name: string, p: string)
    requires IsRename(PathSet(folders), from, dest) && p in PathSet(folders)
    ensures (exists f :: f in folders && f.locked && Under(f.path, p)) <==>
            (exists g :: g in RenameEntries(folders, from, dest, name) && g.locked &&
                         Under(g.path, Subst(from, dest, p)))
  {
    var after := RenameEntries(folders, from, dest, name);
    forall i | 0 <= i < |folders|
      ensures after[i].locked == folders[i].locked
      ensures Under(folders[i].path, p) <==> Under(after[i].path, Subst(from, dest, p))
    {
      EntryPath(folders[i], from, dest, name);
      assert folders[i] in folders;
      RenameKeepsContainment(PathSet(folders), from, dest, folders[i].path, p);
    }
    if f :| f in folders && f.locked && Under(f.path, p) {
      var i :| 0 <= i < |folders| && folders[i] == f;
      assert after[i] in after;
    }
    if g :| g in after && g.locked && Under(g.path, Subst(from, dest, p)) {
      var i :| 0 <= i < |after| && after[i] == g;
      assert folders[i] in folders;
    }
  }

  /** Renaming a folder neither hides nor exposes any document. */
  lemma RenameKeepsLockOut(s: RoomState, from: string, dest: string, name: string, d: DocId)
    requires Sound(s) && d in s.docs
    requires IsRename(PathSet(Loaded(s.stored)), from, dest)
    requires Renaming(s, from, dest, name).Done?
    ensures var t := Renaming(s, from, dest, name).room;
            ResourceLockedOut(t.docs[d].locked, t.docs[d].folder, LockedPaths(Loaded(t.stored))) <==>
            ResourceLockedOut(s.docs[d].locked, s.docs[d].folder, LockedPaths(Loaded(s.stored)))
  {
    var t := Renaming(s, from, dest, name).room;
    var folders := Loaded(s.stored);
    var p := s.docs[d].folder;
    RenamingKeepsSound(s, from, dest, name);
    RenamedPathSet(folders, from, dest, name);
    LoadOfTree(t.stored);
    RenamedLocks(folders, from, dest, name, p);
    LockedPathsInTree(folders, p);
    LockedPathsInTree(t.stored, Subst(from, dest, p));
  }

  // ---- undoing a rename ----

  /** Permission rows and link scopes may name folders that are not listed.  A permission row
      is caught by the way back when it already names one of the renamed folders' new paths. */
  ghost predicate CaughtByWayBack(ps: set<string>, from: string, dest: string, p: string) {
    p in Renamed(ps, from, dest) && Under(dest, p)
  }

  lemma MovedThereAndBack(ps: set<string>, from: string, dest: string, p: string)
    requires IsRename(ps, from, dest) && dest != from
    ensures var there := MovedPath(ps, from, dest, p);
            MovedPath(Renamed(ps, from, dest), dest, from, there) == p <==> !CaughtByWayBack(ps, from, dest, p)
    ensures p in ps ==> !CaughtByWayBack(ps, from, dest, p)
  {
    if p in ps {
      FreshHasNothingBelow(ps, dest, p);
      SubstUndone(ps, from, dest, p);
    } else if Under(dest, p) {
      SubstMovesUnder(dest, from, p);
      SiblingsAreDisjoint(from, dest, p);
    }
  }

  lemma ScopeThereAndBack(from: string, dest: string, p: string)
    requires WellFormed(from) && WellFormed(dest) && Above(from) == Above(dest) && dest != from
    ensures Subst(dest, from, Subst(from, dest, p)) == p <==> !Under(dest, p)
  {
    SiblingsAreDisjoint(from, dest, p);
    if Under(from, p) {
      SubstMovesUnder(from, dest, p);
    } else if Under(dest, p) {
      SubstMovesUnder(dest, from, p);
      SiblingsAreDisjoint(from, dest, Subst(dest, from, p));
    }
  }

  lemma DocThereAndBack(row: DocRow, ps: set<string>, from: string, dest: string)
    requires IsRename(ps, from, dest) && dest != from && row.folder in ps
    ensures var there := row.(folder := MovedPath(ps, from, dest, row.folder));
            there.(folder := MovedPath(Renamed(ps, from, dest), dest, from, there.folder)) == row
  {
    MovedThereAndBack(ps, from, dest, row.folder);
  }

  lemma DocsThereAndBack(docs: map<DocId, DocRow>, ps: set<string>, from: string, dest: string)
    requires IsRename(ps, from, dest) && dest != from
    requires forall d :: d in docs ==> docs[d].folder in ps
    ensures MoveDocs(MoveDocs(docs, ps, from, dest), Renamed(ps, from, dest), dest, from) == docs
  {
    forall d | d in docs
      ensures MoveDocs(MoveDocs(docs, ps, from, dest), Renamed(ps, from, dest), dest, from)[d] == docs[d]
    {
      DocThereAndBack(docs[d], ps, from, dest);
    }
  }

  lemma PermsThereAndBack(perms: seq<PermRow>, ps: set<string>, from: string, dest: string)
    requires IsRename(ps, from, dest) && dest != from
    ensures var back := MovePerms(MovePerms(perms, ps, from, dest), Renamed(ps, from, dest), dest, from);
            forall i :: 0 <= i < |perms| ==>
              (back[i] == perms[i] <==> !CaughtByWayBack(ps, from, dest, perms[i].path))
  {
    forall i | 0 <= i < |perms|
      ensures MovePerms(MovePerms(perms, ps, from, dest), Renamed(ps, from, dest), dest, from)[i] == perms[i] <==>
              !CaughtByWayBack(ps, from, dest, perms[i].path)
    {
      MovedThereAndBack(ps, from, dest, perms[i].path);
    }
  }

  lemma ScopesThereAndBack(scope: seq<string>, from: string, dest: string)
    requires WellFormed(from) && WellFormed(dest) && Above(from) == Above(dest) && dest != from
    ensures MoveScope(MoveScope(scope, from, dest), dest, from) == scope <==>
            forall p :: p in scope ==> !Under(dest, p)
  {
    var back := MoveScope(MoveScope(scope, from, dest), dest, from);
    forall i | 0 <= i < |scope| ensures back[i] == scope[i] <==> !Under(dest, scope[i]) {
      ScopeThereAndBack(from, dest, scope[i]);
    }
    if back == scope {
      forall p | p in scope ensures !Under(dest, p) {
        var i :| 0 <= i < |scope| && scope[i] == p;
        assert back[i] == scope[i];
      }
    } else {
      var i :| 0 <= i < |scope| && back[i] != scope[i];
      assert scope[i] in scope;
    }
  }

  /** Renaming back would find the names it gives already there: the old name at the folder, the last
      segment of the path at every folder below. */
  ghost predicate NamesFit(folders: seq<Folder>, from: string, oldName: string) {
    forall f :: f in folders ==>
      (f.path == from ==> f.name == oldName) && (from + "/" <= f.path ==> f.name == Name(f.path))
  }

  lemma EntryThereAndBack(ps: set<string>, f: Folder, from: string, dest: string, name: string, oldName: string)
    requires IsRename(ps, from, dest) && dest != from && f.path in ps
    ensures RenameEntry(RenameEntry(f, from, dest, name), dest, from, oldName)
            == if f.path == from then f.(name := oldName)
               else if from + "/" <= f.path then f.(name := Name(f.path)) else f
  {
    var p := f.path;
    if from + "/" <= p {
      SubstMovesUnder(from, dest, p);
      assert p[|from|] == (from + "/")[|from|] == '/';
      assert Subst(from, dest, p)[..|dest| + 1] == dest + "/";
    } else if p != from {
      FreshHasNothingBelow(ps, dest, p);
    }
  }

  lemma EntriesThereAndBack(folders: seq<Folder>, from: string, dest: string, name: string, oldName: string)
    requires IsRename(PathSet(folders), from, dest) && dest != from
    ensures RenameEntries(RenameEntries(folders, from, dest, name), dest, from, oldName) == folders
            <==> NamesFit(folders, from, oldName)
  {
    var back := RenameEntries(RenameEntries(folders, from, dest, name), dest, from, oldName);
    forall i | 0 <= i < |folders|
      ensures back[i] == folders[i]
              <==> (folders[i].path == from ==> folders[i].name == oldName)
                   && (from + "/" <= folders[i].path ==> folders[i].name == Name(folders[i].path))
    {
      assert folders[i] in folders;
      EntryThereAndBack(PathSet(folders), folders[i], from, dest, name, oldName);
    }
    if back == folders {
      forall f | f in folders
        ensures (f.path == from ==> f.name == oldName) && (from + "/" <= f.path ==> f.name == Name(f.path))
      {
        var i :| 0 <= i < |folders| && folders[i] == f;
        assert back[i] == folders[i];
      }
    } else {
      var i :| 0 <= i < |folders| && back[i] != folders[i];
      assert folders[i] in folders;
    }
  }

  /** Two renames in a row, there and back. */
  ghost predicate ThereAndBack(s: RoomState, from: string, dest: string, name: string, oldName: string, u: RoomState) {
    Renaming(s, from, dest, name).Done? &&
    Renaming(Renaming(s, from, dest, name).room, dest, from, oldName) == Done(u)
  }

  lemma TreeThereAndBack(s: RoomState, from: string, dest: string, name: string, oldName: string, u: RoomState)
    requires Sound(s) && IsRename(PathSet(Loaded(s.stored)), from, dest)
    requires ThereAndBack(s, from, dest, name, oldName, u)
    ensures PathSet(Loaded(Renaming(s, from, dest, name).room.stored)) == Renamed(PathSet(Loaded(s.stored)), from, dest)
    ensures PathSet(Loaded(u.stored)) == PathSet(Loaded(s.stored))
  {
    var paths := PathSet(Loaded(s.stored));
    RenamingKeepsSound(s, from, dest, name);
    RenameBackIsRename(paths, from, dest);
    RenamingKeepsSound(Renaming(s, from, dest, name).room, dest, from, oldName);
    RenamedTwice(paths, from, dest);
  }

  lemma RowsThereAndBack(s: RoomState, from: string, dest: string, name: string, oldName: string, u: RoomState)
    requires Sound(s) && IsRename(PathSet(Loaded(s.stored)), from, dest)
    requires ThereAndBack(s, from, dest, name, oldName, u)
    ensures var t := Renaming(s, from, dest, name).room;
            var folders := Loaded(s.stored);
            var paths, renamed := PathSet(folders), PathSet(Loaded(t.stored));
            && u.stored == RenameEntries(RenameEntries(folders, from, dest, name), dest, from, oldName)
            && u.docs == MoveDocs(MoveDocs(s.docs, paths, from, dest), renamed, dest, from)
            && u.perms == MovePerms(MovePerms(s.perms, paths, from, dest), renamed, dest, from)
            && u.scopes == MoveScopes(MoveScopes(s.scopes, from, dest), dest, from)
  {
    var t := Renaming(s, from, dest, name).room;
    RenamedPathSet(Loaded(s.stored), from, dest, name);
    RenameKeepsTree(PathSet(Loaded(s.stored)), from, dest);
    LoadOfTree(t.stored);
  }

  lemma LinksThereAndBack(scopes: map<LinkId, seq<string>>, from: string, dest: string)
    requires WellFormed(from) && WellFormed(dest) && Above(from) == Above(dest) && dest != from
    ensures var back := MoveScopes(MoveScopes(scopes, from, dest), dest, from);
            back.Keys == scopes.Keys &&
            forall l :: l in scopes ==> (back[l] == scopes[l] <==> forall p :: p in scopes[l] ==> !Under(dest, p))
  {
    forall l | l in scopes
      ensures MoveScope(MoveScope(scopes[l], from, dest), dest, from) == scopes[l] <==>
              forall p :: p in scopes[l] ==> !Under(dest, p)
    {
      ScopesThereAndBack(scopes[l], from, dest);
    }
  }

  /** Renaming back restores every folder path and every document's folder.  A permission
      row is restored exactly when it was not already dangling at one of the new paths, and
      a link scope exactly when none of its entries already lay below the new name; and the folder
      list is as before exactly when the names are those that renaming back gives. */
  lemma RenameBackRestores(s: RoomState, from: string, dest: string, name: string, oldName: string, u: RoomState)
    requires Sound(s) && IsRename(PathSet(Loaded(s.stored)), from, dest) && dest != from
    requires ThereAndBack(s, from, dest, name, oldName, u)
    ensures PathSet(Loaded(u.stored)) == PathSet(Loaded(s.stored))
    ensures u.docs == s.docs
    ensures u.stored == Loaded(s.stored) <==> NamesFit(Loaded(s.stored), from, oldName)
    ensures |u.perms| == |s.perms| && forall i :: 0 <= i < |s.perms| ==>
              (u.perms[i] == s.perms[i] <==>
               !CaughtByWayBack(PathSet(Loaded(s.stored)), from, dest, s.perms[i].path))
    ensures u.scopes.Keys == s.scopes.Keys && forall l :: l in s.scopes ==>
              (u.scopes[l] == s.scopes[l] <==> forall p :: p in s.scopes[l] ==> !Under(dest, p))
  {
    var paths := PathSet(Loaded(s.stored));
    TreeThereAndBack(s, from, dest, name, oldName, u);
    RowsThereAndBack(s, from, dest, name, oldName, u);
    EntriesThereAndBack(Loaded(s.stored), from, dest, name, oldName);
    DocsThereAndBack(s.docs, paths, from, dest);
    PermsThereAndBack(s.perms, paths, from, dest);
    LinksThereAndBack(s.scopes, from, dest);
  }

  lemma MovedBackStaysApart(ps: set<string>, from: string, dest: string, p: string, q: string)
    requires IsRename(ps, from, dest) && dest != from
    requires MovedPath(ps, from, dest, p) != MovedPath(ps, from, dest, q)
    ensures var renamed := Renamed(ps, from, dest);
            MovedPath(renamed, dest, from, MovedPath(ps, from, dest, p)) !=
            MovedPath(renamed, dest, from, MovedPath(ps, from, dest, q))
  {
    var renamed := Renamed(ps, from, dest);
    RenameBackIsRename(ps, from, dest);
    RenamedTwice(ps, from, dest);
    var a, b := MovedPath(ps, from, dest, p), MovedPath(ps, from, dest, q);
    if a in renamed { SubstUndone(renamed, dest, from, a); }
    if b in renamed { SubstUndone(renamed, dest, from, b); }
    if a in renamed && b !in renamed { assert Subst(dest, from, a) in Renamed(renamed, dest, from); }
    if b in renamed && a !in renamed { assert Subst(dest, from, b) in Renamed(renamed, dest, from); }
  }

  lemma WayBackHasNoConflict(perms: seq<PermRow>, ps: set<string>, from: string, dest: string)
    requires IsRename(ps, from, dest) && dest != from
    requires PermsUnique(MovePerms(perms, ps, from, dest))
    ensures PermsUnique(MovePerms(MovePerms(perms, ps, from, dest), Renamed(ps, from, dest), dest, from))
  {
    var there := MovePerms(perms, ps, from, dest);
    var renamed := Renamed(ps, from, dest);
    forall i, j | 0 <= i < j < |there| && there[i].email == there[j].email
      ensures MovedPath(renamed, dest, from, there[i].path) != MovedPath(renamed, dest, from, there[j].path)
    {
      assert there[i].path != there[j].path;
      MovedBackStaysApart(ps, from, dest, perms[i].path, perms[j].path);
    }
  }

  lemma LockOfListed(folders: seq<Folder>, i: nat)
    requires Unique(folders) && i < |folders|
    ensures IsLocked(folders, folders[i].path) == folders[i].locked
  {
    var j := FolderIndex(folders, folders[i].path);
    assert folders[i] in folders;
  }

  lemma RenamedLock(folders: seq<Folder>, from: string, dest: string, name: string)
    requires Unique(folders) && IsRename(PathSet(folders), from, dest)
    ensures IsLocked(RenameEntries(folders, from, dest, name), dest) == IsLocked(folders, from)
  {
    ExistsMeansListed(folders, from);
    var i := FolderIndex(folders, from);
    RenamedIsUnique(folders, from, dest, name);
    LockOfListed(RenameEntries(folders, from, dest, name), i);
  }

  lemma RenameOfTarget(t: RoomState, path: string, target: string, rawName: string)
    requires Normalize(path) == path != ROOT && NameError(TrimSpace(rawName)).None?
    requires Join(Parent(path), Slugify(TrimSpace(rawName))) == target
    requires RenameError(t, path, target).None?
    ensures RenameFolder(t, path, rawName) == Renaming(t, path, target, TrimSpace(rawName))
  {}

  lemma WayBackTarget(from: string, dest: string)
    requires WellFormed(from) && WellFormed(dest) && Above(from) == Above(dest)
    ensures Normalize(dest) == dest && dest != ROOT && Join(Parent(dest), Name(from)) == from
  {
    WellFormedIsNotRoot(dest);
    OfWellFormed(dest, []);
    OfWellFormed(from, []);
    SplitWellFormed(from);
    OfWellFormed(Above(from), Last(from));
  }

  lemma WayBackFolders(folders: seq<Folder>, from: string, dest: string, name: string)
    requires Unique(folders) && IsRename(PathSet(folders), from, dest) && dest != from
    ensures var after := RenameEntries(folders, from, dest, name);
            Exists(after, dest) && !Exists(after, from) && IsLocked(after, dest) == IsLocked(folders, from)
  {
    var after := RenameEntries(folders, from, dest, name);
    RenamedPathSet(folders, from, dest, name);
    RenameBackIsRename(PathSet(folders), from, dest);
    ExistsMeansListed(after, dest);
    ExistsMeansListed(after, from);
    RenamedLock(folders, from, dest, name);
  }

  /** A rename can always be followed by the rename back, under any name whose slug is the
      old last segment. */
  lemma WayBackSucceeds(s: RoomState, from: string, dest: string, name: string, rawBack: string)
    requires Sound(s) && IsRename(PathSet(Loaded(s.stored)), from, dest) && dest != from
    requires !IsLocked(Loaded(s.stored), from) && Renaming(s, from, dest, name).Done?
    requires NameError(TrimSpace(rawBack)).None? && Slugify(TrimSpace(rawBack)) == Name(from)
    ensures var t := Renaming(s, from, dest, name).room;
            && RenameFolder(t, dest, rawBack) == Renaming(t, dest, from, TrimSpace(rawBack))
            && RenameFolder(t, dest, rawBack).Done?
  {
    var paths, folders := PathSet(Loaded(s.stored)), Loaded(s.stored);
    var t := Renaming(s, from, dest, name).room;
    RenamingKeepsSound(s, from, dest, name);
    RenamedPathSet(folders, from, dest, name);
    LoadOfTree(t.stored);
    WayBackTarget(from, dest);
    WayBackFolders(folders, from, dest, name);
    WayBackHasNoConflict(s.perms, paths, from, dest);
    RenameOfTarget(t, dest, from, rawBack);
  }

  /** A name that renames the folder back exists exactly when the folder's last segment is
      a slug; folders given their paths at room creation need not have one. */
  lemma UndoNameExists(from: string)
    requires WellFormed(from)
    ensures (exists n :: NameError(TrimSpace(n)).None? && Slugify(TrimSpace(n)) == Name(from)) <==>
            Slugify(Name(from)) == Name(from)
  {
    var segment := Name(from);
    OfWellFormed(from, []);
    SplitWellFormed(from);
    if n :| NameError(TrimSpace(n)).None? && Slugify(TrimSpace(n)) == segment {
      SlugifyIsIdempotent(TrimSpace(n));
    }
    if Slugify(segment) == segment {
      SlugIsLower(segment);
      assert NameError(TrimSpace(segment)).None?;
    }
  }

  // ---- the count that guards deletion ----

  ghost predicate CountSees(p: string) {
    forall docs: map<DocId, DocRow>, d :: d in docs && Under(p, docs[d].folder) ==> HasDocuments(docs, p)
  }

  /** The count query sees every table's documents below a path exactly when it sees the shortest text
      below it, which for paths without '%' is when they hold no backslash. */
  lemma CountSeesSubtree(p: string)
    ensures CountSees(p) <==> LikeUnder(p, p + "/")
    ensures '%' !in p ==> (CountSees(p) <==> '\\' !in p)
  {
    LikeUnderSeesAllExactly(p);
    if LikeUnder(p, p + "/") {
      forall docs: map<DocId, DocRow>, d | d in docs && Under(p, docs[d].folder) ensures HasDocuments(docs, p) {
        assert SelectedBy(p, docs[d].folder);
      }
    } else {
      var docs := map[0 := DocRow(p + "/", 0, false)];
      assert 0 in docs && Under(p, docs[0].folder);
      assert !HasDocuments(docs, p);
    }
  }

  /** With a backslash in the path the guard is blind: if all documents are strictly below the folder, it
      goes and they stay behind without one. */
  lemma DeleteWithBackslashOrphans(s: RoomState, path: string, d: DocId)
    requires Sound(s) && path in PathSet(Loaded(s.stored)) && '\\' in path && '%' !in path
    requires !IsLocked(Loaded(s.stored), path)
    requires forall e :: e in s.docs ==> path + "/" <= s.docs[e].folder
    requires d in s.docs
    ensures var r := DeleteFolder(s, path);
            r.Done? && d in r.room.docs && r.room.docs[d].folder !in PathSet(Loaded(r.room.stored))
  {
    NormalizeKeepsWellFormed(path);
    WellFormedIsNotRoot(path);
    ExistsMeansListed(Loaded(s.stored), path);
    forall e | e in s.docs ensures !SelectedBy(path, s.docs[e].folder) {
      LikeUnderWithBackslash(path, s.docs[e].folder);
    }
    assert !HasDocuments(s.docs, path);
    DeletedDocumentIsOrphaned(s, path, d);
  }
}
