/** What the folder operations of a sound room do, in terms of its tree, and when they are refused. */
module RoomEffects {
  import opened FolderTree
  import opened GoStrings
  import opened LockScope
  import opened Options
  import opened Paths
  import opened RoomLaws
  import opened Rooms
  import opened SqlLike

  /** Path p would be a new child of parent, and the parent takes new folders. */
  ghost predicate Admits(s: RoomState, parent: string, p: string) {
    var folders := Loaded(s.stored);
    && p !in PathSet(folders)
    && (parent == ROOT || (parent in PathSet(folders) && !IsLocked(folders, parent)))
  }

  /** The parent asked for, by default the first folder. */
  function ParentAskedFor(s: RoomState, rawParent: string): string {
    Normalize(if rawParent == [] then Loaded(s.stored)[0].path else rawParent)
  }

  /** r adds exactly the child of that slug to parent. */
  ghost predicate AddsChild(s: RoomState, parent: string, slug: string, r: Outcome) {
    && r.Done?
    && Above(Child(parent, slug)) == parent && Last(Child(parent, slug)) == slug
    && PathSet(Loaded(r.room.stored)) == PathSet(Loaded(s.stored)) + {Child(parent, slug)}
    && Loaded(s.stored) <= r.room.stored
    && r.room == s.(stored := r.room.stored)
  }

  lemma ChildAppended(s: RoomState, parent: string, slug: string, name: string)
    requires Segment(slug)
    requires Sound(s) && (parent == ROOT || parent in PathSet(Loaded(s.stored)))
    ensures var f := NewFolder(Loaded(s.stored), Child(parent, slug), name);
            Admits(s, parent, Child(parent, slug))
            ==> PathSet(Loaded(Loaded(s.stored) + [f])) == PathSet(Loaded(s.stored)) + {Child(parent, slug)}
  {
    var folders := Loaded(s.stored);
    var f := NewFolder(folders, Child(parent, slug), name);
    if Admits(s, parent, Child(parent, slug)) {
      AppendedPathSet(folders, f);
      AddKeepsTree(PathSet(folders), parent, slug);
      LoadOfTree(folders + [f]);
    }
  }

  lemma CreateAtAddsOneChild(s: RoomState, parent: string, slug: string, name: string)
    requires Sound(s) && Segment(slug) && (parent == ROOT || parent in PathSet(Loaded(s.stored)))
    ensures var r := CreateAt(s, parent, Child(parent, slug), name);
            && (r.Done? <==> Admits(s, parent, Child(parent, slug)))
            && (r.Done? ==> AddsChild(s, parent, slug, r))
  {
    ExistsMeansListed(Loaded(s.stored), parent);
    ExistsMeansListed(Loaded(s.stored), Child(parent, slug));
    ChildWellFormed(parent, slug);
    ChildAppended(s, parent, slug, name);
  }

  /** A folder with an acceptable name is created exactly when its parent is the root or an unlocked
      folder and has no child of that slug; the room then has that one child more, and nothing else
      about it changes. */
  lemma CreateAddsOneChild(s: RoomState, rawName: string, rawParent: string)
    requires Sound(s) && NameError(TrimSpace(rawName)).None?
    ensures var parent, slug := ParentAskedFor(s, rawParent), Slugify(TrimSpace(rawName));
            var r := CreateFolder(s, rawName, rawParent);
            && (r.Done? <==> Admits(s, parent, Child(parent, slug)))
            && (r.Done? ==> AddsChild(s, parent, slug, r))
  {
    var parent, name := ParentAskedFor(s, rawParent), TrimSpace(rawName);
    SlugIsSegment(name);
    ExistsMeansListed(Loaded(s.stored), parent);
    if parent == ROOT || parent in PathSet(Loaded(s.stored)) {
      OfWellFormed(parent, Slugify(name));
      CreateAtAddsOneChild(s, parent, Slugify(name), name);
    }
  }

  // ---- names and new folders

  /** Which names a folder can take, and why not. */
  lemma NameErrorsExactly(name: string)
    ensures NameError(name).None? <==> name != "" && '/' !in name && Slugify(name) != ""
    ensures NameError(name) == Some(FolderNameRequired) <==> name == ""
    ensures NameError(name) == Some(FolderNameHasSlash) <==> name != "" && '/' in name
  {}

  lemma {:induction false} MaxOrderIsGreatest(folders: seq<Folder>)
    ensures MaxOrder(folders) >= -1 && forall f :: f in folders ==> f.sortOrder <= MaxOrder(folders)
    ensures MaxOrder(folders) == -1 || exists f :: f in folders && f.sortOrder == MaxOrder(folders)
  {
    if folders != [] {
      var n := |folders| - 1;
      MaxOrderIsGreatest(folders[..n]);
      assert folders == folders[..n] + [folders[n]];
    }
  }

  /** The order puts an entry behind all others, without a gap. */
  ghost predicate IsNextOrder(folders: seq<Folder>, order: int) {
    && order >= 0 && (forall f :: f in folders ==> f.sortOrder < order)
    && (order == 0 || exists f :: f in folders && f.sortOrder == order - 1)
  }

  lemma NewFolderIsLast(folders: seq<Folder>, path: string, name: string)
    ensures var f := NewFolder(folders, path, name);
            f == Folder(path, name, "", f.sortOrder, false) && IsNextOrder(folders, f.sortOrder)
  {
    MaxOrderIsGreatest(folders);
  }

  /** The entry that a created folder gets, behind the others as they were. */
  lemma CreatedEntry(s: RoomState, rawName: string, rawParent: string)
    requires Sound(s) && CreateFolder(s, rawName, rawParent).Done?
    ensures var folders, r := Loaded(s.stored), CreateFolder(s, rawName, rawParent);
            var parent, name := ParentAskedFor(s, rawParent), TrimSpace(rawName);
            exists order :: IsNextOrder(folders, order) &&
              r.room == s.(stored := folders + [Folder(Child(parent, Slugify(name)), name, "", order, false)])
  {
    var folders, parent, name := Loaded(s.stored), ParentAskedFor(s, rawParent), TrimSpace(rawName);
    ExistsMeansListed(folders, parent);
    OfWellFormed(parent, Slugify(name));
    NewFolderIsLast(folders, Child(parent, Slugify(name)), name);
  }

  /** Why a folder with an acceptable name is not created. */
  lemma CreateRefusedExactly(s: RoomState, rawName: string, rawParent: string)
    requires Sound(s)
    ensures var r, name := CreateFolder(s, rawName, rawParent), TrimSpace(rawName);
            var parent := ParentAskedFor(s, rawParent);
            var folders, path := Loaded(s.stored), Child(parent, Slugify(name));
            var listed := parent == ROOT || parent in PathSet(folders);
            && (NameError(name).Some? ==> r == Failed(NameError(name).value))
            && (NameError(name).None? ==>
                 && (r == Failed(FolderNotFound) <==> !listed)
                 && (r == Failed(ResourceLocked) <==> listed && parent != ROOT && IsLocked(folders, parent))
                 && (r == Failed(FolderExists) <==>
                      listed && (parent == ROOT || !IsLocked(folders, parent)) && path in PathSet(folders)))
  {
    var parent, name := ParentAskedFor(s, rawParent), TrimSpace(rawName);
    ExistsMeansListed(Loaded(s.stored), parent);
    if parent == ROOT || parent in PathSet(Loaded(s.stored)) {
      OfWellFormed(parent, Slugify(name));
      ExistsMeansListed(Loaded(s.stored), Child(parent, Slugify(name)));
    }
  }

  // ---- renaming

  /** Where a path goes when the folder at path moves to dest. */
  function Relocated(path: string, dest: string, p: string): string {
    if p == path then dest else if path + "/" <= p then dest + p[|path|..] else p
  }

  /** The entry of a folder after that: the folder itself gets the typed name, those inside it the last segment
      of their path; order, description and lock stay. */
  function RelocatedEntry(f: Folder, path: string, dest: string, name: string): Folder {
    var p := Relocated(path, dest, f.path);
    Folder(p, if f.path == path then name else if path + "/" <= f.path then Last(p) else f.name,
           f.description, f.sortOrder, f.locked)
  }

  /** A permission's path after that: only those of listed folders move. */
  ghost function RelocatedPath(folders: seq<Folder>, path: string, dest: string, p: string): string {
    if p in PathSet(folders) then Relocated(path, dest, p) else p
  }

  ghost predicate NoPermMeets(s: RoomState, path: string, dest: string) {
    forall i, j :: 0 <= i < j < |s.perms| && s.perms[i].email == s.perms[j].email ==>
      RelocatedPath(Loaded(s.stored), path, dest, s.perms[i].path)
      != RelocatedPath(Loaded(s.stored), path, dest, s.perms[j].path)
  }

  ghost predicate IsMovedScope(before: seq<string>, after: seq<string>, path: string, dest: string) {
    |after| == |before| && forall i :: 0 <= i < |before| ==> after[i] == Relocated(path, dest, before[i])
  }

  /** t is s with the folder at path moved. */
  ghost predicate IsMoved(s: RoomState, t: RoomState, path: string, dest: string, name: string) {
    var folders := Loaded(s.stored);
    && |t.stored| == |folders|
    && (forall i :: 0 <= i < |folders| ==> t.stored[i] == RelocatedEntry(folders[i], path, dest, name))
    && t.docs.Keys == s.docs.Keys
    && (forall d :: d in s.docs ==> t.docs[d] == s.docs[d].(folder := Relocated(path, dest, s.docs[d].folder)))
    && |t.perms| == |s.perms|
    && (forall i :: 0 <= i < |s.perms| ==>
         t.perms[i] == s.perms[i].(path := RelocatedPath(folders, path, dest, s.perms[i].path)))
    && t.scopes.Keys == s.scopes.Keys
    && (forall l :: l in s.scopes ==> IsMovedScope(s.scopes[l], t.scopes[l], path, dest))
  }

  lemma SubstIsRelocated(path: string, dest: string, p: string)
    ensures Subst(path, dest, p) == Relocated(path, dest, p)
  {
    if p == path { assert dest + p[|path|..] == dest; }
  }

  /** The sibling that a renamed folder would be. */
  function Sibling(path: string, name: string): string { Child(Above(path), Slugify(name)) }

  lemma EntryIsRelocated(f: Folder, path: string, dest: string, name: string)
    requires WellFormed(f.path) && WellFormed(path) && WellFormed(dest) && Above(path) == Above(dest)
    ensures RenameEntry(f, path, dest, name) == RelocatedEntry(f, path, dest, name)
  {
    SubstIsRelocated(path, dest, f.path);
    SubstCommutesWithParent(path, dest, f.path);
    OfWellFormed(Subst(path, dest, f.path), []);
  }

  lemma PermsMeetOrNot(s: RoomState, path: string, dest: string)
    ensures NoPermMeets(s, path, dest) <==> PermsUnique(MovePerms(s.perms, PathSet(Loaded(s.stored)), path, dest))
  {
    var paths := PathSet(Loaded(s.stored));
    var moved := MovePerms(s.perms, paths, path, dest);
    forall i | 0 <= i < |s.perms|
      ensures moved[i] == s.perms[i].(path := RelocatedPath(Loaded(s.stored), path, dest, s.perms[i].path))
    {
      SubstIsRelocated(path, dest, s.perms[i].path);
    }
  }

  lemma EntriesMove(folders: seq<Folder>, path: string, dest: string, name: string)
    requires IsRename(PathSet(folders), path, dest)
    ensures forall i :: 0 <= i < |folders| ==>
              RenameEntries(folders, path, dest, name)[i] == RelocatedEntry(folders[i], path, dest, name)
  {
    forall f | f in folders ensures RenameEntry(f, path, dest, name) == RelocatedEntry(f, path, dest, name) {
      assert f.path in PathSet(folders);
      EntryIsRelocated(f, path, dest, name);
    }
  }

  lemma DocsMove(docs: map<DocId, DocRow>, paths: set<string>, path: string, dest: string)
    requires forall d :: d in docs ==> docs[d].folder in paths
    ensures forall d :: d in docs ==>
              MoveDocs(docs, paths, path, dest)[d] == docs[d].(folder := Relocated(path, dest, docs[d].folder))
  {
    forall d | d in docs ensures MovedPath(paths, path, dest, docs[d].folder) == Relocated(path, dest, docs[d].folder) {
      SubstIsRelocated(path, dest, docs[d].folder);
    }
  }

  lemma PermsMove(perms: seq<PermRow>, folders: seq<Folder>, path: string, dest: string)
    ensures forall i :: 0 <= i < |perms| ==>
              MovePerms(perms, PathSet(folders), path, dest)[i]
              == perms[i].(path := RelocatedPath(folders, path, dest, perms[i].path))
  {
    forall i | 0 <= i < |perms|
      ensures MovedPath(PathSet(folders), path, dest, perms[i].path)
              == RelocatedPath(folders, path, dest, perms[i].path)
    {
      SubstIsRelocated(path, dest, perms[i].path);
    }
  }

  lemma ScopesMove(scope: seq<string>, path: string, dest: string)
    ensures IsMovedScope(scope, MoveScope(scope, path, dest), path, dest)
  {
    forall i | 0 <= i < |scope| ensures Subst(path, dest, scope[i]) == Relocated(path, dest, scope[i]) {
      SubstIsRelocated(path, dest, scope[i]);
    }
  }

  lemma RenamingIsMove(s: RoomState, path: string, dest: string, name: string)
    requires Sound(s) && IsRename(PathSet(Loaded(s.stored)), path, dest) && Renaming(s, path, dest, name).Done?
    ensures IsMoved(s, Renaming(s, path, dest, name).room, path, dest, name)
  {
    var folders := Loaded(s.stored);
    EntriesMove(folders, path, dest, name);
    DocsMove(s.docs, PathSet(folders), path, dest);
    PermsMove(s.perms, folders, path, dest);
    forall l | l in s.scopes ensures IsMovedScope(s.scopes[l], MoveScope(s.scopes[l], path, dest), path, dest) {
      ScopesMove(s.scopes[l], path, dest);
    }
  }

  lemma RenamingMoves(s: RoomState, path: string, dest: string, name: string)
    requires Sound(s) && IsRename(PathSet(Loaded(s.stored)), path, dest)
    ensures var r := Renaming(s, path, dest, name);
            && (r.Done? <==> NoPermMeets(s, path, dest)) && (r.Failed? ==> r.error == PermissionConflict)
            && (r.Done? ==> IsMoved(s, r.room, path, dest, name))
  {
    PermsMeetOrNot(s, path, dest);
    if Renaming(s, path, dest, name).Done? { RenamingIsMove(s, path, dest, name); }
  }

  /** May the folder at path become dest? */
  ghost predicate Renameable(s: RoomState, path: string, dest: string) {
    && path in PathSet(Loaded(s.stored)) && !IsLocked(Loaded(s.stored), path)
    && (dest == path || dest !in PathSet(Loaded(s.stored)))
  }

  lemma RenameErrorsExactly(s: RoomState, path: string, dest: string)
    ensures var folders, e := Loaded(s.stored), RenameError(s, path, dest);
            && (e.None? <==> Renameable(s, path, dest))
            && (e == Some(FolderNotFound) <==> path !in PathSet(folders))
            && (e == Some(ResourceLocked) <==> path in PathSet(folders) && IsLocked(folders, path))
            && (e == Some(FolderExists) <==>
                 path in PathSet(folders) && !IsLocked(folders, path) && dest != path && dest in PathSet(folders))
  {
    ExistsMeansListed(Loaded(s.stored), path);
    ExistsMeansListed(Loaded(s.stored), dest);
  }

  lemma SiblingIsJoined(path: string, name: string)
    requires WellFormed(path)
    ensures Join(Parent(path), Slugify(name)) == Sibling(path, name) && path != ROOT
  {
    OfWellFormed(path, []);
    SplitWellFormed(path);
    WellFormedIsNotRoot(path);
    OfWellFormed(Above(path), Slugify(name));
  }

  lemma SiblingIsRename(ps: set<string>, path: string, name: string)
    requires IsTree(ps) && path in ps && Slugify(name) != []
    requires Sibling(path, name) == path || Sibling(path, name) !in ps
    ensures IsRename(ps, path, Sibling(path, name))
  {
    SlugIsSegment(name);
    RenameTargetIsRename(ps, path, Slugify(name));
  }

  lemma RenameOfListed(s: RoomState, path: string, name: string)
    requires Sound(s) && Slugify(name) != [] && Renameable(s, path, Sibling(path, name))
    ensures var dest := Sibling(path, name);
            var r := Renaming(s, path, dest, name);
            && (r.Done? <==> NoPermMeets(s, path, dest)) && (r.Failed? ==> r.error == PermissionConflict)
            && (r.Done? ==> IsMoved(s, r.room, path, dest, name))
  {
    SiblingIsRename(PathSet(Loaded(s.stored)), path, name);
    RenamingMoves(s, path, Sibling(path, name), name);
  }

  /** A folder is renamed, to an acceptable name, exactly when it is listed and not itself locked, no other folder
      has the new path, and no two permissions of one address would meet there; then the folder and all inside
      it move, with documents, permissions and link scopes, and all else stays. */
  lemma RenameMovesFolder(s: RoomState, rawPath: string, rawName: string)
    requires Sound(s) && NameError(TrimSpace(rawName)).None?
    ensures var path, name := Normalize(rawPath), TrimSpace(rawName);
            var dest, r := Sibling(path, name), RenameFolder(s, rawPath, rawName);
            && (r.Done? <==> Renameable(s, path, dest) && NoPermMeets(s, path, dest))
            && (r.Done? ==> IsMoved(s, r.room, path, dest, name))
  {
    var path, name := Normalize(rawPath), TrimSpace(rawName);
    RenameErrorsExactly(s, path, Join(Parent(path), Slugify(name)));
    if path in PathSet(Loaded(s.stored)) {
      SiblingIsJoined(path, name);
      if Renameable(s, path, Sibling(path, name)) { RenameOfListed(s, path, name); }
    }
  }

  /** Why it is not. */
  lemma RenameRefusedExactly(s: RoomState, rawPath: string, rawName: string)
    requires Sound(s)
    ensures var path, name := Normalize(rawPath), TrimSpace(rawName);
            var dest, r, folders := Sibling(path, name), RenameFolder(s, rawPath, rawName), Loaded(s.stored);
            && (path == ROOT ==> r == Failed(FolderNotFound))
            && (path != ROOT && NameError(name).Some? ==> r == Failed(NameError(name).value))
            && (path != ROOT && NameError(name).None? ==>
                 && (r == Failed(FolderNotFound) <==> path !in PathSet(folders))
                 && (r == Failed(ResourceLocked) <==> path in PathSet(folders) && IsLocked(folders, path))
                 && (r == Failed(FolderExists) <==> path in PathSet(folders) && !IsLocked(folders, path)
                                                    && dest != path && dest in PathSet(folders))
                 && (r == Failed(PermissionConflict) <==> Renameable(s, path, dest) && !NoPermMeets(s, path, dest)))
  {
    var path, name := Normalize(rawPath), TrimSpace(rawName);
    RenameErrorsExactly(s, path, Join(Parent(path), Slugify(name)));
    if path != ROOT && NameError(name).None? && path in PathSet(Loaded(s.stored)) {
      SiblingIsJoined(path, name);
      if Renameable(s, path, Sibling(path, name)) { RenameOfListed(s, path, name); }
    }
  }

  lemma CountIsExact(docs: map<DocId, DocRow>, path: string)
    requires FreeOfSpecials(path)
    ensures HasDocuments(docs, path) <==> !EmptyBelow(docs, path)
  {
    forall d | d in docs ensures SelectedBy(path, docs[d].folder) <==> Under(path, docs[d].folder) {
      LikeUnderOfPlain(path, docs[d].folder);
    }
    if !EmptyBelow(docs, path) {
      var d :| d in docs && Under(path, docs[d].folder);
      assert SelectedBy(path, docs[d].folder);
    }
  }

  /** A folder is deleted exactly when it is listed, not itself locked, and the query counts no document;
      exactly its subtree goes.  For a path free of LIKE's special characters the query counts the documents
      in it at any depth. */
  lemma DeleteRemovesSubtree(s: RoomState, rawPath: string)
    requires Sound(s)
    ensures var path, folders := Normalize(rawPath), Loaded(s.stored);
            var r := DeleteFolder(s, rawPath);
            && (r.Done? <==> path in PathSet(folders) && !IsLocked(folders, path) && !HasDocuments(s.docs, path))
            && (r.Done? ==> PathSet(r.room.stored) == (set p | p in PathSet(folders) && !Under(path, p))
                            && r.room.docs == s.docs)
            && (FreeOfSpecials(path) ==> (HasDocuments(s.docs, path) <==> !EmptyBelow(s.docs, path)))
  {
    var path, folders := Normalize(rawPath), Loaded(s.stored);
    ExistsMeansListed(folders, path);
    if FreeOfSpecials(path) { CountIsExact(s.docs, path); }
    KeptPathSet(folders, path);
    if path in PathSet(folders) { WellFormedIsNotRoot(path); }
  }

  /** Why a folder is not deleted. */
  lemma DeleteRefusedExactly(s: RoomState, rawPath: string)
    requires Sound(s)
    ensures var path, folders, r := Normalize(rawPath), Loaded(s.stored), DeleteFolder(s, rawPath);
            && (r == Failed(FolderNotFound) <==> path !in PathSet(folders))
            && (r == Failed(ResourceLocked) <==> path in PathSet(folders) && IsLocked(folders, path))
            && (r == Failed(FolderNotEmpty) <==>
                 path in PathSet(folders) && !IsLocked(folders, path) && HasDocuments(s.docs, path))
  {
    ExistsMeansListed(Loaded(s.stored), Normalize(rawPath));
    if Normalize(rawPath) in PathSet(Loaded(s.stored)) { WellFormedIsNotRoot(Normalize(rawPath)); }
  }

  lemma SelectedStranger(p: string) returns (q: string)
    requires !FreeOfSpecials(p)
    ensures SelectedBy(p, q) && !Under(p, q)
  {
    LikeUnderIsPrefixExactly(p);
    q := Shortest(p + "/%");
    SlashPercentCompletes(p);
    ShortestMatches(p + "/%");
    ShortestIsNotPrefixed(p);
    if q == p {
      q := p + "x";
      SlashCompletes(p);
      assert p + "/%" == (p + "/") + "%";
      LikeOpenEnded(p + "/", p, "x");
      assert q[|p|] == 'x' && (p + "/")[|p|] == '/';
    }
  }

  lemma SelectsSubtreeExactly(p: string)
    ensures (forall q :: SelectedBy(p, q) <==> Under(p, q)) <==> FreeOfSpecials(p)
  {
    if FreeOfSpecials(p) {
      forall q ensures SelectedBy(p, q) <==> Under(p, q) { LikeUnderOfPlain(p, q); }
    } else {
      var q := SelectedStranger(p);
    }
  }

  /** A deleted folder takes the link scope entries on its subtree with it, and the permission rows that
      the query selects; these are the rows on its subtree, whatever the rows, exactly for paths free of
      LIKE's special characters. */
  lemma DeleteClearsGrants(s: RoomState, rawPath: string)
    requires DeleteFolder(s, rawPath).Done?
    ensures var path, t := Normalize(rawPath), DeleteFolder(s, rawPath).room;
            && (forall p :: p in t.perms <==> p in s.perms && !SelectedBy(path, p.path))
            && t.scopes.Keys == s.scopes.Keys
            && (forall l, p :: l in s.scopes ==> (p in t.scopes[l] <==> p in s.scopes[l] && !Under(path, p)))
    ensures (forall q :: SelectedBy(Normalize(rawPath), q) <==> Under(Normalize(rawPath), q))
            <==> FreeOfSpecials(Normalize(rawPath))
  {
    SelectsSubtreeExactly(Normalize(rawPath));
  }

  // ---- placing documents

  /** Nothing but doc's row differs. */
  ghost predicate OneRowChanged(s: RoomState, t: RoomState, doc: DocId) {
    && t.stored == s.stored && t.perms == s.perms && t.scopes == s.scopes
    && t.docs.Keys == s.docs.Keys + {doc}
    && forall d :: d in s.docs && d != doc ==> t.docs[d] == s.docs[d]
  }

  lemma AddIsDoneExactly(s: RoomState, doc: DocId, rawFolder: string, sortOrder: int,
                         documentCheck: Check, membershipCheck: Check)
    ensures var folder, folders := Normalize(rawFolder), Loaded(s.stored);
            var r := AddDocument(s, doc, rawFolder, sortOrder, documentCheck, membershipCheck);
            && (r.Done? <==> folder != ROOT && Exists(folders, folder) && !IsLocked(folders, folder)
                             && documentCheck.Pass? && (doc in s.docs || membershipCheck.Pass?))
            && (r.Done? ==> OneRowChanged(s, r.room, doc) && r.room.docs[doc].folder == folder
                            && r.room.docs[doc].sortOrder == sortOrder
                            && r.room.docs[doc].locked == (doc in s.docs && s.docs[doc].locked))
  {}

  /** A document is added exactly when the folder is listed and not itself locked and the checks pass; then
      exactly that document's row changes, to that folder.  Its own lock is not looked at. */
  lemma AddPlacesOneDocument(s: RoomState, doc: DocId, rawFolder: string, sortOrder: int,
                             documentCheck: Check, membershipCheck: Check)
    requires Sound(s)
    ensures var folder, folders := Normalize(rawFolder), Loaded(s.stored);
            var r := AddDocument(s, doc, rawFolder, sortOrder, documentCheck, membershipCheck);
            && (r.Done? <==> folder in PathSet(folders) && !IsLocked(folders, folder)
                             && documentCheck.Pass? && (doc in s.docs || membershipCheck.Pass?))
            && (r.Done? ==> OneRowChanged(s, r.room, doc) && r.room.docs[doc].folder == folder
                            && r.room.docs[doc].sortOrder == sortOrder
                            && r.room.docs[doc].locked == (doc in s.docs && s.docs[doc].locked))
  {
    var folder := Normalize(rawFolder);
    AddIsDoneExactly(s, doc, rawFolder, sortOrder, documentCheck, membershipCheck);
    ExistsMeansListed(Loaded(s.stored), folder);
    if folder in PathSet(Loaded(s.stored)) { WellFormedIsNotRoot(folder); }
  }

  /** A document is moved exactly when it is in the room and unlocked, and the folder is listed under that
      very path and not itself locked; then exactly its row changes. */
  lemma MovePlacesOneDocument(s: RoomState, doc: DocId, folder: string, sortOrder: Option<int>)
    ensures var folders, r := Loaded(s.stored), MoveDocument(s, doc, folder, sortOrder);
            && (r.Done? <==> folder in PathSet(folders) && !IsLocked(folders, folder)
                             && doc in s.docs && !s.docs[doc].locked)
            && (r.Done? ==> OneRowChanged(s, r.room, doc) && r.room.docs[doc].folder == folder
                            && r.room.docs[doc].sortOrder
                               == (if sortOrder.Some? then sortOrder.value else s.docs[doc].sortOrder)
                            && !r.room.docs[doc].locked)
  {
    ExistsMeansListed(Loaded(s.stored), folder);
  }

  /** Why a document is not added. */
  lemma AddRefusedExactly(s: RoomState, doc: DocId, rawFolder: string, sortOrder: int, documentCheck: Check,
                          membershipCheck: Check)
    requires Sound(s)
    ensures var folder, folders := Normalize(rawFolder), Loaded(s.stored);
            var r := AddDocument(s, doc, rawFolder, sortOrder, documentCheck, membershipCheck);
            var fits := folder in PathSet(folders) && !IsLocked(folders, folder);
            && (r == Failed(FolderPathRequired) <==> folder == ROOT)
            && (r == Failed(FolderNotFound) <==> folder != ROOT && folder !in PathSet(folders))
            && (r == Failed(ResourceLocked) <==> folder in PathSet(folders) && IsLocked(folders, folder))
            && (fits && documentCheck.Refuse? ==> r == Failed(DocumentRefused(documentCheck.reason)))
            && (fits && documentCheck.Pass? && doc !in s.docs && membershipCheck.Refuse? ==>
                 r == Failed(DocumentRefused(membershipCheck.reason)))
  {
    ExistsMeansListed(Loaded(s.stored), Normalize(rawFolder));
    if Normalize(rawFolder) in PathSet(Loaded(s.stored)) { WellFormedIsNotRoot(Normalize(rawFolder)); }
  }

  /** Why a document is not moved. */
  lemma MoveRefusedExactly(s: RoomState, doc: DocId, folder: string, sortOrder: Option<int>)
    ensures var folders, r := Loaded(s.stored), MoveDocument(s, doc, folder, sortOrder);
            var fits := folder in PathSet(folders) && !IsLocked(folders, folder);
            && (r == Failed(FolderNotFound) <==> folder !in PathSet(folders))
            && (r == Failed(DocumentNotFound) <==> fits && doc !in s.docs)
            && (r == Failed(ResourceLocked) <==>
                 || (folder in PathSet(folders) && IsLocked(folders, folder))
                 || (fits && doc in s.docs && s.docs[doc].locked))
  {
    ExistsMeansListed(Loaded(s.stored), folder);
  }

  /** A document is removed exactly when it is in the room and not locked, and nothing else is touched. */
  lemma RemoveTakesOneDocument(s: RoomState, doc: DocId)
    ensures var r := RemoveDocument(s, doc);
            && (r.Done? <==> doc in s.docs && !s.docs[doc].locked)
            && (r.Done? ==> doc !in r.room.docs && OneRowChanged(r.room, s, doc))
            && (doc !in s.docs ==> r == Failed(DocumentNotFound))
            && (doc in s.docs && s.docs[doc].locked ==> r == Failed(ResourceLocked))
  {}

  /** Locking documents sets the flag of those named and touches nothing else. */
  lemma DocumentsLockedExactly(s: RoomState, ids: set<DocId>, locked: bool)
    ensures var r := LockDocuments(s, ids, locked);
            && r.Done? && r.room == s.(docs := r.room.docs) && r.room.docs.Keys == s.docs.Keys
            && forall d :: d in s.docs ==>
                 r.room.docs[d] == if d in ids then DocRow(s.docs[d].folder, s.docs[d].sortOrder, locked) else s.docs[d]
  {}

  lemma LockedDocumentIsNotRemoved(s: RoomState, doc: DocId)
    requires doc in s.docs && s.docs[doc].locked
    ensures RemoveDocument(s, doc) == Failed(ResourceLocked)
  {}

  /** A locked document cannot be moved or removed, but adding it again moves it to any unlocked folder. */
  lemma LockedDocumentMovesByAdding(s: RoomState, doc: DocId, folder: string, sortOrder: int, check: Check)
    requires Sound(s) && doc in s.docs && s.docs[doc].locked
    requires folder in PathSet(Loaded(s.stored)) && !IsLocked(Loaded(s.stored), folder)
    ensures MoveDocument(s, doc, folder, Some(sortOrder)).Failed? && RemoveDocument(s, doc).Failed?
    ensures var r := AddDocument(s, doc, folder, sortOrder, Pass, check);
            r.Done? && doc in r.room.docs && r.room.docs[doc] == DocRow(folder, sortOrder, true)
  {
    NormalizeKeepsWellFormed(folder);
    AddPlacesOneDocument(s, doc, folder, sortOrder, Pass, check);
    MovePlacesOneDocument(s, doc, folder, Some(sortOrder));
    LockedDocumentIsNotRemoved(s, doc);
  }

  // ---- locks

  ghost predicate Names(rawPaths: seq<string>, path: string) {
    exists i :: 0 <= i < |rawPaths| && Normalize(rawPaths[i]) == path
  }

  lemma NamesTail(rawPaths: seq<string>, path: string)
    requires rawPaths != []
    ensures Names(rawPaths, path) <==> Normalize(rawPaths[0]) == path || Names(rawPaths[1..], path)
  {
    if Names(rawPaths, path) {
      var i :| 0 <= i < |rawPaths| && Normalize(rawPaths[i]) == path;
      if i > 0 { assert rawPaths[1..][i - 1] == rawPaths[i]; }
    }
    if Names(rawPaths[1..], path) {
      var i :| 0 <= i < |rawPaths[1..]| && Normalize(rawPaths[1..][i]) == path;
      assert rawPaths[i + 1] == rawPaths[1..][i];
    }
  }

  ghost predicate LocksJust(before: seq<Folder>, after: seq<Folder>, rawPaths: seq<string>, locked: bool) {
    |after| == |before| && forall i :: 0 <= i < |before| ==>
      after[i] == if Names(rawPaths, before[i].path) then before[i].(locked := locked) else before[i]
  }

  lemma SamePaths(folders: seq<Folder>, next: seq<Folder>)
    requires |next| == |folders| && forall i :: 0 <= i < |folders| ==> next[i].path == folders[i].path
    ensures PathSet(next) == PathSet(folders) && (Unique(folders) ==> Unique(next))
  {
    forall f | f in folders ensures f.path in PathSet(next) {
      var i :| 0 <= i < |folders| && folders[i] == f;
      assert next[i] in next;
    }
    forall f | f in next ensures f.path in PathSet(folders) {
      var i :| 0 <= i < |next| && next[i] == f;
      assert folders[i] in folders;
    }
  }

  ghost predicate AllListed(folders: seq<Folder>, rawPaths: seq<string>) {
    forall i :: 0 <= i < |rawPaths| ==> Normalize(rawPaths[i]) in PathSet(folders)
  }

  lemma AllListedTail(folders: seq<Folder>, rawPaths: seq<string>)
    requires rawPaths != []
    ensures AllListed(folders, rawPaths)
            <==> Normalize(rawPaths[0]) in PathSet(folders) && AllListed(folders, rawPaths[1..])
  {
    if Normalize(rawPaths[0]) in PathSet(folders) && AllListed(folders, rawPaths[1..]) {
      forall i | 0 <= i < |rawPaths| ensures Normalize(rawPaths[i]) in PathSet(folders) {
        if i > 0 { assert rawPaths[1..][i - 1] == rawPaths[i]; }
      }
    }
  }

  lemma LocksOneMore(folders: seq<Folder>, rawPaths: seq<string>, locked: bool, i: nat)
    requires Unique(folders) && rawPaths != [] && i < |folders| && folders[i].path == Normalize(rawPaths[0])
    requires var next := folders[i := folders[i].(locked := locked)];
             LockEntries(next, rawPaths[1..], locked).Some?
             && LocksJust(next, LockEntries(next, rawPaths[1..], locked).value, rawPaths[1..], locked)
    ensures var next := folders[i := folders[i].(locked := locked)];
            LocksJust(folders, LockEntries(next, rawPaths[1..], locked).value, rawPaths, locked)
  {
    forall j | 0 <= j < |folders| ensures folders[j].path == Normalize(rawPaths[0]) <==> j == i {}
    forall j | 0 <= j < |folders|
      ensures Names(rawPaths, folders[j].path) <==> j == i || Names(rawPaths[1..], folders[j].path)
    {
      NamesTail(rawPaths, folders[j].path);
    }
  }

  /** All folders named are locked (or unlocked) and no others; the request is refused exactly when a
      path named is not a folder. */
  lemma {:induction false} LocksExactlyTheNamed(folders: seq<Folder>, rawPaths: seq<string>, locked: bool)
    requires Unique(folders)
    ensures var r := LockEntries(folders, rawPaths, locked);
            && (r.Some? <==> forall i :: 0 <= i < |rawPaths| ==> Normalize(rawPaths[i]) in PathSet(folders))
            && (r.Some? ==> LocksJust(folders, r.value, rawPaths, locked))
    decreases |rawPaths|
  {
    if rawPaths != [] {
      var p := Normalize(rawPaths[0]);
      var i := FolderIndex(folders, p);
      ExistsMeansListed(folders, p);
      if i >= 0 {
        var next := folders[i := folders[i].(locked := locked)];
        SamePaths(folders, next);
        LocksExactlyTheNamed(next, rawPaths[1..], locked);
        AllListedTail(folders, rawPaths);
        if LockEntries(next, rawPaths[1..], locked).Some? { LocksOneMore(folders, rawPaths, locked, i); }
      }
    }
  }

  lemma OnlyEntryAt(folders: seq<Folder>, i: nat)
    requires Unique(folders) && i < |folders|
    ensures forall f :: f in folders && f.path == folders[i].path ==> f == folders[i]
  {
    forall f | f in folders && f.path == folders[i].path ensures f == folders[i] {
      var j :| 0 <= j < |folders| && folders[j] == f;
    }
  }

  /** The guard that keeps documents and folders out of a locked folder looks at the folder's own flag;
      visitors are kept out of everything below as well.  So the guard is passed and the visitor kept out
      exactly when a folder strictly above is locked and the folder itself is not. */
  lemma GuardIsNotInherited(s: RoomState, p: string)
    requires Sound(s) && p in PathSet(Loaded(s.stored))
    ensures var folders := Loaded(s.stored);
            FolderPathLocked(p, LockedPaths(folders))
            <==> IsLocked(folders, p) || exists f :: f in folders && f.locked && f.path != p && Under(f.path, p)
  {
    var folders := Loaded(s.stored);
    LockedPathsInTree(folders, p);
    ExistsMeansListed(folders, p);
    OnlyEntryAt(folders, FolderIndex(folders, p));
  }

  /** A document is kept from visitors exactly by its own lock or that of its folder or one above that. */
  lemma HiddenExactly(s: RoomState, doc: DocId)
    requires Sound(s) && doc in s.docs
    ensures var folders, row := Loaded(s.stored), s.docs[doc];
            ResourceLockedOut(row.locked, row.folder, LockedPaths(folders))
            <==> row.locked ||
                 exists f :: f in folders && f.locked && (f.path == row.folder || f.path + "/" <= row.folder)
  {
    var folders, p := Loaded(s.stored), s.docs[doc].folder;
    GuardIsNotInherited(s, p);
    ExistsMeansListed(folders, p);
    OnlyEntryAt(folders, FolderIndex(folders, p));
  }
}
