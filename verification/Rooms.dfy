/** A data room's folders, documents, folder permissions and link scopes, and what each
    operation of dealroom/service.go does to them.  The callers' permission guards are
    taken as passed. */
module Rooms {
  import opened FolderTree
  import opened GoStrings
  import opened LockScope
  import opened Options
  import opened Paths
  import opened SqlLike

  type DocId = nat
  type LinkId = nat

  datatype DocRow = DocRow(folder: string, sortOrder: int, locked: bool)
  datatype PermRow = PermRow(email: string, path: string, permission: string)

  /** stored is the folder list inside deal_rooms.settings. */
  datatype RoomState = RoomState(
    stored: seq<Folder>,
    docs: map<DocId, DocRow>,
    perms: seq<PermRow>,
    scopes: map<LinkId, seq<string>>)

  datatype Error =
    | FolderNameRequired | FolderNameHasSlash | FolderNameInvalid
    | FolderNotFound | FolderExists | FolderNotEmpty | FolderPathRequired
    | ResourceLocked | DocumentNotFound | PermissionConflict
    | DocumentRefused(reason: string)

  /** A failed operation leaves the room as it was. */
  datatype Outcome = Done(room: RoomState) | Failed(error: Error)

  /** Checks of a document made against tables outside the room. */
  datatype Check = Pass | Refuse(reason: string)

  // ---- folder lists ----

  const GENERAL := Folder("/general", "General", "", 0, false)

  function WithoutRoot(folders: seq<Folder>): (r: seq<Folder>)
    ensures forall f :: f in r <==> f in folders && f.path != ROOT
  {
    if folders == [] then []
    else (if folders[0].path == ROOT then [] else [folders[0]]) + WithoutRoot(folders[1..])
  }

  /** loadFolders */
  function Loaded(stored: seq<Folder>): (r: seq<Folder>)
    ensures r != []
  {
    var kept := WithoutRoot(stored);
    if kept == [] then [GENERAL] else kept
  }

  ghost predicate Unique(folders: seq<Folder>) {
    forall i, j :: 0 <= i < j < |folders| ==> folders[i].path != folders[j].path
  }

  /** folderIndex, -1 when absent. */
  function FolderIndex(folders: seq<Folder>, path: string): (i: int)
    ensures -1 <= i < |folders|
    ensures i >= 0 ==> folders[i].path == path
    ensures i < 0 ==> forall f :: f in folders ==> f.path != path
  {
    if folders == [] then -1
    else if folders[0].path == path then 0
    else
      var i := FolderIndex(folders[1..], path);
      if i < 0 then -1 else i + 1
  }

  function Exists(folders: seq<Folder>, path: string): bool { FolderIndex(folders, path) >= 0 }

  function IsLocked(folders: seq<Folder>, path: string): bool {
    var i := FolderIndex(folders, path);
    i >= 0 && folders[i].locked
  }

  function MaxOrder(folders: seq<Folder>): int {
    if folders == [] then -1
    else
      var m, last := MaxOrder(folders[..|folders| - 1]), folders[|folders| - 1].sortOrder;
      if last > m then last else m
  }

  /** The checks on a folder name that CreateFolder and RenameFolder share. */
  function NameError(name: string): Option<Error> {
    if name == [] then Some(FolderNameRequired)
    else if '/' in name then Some(FolderNameHasSlash)
    else if Slugify(name) == [] then Some(FolderNameInvalid)
    else None
  }

  // ---- the operations ----

  function NewFolder(folders: seq<Folder>, path: string, name: string): Folder {
    Folder(path, name, "", MaxOrder(folders) + 1, false)
  }

  function CreateError(folders: seq<Folder>, parent: string, path: string): Option<Error> {
    if parent != ROOT && !Exists(folders, parent) then Some(FolderNotFound)
    else if parent != ROOT && IsLocked(folders, parent) then Some(ResourceLocked)
    else if Exists(folders, path) then Some(FolderExists)
    else None
  }

  function CreateAt(s: RoomState, parent: string, path: string, name: string): Outcome {
    var folders := Loaded(s.stored);
    if CreateError(folders, parent, path).Some? then Failed(CreateError(folders, parent, path).value)
    else Done(s.(stored := folders + [NewFolder(folders, path, name)]))
  }

  /** service.go:2444-2503 */
  function CreateFolder(s: RoomState, rawName: string, rawParent: string): Outcome {
    var name := TrimSpace(rawName);
    if NameError(name).Some? then Failed(NameError(name).value)
    else
      var parent := Normalize(if rawParent == [] then Loaded(s.stored)[0].path else rawParent);
      CreateAt(s, parent, Join(parent, Slugify(name)), name)
  }

  function RenameEntry(f: Folder, from: string, dest: string, name: string): Folder {
    if f.path == from then f.(path := dest, name := name)
    else if from + "/" <= f.path then
      f.(path := Subst(from, dest, f.path), name := Name(Subst(from, dest, f.path)))
    else f
  }

  function RenameEntries(folders: seq<Folder>, from: string, dest: string, name: string): seq<Folder> {
    seq(|folders|, i requires 0 <= i < |folders| => RenameEntry(folders[i], from, dest, name))
  }

  /** What the per-path updates do to a row: only the paths of listed folders are mapped. */
  ghost function MovedPath(paths: set<string>, from: string, dest: string, p: string): string {
    if p in paths then Subst(from, dest, p) else p
  }

  ghost function MoveDocs(docs: map<DocId, DocRow>, paths: set<string>, from: string, dest: string)
    : map<DocId, DocRow>
  {
    map d | d in docs :: docs[d].(folder := MovedPath(paths, from, dest, docs[d].folder))
  }

  ghost function MovePerms(perms: seq<PermRow>, paths: set<string>, from: string, dest: string): seq<PermRow> {
    seq(|perms|, i requires 0 <= i < |perms| => perms[i].(path := MovedPath(paths, from, dest, perms[i].path)))
  }

  function MoveScope(scope: seq<string>, from: string, dest: string): seq<string> {
    seq(|scope|, i requires 0 <= i < |scope| => Subst(from, dest, scope[i]))
  }

  function MoveScopes(scopes: map<LinkId, seq<string>>, from: string, dest: string): map<LinkId, seq<string>> {
    map l | l in scopes :: MoveScope(scopes[l], from, dest)
  }

  /** UNIQUE (room_id, email, folder_path) */
  predicate PermsUnique(perms: seq<PermRow>) {
    forall i, j :: 0 <= i < j < |perms| ==>
      perms[i].email != perms[j].email || perms[i].path != perms[j].path
  }

  function RenameError(s: RoomState, from: string, dest: string): Option<Error> {
    var folders := Loaded(s.stored);
    if !Exists(folders, from) then Some(FolderNotFound)
    else if IsLocked(folders, from) then Some(ResourceLocked)
    else if dest != from && Exists(folders, dest) then Some(FolderExists)
    else None
  }

  ghost function Renaming(s: RoomState, from: string, dest: string, name: string): Outcome {
    var folders := Loaded(s.stored);
    var paths := PathSet(folders);
    var perms := MovePerms(s.perms, paths, from, dest);
    if !PermsUnique(perms) then Failed(PermissionConflict)
    else Done(RoomState(
      RenameEntries(folders, from, dest, name),
      MoveDocs(s.docs, paths, from, dest),
      perms,
      MoveScopes(s.scopes, from, dest)))
  }

  ghost function RenameAt(s: RoomState, from: string, dest: string, name: string): Outcome {
    if RenameError(s, from, dest).Some? then Failed(RenameError(s, from, dest).value)
    else Renaming(s, from, dest, name)
  }

  /** service.go:2507-2619, as one simultaneous substitution.  The service applies the
      updates path by path; RoomService.Room.RenameFolder proves that it comes to this. */
  ghost function RenameFolder(s: RoomState, rawPath: string, rawName: string): Outcome {
    var from, name := Normalize(rawPath), TrimSpace(rawName);
    if from == ROOT then Failed(FolderNotFound)
    else if NameError(name).Some? then Failed(NameError(name).value)
    else RenameAt(s, from, Join(Parent(from), Slugify(name)), name)
  }

  /** folder_path = p OR folder_path LIKE p || '/%' */
  predicate SelectedBy(p: string, q: string) { q == p || LikeUnder(p, q) }

  function KeepFolders(folders: seq<Folder>, top: string): (r: seq<Folder>)
    ensures forall f :: f in r <==> f in folders && !Under(top, f.path)
  {
    if folders == [] then []
    else (if Under(top, folders[0].path) then [] else [folders[0]]) + KeepFolders(folders[1..], top)
  }

  function KeepPerms(perms: seq<PermRow>, top: string): (r: seq<PermRow>)
    ensures forall p :: p in r <==> p in perms && !SelectedBy(top, p.path)
  {
    if perms == [] then []
    else (if SelectedBy(top, perms[0].path) then [] else [perms[0]]) + KeepPerms(perms[1..], top)
  }

  function KeepScope(scope: seq<string>, top: string): (r: seq<string>)
    ensures forall p :: p in r <==> p in scope && !Under(top, p)
  {
    if scope == [] then []
    else (if Under(top, scope[0]) then [] else [scope[0]]) + KeepScope(scope[1..], top)
  }

  function KeepScopes(scopes: map<LinkId, seq<string>>, top: string): map<LinkId, seq<string>> {
    map l | l in scopes :: KeepScope(scopes[l], top)
  }

  /** CountDocumentsInFolder > 0 */
  predicate HasDocuments(docs: map<DocId, DocRow>, p: string) {
    exists d :: d in docs && SelectedBy(p, docs[d].folder)
  }

  /** service.go:2733-2817 */
  function DeleteFolder(s: RoomState, rawPath: string): Outcome {
    var path := Normalize(rawPath);
    var folders := Loaded(s.stored);
    if path == ROOT then Failed(FolderNotFound)
    else if !Exists(folders, path) then Failed(FolderNotFound)
    else if IsLocked(folders, path) then Failed(ResourceLocked)
    else if HasDocuments(s.docs, path) then Failed(FolderNotEmpty)
    else Done(RoomState(
      KeepFolders(folders, path), s.docs, KeepPerms(s.perms, path), KeepScopes(s.scopes, path)))
  }

  /** service.go:1900-2022.  The two checks stand for the lookups of the document itself and
      of its other memberships; the second is made only for a document new to the room. */
  function AddDocument(s: RoomState, doc: DocId, rawFolder: string, sortOrder: int,
                       documentCheck: Check, membershipCheck: Check): Outcome {
    var folders := Loaded(s.stored);
    var folder := Normalize(rawFolder);
    if folder == ROOT then Failed(FolderPathRequired)
    else if !Exists(folders, folder) then Failed(FolderNotFound)
    else if IsLocked(folders, folder) then Failed(ResourceLocked)
    else if documentCheck.Refuse? then Failed(DocumentRefused(documentCheck.reason))
    else if doc in s.docs then
      Done(s.(docs := s.docs[doc := s.docs[doc].(folder := folder, sortOrder := sortOrder)]))
    else if membershipCheck.Refuse? then Failed(DocumentRefused(membershipCheck.reason))
    else Done(s.(docs := s.docs[doc := DocRow(folder, sortOrder, false)]))
  }

  /** service.go:2156-2208.  The folder path is not normalized here. */
  function MoveDocument(s: RoomState, doc: DocId, folder: string, sortOrder: Option<int>): Outcome {
    var folders := Loaded(s.stored);
    if !Exists(folders, folder) then Failed(FolderNotFound)
    else if IsLocked(folders, folder) then Failed(ResourceLocked)
    else if doc !in s.docs then Failed(DocumentNotFound)
    else if s.docs[doc].locked then Failed(ResourceLocked)
    else
      var row := s.docs[doc].(folder := folder);
      Done(s.(docs := s.docs[doc := if sortOrder.Some? then row.(sortOrder := sortOrder.value) else row]))
  }

  /** service.go:2063-2104, the rows of the room. */
  function RemoveDocument(s: RoomState, doc: DocId): Outcome {
    if doc !in s.docs then Failed(DocumentNotFound)
    else if s.docs[doc].locked then Failed(ResourceLocked)
    else Done(s.(docs := s.docs - {doc}))
  }

  /** The folder loop of SetResourceLocks: None when some path is not a folder. */
  function LockEntries(folders: seq<Folder>, rawPaths: seq<string>, locked: bool): (r: Option<seq<Folder>>)
    ensures r.Some? ==> |r.value| == |folders| &&
                        forall i :: 0 <= i < |folders| ==> r.value[i].path == folders[i].path
    decreases |rawPaths|
  {
    if rawPaths == [] then Some(folders)
    else
      var i := FolderIndex(folders, Normalize(rawPaths[0]));
      if i < 0 then None
      else LockEntries(folders[i := folders[i].(locked := locked)], rawPaths[1..], locked)
  }

  function LockFolders(s: RoomState, rawPaths: seq<string>, locked: bool): Outcome {
    var r := LockEntries(Loaded(s.stored), rawPaths, locked);
    if r.None? then Failed(FolderNotFound) else Done(s.(stored := r.value))
  }

  function LockDocuments(s: RoomState, ids: set<DocId>, locked: bool): Outcome {
    Done(s.(docs := map d | d in s.docs :: if d in ids then s.docs[d].(locked := locked) else s.docs[d]))
  }

  // ---- runs ----

  datatype Operation =
    | Create(name: string, parent: string)
    | Rename(path: string, name: string)
    | Delete(path: string)
    | Add(doc: DocId, folder: string, sortOrder: int, documentCheck: Check, membershipCheck: Check)
    | Move(doc: DocId, folder: string, newOrder: Option<int>)
    | Remove(doc: DocId)
    | SetFolderLocks(paths: seq<string>, locked: bool)
    | SetDocumentLocks(ids: set<DocId>, locked: bool)

  ghost function Perform(s: RoomState, op: Operation): Outcome {
    match op
    case Create(name, parent) => CreateFolder(s, name, parent)
    case Rename(path, name) => RenameFolder(s, path, name)
    case Delete(path) => DeleteFolder(s, path)
    case Add(doc, folder, order, check1, check2) => AddDocument(s, doc, folder, order, check1, check2)
    case Move(doc, folder, order) => MoveDocument(s, doc, folder, order)
    case Remove(doc) => RemoveDocument(s, doc)
    case SetFolderLocks(paths, locked) => LockFolders(s, paths, locked)
    case SetDocumentLocks(ids, locked) => LockDocuments(s, ids, locked)
  }

  ghost function Next(s: RoomState, op: Operation): RoomState {
    match Perform(s, op)
    case Done(room) => room
    case Failed(_) => s
  }

  ghost function Run(s: RoomState, ops: seq<Operation>): RoomState
    decreases |ops|
  {
    if ops == [] then s else Run(Next(s, ops[0]), ops[1..])
  }

  /** The folders a reader is shown form a tree without duplicates, and every document is
      in one of them. */
  ghost predicate Sound(s: RoomState) {
    var folders := Loaded(s.stored);
    IsTree(PathSet(folders)) && Unique(folders) &&
    forall d :: d in s.docs ==> s.docs[d].folder in PathSet(folders)
  }
}
