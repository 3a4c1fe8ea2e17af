/** Folder and document operations of one room as interleaved requests (dealroom/service.go:1900-2022,
    2156-2208, 2444-2842).  Each reads the folder list first and writes later; every write is one statement
    or one transaction, and a folder list is written as a whole. */
module RoomRaces {
  import opened FolderTree
  import opened GoStrings
  import opened LockScope
  import opened Options
  import opened Paths
  import opened RoomLaws
  import opened Rooms

  type RequestId = nat

  /** What a request is about to do, having read the list seen: save a list (create, lock); count the documents
      below a folder and then drop it; move a folder; place a new or known document; or look at the row of a
      document and then move it. */
  datatype Plan =
    | Save(seen: seq<Folder>, folders: seq<Folder>)
    | Count(seen: seq<Folder>, path: string)
    | Drop(seen: seq<Folder>, path: string)
    | Shift(seen: seq<Folder>, from: string, dest: string, name: string)
    | Place(doc: DocId, folder: string, order: int, check: Check)
    | FindRow(doc: DocId, folder: string, newOrder: Option<int>)
    | Replace(doc: DocId, folder: string, newOrder: Option<int>)

  datatype State = State(room: RoomState, plans: map<RequestId, Plan>)

  /** Fails ends a request whose next statement fails. */
  datatype Action =
    | Looks(q: RequestId, op: Operation)
    | Checks(q: RequestId)
    | Writes(q: RequestId)
    | Fails(q: RequestId)

  // ---- the steps

  /** The room as its settings alone show it. */
  function Listing(stored: seq<Folder>): RoomState { RoomState(stored, map[], [], map[]) }

  function SavePlan(seen: seq<Folder>, r: Outcome): Option<Plan> {
    if r.Done? then Some(Save(seen, r.room.stored)) else None
  }

  function ShiftPlan(seen: seq<Folder>, rawPath: string, rawName: string): Option<Plan> {
    var from, name := Normalize(rawPath), TrimSpace(rawName);
    var dest := Join(Parent(from), Slugify(name));
    if from == ROOT || NameError(name).Some? || RenameError(Listing(seen), from, dest).Some? then None
    else Some(Shift(seen, from, dest, name))
  }

  /** What a request plans after it has read the list; None when it fails there.  Removing documents and
      locking them need no list: they are single statements on the rows. */
  function PlanOf(seen: seq<Folder>, op: Operation): Option<Plan> {
    match op
    case Create(name, parent) => SavePlan(seen, CreateFolder(Listing(seen), name, parent))
    case SetFolderLocks(paths, locked) => SavePlan(seen, LockFolders(Listing(seen), paths, locked))
    case Delete(rawPath) =>
      var path := Normalize(rawPath);
      if path == ROOT || !Exists(Loaded(seen), path) || IsLocked(Loaded(seen), path) then None
      else Some(Count(seen, path))
    case Rename(path, name) => ShiftPlan(seen, path, name)
    case Add(doc, rawFolder, order, check1, check2) =>
      var folder := Normalize(rawFolder);
      if folder == ROOT || !Exists(Loaded(seen), folder) || IsLocked(Loaded(seen), folder) || check1.Refuse? then None
      else Some(Place(doc, folder, order, check2))
    case Move(doc, folder, newOrder) =>
      if !Exists(Loaded(seen), folder) || IsLocked(Loaded(seen), folder) then None
      else Some(FindRow(doc, folder, newOrder))
    case _ => None
  }

  function AfterCheck(room: RoomState, plan: Plan): Option<Plan> {
    match plan
    case Count(seen, path) => if HasDocuments(room.docs, path) then None else Some(Drop(seen, path))
    case FindRow(doc, folder, newOrder) =>
      if doc !in room.docs || room.docs[doc].locked then None else Some(Replace(doc, folder, newOrder))
    case _ => None
  }

  function Placed(room: RoomState, doc: DocId, folder: string, order: int, check: Check): RoomState {
    if doc in room.docs then
      room.(docs := room.docs[doc := room.docs[doc].(folder := folder, sortOrder := order)])
    else if check.Refuse? then room
    else room.(docs := room.docs[doc := DocRow(folder, order, false)])
  }

  /** An update of a row that has been removed meanwhile touches nothing. */
  function Replaced(room: RoomState, doc: DocId, folder: string, newOrder: Option<int>): RoomState {
    if doc !in room.docs then room
    else
      var row := room.docs[doc].(folder := folder);
      room.(docs := room.docs[doc := if newOrder.Some? then row.(sortOrder := newOrder.value) else row])
  }

  ghost function Shifted(room: RoomState, seen: seq<Folder>, from: string, dest: string, name: string): RoomState {
    match Renaming(room.(stored := seen), from, dest, name)
    case Done(r) => r
    case Failed(_) => room
  }

  predicate IsWrite(plan: Plan) { plan.Save? || plan.Drop? || plan.Shift? || plan.Place? || plan.Replace? }

  ghost function Written(room: RoomState, plan: Plan): RoomState
    requires IsWrite(plan)
  {
    match plan
    case Save(_, folders) => room.(stored := folders)
    case Drop(seen, path) =>
      RoomState(KeepFolders(Loaded(seen), path), room.docs, KeepPerms(room.perms, path), KeepScopes(room.scopes, path))
    case Shift(seen, from, dest, name) => Shifted(room, seen, from, dest, name)
    case Place(doc, folder, order, check) => Placed(room, doc, folder, order, check)
    case Replace(doc, folder, newOrder) => Replaced(room, doc, folder, newOrder)
  }

  predicate IsCheck(plan: Plan) { plan.Count? || plan.FindRow? }

  predicate IsDirect(op: Operation) { op.Remove? || op.SetDocumentLocks? }

  predicate Enabled(s: State, a: Action) {
    match a
    case Looks(q, _) => q !in s.plans
    case Checks(q) => q in s.plans && IsCheck(s.plans[q])
    case Writes(q) => q in s.plans && IsWrite(s.plans[q])
    case Fails(q) => q in s.plans
  }

  function Planned(s: State, q: RequestId, plan: Option<Plan>): State {
    s.(plans := if plan.Some? then s.plans[q := plan.value] else s.plans - {q})
  }

  ghost function Do(s: State, a: Action): State
    requires Enabled(s, a)
  {
    match a
    case Looks(q, op) =>
      if IsDirect(op) then s.(room := Next(s.room, op)) else Planned(s, q, PlanOf(s.room.stored, op))
    case Checks(q) => Planned(s, q, AfterCheck(s.room, s.plans[q]))
    case Writes(q) => State(Written(s.room, s.plans[q]), s.plans - {q})
    case Fails(q) => s.(plans := s.plans - {q})
  }

  ghost predicate Step(s: State, a: Action, t: State) { Enabled(s, a) && t == Do(s, a) }

  ghost predicate StepAt(ss: seq<State>, actions: seq<Action>, i: nat)
    requires i < |actions| == |ss| - 1
  {
    Step(ss[i], actions[i], ss[i + 1])
  }

  /** The states of a run, one more than its actions. */
  ghost predicate IsRun(ss: seq<State>, actions: seq<Action>) {
    |ss| == |actions| + 1 && forall i :: 0 <= i < |actions| ==> StepAt(ss, actions, i)
  }

  // ---- the list stays a tree

  ghost predicate Tidy(stored: seq<Folder>) { IsTree(PathSet(Loaded(stored))) && Unique(Loaded(stored)) }

  ghost predicate AllPlaced(room: RoomState) {
    forall d :: d in room.docs ==> room.docs[d].folder in PathSet(Loaded(room.stored))
  }

  lemma SoundIsTidyAndPlaced(room: RoomState)
    ensures Sound(room) <==> Tidy(room.stored) && AllPlaced(room)
  {}

  /** What a plan relies on holds of the list that the request read. */
  ghost predicate IsSane(plan: Plan) {
    match plan
    case Save(seen, folders) => Tidy(folders) && PathSet(Loaded(seen)) <= PathSet(Loaded(folders))
    case Count(seen, path) => Tidy(seen) && path in PathSet(Loaded(seen))
    case Drop(seen, path) => Tidy(seen) && path in PathSet(Loaded(seen))
    case Shift(seen, from, dest, _) => Tidy(seen) && IsRename(PathSet(Loaded(seen)), from, dest)
    case _ => true
  }

  ghost predicate AllSane(s: State) { Tidy(s.room.stored) && forall q :: q in s.plans ==> IsSane(s.plans[q]) }

  /** Loading drops the root alone. */
  lemma LoadedKeepsPaths(stored: seq<Folder>)
    ensures PathSet(stored) - {ROOT} <= PathSet(Loaded(stored))
  {}

  lemma CreatedKeepsPaths(seen: seq<Folder>, name: string, parent: string)
    requires Tidy(seen) && CreateFolder(Listing(seen), name, parent).Done?
    ensures var folders := CreateFolder(Listing(seen), name, parent).room.stored;
            Tidy(folders) && PathSet(Loaded(seen)) <= PathSet(Loaded(folders))
  {
    var folders := CreateFolder(Listing(seen), name, parent).room.stored;
    SoundIsTidyAndPlaced(Listing(seen));
    CreateKeepsSound(Listing(seen), name, parent);
    SoundIsTidyAndPlaced(CreateFolder(Listing(seen), name, parent).room);
    LoadedKeepsPaths(folders);
    assert forall f :: f in Loaded(seen) ==> f in folders;
    RootIsNotLoaded(seen);
  }

  lemma LockedKeepsPaths(seen: seq<Folder>, paths: seq<string>, locked: bool)
    requires Tidy(seen) && LockFolders(Listing(seen), paths, locked).Done?
    ensures var folders := LockFolders(Listing(seen), paths, locked).room.stored;
            Tidy(folders) && PathSet(Loaded(seen)) <= PathSet(Loaded(folders))
  {
    var folders, before := LockFolders(Listing(seen), paths, locked).room.stored, Loaded(seen);
    SoundIsTidyAndPlaced(Listing(seen));
    LocksKeepSound(Listing(seen), paths, locked);
    SoundIsTidyAndPlaced(LockFolders(Listing(seen), paths, locked).room);
    LoadedKeepsPaths(folders);
    RootIsNotLoaded(seen);
    forall f | f in before ensures f.path in PathSet(folders) {
      var i :| 0 <= i < |before| && before[i] == f;
      assert folders[i] in folders;
    }
  }

  lemma CreateIsSane(seen: seq<Folder>, name: string, parent: string)
    requires Tidy(seen) && PlanOf(seen, Create(name, parent)).Some?
    ensures IsSane(PlanOf(seen, Create(name, parent)).value)
  {
    CreatedKeepsPaths(seen, name, parent);
  }

  lemma LockIsSane(seen: seq<Folder>, paths: seq<string>, locked: bool)
    requires Tidy(seen) && PlanOf(seen, SetFolderLocks(paths, locked)).Some?
    ensures IsSane(PlanOf(seen, SetFolderLocks(paths, locked)).value)
  {
    var r := LockFolders(Listing(seen), paths, locked);
    assert PlanOf(seen, SetFolderLocks(paths, locked)) == SavePlan(seen, r);
    LockedKeepsPaths(seen, paths, locked);
  }

  lemma ShiftIsSane(seen: seq<Folder>, path: string, name: string)
    requires Tidy(seen) && PlanOf(seen, Rename(path, name)).Some?
    ensures IsSane(PlanOf(seen, Rename(path, name)).value)
  {
    SoundIsTidyAndPlaced(Listing(seen));
    RenameIsRename(Listing(seen), Normalize(path), TrimSpace(name));
  }

  lemma DropIsSane(seen: seq<Folder>, rawPath: string)
    requires Tidy(seen) && PlanOf(seen, Delete(rawPath)).Some?
    ensures IsSane(PlanOf(seen, Delete(rawPath)).value)
  {
    ExistsMeansListed(Loaded(seen), Normalize(rawPath));
  }

  lemma PlacementIsSane(seen: seq<Folder>, op: Operation)
    requires !op.Create? && !op.SetFolderLocks? && !op.Delete? && !op.Rename? && PlanOf(seen, op).Some?
    ensures IsSane(PlanOf(seen, op).value)
  {}

  lemma PlansAreSane(seen: seq<Folder>, op: Operation)
    requires Tidy(seen) && PlanOf(seen, op).Some?
    ensures IsSane(PlanOf(seen, op).value)
  {
    match op
    case Create(name, parent) => CreateIsSane(seen, name, parent);
    case SetFolderLocks(paths, locked) => LockIsSane(seen, paths, locked);
    case Delete(path) => DropIsSane(seen, path);
    case Rename(path, name) => ShiftIsSane(seen, path, name);
    case _ => PlacementIsSane(seen, op);
  }

  lemma SavedTreeIsTidy(stored: seq<Folder>)
    requires IsTree(PathSet(stored)) && Unique(stored)
    ensures Tidy(stored)
  {
    SaveIsSound(Listing(stored));
    SoundIsTidyAndPlaced(Listing(stored));
  }

  lemma DropKeepsTidy(seen: seq<Folder>, path: string)
    requires IsSane(Drop(seen, path))
    ensures Tidy(KeepFolders(Loaded(seen), path))
  {
    var folders := Loaded(seen);
    KeptPathSet(folders, path);
    RemoveKeepsTree(PathSet(folders), path);
    KeepFoldersIsUnique(folders, path);
    SavedTreeIsTidy(KeepFolders(folders, path));
  }

  /** The list that a move of a folder writes. */
  lemma ShiftedList(room: RoomState, seen: seq<Folder>, from: string, dest: string, name: string)
    requires IsSane(Shift(seen, from, dest, name)) && Renaming(room.(stored := seen), from, dest, name).Done?
    ensures var t := Shifted(room, seen, from, dest, name);
            && Tidy(t.stored) && PathSet(Loaded(t.stored)) == Renamed(PathSet(Loaded(seen)), from, dest)
            && t.docs == MoveDocs(room.docs, PathSet(Loaded(seen)), from, dest)
  {
    SoundIsTidyAndPlaced(Listing(seen));
    RenamingKeepsSound(Listing(seen), from, dest, name);
    var bare := Renaming(Listing(seen), from, dest, name);
    assert bare.Done? && bare.room.stored == RenameEntries(Loaded(seen), from, dest, name);
    SoundIsTidyAndPlaced(bare.room);
  }

  lemma WriteKeepsTidy(room: RoomState, plan: Plan)
    requires Tidy(room.stored) && IsSane(plan) && IsWrite(plan)
    ensures Tidy(Written(room, plan).stored)
  {
    match plan
    case Drop(seen, path) => DropKeepsTidy(seen, path);
    case Shift(seen, from, dest, name) =>
      if Renaming(room.(stored := seen), from, dest, name).Done? { ShiftedList(room, seen, from, dest, name); }
    case _ =>
  }

  lemma PlanningKeepsSane(s: State, q: RequestId, plan: Option<Plan>)
    requires AllSane(s) && (plan.Some? ==> IsSane(plan.value))
    ensures AllSane(Planned(s, q, plan))
  {}

  lemma DirectKeepsList(room: RoomState, op: Operation)
    requires IsDirect(op)
    ensures Next(room, op).stored == room.stored
  {}

  lemma LookingKeepsSane(s: State, q: RequestId, op: Operation)
    requires Enabled(s, Looks(q, op)) && AllSane(s)
    ensures AllSane(Do(s, Looks(q, op)))
  {
    if !IsDirect(op) {
      var plan := PlanOf(s.room.stored, op);
      if plan.Some? { PlansAreSane(s.room.stored, op); }
      PlanningKeepsSane(s, q, plan);
    } else {
      DirectKeepsList(s.room, op);
    }
  }

  lemma WritingKeepsSane(s: State, q: RequestId)
    requires Enabled(s, Writes(q)) && AllSane(s)
    ensures AllSane(Do(s, Writes(q)))
  {
    WriteKeepsTidy(s.room, s.plans[q]);
  }

  lemma CheckingKeepsSane(s: State, q: RequestId)
    requires Enabled(s, Checks(q)) && AllSane(s)
    ensures AllSane(Do(s, Checks(q)))
  {
    PlanningKeepsSane(s, q, AfterCheck(s.room, s.plans[q]));
  }

  lemma ActionKeepsSane(s: State, a: Action)
    requires Enabled(s, a) && AllSane(s)
    ensures AllSane(Do(s, a))
  {
    match a
    case Looks(q, op) => LookingKeepsSane(s, q, op);
    case Checks(q) => CheckingKeepsSane(s, q);
    case Writes(q) => WritingKeepsSane(s, q);
    case Fails(q) => PlanningKeepsSane(s, q, None);
  }

  lemma StepKeepsSane(ss: seq<State>, actions: seq<Action>, i: nat)
    requires IsRun(ss, actions) && i < |actions| && AllSane(ss[i])
    ensures AllSane(ss[i + 1])
  {
    assert StepAt(ss, actions, i);
    ActionKeepsSane(ss[i], actions[i]);
  }

  ghost predicate SaneUpTo(ss: seq<State>, n: nat)
    requires n < |ss|
  {
    forall i :: 0 <= i <= n ==> AllSane(ss[i])
  }

  lemma SaneOneMore(ss: seq<State>, actions: seq<Action>, n: nat)
    requires IsRun(ss, actions) && n < |actions| && SaneUpTo(ss, n)
    ensures SaneUpTo(ss, n + 1)
  {
    StepKeepsSane(ss, actions, n);
  }

  /** In every interleaving the folders of a room stay a tree without duplicates. */
  lemma {:induction false} RunKeepsTidy(ss: seq<State>, actions: seq<Action>, n: nat)
    requires IsRun(ss, actions) && SaneUpTo(ss, 0) && n <= |actions|
    ensures SaneUpTo(ss, n)
    decreases n
  {
    if n > 0 {
      RunKeepsTidy(ss, actions, n - 1);
      SaneOneMore(ss, actions, n - 1);
    }
  }

  // ---- documents may be left behind

  ghost predicate LeavesOut(docs: map<DocId, DocRow>, stored: seq<Folder>) {
    exists d :: d in docs && docs[d].folder !in PathSet(Loaded(stored))
  }

  /** The write leaves a document in no folder: the list it writes lacks the document's folder, a move of a
      folder neither takes it along nor makes its folder, or a placement finds its folder gone. */
  ghost predicate Strands(room: RoomState, plan: Plan) {
    match plan
    case Save(_, folders) => LeavesOut(room.docs, folders)
    case Drop(seen, path) => LeavesOut(room.docs, KeepFolders(Loaded(seen), path))
    case Shift(seen, from, dest, name) =>
      var paths := PathSet(Loaded(seen));
      && Renaming(room.(stored := seen), from, dest, name).Done?
      && exists d ::
           d in room.docs && room.docs[d].folder !in paths && room.docs[d].folder !in Renamed(paths, from, dest)
    case Place(doc, folder, _, check) =>
      (doc in room.docs || check.Pass?) && folder !in PathSet(Loaded(room.stored))
    case Replace(doc, folder, _) => doc in room.docs && folder !in PathSet(Loaded(room.stored))
    case _ => false
  }

  lemma ShiftPlacesExactly(room: RoomState, seen: seq<Folder>, from: string, dest: string, name: string)
    requires IsSane(Shift(seen, from, dest, name)) && Renaming(room.(stored := seen), from, dest, name).Done?
    ensures AllPlaced(Shifted(room, seen, from, dest, name)) <==> !Strands(room, Shift(seen, from, dest, name))
  {
    var paths, t := PathSet(Loaded(seen)), Shifted(room, seen, from, dest, name);
    ShiftedList(room, seen, from, dest, name);
    forall d | d in room.docs
      ensures t.docs[d].folder in Renamed(paths, from, dest)
              <==> room.docs[d].folder in paths || room.docs[d].folder in Renamed(paths, from, dest)
    {}
  }

  lemma NewRowPlacesExactly(room: RoomState, t: RoomState, doc: DocId, folder: string)
    requires AllPlaced(room) && t.stored == room.stored && doc in t.docs && t.docs[doc].folder == folder
    requires forall d :: d in t.docs && d != doc ==> d in room.docs && t.docs[d] == room.docs[d]
    ensures AllPlaced(t) <==> folder in PathSet(Loaded(room.stored))
  {}

  lemma PlacePlacesExactly(room: RoomState, doc: DocId, folder: string, order: int, check: Check)
    requires AllPlaced(room)
    ensures AllPlaced(Placed(room, doc, folder, order, check)) <==> !Strands(room, Place(doc, folder, order, check))
  {
    var t := Placed(room, doc, folder, order, check);
    if doc in room.docs || check.Pass? { NewRowPlacesExactly(room, t, doc, folder); }
  }

  lemma ReplacePlacesExactly(room: RoomState, doc: DocId, folder: string, newOrder: Option<int>)
    requires AllPlaced(room)
    ensures AllPlaced(Replaced(room, doc, folder, newOrder)) <==> !Strands(room, Replace(doc, folder, newOrder))
  {
    if doc in room.docs { NewRowPlacesExactly(room, Replaced(room, doc, folder, newOrder), doc, folder); }
  }

  lemma WritePlacesExactly(room: RoomState, plan: Plan)
    requires AllPlaced(room) && IsSane(plan) && IsWrite(plan)
    ensures AllPlaced(Written(room, plan)) <==> !Strands(room, plan)
  {
    match plan
    case Save(_, _) =>
    case Drop(_, _) =>
    case Shift(seen, from, dest, name) =>
      if Renaming(room.(stored := seen), from, dest, name).Done? { ShiftPlacesExactly(room, seen, from, dest, name); }
    case Place(doc, folder, order, check) => PlacePlacesExactly(room, doc, folder, order, check);
    case Replace(doc, folder, newOrder) => ReplacePlacesExactly(room, doc, folder, newOrder);
  }

  ghost predicate StrandsAt(s: State, a: Action) { a.Writes? && a.q in s.plans && Strands(s.room, s.plans[a.q]) }

  /** One step keeps a sound room sound exactly when it leaves no document behind. */
  lemma StepKeepsSoundExactly(s: State, a: Action)
    requires Enabled(s, a) && AllSane(s) && Sound(s.room)
    ensures Sound(Do(s, a).room) <==> !StrandsAt(s, a)
  {
    ActionKeepsSane(s, a);
    SoundIsTidyAndPlaced(s.room);
    SoundIsTidyAndPlaced(Do(s, a).room);
    match a
    case Writes(q) => WritePlacesExactly(s.room, s.plans[q]);
    case Looks(q, op) => if IsDirect(op) { DocumentOperationKeepsSound(s.room, op); }
    case _ =>
  }

  ghost predicate SoundUpTo(ss: seq<State>, n: nat)
    requires n < |ss|
  {
    forall i :: 0 <= i <= n ==> Sound(ss[i].room)
  }

  /** None of the first n steps leaves a document behind. */
  ghost predicate NoneStrands(ss: seq<State>, actions: seq<Action>, n: nat)
    requires n <= |actions| <= |ss|
  {
    forall i :: 0 <= i < n ==> !StrandsAt(ss[i], actions[i])
  }

  lemma SoundAfterStep(ss: seq<State>, actions: seq<Action>, n: nat)
    requires IsRun(ss, actions) && n < |actions| && AllSane(ss[n]) && Sound(ss[n].room)
    ensures Sound(ss[n + 1].room) <==> !StrandsAt(ss[n], actions[n])
  {
    assert StepAt(ss, actions, n);
    StepKeepsSoundExactly(ss[n], actions[n]);
  }

  lemma SoundUpToNext(ss: seq<State>, n: nat)
    requires n + 1 < |ss| && SoundUpTo(ss, n)
    ensures SoundUpTo(ss, n + 1) <==> Sound(ss[n + 1].room)
  {}

  lemma SoundOneMore(ss: seq<State>, actions: seq<Action>, n: nat)
    requires IsRun(ss, actions) && n < |actions| && SaneUpTo(ss, n) && SoundUpTo(ss, n)
    ensures SoundUpTo(ss, n + 1) <==> !StrandsAt(ss[n], actions[n])
  {
    SoundAfterStep(ss, actions, n);
    SoundUpToNext(ss, n);
  }

  lemma SoundEarlier(ss: seq<State>, n: nat)
    requires n + 1 < |ss| && SoundUpTo(ss, n + 1)
    ensures SoundUpTo(ss, n)
  {}

  lemma NoneOneMore(ss: seq<State>, actions: seq<Action>, n: nat)
    requires n < |actions| <= |ss|
    ensures NoneStrands(ss, actions, n + 1) <==> NoneStrands(ss, actions, n) && !StrandsAt(ss[n], actions[n])
  {}

  lemma ExactOneMore(ss: seq<State>, actions: seq<Action>, n: nat)
    requires IsRun(ss, actions) && n < |actions| && SaneUpTo(ss, n)
    requires SoundUpTo(ss, n) <==> NoneStrands(ss, actions, n)
    ensures SoundUpTo(ss, n + 1) <==> NoneStrands(ss, actions, n + 1)
  {
    NoneOneMore(ss, actions, n);
    if SoundUpTo(ss, n) {
      SoundOneMore(ss, actions, n);
    } else if SoundUpTo(ss, n + 1) {
      SoundEarlier(ss, n);
    }
  }

  lemma NoneAtFirst(ss: seq<State>, actions: seq<Action>)
    requires |actions| <= |ss|
    ensures NoneStrands(ss, actions, 0)
  {}

  /** In every interleaving a sound room stays sound exactly as long as no write leaves a document behind. */
  lemma {:induction false} RunKeepsSoundExactly(ss: seq<State>, actions: seq<Action>, n: nat)
    requires IsRun(ss, actions) && SaneUpTo(ss, 0) && SoundUpTo(ss, 0) && n <= |actions|
    ensures SoundUpTo(ss, n) <==> NoneStrands(ss, actions, n)
    decreases n
  {
    if n == 0 {
      NoneAtFirst(ss, actions);
    } else {
      RunKeepsSoundExactly(ss, actions, n - 1);
      RunKeepsTidy(ss, actions, n - 1);
      ExactOneMore(ss, actions, n - 1);
    }
  }

  /** The folders are still those that the request saw, a folder to be dropped is empty, and one to be placed
      into is there. */
  ghost predicate Undisturbed(room: RoomState, plan: Plan) {
    match plan
    case Save(seen, _) => PathSet(Loaded(seen)) == PathSet(Loaded(room.stored))
    case Drop(seen, path) => PathSet(Loaded(seen)) == PathSet(Loaded(room.stored)) && EmptyBelow(room.docs, path)
    case Shift(seen, _, _, _) => PathSet(Loaded(seen)) == PathSet(Loaded(room.stored))
    case Place(_, folder, _, _) => folder in PathSet(Loaded(room.stored))
    case Replace(_, folder, _) => folder in PathSet(Loaded(room.stored))
    case _ => true
  }

  lemma KeptIsLoaded(seen: seq<Folder>, path: string, p: string)
    requires p in PathSet(Loaded(seen)) && !Under(path, p)
    ensures p in PathSet(Loaded(KeepFolders(Loaded(seen), path)))
  {
    KeptPathSet(Loaded(seen), path);
    LoadedKeepsPaths(KeepFolders(Loaded(seen), path));
    RootIsNotLoaded(seen);
  }

  /** So documents are left behind only by a write that another request has got in front of: one that changed
      the folders, or that put a document below a folder being dropped. */
  lemma UndisturbedStrandsNothing(room: RoomState, plan: Plan)
    requires AllPlaced(room) && IsSane(plan) && Undisturbed(room, plan)
    ensures !Strands(room, plan)
  {
    if plan.Drop? {
      forall d | d in room.docs
        ensures room.docs[d].folder in PathSet(Loaded(KeepFolders(Loaded(plan.seen), plan.path)))
      {
        KeptIsLoaded(plan.seen, plan.path, room.docs[d].folder);
      }
    }
  }

  // ---- a request alone

  lemma CreateReadsListing(room: RoomState, name: string, parent: string)
    ensures var r, bare := CreateFolder(room, name, parent), CreateFolder(Listing(room.stored), name, parent);
            && r.Done? == bare.Done?
            && (r.Done? ==> r.room == room.(stored := bare.room.stored))
  {}

  lemma LockReadsListing(room: RoomState, paths: seq<string>, locked: bool)
    ensures var r, bare := LockFolders(room, paths, locked), LockFolders(Listing(room.stored), paths, locked);
            && r.Done? == bare.Done?
            && (r.Done? ==> r.room == room.(stored := bare.room.stored))
  {}

  lemma DeleteAtOnce(room: RoomState, rawPath: string)
    ensures var plan, path := PlanOf(room.stored, Delete(rawPath)), Normalize(rawPath);
            Next(room, Delete(rawPath))
            == if plan.Some? && !HasDocuments(room.docs, path) then Written(room, Drop(room.stored, path)) else room
  {}

  lemma ShiftAtOnce(room: RoomState, from: string, dest: string, name: string)
    requires RenameError(room, from, dest).None?
    ensures Shifted(room, room.stored, from, dest, name)
            == match RenameAt(room, from, dest, name) { case Done(r) => r case Failed(_) => room }
  {
    assert room.(stored := room.stored) == room;
  }

  lemma SameRenameError(room: RoomState, from: string, dest: string)
    ensures RenameError(room, from, dest) == RenameError(Listing(room.stored), from, dest)
  {}

  lemma NextOfRename(room: RoomState, path: string, name: string)
    ensures var from, dest := Normalize(path), Join(Parent(Normalize(path)), Slugify(TrimSpace(name)));
            var refused := from == ROOT || NameError(TrimSpace(name)).Some? || RenameError(room, from, dest).Some?;
            && (refused ==> Next(room, Rename(path, name)) == room)
            && (!refused ==>
                 Next(room, Rename(path, name))
                 == match RenameAt(room, from, dest, TrimSpace(name)) { case Done(r) => r case Failed(_) => room })
  {}

  lemma RenameReadsListing(room: RoomState, path: string, name: string)
    ensures var plan := ShiftPlan(room.stored, path, name);
            && (plan.Some? ==> plan.value.Shift?)
            && Next(room, Rename(path, name)) == if plan.Some? then Written(room, plan.value) else room
  {
    var from, dest := Normalize(path), Join(Parent(Normalize(path)), Slugify(TrimSpace(name)));
    SameRenameError(room, from, dest);
    NextOfRename(room, path, name);
    if RenameError(room, from, dest).None? { ShiftAtOnce(room, from, dest, TrimSpace(name)); }
  }

  /** The write of a plan that needs no check, made at once, is the whole operation. */
  lemma WriteAtOnce(room: RoomState, op: Operation)
    requires !IsDirect(op) && !op.Delete? && !op.Move?
    ensures var plan := PlanOf(room.stored, op);
            && (plan.Some? ==> IsWrite(plan.value))
            && Next(room, op) == if plan.Some? then Written(room, plan.value) else room
  {
    match op
    case Create(name, parent) => CreateReadsListing(room, name, parent);
    case SetFolderLocks(paths, locked) => LockReadsListing(room, paths, locked);
    case Rename(path, name) => RenameReadsListing(room, path, name);
    case Add(doc, folder, order, check1, check2) => NextOfAdding(room, doc, folder, order, check1, check2);
  }

  lemma CheckAndWriteAtOnce(room: RoomState, op: Operation)
    requires op.Delete? || op.Move?
    ensures var plan := PlanOf(room.stored, op);
            && (plan.Some? ==> IsCheck(plan.value))
            && var next := if plan.Some? then AfterCheck(room, plan.value) else None;
            && (next.Some? ==> IsWrite(next.value))
            && Next(room, op) == if next.Some? then Written(room, next.value) else room
  {
    match op
    case Delete(path) => DeleteAtOnce(room, path);
    case Move(doc, folder, newOrder) => NextOfMoving(room, doc, folder, newOrder);
  }

  lemma RunOneMore(ss: seq<State>, actions: seq<Action>, a: Action, t: State)
    requires IsRun(ss, actions) && Step(ss[|actions|], a, t)
    ensures IsRun(ss + [t], actions + [a])
  {
    forall i | 0 <= i < |actions| + 1 ensures StepAt(ss + [t], actions + [a], i) {
      if i < |actions| { assert StepAt(ss, actions, i); }
    }
  }

  /** The states and steps of a request that nobody interrupts. */
  lemma LooksOnly(s: State, q: RequestId, op: Operation)
    requires q !in s.plans
    ensures IsRun([s, Do(s, Looks(q, op))], [Looks(q, op)])
  {}

  lemma WriteAlone(s: State, q: RequestId, op: Operation) returns (ss: seq<State>, actions: seq<Action>)
    requires q !in s.plans && !IsDirect(op) && !op.Delete? && !op.Move?
    ensures IsRun(ss, actions) && ss[0] == s && ss[|actions|].room == Next(s.room, op)
  {
    var t := Do(s, Looks(q, op));
    ss, actions := [s, t], [Looks(q, op)];
    LooksOnly(s, q, op);
    WriteAtOnce(s.room, op);
    if q in t.plans {
      RunOneMore(ss, actions, Writes(q), Do(t, Writes(q)));
      ss, actions := ss + [Do(t, Writes(q))], actions + [Writes(q)];
    }
  }

  lemma CheckAndWriteAlone(s: State, q: RequestId, op: Operation) returns (ss: seq<State>, actions: seq<Action>)
    requires q !in s.plans && (op.Delete? || op.Move?)
    ensures IsRun(ss, actions) && ss[0] == s && ss[|actions|].room == Next(s.room, op)
  {
    var t := Do(s, Looks(q, op));
    ss, actions := [s, t], [Looks(q, op)];
    LooksOnly(s, q, op);
    CheckAndWriteAtOnce(s.room, op);
    if q in t.plans {
      var u := Do(t, Checks(q));
      RunOneMore(ss, actions, Checks(q), u);
      ss, actions := ss + [u], actions + [Checks(q)];
      if q in u.plans {
        RunOneMore(ss, actions, Writes(q), Do(u, Writes(q)));
        ss, actions := ss + [Do(u, Writes(q))], actions + [Writes(q)];
      }
    }
  }

  /** Without others in between the steps of one request are the operation of Rooms. */
  lemma AloneIsNext(s: State, q: RequestId, op: Operation) returns (ss: seq<State>, actions: seq<Action>)
    requires q !in s.plans
    ensures IsRun(ss, actions) && ss[0] == s && ss[|actions|].room == Next(s.room, op)
  {
    if op.Delete? || op.Move? {
      ss, actions := CheckAndWriteAlone(s, q, op);
    } else if IsDirect(op) {
      ss, actions := [s, Do(s, Looks(q, op))], [Looks(q, op)];
      LooksOnly(s, q, op);
    } else {
      ss, actions := WriteAlone(s, q, op);
    }
  }

  // ---- two that lose something

  lemma DroppedIsGone(seen: seq<Folder>, path: string)
    requires path != GENERAL.path
    ensures path !in PathSet(Loaded(KeepFolders(Loaded(seen), path)))
  {}

  lemma TwoWrites(s: State, q: RequestId, r: RequestId) returns (ss: seq<State>)
    requires q in s.plans && r in s.plans && q != r && IsWrite(s.plans[q]) && IsWrite(s.plans[r])
    ensures IsRun(ss, [Writes(q), Writes(r)]) && ss[0] == s
    ensures ss[2].room == Written(Written(s.room, s.plans[q]), s.plans[r])
  {
    var t := State(Written(s.room, s.plans[q]), s.plans - {q});
    var u := State(Written(t.room, s.plans[r]), s.plans - {q} - {r});
    ss := [s, t, u];
    forall i | 0 <= i < 2 ensures StepAt(ss, [Writes(q), Writes(r)], i) {
      assert i == 0 || i == 1;
    }
  }

  /** Of two lists that are about to be saved the later one stays, as if the first request had changed
      nothing. */
  lemma LaterSaveWins(s: State, q: RequestId, r: RequestId) returns (ss: seq<State>)
    requires q in s.plans && r in s.plans && q != r && s.plans[q].Save? && s.plans[r].Save?
    ensures IsRun(ss, [Writes(q), Writes(r)]) && ss[0] == s
    ensures ss[2].room == s.room.(stored := s.plans[r].folders)
  {
    ss := TwoWrites(s, q, r);
  }

  /** A document is about to be placed into a folder that is about to be dropped. */
  ghost predicate Collide(s: State, q: RequestId, r: RequestId, doc: DocId) {
    && q in s.plans && r in s.plans && s.plans[q].Place? && s.plans[r].Drop?
    && s.plans[q].doc == doc && s.plans[q].check.Pass? && s.plans[q].folder == s.plans[r].path
    && s.plans[r].path != GENERAL.path
  }

  ghost predicate LeftBehind(room: RoomState, doc: DocId) {
    doc in room.docs && room.docs[doc].folder !in PathSet(Loaded(room.stored))
  }

  /** Whichever of the two goes first, the document is left in no folder. */
  lemma CollisionStrands(s: State, q: RequestId, r: RequestId, doc: DocId) returns (qr: seq<State>, rq: seq<State>)
    requires Collide(s, q, r, doc)
    ensures IsRun(qr, [Writes(q), Writes(r)]) && qr[0] == s && LeftBehind(qr[2].room, doc)
    ensures IsRun(rq, [Writes(r), Writes(q)]) && rq[0] == s && LeftBehind(rq[2].room, doc)
  {
    qr := TwoWrites(s, q, r);
    rq := TwoWrites(s, r, q);
    DroppedIsGone(s.plans[r].seen, s.plans[r].path);
  }

  /** A listed folder that is not locked, under the path by which it is asked for. */
  predicate IsOpenFolder(folders: seq<Folder>, path: string) {
    Normalize(path) == path != ROOT && Exists(folders, path) && !IsLocked(folders, path)
  }

  lemma UnlockedIsOpen(room: RoomState, path: string)
    requires Sound(room) && path in PathSet(Loaded(room.stored)) && !IsLocked(Loaded(room.stored), path)
    ensures IsOpenFolder(Loaded(room.stored), path)
  {
    NormalizeKeepsWellFormed(path);
    WellFormedIsNotRoot(path);
    ExistsMeansListed(Loaded(room.stored), path);
  }

  lemma AddPlan(seen: seq<Folder>, path: string, doc: DocId)
    requires IsOpenFolder(Loaded(seen), path)
    ensures PlanOf(seen, Add(doc, path, 0, Pass, Pass)) == Some(Place(doc, path, 0, Pass))
  {}

  lemma LooksTo(room: RoomState, plans: map<RequestId, Plan>, q: RequestId, op: Operation, plan: Plan)
    requires q !in plans && !IsDirect(op) && PlanOf(room.stored, op) == Some(plan)
    ensures Step(State(room, plans), Looks(q, op), State(room, plans[q := plan]))
  {}

  lemma AddStep(room: RoomState, path: string, doc: DocId)
    requires IsOpenFolder(Loaded(room.stored), path)
    ensures Step(State(room, map[]), Looks(0, Add(doc, path, 0, Pass, Pass)),
                 State(room, map[0 := Place(doc, path, 0, Pass)]))
  {
    AddPlan(room.stored, path, doc);
    LooksTo(room, map[], 0, Add(doc, path, 0, Pass, Pass), Place(doc, path, 0, Pass));
  }

  lemma DeleteStep(room: RoomState, path: string, placing: Plan)
    requires IsOpenFolder(Loaded(room.stored), path)
    ensures Step(State(room, map[0 := placing]), Looks(1, Delete(path)),
                 State(room, map[0 := placing, 1 := Count(room.stored, path)]))
  {}

  lemma CountStep(room: RoomState, path: string, placing: Plan)
    requires !HasDocuments(room.docs, path)
    ensures Step(State(room, map[0 := placing, 1 := Count(room.stored, path)]), Checks(1),
                 State(room, map[0 := placing, 1 := Drop(room.stored, path)]))
  {}

  lemma ThreeSteps(ss: seq<State>, actions: seq<Action>)
    requires |ss| == 4 && |actions| == 3
    requires Step(ss[0], actions[0], ss[1]) && Step(ss[1], actions[1], ss[2]) && Step(ss[2], actions[2], ss[3])
    ensures IsRun(ss, actions)
  {
    forall i | 0 <= i < 3 ensures StepAt(ss, actions, i) {
      assert i == 0 || i == 1 || i == 2;
    }
  }

  /** Such a collision comes about in every room with an unlocked folder that holds no documents; its path
      need not hold anything special. */
  lemma AddMeetsDelete(room: RoomState, path: string, doc: DocId) returns (ss: seq<State>)
    requires Sound(room) && path in PathSet(Loaded(room.stored)) && !IsLocked(Loaded(room.stored), path)
    requires path != GENERAL.path && !HasDocuments(room.docs, path)
    ensures IsRun(ss, [Looks(0, Add(doc, path, 0, Pass, Pass)), Looks(1, Delete(path)), Checks(1)])
    ensures ss[0] == State(room, map[]) && ss[3].room == room && Collide(ss[3], 0, 1, doc)
  {
    var placing, counting, dropping := Place(doc, path, 0, Pass), Count(room.stored, path), Drop(room.stored, path);
    ss := [State(room, map[]), State(room, map[0 := placing]), State(room, map[0 := placing, 1 := counting]),
           State(room, map[0 := placing, 1 := dropping])];
    UnlockedIsOpen(room, path);
    AddStep(room, path, doc);
    DeleteStep(room, path, placing);
    CountStep(room, path, placing);
    ThreeSteps(ss, [Looks(0, Add(doc, path, 0, Pass, Pass)), Looks(1, Delete(path)), Checks(1)]);
  }
}
