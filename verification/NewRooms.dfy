/** Which rooms the creation request makes (dealroom/service.go:322-361), and whether they are sound. */
module NewRooms {
  import opened CreateFolders
  import opened FolderTree
  import opened GoStrings
  import opened LockScope
  import opened Paths
  import opened RoomEffects
  import opened RoomLaws
  import opened Rooms

  /** The list is stored as it is, General in place of an empty one. */
  function NewRoom(folders: seq<Folder>): RoomState {
    RoomState(if folders == [] then [GENERAL] else folders, map[], [], map[])
  }

  /** A list of different paths without the root makes a sound room exactly when it is a tree. */
  lemma NewRoomIsSoundExactly(folders: seq<Folder>)
    requires Unique(folders) && ROOT !in PathSet(folders)
    ensures Sound(NewRoom(folders)) <==> IsTree(PathSet(folders))
  {
    if folders == [] {
      GeneralIsTree();
      LoadOfTree([GENERAL]);
    } else {
      LoadAfterSave(folders);
    }
  }

  /** The folders of a template, all top-level, make a sound room. */
  lemma TopLevelRoomIsSound(folders: seq<Folder>)
    requires Unique(folders)
    requires forall f :: f in folders ==> WellFormed(f.path) && Above(f.path) == ROOT
    ensures Sound(NewRoom(folders))
  {
    if ROOT in PathSet(folders) { WellFormedIsNotRoot(ROOT); }
    NewRoomIsSoundExactly(folders);
  }

  // ---- requested folders

  lemma SuffixGoesToName(parent: string, name: string, suffix: string)
    ensures Child(parent, name) + suffix == Child(parent, name + suffix)
  {
    Regroup("/", name, suffix);
    Regroup(parent + "/", name, suffix);
  }

  lemma NumberedIsSegment(name: string, n: nat)
    requires Segment(name)
    ensures Segment(name + "-" + Decimal(n))
  {
    var s := name + "-" + Decimal(n);
    assert s[|s| - 1] == Decimal(n)[|Decimal(n)| - 1];
    assert s[|s| - 1] in Decimal(n);
    forall c | c in s ensures c != '/' {
      assert c in name || c == '-' || c in Decimal(n);
    }
  }

  /** A suffix keeps a path well-formed and under the same parent. */
  lemma CandidateKeepsShape(base: string, n: nat)
    requires WellFormed(base)
    ensures WellFormed(Candidate(base, n)) && Above(Candidate(base, n)) == Above(base)
  {
    if n >= 2 {
      var parent, name, suffix := Above(base), Last(base), "-" + Decimal(n);
      SplitWellFormed(base);
      assert base + "-" + Decimal(n) == base + suffix;
      SuffixGoesToName(parent, name, suffix);
      assert name + "-" + Decimal(n) == name + suffix;
      NumberedIsSegment(name, n);
      ChildWellFormed(parent, name + suffix);
    }
  }

  /** The paths that the accepted folders asked for. */
  function AskedPaths(named: seq<Folder>, n: nat): seq<string>
    requires n <= |named|
  {
    seq(n, i requires 0 <= i < n => BasePath(named[i], i))
  }

  ghost predicate GivenInOrder(asked: seq<string>, out: seq<Folder>) {
    |asked| == |out| && forall i :: 0 <= i < |out| ==> IsFirstFree(asked[i], PathSet(out[..i]), out[i].path)
  }

  lemma AcceptedAreGivenInOrder(named: seq<Folder>, out: seq<Folder>)
    requires Accepts(named, out)
    ensures GivenInOrder(AskedPaths(named, |out|), out)
  {}

  /** A path that was asked for is among the accepted ones, if not for this folder then for an earlier. */
  lemma AskedPathIsAccepted(asked: seq<string>, out: seq<Folder>, i: nat)
    requires GivenInOrder(asked, out) && i < |out|
    ensures asked[i] in PathSet(out)
  {
    var n :| n >= 1 && out[i].path == Candidate(asked[i], n)
             && forall m :: 1 <= m < n ==> Candidate(asked[i], m) in PathSet(out[..i]);
    if n > 1 {
      assert Candidate(asked[i], 1) == asked[i];
      var j :| 0 <= j < i && out[..i][j].path == asked[i];
      assert out[j] in out;
    } else {
      assert out[i] in out;
    }
  }

  /** Each path asked for is well-formed, and top-level or below another accepted folder. */
  ghost predicate AsksForTree(asked: seq<string>, out: seq<Folder>) {
    forall i :: 0 <= i < |asked| ==>
      WellFormed(asked[i]) && (Above(asked[i]) == ROOT || Above(asked[i]) in PathSet(out))
  }

  lemma AcceptedAreUnique(named: seq<Folder>, out: seq<Folder>)
    requires Accepts(named, out)
    ensures Unique(out) && ROOT !in PathSet(out)
  {
    AcceptedPathsAreDistinct(named, out);
    forall f | f in out ensures f.path != ROOT {
      var i :| 0 <= i < |out| && out[i] == f;
    }
  }

  lemma AcceptedIsInTree(asked: seq<string>, out: seq<Folder>, i: nat)
    requires GivenInOrder(asked, out) && AsksForTree(asked, out) && i < |out|
    ensures WellFormed(out[i].path) && (Above(out[i].path) == ROOT || Above(out[i].path) in PathSet(out))
  {
    var n :| n >= 1 && out[i].path == Candidate(asked[i], n);
    CandidateKeepsShape(asked[i], n);
  }

  lemma AcceptedFormTreeExactly(asked: seq<string>, out: seq<Folder>)
    requires GivenInOrder(asked, out)
    ensures IsTree(PathSet(out)) <==> AsksForTree(asked, out)
  {
    forall i | 0 <= i < |out| ensures asked[i] in PathSet(out) { AskedPathIsAccepted(asked, out, i); }
    if AsksForTree(asked, out) {
      forall f | f in out ensures WellFormed(f.path) && (Above(f.path) == ROOT || Above(f.path) in PathSet(out)) {
        var i :| 0 <= i < |out| && out[i] == f;
        AcceptedIsInTree(asked, out, i);
      }
    }
  }

  /** The room made from accepted folders is sound exactly when the request asks for a tree. */
  lemma RequestedRoomIsSoundExactly(named: seq<Folder>, out: seq<Folder>)
    requires Accepts(named, out)
    ensures Sound(NewRoom(out)) <==> AsksForTree(AskedPaths(named, |out|), out)
  {
    AcceptedAreUnique(named, out);
    AcceptedAreGivenInOrder(named, out);
    AcceptedFormTreeExactly(AskedPaths(named, |out|), out);
    NewRoomIsSoundExactly(out);
  }

  lemma OnTopIsWellFormed(segment: string)
    requires Segment(segment)
    ensures WellFormed("/" + segment) && Above("/" + segment) == ROOT
  {
    AppendSegment([], segment);
    assert [] + "/" + segment == "/" + segment;
  }

  lemma FolderNumberIsSegment(n: nat)
    ensures Segment("folder-" + Decimal(n))
  {
    assert "folder-" + Decimal(n) == "folder" + "-" + Decimal(n);
    NumberedIsSegment("folder", n);
  }

  /** A folder asked for by name only gets a top-level path. */
  lemma UnplacedIsTopLevel(f: Folder, index: nat)
    requires Normalize(f.path) == ROOT
    ensures WellFormed(BasePath(f, index)) && Above(BasePath(f, index)) == ROOT
  {
    var slug := Slugify(TrimSpace(f.name));
    if slug == [] {
      FolderNumberIsSegment(index + 1);
      OnTopIsWellFormed("folder-" + Decimal(index + 1));
    } else {
      SlugIsSegment(TrimSpace(f.name));
      OnTopIsWellFormed(slug);
    }
  }

  /** Unplaced, or placed at the top. */
  predicate AsksForTopLevel(f: Folder) {
    var p := Normalize(f.path);
    p == ROOT || (WellFormed(p) && Above(p) == ROOT)
  }

  lemma TopLevelIsAsked(f: Folder, index: nat)
    requires AsksForTopLevel(f)
    ensures WellFormed(BasePath(f, index)) && Above(BasePath(f, index)) == ROOT
  {
    if Normalize(f.path) == ROOT { UnplacedIsTopLevel(f, index); }
  }

  /** A request whose folders are all unplaced or placed at the top makes a sound room. */
  lemma TopLevelRequestIsSound(named: seq<Folder>, out: seq<Folder>)
    requires Accepts(named, out)
    requires forall i :: 0 <= i < |out| ==> AsksForTopLevel(named[i])
    ensures Sound(NewRoom(out))
  {
    var asked := AskedPaths(named, |out|);
    forall i | 0 <= i < |out| ensures WellFormed(asked[i]) && Above(asked[i]) == ROOT {
      TopLevelIsAsked(named[i], i);
    }
    RequestedRoomIsSoundExactly(named, out);
  }

  // ---- requests for one folder

  function Only(f: Folder): Folder {
    Folder(BasePath(f, 0), TrimSpace(f.name), TrimSpace(f.description), 0, false)
  }

  lemma FirstFreeOfNone(base: string, path: string)
    ensures IsFirstFree(base, {}, path) <==> path == base
  {
    var used: set<string> := {};
    assert Candidate(base, 1) == base && Candidate(base, 1) !in used;
  }

  /** A single folder whose name has no slash is accepted under the very path asked for, whatever it is. */
  lemma OneFolderIsAccepted(f: Folder, out: seq<Folder>)
    requires '/' !in TrimSpace(f.name) && |out| == 1
    ensures Accepts([f], out) <==> out == [Only(f)]
  {
    assert out[..0] == [] && PathSet([]) == {};
    FirstFreeOfNone(BasePath(f, 0), out[0].path);
  }

  lemma OnePathIsTree(p: string, out: seq<Folder>)
    requires PathSet(out) == {p}
    ensures AsksForTree([p], out) <==> WellFormed(p) && Above(p) == ROOT
  {
    if WellFormed(p) { SplitWellFormed(p); }
    assert [p][0] == p;
  }

  /** Its room is sound exactly when that path is well-formed and top-level. */
  lemma OneFolderRoomIsSoundExactly(f: Folder)
    requires '/' !in TrimSpace(f.name)
    ensures Sound(NewRoom([Only(f)])) <==> WellFormed(BasePath(f, 0)) && Above(BasePath(f, 0)) == ROOT
  {
    OneFolderIsAccepted(f, [Only(f)]);
    RequestedRoomIsSoundExactly([f], [Only(f)]);
    assert AskedPaths([f], 1) == [BasePath(f, 0)];
    OnePathIsTree(BasePath(f, 0), [Only(f)]);
  }

  function LosingRun(p: string, name: string, doc: DocId): seq<Operation> {
    [Create(name, p), Add(doc, Child(p, Slugify(TrimSpace(name))), 0, Pass, Pass), Delete(p)]
  }

  ghost predicate OrphanedBy(s: RoomState, ops: seq<Operation>, doc: DocId) {
    var t := Run(s, ops);
    doc in t.docs && t.docs[doc].folder !in PathSet(Loaded(t.stored))
  }

  lemma RunOfThree(s: RoomState, a: Operation, b: Operation, c: Operation)
    ensures Run(s, [a, b, c]) == Next(Next(Next(s, a), b), c)
  {
    var t := Next(s, a);
    var u := Next(t, b);
    assert [a, b, c][1..] == [b, c] && [b, c][1..] == [c] && [c][1..] == [];
    assert Run(s, [a, b, c]) == Run(t, [b, c]);
    assert Run(t, [b, c]) == Run(u, [c]);
  }

  lemma NextOfCreate(s: RoomState, name: string, p: string)
    requires WellFormed(p) && NameError(TrimSpace(name)).None?
    ensures var r := CreateAt(s, p, Child(p, Slugify(TrimSpace(name))), TrimSpace(name));
            Next(s, Create(name, p)) == if r.Done? then r.room else s
  {
    WellFormedIsNotRoot(p);
    OfWellFormed(p, Slugify(TrimSpace(name)));
  }

  lemma LoadOfTreeList(folders: seq<Folder>)
    requires folders != [] && forall f :: f in folders ==> WellFormed(f.path)
    ensures Loaded(folders) == folders
  {
    if ROOT in PathSet(folders) { WellFormedIsNotRoot(ROOT); }
    LoadAfterSave(folders);
  }

  lemma CreateAtFree(s: RoomState, parent: string, path: string, name: string)
    requires Exists(Loaded(s.stored), parent) && !IsLocked(Loaded(s.stored), parent) && !Exists(Loaded(s.stored), path)
    ensures CreateAt(s, parent, path, name)
            == Done(s.(stored := Loaded(s.stored) + [NewFolder(Loaded(s.stored), path, name)]))
  {}

  lemma UnlockedPair(g: Folder, c: Folder)
    requires !g.locked && !c.locked
    ensures PathSet([g, c]) == {g.path, c.path} && !IsLocked([g, c], g.path) && !IsLocked([g, c], c.path)
  {
    assert [g, c][1..] == [c] && [c][1..] == [];
  }

  lemma CreateIntoOne(s: RoomState, g: Folder, slug: string, name: string)
    requires Loaded(s.stored) == [g] && WellFormed(g.path) && !g.locked
    requires WellFormed(Child(g.path, slug)) && Child(g.path, slug) != g.path
    ensures var r := CreateAt(s, g.path, Child(g.path, slug), name);
            && r.Done? && r.room.docs == s.docs
            && PathSet(Loaded(r.room.stored)) == {g.path, Child(g.path, slug)}
            && !IsLocked(Loaded(r.room.stored), g.path) && !IsLocked(Loaded(r.room.stored), Child(g.path, slug))
  {
    var c := NewFolder([g], Child(g.path, slug), name);
    assert [g] + [c] == [g, c];
    CreateAtFree(s, g.path, Child(g.path, slug), name);
    LoadOfTreeList([g, c]);
    UnlockedPair(g, c);
  }

  lemma ChildIsMade(g: Folder, name: string)
    requires WellFormed(g.path) && !g.locked && Sound(NewRoom([g])) && NameError(TrimSpace(name)).None?
    ensures var slug, t := Slugify(TrimSpace(name)), Next(NewRoom([g]), Create(name, g.path));
            && Sound(t) && t.docs == map[]
            && PathSet(Loaded(t.stored)) == {g.path, Child(g.path, slug)}
            && !IsLocked(Loaded(t.stored), g.path) && !IsLocked(Loaded(t.stored), Child(g.path, slug))
  {
    var p, slug, s := g.path, Slugify(TrimSpace(name)), NewRoom([g]);
    SlugIsSegment(TrimSpace(name));
    LoadOfTreeList([g]);
    ChildWellFormed(p, slug);
    SplitWellFormed(Child(p, slug));
    CreateIntoOne(s, g, slug, TrimSpace(name));
    NextOfCreate(s, name, p);
    CreationKeepsSound(s, name, p);
  }

  lemma ChildIsBelow(p: string, slug: string)
    requires WellFormed(p)
    ensures p + "/" <= Child(p, slug)
  {
    WellFormedIsNotRoot(p);
    assert Child(p, slug) == (p + "/") + slug;
  }

  lemma DocumentIsPlaced(t: RoomState, p: string, slug: string, doc: DocId)
    requires Sound(t) && t.docs == map[] && WellFormed(p) && Segment(slug)
    requires Child(p, slug) in PathSet(Loaded(t.stored)) && !IsLocked(Loaded(t.stored), Child(p, slug))
    ensures var u := Next(t, Add(doc, Child(p, slug), 0, Pass, Pass));
            && Sound(u) && u.stored == t.stored && u.docs.Keys == {doc}
            && p + "/" <= u.docs[doc].folder
  {
    ChildWellFormed(p, slug);
    NormalizeKeepsWellFormed(Child(p, slug));
    AddPlacesOneDocument(t, doc, Child(p, slug), 0, Pass, Pass);
    DocumentOperationKeepsSound(t, Add(doc, Child(p, slug), 0, Pass, Pass));
    ChildIsBelow(p, slug);
  }

  lemma NextOfDelete(s: RoomState, path: string)
    ensures var r := DeleteFolder(s, path);
            Next(s, Delete(path)) == if r.Done? then r.room else s
  {}

  lemma FolderIsLost(u: RoomState, p: string, doc: DocId)
    requires Sound(u) && p in PathSet(Loaded(u.stored)) && '\\' in p && '%' !in p
    requires !IsLocked(Loaded(u.stored), p) && u.docs.Keys == {doc} && p + "/" <= u.docs[doc].folder
    ensures var t := Next(u, Delete(p));
            doc in t.docs && t.docs[doc].folder !in PathSet(Loaded(t.stored))
  {
    DeleteWithBackslashOrphans(u, p, doc);
    NextOfDelete(u, p);
  }

  lemma LosingRunOrphans(g: Folder, name: string, doc: DocId)
    requires WellFormed(g.path) && !g.locked && Sound(NewRoom([g])) && NameError(TrimSpace(name)).None?
    requires '\\' in g.path && '%' !in g.path
    ensures OrphanedBy(NewRoom([g]), LosingRun(g.path, name, doc), doc)
  {
    var p, slug := g.path, Slugify(TrimSpace(name));
    var a, b, c := Create(name, p), Add(doc, Child(p, slug), 0, Pass, Pass), Delete(p);
    var s := NewRoom([g]);
    SlugIsSegment(TrimSpace(name));
    ChildIsMade(g, name);
    var t := Next(s, a);
    DocumentIsPlaced(t, p, slug, doc);
    var u := Next(t, b);
    FolderIsLost(u, p, doc);
    RunOfThree(s, a, b, c);
  }

  /** The request for a folder whose path holds a backslash makes a sound room, and a run from there loses
      a document: a child is made, a document put into it, and the folder deleted. */
  lemma BackslashRoomLosesDocument(f: Folder, name: string, doc: DocId)
    requires '/' !in TrimSpace(f.name) && NameError(TrimSpace(name)).None?
    requires WellFormed(BasePath(f, 0)) && Above(BasePath(f, 0)) == ROOT
    requires '\\' in BasePath(f, 0) && '%' !in BasePath(f, 0)
    ensures var s, p := NewRoom([Only(f)]), BasePath(f, 0);
            Sound(s) && OrphanedBy(s, LosingRun(p, name, doc), doc)
  {
    OneFolderRoomIsSoundExactly(f);
    LosingRunOrphans(Only(f), name, doc);
  }
}
