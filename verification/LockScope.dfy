/** Folder locks and who they keep out: dealroom/lockscope.go and
    documentUnderLockedFolders of dealroom/service.go. */
module LockScope {
  import opened GoStrings
  import opened Paths

  datatype Folder = Folder(path: string, name: string, description: string, sortOrder: int, locked: bool)

  ghost function PathSet(folders: seq<Folder>): set<string> { set f | f in folders :: f.path }

  predicate MarksLocked(f: Folder) { f.locked && Normalize(f.path) != ROOT }

  function LockedPaths(folders: seq<Folder>): set<string> {
    set f | f in folders && MarksLocked(f) :: Normalize(f.path)
  }

  lemma LockedPathsOfLast(folders: seq<Folder>)
    requires folders != []
    ensures var f := folders[|folders| - 1];
            LockedPaths(folders) == LockedPaths(folders[..|folders| - 1]) +
                                    (if MarksLocked(f) then {Normalize(f.path)} else {})
  {
    var init, f := folders[..|folders| - 1], folders[|folders| - 1];
    assert folders == init + [f];
  }

  /** lockscope.go:14-35 on the parsed settings: the paths marked locked. */
  method LockedFolderPathSet(folders: seq<Folder>) returns (out: set<string>)
    ensures out == LockedPaths(folders)
  {
    out := {};
    for k := 0 to |folders|
      invariant out == LockedPaths(folders[..k])
    {
      LockedPathsOfLast(folders[..k + 1]);
      assert folders[..k + 1][..k] == folders[..k];
      var f := folders[k];
      if f.locked {
        var p := Normalize(f.path);
        if p != ROOT {
          out := out + {p};
        }
      }
    }
    assert folders[..|folders|] == folders;
  }

  /** lockscope.go:73-90: a scan of the locked paths for a prefix. */
  predicate FolderPathLocked(folderPath: string, locked: set<string>) {
    locked != {} &&
    var p := Normalize(folderPath);
    p in locked || exists l :: l in locked && l != ROOT && l + "/" <= p
  }

  predicate ResourceLockedOut(docLocked: bool, folderPath: string, locked: set<string>) {
    docLocked || FolderPathLocked(folderPath, locked)
  }

  /** service.go:2717-2729 */
  predicate UnderLockedFolders(folderPath: string, folderPaths: seq<string>) {
    var p := Normalize(folderPath);
    exists i :: 0 <= i < |folderPaths| &&
      var locked := Normalize(folderPaths[i]);
      locked != ROOT && (p == locked || locked + "/" <= p)
  }

  /** Does the scan for l find p? */
  predicate Seen(p: string, l: string) { l == p || (l != ROOT && l + "/" <= p) }

  lemma ScanIsSeen(folderPath: string, locked: set<string>)
    ensures FolderPathLocked(folderPath, locked) <==> exists l :: l in locked && Seen(Normalize(folderPath), l)
  {
    var p := Normalize(folderPath);
    if p in locked { assert Seen(p, p); }
    forall l | l in locked && l != ROOT && l + "/" <= p ensures Seen(p, l) {}
  }

  // ---- the walk over the parents

  predicate Rooted(p: string) { p != [] && p[0] == '/' }

  predicate Blank(s: string) { forall c :: c in s ==> IsSpace(c) }

  lemma {:induction false} TrimRightEnds(s: string)
    ensures TrimRight(s) <= s
    ensures forall k :: |TrimRight(s)| <= k < |s| ==> IsSpace(s[k])
    ensures TrimRight(s) != [] ==> !IsSpace(s[|TrimRight(s)| - 1])
  {
    if s != [] && IsSpace(s[|s| - 1]) { TrimRightEnds(s[..|s| - 1]); }
  }

  lemma TrimRightFrom(s: string, i: nat)
    requires i < |s| && !IsSpace(s[i])
    ensures i < |TrimRight(s)| && TrimRight(s) <= s
    ensures |TrimRight(s)| == i + 1 <==> Blank(s[i + 1..])
  {
    TrimRightEnds(s);
    assert forall k :: i < k < |s| ==> s[k] == s[i + 1..][k - i - 1];
  }

  /** Behind a last segment with something in it, normalizing only trims; a blank one goes with its slash. */
  lemma NormalizeRooted(p: string)
    requires Rooted(p)
    ensures var i := LastIndex(p, '/');
            0 <= i < |p| && if Blank(Last(p)) then Normalize(p) == if i == 0 then ROOT else p[..i]
                            else i + 1 < |Normalize(p)| && Normalize(p) <= p
  {
    var i, t := LastIndex(p, '/'), TrimRight(p);
    TrimRightFrom(p, i);
    assert TrimLeft(p) == p;
    if Blank(Last(p)) { assert t == p[..i + 1]; }
  }

  lemma SameLastSlash(t: string, p: string)
    requires t <= p && LastIndex(p, '/') < |t|
    ensures LastIndex(t, '/') == LastIndex(p, '/')
  {
    var i, j := LastIndex(p, '/'), LastIndex(t, '/');
    if i >= 0 { assert t[i] == '/'; }
    if j >= 0 { assert p[j] == '/'; }
  }

  lemma AboveIsRooted(p: string)
    requires Rooted(p)
    ensures Rooted(Above(p)) && (Above(p) != ROOT ==> |Above(p)| < |p|)
  {}

  /** A blank last segment makes the walk skip a folder. */
  lemma ParentOfRooted(p: string)
    requires Rooted(p)
    ensures Parent(p) == if Blank(Last(p)) && Above(p) != ROOT then Above(Above(p)) else Above(p)
    ensures Rooted(Above(p)) && (Above(p) != ROOT ==> |Above(p)| < |p|)
    ensures Rooted(Parent(p)) && (Parent(p) != ROOT ==> |Parent(p)| < |p|)
  {
    var i := LastIndex(p, '/');
    NormalizeRooted(p);
    if !Blank(Last(p)) { SameLastSlash(Normalize(p), p); }
    assert i > 0 ==> Above(p) == p[..i];
    AboveIsRooted(p);
    AboveIsRooted(Above(p));
    assert Above(ROOT) == ROOT;
  }

  /** The definition a reader expects: walk up the parents until a locked folder is met. */
  predicate LockedAncestor(p: string, locked: set<string>)
    requires Rooted(p)
    decreases |p|
  {
    ParentOfRooted(p);
    p in locked || (Parent(p) != ROOT && LockedAncestor(Parent(p), locked))
  }

  /** Does the walk from p come to l? */
  predicate OnWalk(p: string, l: string)
    requires Rooted(p)
    decreases |p|
  {
    ParentOfRooted(p);
    l == p || (Parent(p) != ROOT && OnWalk(Parent(p), l))
  }

  lemma {:induction false} WalkVisits(p: string, locked: set<string>)
    requires Rooted(p)
    ensures LockedAncestor(p, locked) <==> exists l :: l in locked && OnWalk(p, l)
    decreases |p|
  {
    ParentOfRooted(p);
    if Parent(p) != ROOT { WalkVisits(Parent(p), locked); }
    if p in locked { assert OnWalk(p, p); }
  }

  lemma {:induction false} WalkGoesUp(p: string, l: string)
    requires Rooted(p) && OnWalk(p, l)
    ensures |l| <= |p|
    decreases |p|
  {
    ParentOfRooted(p);
    if l != p { WalkGoesUp(Parent(p), l); }
  }

  /** The scan sees what it sees from the folder above. */
  lemma SeenStepsToParent(p: string, l: string)
    requires Rooted(p) && l != []
    ensures Seen(p, l) <==> l == p || (Above(p) != ROOT && Seen(Above(p), l))
  {
    var i := LastIndex(p, '/');
    if i > 0 { assert p[..i] + "/" == p[..i + 1]; }
    if l + "/" <= p {
      assert p[|l|] == '/';
      if |l| < i { assert l + "/" <= p[..i]; } else { assert l == p[..i]; }
    }
  }

  /** No segment of the path behind its first is blank. */
  predicate NoBlankSegment(p: string)
    requires Rooted(p)
    decreases |p|
  {
    AboveIsRooted(p);
    Above(p) == ROOT || (!Blank(Last(p)) && NoBlankSegment(Above(p)))
  }

  lemma {:induction false} WalkIsSeen(p: string, l: string)
    requires Rooted(p) && NoBlankSegment(p) && l != []
    ensures OnWalk(p, l) <==> Seen(p, l)
    decreases |p|
  {
    ParentOfRooted(p);
    SeenStepsToParent(p, l);
    if Above(p) != ROOT {
      WalkIsSeen(Above(p), l);
    } else {
      assert Parent(p) == ROOT;
    }
  }

  /** The folder that the walk misses. */
  lemma {:induction false} WalkMisses(p: string) returns (l: string)
    requires Rooted(p) && !NoBlankSegment(p)
    ensures l != [] && Seen(p, l) && !OnWalk(p, l) && |l| < |p|
    decreases |p|
  {
    ParentOfRooted(p);
    if Blank(Last(p)) {
      l := Above(p);
      AboveIsRooted(l);
      if Parent(p) != ROOT && OnWalk(Parent(p), l) { WalkGoesUp(Parent(p), l); }
    } else {
      l := WalkMisses(Above(p));
    }
    SeenStepsToParent(p, l);
  }

  ghost predicate ScanIsWalk(folderPath: string) {
    forall locked :: [] !in locked ==>
      (FolderPathLocked(folderPath, locked) <==> LockedAncestor(Normalize(folderPath), locked))
  }

  /** The prefix scan is the walk over the parents, whatever is locked, exactly for paths without a blank
      segment behind the first: the walk from "/a//b" goes past "/a". */
  lemma ScanIsWalkExactly(folderPath: string)
    ensures ScanIsWalk(folderPath) <==> NoBlankSegment(Normalize(folderPath))
  {
    var p := Normalize(folderPath);
    if NoBlankSegment(p) {
      forall locked | [] !in locked ensures FolderPathLocked(folderPath, locked) <==> LockedAncestor(p, locked) {
        ScanIsSeen(folderPath, locked);
        WalkVisits(p, locked);
        forall l | l in locked ensures OnWalk(p, l) <==> Seen(p, l) { WalkIsSeen(p, l); }
      }
    } else {
      var l := WalkMisses(p);
      ScanIsSeen(folderPath, {l});
      WalkVisits(p, {l});
      assert l in {l} && [] !in {l};
    }
  }

  lemma {:induction false} WellFormedHasNoBlank(p: string)
    requires WellFormed(p)
    ensures Rooted(p) && NoBlankSegment(p)
    decreases |p|
  {
    SplitWellFormed(p);
    assert Last(p)[|Last(p)| - 1] in Last(p);
    if Above(p) != ROOT { WellFormedHasNoBlank(Above(p)); }
  }

  /** So in a room's tree the scan finds exactly the folders that lie in a locked subtree. */
  lemma PrefixScanIsAncestorWalk(p: string, locked: set<string>)
    requires WellFormed(p) && [] !in locked
    ensures FolderPathLocked(p, locked) <==> LockedAncestor(p, locked)
    ensures FolderPathLocked(p, locked) <==> exists l :: l in locked && l != ROOT && Under(l, p)
  {
    OfWellFormed(p, []);
    WellFormedIsNotRoot(p);
    WellFormedHasNoBlank(p);
    ScanIsWalkExactly(p);
    ScanIsSeen(p, locked);
  }

  /** The scan that purges withdrawn files and the scan that locks visitors out agree. */
  lemma CorpusAndVisitorScansAgree(folderPath: string, folderPaths: seq<string>)
    ensures UnderLockedFolders(folderPath, folderPaths) <==>
            FolderPathLocked(folderPath, set i | 0 <= i < |folderPaths| && Normalize(folderPaths[i]) != ROOT
                                           :: Normalize(folderPaths[i]))
  {
    var locked := set i | 0 <= i < |folderPaths| && Normalize(folderPaths[i]) != ROOT
                    :: Normalize(folderPaths[i]);
    forall i | 0 <= i < |folderPaths| && Normalize(folderPaths[i]) != ROOT
      ensures Normalize(folderPaths[i]) in locked
    {
    }
  }
}
