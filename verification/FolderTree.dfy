/** The set of folder paths of a room as a tree, and what creating, deleting and renaming
    a folder do to it. */
module FolderTree {
  import opened Paths

  /** Well-formed paths, each with its parent present. */
  ghost predicate IsTree(ps: set<string>) {
    forall p :: p in ps ==> WellFormed(p) && (Above(p) == ROOT || Above(p) in ps)
  }

  lemma AddKeepsTree(ps: set<string>, parent: string, name: string)
    requires IsTree(ps)
    requires parent == ROOT || parent in ps
    requires Segment(name)
    ensures IsTree(ps + {Child(parent, name)})
  {
    ChildWellFormed(parent, name);
  }

  lemma RemoveKeepsTree(ps: set<string>, top: string)
    requires IsTree(ps) && WellFormed(top)
    ensures IsTree(set p | p in ps && !Under(top, p))
  {
    forall p | p in ps && !Under(top, p) && Above(p) != ROOT
      ensures !Under(top, Above(p))
    {
      UnderStepsToParent(top, p);
    }
  }

  /** Where nothing exists, nothing exists below either. */
  lemma {:induction false} FreshHasNothingBelow(ps: set<string>, top: string, p: string)
    requires IsTree(ps) && WellFormed(top) && top !in ps && p in ps
    ensures !Under(top, p)
    decreases |p|
  {
    UnderStepsToParent(top, p);
    SplitWellFormed(p);
    if Above(p) != ROOT { FreshHasNothingBelow(ps, top, Above(p)); }
  }

  /** A rename between siblings, as RenameFolder computes it. */
  ghost predicate IsRename(ps: set<string>, from: string, dest: string) {
    && IsTree(ps) && from in ps
    && WellFormed(dest) && Above(dest) == Above(from)
    && (dest == from || dest !in ps)
  }

  lemma RenameTargetIsRename(ps: set<string>, from: string, name: string)
    requires IsTree(ps) && from in ps
    requires Segment(name)
    requires var dest := Child(Above(from), name); dest == from || dest !in ps
    ensures IsRename(ps, from, Child(Above(from), name))
  {
    ChildWellFormed(Above(from), name);
    AddKeepsTree(ps, Above(from), name);
  }

  lemma SubstOfJoin(from: string, dest: string, parent: string, name: string)
    requires Under(from, parent)
    ensures Subst(from, dest, parent + "/" + name) == Subst(from, dest, parent) + "/" + name
  {
    var p := parent + "/" + name;
    if parent == from {
      assert p[..|from| + 1] == from + "/";
      assert p[|from|..] == "/" + name && parent[|from|..] == [];
    } else {
      assert p[..|from| + 1] == parent[..|from| + 1];
      assert p[|from|..] == parent[|from|..] + "/" + name;
    }
  }

  lemma RootIsOutside(from: string)
    requires WellFormed(from)
    ensures !Under(from, ROOT) && !Under(from, Above(from))
  {
    WellFormedIsNotRoot(from);
    SplitWellFormed(from);
  }

  lemma SubstUnderCommutes(from: string, dest: string, p: string)
    requires WellFormed(from) && WellFormed(dest) && Above(from) == Above(dest)
    requires WellFormed(p) && Above(p) != ROOT && Under(from, Above(p))
    ensures WellFormed(Subst(from, dest, p))
    ensures Above(Subst(from, dest, p)) == Subst(from, dest, Above(p))
    decreases |p|, 0
  {
    SplitWellFormed(p);
    SubstCommutesWithParent(from, dest, Above(p));
    SubstOfJoin(from, dest, Above(p), Last(p));
    AppendSegment(Subst(from, dest, Above(p)), Last(p));
  }

  /** A path and its parent are renamed together. */
  lemma {:induction false} SubstCommutesWithParent(from: string, dest: string, p: string)
    requires WellFormed(from) && WellFormed(dest) && Above(from) == Above(dest) && WellFormed(p)
    ensures WellFormed(Subst(from, dest, p))
    ensures Above(Subst(from, dest, p)) == Subst(from, dest, Above(p))
    decreases |p|, 1
  {
    UnderStepsToParent(from, p);
    RootIsOutside(from);
    if p == from {
      assert Subst(from, dest, p) == dest + [] == dest;
    } else if Under(from, p) {
      SubstUnderCommutes(from, dest, p);
    }
  }

  lemma SubstStaysOutside(ps: set<string>, from: string, dest: string, p: string)
    requires IsRename(ps, from, dest) && p in ps && dest != from
    ensures Under(from, p) <==> Under(dest, Subst(from, dest, p))
    ensures Subst(from, dest, p) in ps <==> !Under(from, p)
  {
    if Under(from, p) {
      SubstMovesUnder(from, dest, p);
      if Subst(from, dest, p) in ps { FreshHasNothingBelow(ps, dest, Subst(from, dest, p)); }
    } else {
      FreshHasNothingBelow(ps, dest, p);
    }
  }

  lemma SubstSame(p: string, from: string)
    ensures Subst(from, from, p) == p
  {
    if Under(from, p) { assert from + p[|from|..] == p; }
  }

  /** Renaming back undoes a rename, so a rename merges no two folders. */
  lemma SubstUndone(ps: set<string>, from: string, dest: string, p: string)
    requires IsRename(ps, from, dest) && p in ps
    ensures Subst(dest, from, Subst(from, dest, p)) == p
  {
    if dest == from {
      SubstSame(p, from);
    } else {
      SubstStaysOutside(ps, from, dest, p);
      if Under(from, p) { SubstMovesUnder(from, dest, p); }
    }
  }

  ghost function Renamed(ps: set<string>, from: string, dest: string): set<string> {
    set p | p in ps :: Subst(from, dest, p)
  }

  lemma RenamedPathIsInTree(ps: set<string>, from: string, dest: string, p: string)
    requires IsRename(ps, from, dest) && p in ps
    ensures var q := Subst(from, dest, p);
            WellFormed(q) && (Above(q) == ROOT || Above(q) in Renamed(ps, from, dest))
  {
    SubstCommutesWithParent(from, dest, p);
    RootIsOutside(from);
    if Above(p) != ROOT { assert Subst(from, dest, Above(p)) in Renamed(ps, from, dest); }
  }

  lemma RenameKeepsTree(ps: set<string>, from: string, dest: string)
    requires IsRename(ps, from, dest)
    ensures IsTree(Renamed(ps, from, dest))
  {
    forall q | q in Renamed(ps, from, dest)
      ensures WellFormed(q) && (Above(q) == ROOT || Above(q) in Renamed(ps, from, dest))
    {
      var p :| p in ps && Subst(from, dest, p) == q;
      RenamedPathIsInTree(ps, from, dest, p);
    }
  }

  lemma RenameFreesTheName(ps: set<string>, from: string, dest: string)
    requires IsRename(ps, from, dest) && dest != from
    ensures from !in Renamed(ps, from, dest)
  {
    if p :| p in ps && Subst(from, dest, p) == from {
      SubstStaysOutside(ps, from, dest, p);
      SiblingIsNotUnder(dest, from);
    }
  }

  lemma RenamedTwice(ps: set<string>, from: string, dest: string)
    requires IsRename(ps, from, dest)
    ensures Renamed(Renamed(ps, from, dest), dest, from) == ps
  {
    var there := Renamed(ps, from, dest);
    var back := Renamed(there, dest, from);
    forall p | p in ps ensures p in back {
      SubstUndone(ps, from, dest, p);
      assert Subst(from, dest, p) in there;
    }
    forall p | p in back ensures p in ps {
      var q :| q in there && Subst(dest, from, q) == p;
      var r :| r in ps && Subst(from, dest, r) == q;
      SubstUndone(ps, from, dest, r);
    }
  }

  /** The way back from a rename is a rename of the renamed tree. */
  lemma RenameBackIsRename(ps: set<string>, from: string, dest: string)
    requires IsRename(ps, from, dest)
    ensures IsRename(Renamed(ps, from, dest), dest, from)
  {
    RenameKeepsTree(ps, from, dest);
    assert Subst(from, dest, from) == dest + [] == dest;
    if dest != from { RenameFreesTheName(ps, from, dest); }
  }

  lemma SuffixKeepsContainment(from: string, dest: string, p: string, q: string)
    requires Under(from, p) && Under(from, q) && Under(p, q)
    ensures Under(dest + p[|from|..], dest + q[|from|..])
  {
    if p != q {
      var sp, sq := p[|from|..], q[|from|..];
      assert q[..|p| + 1] == p + "/";
      assert sq[..|sp| + 1] == sp + "/";
      assert (dest + sq)[..|dest + sp| + 1] == dest + sp + "/";
    }
  }

  /** A folder above from is above its sibling too. */
  lemma UnderSibling(from: string, dest: string, p: string, q: string)
    requires WellFormed(from) && WellFormed(dest) && Above(from) == Above(dest) && WellFormed(p)
    requires Under(p, q) && Under(from, q) && !Under(from, p)
    ensures Under(p, dest)
  {
    if |from| <= |p| {
      AncestorsAreComparable(from, p, q);
    } else {
      AncestorsAreComparable(p, from, q);
      UnderStepsToParent(p, from);
      UnderStepsToParent(p, dest);
    }
  }

  lemma ContainmentForward(ps: set<string>, from: string, dest: string, p: string, q: string)
    requires IsRename(ps, from, dest) && p in ps && q in ps
    ensures Under(p, q) ==> Under(Subst(from, dest, p), Subst(from, dest, q))
  {
    if Under(p, q) {
      if Under(from, p) {
        UnderIsTransitive(from, p, q);
        SuffixKeepsContainment(from, dest, p, q);
      } else if Under(from, q) {
        UnderSibling(from, dest, p, q);
        SubstMovesUnder(from, dest, q);
        UnderIsTransitive(p, dest, Subst(from, dest, q));
      }
    }
  }

  /** A rename keeps the shape of the tree: who is inside whom does not change. */
  lemma RenameKeepsContainment(ps: set<string>, from: string, dest: string, p: string, q: string)
    requires IsRename(ps, from, dest) && p in ps && q in ps
    ensures Under(p, q) <==> Under(Subst(from, dest, p), Subst(from, dest, q))
  {
    if dest == from {
      SubstSame(p, from);
      SubstSame(q, from);
    } else {
      ContainmentForward(ps, from, dest, p, q);
      RenameBackIsRename(ps, from, dest);
      SubstUndone(ps, from, dest, p);
      SubstUndone(ps, from, dest, q);
      ContainmentForward(Renamed(ps, from, dest), dest, from, Subst(from, dest, p), Subst(from, dest, q));
    }
  }
}
