/** Slash paths of data-room folders: dealroom/service.go:3051-3137 and lockscope.go:56-70. */
module Paths {
  import opened GoStrings

  const ROOT := "/"

  /** normalizeFolderPath and NormalizeFolderPath, which are the same function twice. */
  function Normalize(p: string): (r: string)
    ensures r != [] && r[0] == '/'
  {
    var t := TrimSpace(p);
    if t == [] then ROOT
    else
      var rooted := if t[0] == '/' then t else "/" + t;
      var cut := if rooted[|rooted| - 1] == '/' then rooted[..|rooted| - 1] else rooted;
      if cut == [] then ROOT else cut
  }

  /** The text before the last slash, or the root. */
  function Above(p: string): string {
    var i := LastIndex(p, '/');
    if i <= 0 then ROOT else p[..i]
  }

  /** The text after the last slash. */
  function Last(p: string): string { p[LastIndex(p, '/') + 1..] }

  function Child(parent: string, name: string): string {
    if parent == ROOT then "/" + name else parent + "/" + name
  }

  /** parentFolder */
  function Parent(path: string): string { Above(Normalize(path)) }

  /** folderName */
  function Name(path: string): string { Last(Normalize(path)) }

  /** joinFolderPath */
  function Join(parent: string, name: string): string { Child(Normalize(parent), name) }

  predicate IsSlugRune(c: char) { 'a' <= c <= 'z' || '0' <= c <= '9' || c == '-' }

  function KeepSlugRunes(s: string): (r: string)
    ensures forall c :: c in r ==> IsSlugRune(c)
  {
    if s == [] then []
    else (if IsSlugRune(s[0]) then [s[0]] else []) + KeepSlugRunes(s[1..])
  }

  function SpacesToHyphens(s: string): string {
    seq(|s|, i requires 0 <= i < |s| => if s[i] == ' ' then '-' else s[i])
  }

  function Slugify(name: string): (r: string)
    ensures forall c :: c in r ==> IsSlugRune(c)
    ensures r != [] ==> r[0] != '-' && r[|r| - 1] != '-'
  {
    TrimHyphens(KeepSlugRunes(SpacesToHyphens(ToLower(TrimSpace(name)))))
  }

  // ---- what a slug keeps of a name

  /** A rune's part in a slug: letters in lower case, digits, and hyphens for spaces. */
  function SlugPart(c: char): string {
    if 'a' <= c <= 'z' || '0' <= c <= '9' || c == '-' then [c]
    else if 'A' <= c <= 'Z' then ['a' + (c - 'A')]
    else if c == ' ' then "-"
    else if c == '\U{212A}' then "k"
    else if c == '\U{0130}' then "i"
    else ""
  }

  function SlugParts(s: string): string { if s == [] then [] else SlugPart(s[0]) + SlugParts(s[1..]) }

  predicate AllHyphens(s: string) { forall i :: 0 <= i < |s| ==> s[i] == '-' }

  lemma {:induction false} PartsOfConcat(a: string, b: string)
    ensures SlugParts(a + b) == SlugParts(a) + SlugParts(b)
  {
    if a == [] {
      assert a + b == b;
    } else {
      assert (a + b)[1..] == a[1..] + b;
      PartsOfConcat(a[1..], b);
    }
  }

  lemma SpaceIsHyphen(c: char)
    requires IsSpace(c)
    ensures SlugPart(c) == "-" || SlugPart(c) == ""
  {
  }

  lemma {:induction false} SpacesAreHyphens(s: string)
    requires AllSpace(s)
    ensures AllHyphens(SlugParts(s))
  {
    if s != [] {
      SpacesAreHyphens(s[1..]);
      SpaceIsHyphen(s[0]);
    }
  }

  lemma PartOfRune(c: char)
    ensures SlugPart(c) == KeepSlugRunes(SpacesToHyphens(ToLower([c])))
  {
    var d := if LowerRune(c) == ' ' then '-' else LowerRune(c);
    assert SpacesToHyphens(ToLower([c])) == [d];
  }

  lemma {:induction false} KeptAreParts(s: string)
    ensures KeepSlugRunes(SpacesToHyphens(ToLower(s))) == SlugParts(s)
  {
    if s != [] {
      KeptAreParts(s[1..]);
      PartOfRune(s[0]);
      assert SpacesToHyphens(ToLower(s))[1..] == SpacesToHyphens(ToLower(s[1..]));
    }
  }

  lemma {:induction false} TrimmedHyphens(s: string) returns (front: string, back: string)
    ensures s == front + TrimHyphens(s) + back && AllHyphens(front) && AllHyphens(back)
    decreases |s|
  {
    front, back := [], [];
    if s != [] && s[0] == '-' {
      front, back := TrimmedHyphens(s[1..]);
      front := ['-'] + front;
    } else if s != [] && s[|s| - 1] == '-' {
      front, back := TrimmedHyphens(s[..|s| - 1]);
      back := back + ['-'];
    }
  }

  lemma TrimmedSpaces(s: string) returns (front: string, back: string)
    ensures s == front + TrimSpace(s) + back && AllSpace(front) && AllSpace(back)
  {
    var k := TrimLeftIsSuffix(s);
    var n := TrimRightIsPrefix(TrimLeft(s));
    front, back := s[..k], TrimLeft(s)[n..];
  }

  lemma PartsOfThree(a: string, b: string, c: string)
    ensures SlugParts(a + b + c) == SlugParts(a) + SlugParts(b) + SlugParts(c)
  {
    PartsOfConcat(a + b, c);
    PartsOfConcat(a, b);
  }

  lemma AroundMiddle(a: string, front: string, middle: string, back: string, c: string)
    ensures a + (front + middle + back) + c == (a + front) + middle + (back + c)
  {}

  /** A slug is the parts of the name's runes, in order, without the hyphens at either end. */
  lemma SlugIsParts(name: string) returns (front: string, back: string)
    ensures SlugParts(name) == front + Slugify(name) + back && AllHyphens(front) && AllHyphens(back)
  {
    var before, behind := TrimmedSpaces(name);
    PartsOfThree(before, TrimSpace(name), behind);
    SpacesAreHyphens(before);
    SpacesAreHyphens(behind);
    KeptAreParts(TrimSpace(name));
    front, back := TrimmedHyphens(SlugParts(TrimSpace(name)));
    AroundMiddle(SlugParts(before), front, Slugify(name), back, SlugParts(behind));
    front, back := SlugParts(before) + front, back + SlugParts(behind);
  }

  /** Is q the folder p or inside it?  This is the test written out at every use in the source. */
  predicate Under(p: string, q: string) { q == p || p + "/" <= q }

  /** One segment of a path: not empty, no slash, no trailing white space. */
  predicate Segment(s: string) { s != [] && '/' !in s && !IsSpace(s[|s| - 1]) }

  /** Rooted, at least one segment, no doubled or trailing slash, no segment that trimming
      would change.  These are the paths that Normalize leaves alone together with all
      their ancestors. */
  predicate WellFormed(p: string)
    decreases |p|
  {
    p != [] && p[0] == '/' &&
    var i := LastIndex(p, '/');
    Segment(p[i + 1..]) && (i == 0 || WellFormed(p[..i]))
  }

  lemma WellFormedEnds(p: string)
    requires WellFormed(p)
    ensures |p| > 1 && p[0] == '/' && p[|p| - 1] != '/' && !IsSpace(p[|p| - 1])
  {
    var segment := p[LastIndex(p, '/') + 1..];
    assert p[|p| - 1] == segment[|segment| - 1];
  }

  lemma NormalizeKeepsWellFormed(p: string)
    requires WellFormed(p)
    ensures Normalize(p) == p
  {
    WellFormedEnds(p);
  }

  lemma NormalizeRoot()
    ensures Normalize(ROOT) == ROOT
  {
  }

  /** On well-formed paths the path functions need no normalization. */
  lemma OfWellFormed(p: string, name: string)
    requires p == ROOT || WellFormed(p)
    ensures Normalize(p) == p && Parent(p) == Above(p) && Name(p) == Last(p) && Join(p, name) == Child(p, name)
  {
    if p == ROOT { NormalizeRoot(); } else { NormalizeKeepsWellFormed(p); }
  }

  lemma WellFormedIsNotRoot(p: string)
    requires WellFormed(p)
    ensures |p| >= 2 && p != ROOT
  {
  }

  /** A well-formed path is its parent joined with its name. */
  lemma SplitWellFormed(p: string)
    requires WellFormed(p)
    ensures Segment(Last(p)) && |Above(p)| < |p|
    ensures Above(p) == ROOT || WellFormed(Above(p))
    ensures p == Child(Above(p), Last(p))
  {
    WellFormedIsNotRoot(p);
    var i := LastIndex(p, '/');
    assert p == p[..i] + "/" + p[i + 1..];
    if i > 0 { WellFormedIsNotRoot(p[..i]); }
  }

  lemma {:induction false} LastIndexOfJoin(parent: string, name: string)
    requires '/' !in name
    ensures LastIndex(parent + "/" + name, '/') == |parent|
  {
    var p := parent + "/" + name;
    if name == [] {
      assert p[|p| - 1] == '/';
    } else {
      var shorter := name[..|name| - 1];
      assert p[|p| - 1] == name[|name| - 1] && p[..|p| - 1] == parent + "/" + shorter;
      LastIndexOfJoin(parent, shorter);
    }
  }

  lemma AppendSegment(base: string, name: string)
    requires base == [] || WellFormed(base)
    requires Segment(name)
    ensures WellFormed(base + "/" + name)
    ensures Above(base + "/" + name) == if base == [] then ROOT else base
    ensures Last(base + "/" + name) == name
  {
    var p := base + "/" + name;
    LastIndexOfJoin(base, name);
    assert p[|base| + 1..] == name && p[..|base|] == base;
  }

  /** A segment below a parent is a well-formed path with that parent and name. */
  lemma ChildWellFormed(parent: string, name: string)
    requires parent == ROOT || WellFormed(parent)
    requires Segment(name)
    ensures WellFormed(Child(parent, name))
    ensures Above(Child(parent, name)) == parent && Last(Child(parent, name)) == name
  {
    assert [] + "/" + name == "/" + name;
    AppendSegment(if parent == ROOT then [] else parent, name);
  }

  lemma SlugIsSegment(name: string)
    requires Slugify(name) != []
    ensures Segment(Slugify(name))
  {
    var s := Slugify(name);
    assert s[|s| - 1] in s;
  }

  lemma {:induction false} SlugRunesAreKept(s: string)
    requires forall c :: c in s ==> IsSlugRune(c)
    ensures KeepSlugRunes(s) == s
  {
    if s != [] {
      assert s[0] in s;
      SlugRunesAreKept(s[1..]);
    }
  }

  lemma SlugIsLower(s: string)
    requires forall c :: c in s ==> IsSlugRune(c)
    ensures TrimSpace(s) == s && ToLower(s) == s && SpacesToHyphens(s) == s
  {
    assert forall i :: 0 <= i < |s| ==> s[i] in s;
    assert TrimLeft(s) == s && TrimRight(s) == s;
  }

  /** Slugs are the fixed points of Slugify. */
  lemma SlugifyIsIdempotent(name: string)
    ensures Slugify(Slugify(name)) == Slugify(name)
  {
    var s := Slugify(name);
    SlugIsLower(s);
    SlugRunesAreKept(s);
  }

  // ---- ancestors ----

  lemma UnderStepsToLastSlash(p: string, q: string)
    requires p != [] && q != []
    ensures var i := LastIndex(q, '/');
            p + "/" <= q && Segment(q[i + 1..]) ==> i > 0 && Under(p, q[..i])
    ensures var i := LastIndex(q, '/');
            i > 0 && Under(p, q[..i]) ==> p + "/" <= q
  {
    var i := LastIndex(q, '/');
    if p + "/" <= q {
      assert q[|p|] == (p + "/")[|p|];
      assert |p| <= i;
      if |p| < i {
        assert q[..i][..|p| + 1] == q[..|p| + 1];
      } else {
        assert q[..i] == p;
      }
    }
    if i > 0 && Under(p, q[..i]) {
      if q[..i] == p {
        assert q[..i + 1] == p + "/";
      } else {
        assert q[..|p| + 1] == q[..i][..|p| + 1];
      }
    }
  }

  /** The folders above a well-formed q are the folders its parent is under. */
  lemma UnderStepsToParent(p: string, q: string)
    requires WellFormed(q) && p != []
    ensures Under(p, q) <==> q == p || (Above(q) != ROOT && Under(p, Above(q)))
  {
    SplitWellFormed(q);
    UnderStepsToLastSlash(p, q);
  }

  lemma UnderIsTransitive(a: string, b: string, c: string)
    requires Under(a, b) && Under(b, c)
    ensures Under(a, c)
  {
    if a != b && b != c {
      assert c[..|a| + 1] == b[..|a| + 1] == a + "/";
    }
  }

  /** Two folders above the same path are comparable. */
  lemma AncestorsAreComparable(a: string, b: string, c: string)
    requires Under(a, c) && Under(b, c) && |a| <= |b|
    ensures Under(a, b)
  {
    if a != b {
      assert c[..|a|] == a && c[..|b|] == b;
      if |a| < |b| {
        assert a + "/" == c[..|a| + 1] == b[..|a| + 1];
      }
    }
  }

  // ---- renaming ----

  /** What renaming the folder from to the folder dest means for a path. */
  function Subst(from: string, dest: string, p: string): string {
    if Under(from, p) then dest + p[|from|..] else p
  }

  lemma SubstMovesUnder(from: string, dest: string, p: string)
    requires Under(from, p)
    ensures Under(dest, Subst(from, dest, p))
    ensures Subst(dest, from, Subst(from, dest, p)) == p
    ensures |Subst(from, dest, p)| - |dest| == |p| - |from|
  {
    var r := Subst(from, dest, p);
    if p == from {
      assert r == dest;
    } else {
      assert p[|from|..][0] == p[|from|] == (from + "/")[|from|] == '/';
      assert r[..|dest| + 1] == dest + "/";
    }
    assert r[|dest|..] == p[|from|..];
    assert from + p[|from|..] == p;
  }

  lemma SiblingIsNotUnder(a: string, b: string)
    requires WellFormed(a) && WellFormed(b)
    requires Above(a) == Above(b) && a != b
    ensures !Under(a, b)
  {
    SplitWellFormed(a);
    WellFormedIsNotRoot(a);
    UnderStepsToParent(a, b);
  }

  /** Folders with one parent and different names contain nothing in common. */
  lemma SiblingsAreDisjoint(a: string, b: string, p: string)
    requires WellFormed(a) && WellFormed(b)
    requires Above(a) == Above(b) && a != b
    ensures !(Under(a, p) && Under(b, p))
  {
    SiblingIsNotUnder(a, b);
    SiblingIsNotUnder(b, a);
    if Under(a, p) && Under(b, p) {
      if |a| <= |b| { AncestorsAreComparable(a, b, p); } else { AncestorsAreComparable(b, a, p); }
    }
  }
}
