/** The folder list given at room creation: normalizeCreateFolders, dealroom/service.go:3012-3049. */
module CreateFolders {
  import opened GoStrings
  import opened Paths
  import opened LockScope

  const MAX_CREATE_FOLDERS := 40

  datatype Result<T> = Ok(value: T) | InvalidFolder

  /** The n-th path tried for a base: the base itself, then base-2, base-3 and so on. */
  function Candidate(base: string, n: nat): string {
    if n < 2 then base else base + "-" + Decimal(n)
  }

  lemma CandidatesDiffer(base: string, m: nat, n: nat)
    requires 1 <= m < n
    ensures Candidate(base, m) != Candidate(base, n)
  {
    var p, q := Candidate(base, m), Candidate(base, n);
    if m < 2 {
      assert |q| > |base|;
    } else if p == q {
      assert p[|base| + 1..] == Decimal(m) && q[|base| + 1..] == Decimal(n);
      DecimalRoundTrip(m);
      DecimalRoundTrip(n);
    }
  }

  /** path is the first candidate that is not used. */
  ghost predicate IsFirstFree(base: string, used: set<string>, path: string) {
    path !in used &&
    exists n :: n >= 1 && path == Candidate(base, n) && forall m :: 1 <= m < n ==> Candidate(base, m) in used
  }

  ghost function Tried(base: string, n: nat): set<string> { set m | 1 <= m < n :: Candidate(base, m) }

  /** A used candidate takes one more used path out of the running. */
  lemma TriedGrows(base: string, n: nat, used: set<string>)
    requires n >= 1 && Candidate(base, n) in used
    ensures |used - Tried(base, n + 1)| < |used - Tried(base, n)|
  {
    forall m | 1 <= m < n ensures Candidate(base, m) != Candidate(base, n) { CandidatesDiffer(base, m, n); }
    assert Candidate(base, n) !in Tried(base, n);
    assert used - Tried(base, n + 1) == (used - Tried(base, n)) - {Candidate(base, n)};
  }

  /** The renaming loop ends because every round names a different used path. */
  method FirstFree(base: string, used: set<string>) returns (path: string)
    ensures IsFirstFree(base, used, path)
  {
    path := base;
    var n := 2;
    while path in used
      invariant n >= 2 && path == Candidate(base, n - 1)
      invariant forall m :: 1 <= m < n - 1 ==> Candidate(base, m) in used
      decreases |used - Tried(base, n - 1)|
    {
      TriedGrows(base, n - 1, used);
      path := base + "-" + Decimal(n);
      n := n + 1;
    }
  }

  predicate Named(f: Folder) { TrimSpace(f.name) != [] }

  /** The inputs that have a name, in order. */
  function NamedOf(input: seq<Folder>): seq<Folder> {
    if input == [] then []
    else NamedOf(input[..|input| - 1]) + if Named(input[|input| - 1]) then [input[|input| - 1]] else []
  }

  /** The path asked for by the index-th accepted folder. */
  function BasePath(f: Folder, index: nat): (r: string)
    ensures r != ROOT && r != []
  {
    var path := Normalize(f.path);
    if path != ROOT then path
    else
      var slug := Slugify(TrimSpace(f.name));
      if slug == [] then "/" + ("folder-" + Decimal(index + 1)) else "/" + slug
  }

  /** What the i-th accepted input becomes, behind the folders before. */
  ghost predicate Becomes(f: Folder, i: nat, before: seq<Folder>, g: Folder) {
    && g.name == TrimSpace(f.name) && '/' !in g.name
    && g.description == TrimSpace(f.description)
    && g.sortOrder == i && !g.locked
    && IsFirstFree(BasePath(f, i), PathSet(before), g.path)
  }

  /** What each accepted input becomes. */
  ghost predicate Accepts(named: seq<Folder>, out: seq<Folder>) {
    && |out| <= |named|
    && forall i :: 0 <= i < |out| ==> Becomes(named[i], i, out[..i], out[i])
  }

  method PathAskedFor(f: Folder, name: string, index: nat) returns (path: string)
    requires name == TrimSpace(f.name)
    ensures path == BasePath(f, index)
  {
    path := Normalize(f.path);
    if path == ROOT {
      var slug := Slugify(name);
      if slug == [] { slug := "folder-" + Decimal(index + 1); }
      path := "/" + slug;
    }
  }

  lemma {:induction false} NamedPrefix(input: seq<Folder>, k: nat)
    requires k <= |input|
    ensures NamedOf(input[..k]) <= NamedOf(input)
    decreases |input|
  {
    if k < |input| {
      NamedPrefix(input[..|input| - 1], k);
      assert input[..|input| - 1][..k] == input[..k];
    } else {
      assert input[..k] == input;
    }
  }

  lemma PathsOneMore(out: seq<Folder>, g: Folder)
    ensures PathSet(out + [g]) == PathSet(out) + {g.path}
  {
    assert forall f :: f in out + [g] <==> f in out || f == g;
  }

  lemma AcceptNext(named: seq<Folder>, out: seq<Folder>, f: Folder, g: Folder)
    requires |out| == |named| && Accepts(named, out)
    requires g.name == TrimSpace(f.name) && '/' !in g.name && g.description == TrimSpace(f.description)
    requires g.sortOrder == |out| && !g.locked
    requires IsFirstFree(BasePath(f, |out|), PathSet(out), g.path)
    ensures Accepts(named + [f], out + [g])
    ensures PathSet(out + [g]) == PathSet(out) + {g.path}
  {
    forall i | 0 <= i < |out| + 1 ensures (out + [g])[..i] == out[..i] {}
    PathsOneMore(out, g);
  }

  lemma AcceptedHaveNoSlash(named: seq<Folder>, prefix: seq<Folder>, out: seq<Folder>)
    requires prefix <= named && Accepts(prefix, out) && |out| == |prefix|
    requires |out| >= MAX_CREATE_FOLDERS || prefix == named
    ensures Accepts(named, out)
    ensures forall i :: 0 <= i < |named| && i < MAX_CREATE_FOLDERS ==> '/' !in TrimSpace(named[i].name)
  {
    forall i | 0 <= i < |out| ensures named[i] == prefix[i] {}
  }

  /** A slash in a name among the first forty named inputs refuses the request; otherwise
      each of them becomes one folder, later ones being ignored. */
  method NormalizeCreateFolders(input: seq<Folder>) returns (r: Result<seq<Folder>>)
    ensures r.InvalidFolder? <==>
              exists i :: 0 <= i < |NamedOf(input)| && i < 40 &&
                          '/' in TrimSpace(NamedOf(input)[i].name)
    ensures r.Ok? ==> Accepts(NamedOf(input), r.value)
    ensures r.Ok? ==>
              |r.value| == if |NamedOf(input)| < 40 then |NamedOf(input)| else 40
  {
    var out: seq<Folder> := [];
    var used: set<string> := {};
    ghost var named: seq<Folder> := [];
    for k := 0 to |input|
      invariant named == NamedOf(input[..k])
      invariant |out| == |named| < MAX_CREATE_FOLDERS
      invariant Accepts(named, out) && used == PathSet(out)
    {
      var f := input[k];
      assert input[..k + 1][..k] == input[..k];
      NamedPrefix(input, k + 1);
      var name := TrimSpace(f.name);
      if name == [] { continue; }
      assert NamedOf(input[..k + 1]) == named + [f];
      if '/' in name {
        assert NamedOf(input)[|named|] == f;
        return InvalidFolder;
      }
      var path := PathAskedFor(f, name, |out|);
      path := FirstFree(path, used);
      var folder := Folder(path, name, TrimSpace(f.description), |out|, false);
      AcceptNext(named, out, f, folder);
      used := used + {path};
      out := out + [folder];
      named := named + [f];
      if |out| >= MAX_CREATE_FOLDERS {
        AcceptedHaveNoSlash(NamedOf(input), named, out);
        return Ok(out);
      }
    }
    assert input[..|input|] == input;
    AcceptedHaveNoSlash(named, named, out);
    r := Ok(out);
  }

  /** The accepted folders have pairwise different paths, none of them the root. */
  lemma AcceptedPathsAreDistinct(named: seq<Folder>, out: seq<Folder>)
    requires Accepts(named, out)
    ensures forall i, j :: 0 <= i < j < |out| ==> out[i].path != out[j].path
    ensures forall i :: 0 <= i < |out| ==> out[i].path != ROOT
  {
    forall i, j | 0 <= i < j < |out| ensures out[i].path != out[j].path {
      assert out[..j][i] == out[i] && out[..j][i] in out[..j];
    }
    forall i | 0 <= i < |out| ensures out[i].path != ROOT {
      var base := BasePath(named[i], i);
      var n :| n >= 1 && out[i].path == Candidate(base, n);
      assert Candidate(base, n) == base || |Candidate(base, n)| >= |base| + 2;
    }
  }

  /** How many of the inputs have a name. */
  function NamedCount(input: seq<Folder>): nat {
    if input == [] then 0
    else NamedCount(input[..|input| - 1]) + if TrimSpace(input[|input| - 1].name) != "" then 1 else 0
  }

  /** The k-th input, if it has a name, is kept behind the named ones before it. */
  ghost predicate KeptAt(input: seq<Folder>, k: nat)
    requires k < |input|
  {
    TrimSpace(input[k].name) != "" ==>
      var at := NamedCount(input[..k]);
      at < |NamedOf(input)| && NamedOf(input)[at] == input[k]
  }

  lemma {:induction false} NamedCounted(input: seq<Folder>)
    ensures |NamedOf(input)| == NamedCount(input)
  {
    if input != [] { NamedCounted(input[..|input| - 1]); }
  }

  lemma NamedIsKept(input: seq<Folder>, k: nat)
    requires k < |input|
    ensures KeptAt(input, k)
  {
    NamedCounted(input[..k]);
    NamedPrefix(input, k + 1);
    assert input[..k + 1][..k] == input[..k];
    assert NamedOf(input[..k + 1]) == NamedOf(input[..k]) + if Named(input[k]) then [input[k]] else [];
  }

  /** The inputs without a name are passed over; the others keep their order. */
  lemma NamedInOrder(input: seq<Folder>)
    ensures |NamedOf(input)| == NamedCount(input)
    ensures forall k :: 0 <= k < |input| ==> KeptAt(input, k)
  {
    NamedCounted(input);
    forall k | 0 <= k < |input| ensures KeptAt(input, k) { NamedIsKept(input, k); }
  }

  /** The path asked for, or the slug of the name, or a number where there is neither. */
  function Wanted(f: Folder, index: nat): string {
    var path, slug := Normalize(f.path), Slugify(TrimSpace(f.name));
    if path != "/" then path else "/" + if slug != "" then slug else "folder-" + Decimal(index + 1)
  }

  /** Each accepted folder gets the path it wants, or where an earlier one has that, the same with the least
      number behind it, from 2 on, that makes a new one. */
  lemma AcceptedGetsWanted(named: seq<Folder>, out: seq<Folder>, i: nat)
    requires Accepts(named, out) && i < |out|
    ensures var wanted, used := Wanted(named[i], i), PathSet(out[..i]);
            && (wanted !in used ==> out[i].path == wanted)
            && (wanted in used ==>
                 exists n :: n >= 2 && out[i].path == wanted + "-" + Decimal(n) && out[i].path !in used &&
                             forall m :: 2 <= m < n ==> Candidate(wanted, m) in used)
  {
    var wanted, used := Wanted(named[i], i), PathSet(out[..i]);
    assert wanted == BasePath(named[i], i);
    assert IsFirstFree(wanted, used, out[i].path);
    var n :| n >= 1 && out[i].path == Candidate(wanted, n) && forall m :: 1 <= m < n ==> Candidate(wanted, m) in used;
    assert Candidate(wanted, 1) == wanted;
  }
}
