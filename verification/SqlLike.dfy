/** SQL LIKE with the escape character backslash, the path-prefix predicates the queries
    build from it, and the escaping done by dealroom/name.go. */
module SqlLike {
  import opened GoStrings

  /** Does s match pat? A pattern that ends in a lone backslash is an error in PostgreSQL
      and matches nothing here. */
  predicate Like(pat: string, s: string)
    decreases |pat| + |s|
  {
    if pat == [] then s == []
    else if pat[0] == '%' then
      Like(pat[1..], s) || (s != [] && Like(pat, s[1..]))
    else if s == [] then false
    else if pat[0] == '_' then Like(pat[1..], s[1..])
    else if pat[0] == '\\' then
      |pat| >= 2 && pat[1] == s[0] && Like(pat[2..], s[1..])
    else pat[0] == s[0] && Like(pat[1..], s[1..])
  }

  predicate IsSpecial(c: char) { c == '%' || c == '_' || c == '\\' }

  predicate FreeOfSpecials(s: string) { forall c :: c in s ==> !IsSpecial(c) }

  function EscapeRune(c: char): string {
    if IsSpecial(c) then ['\\', c] else [c]
  }

  function Escape(s: string): string {
    if s == [] then [] else EscapeRune(s[0]) + Escape(s[1..])
  }

  function Unescape(s: string, escaped: bool): string {
    if s == [] then []
    else if escaped then [s[0]] + Unescape(s[1..], false)
    else if s[0] == '\\' then Unescape(s[1..], true)
    else [s[0]] + Unescape(s[1..], false)
  }

  lemma UnescapeRune(c: char, tail: string)
    ensures Unescape(EscapeRune(c) + tail, false) == [c] + Unescape(tail, false)
  {
    var s := EscapeRune(c) + tail;
    if IsSpecial(c) {
      assert s[1..] == [c] + tail && s[1..][1..] == tail;
    } else {
      assert s[1..] == tail;
    }
  }

  lemma {:induction false} UnescapeInvertsEscape(s: string)
    ensures Unescape(Escape(s), false) == s
  {
    if s != [] {
      UnescapeInvertsEscape(s[1..]);
      UnescapeRune(s[0], Escape(s[1..]));
    }
  }

  lemma {:induction false} EscapeOfPlain(s: string)
    requires FreeOfSpecials(s)
    ensures Escape(s) == s
  {
    if s != [] {
      assert s[0] in s;
      EscapeOfPlain(s[1..]);
    }
  }

  lemma LikeEscapedRune(c: char, tail: string, s: string)
    ensures Like(EscapeRune(c) + tail, s) <==> s != [] && s[0] == c && Like(tail, s[1..])
  {
    var pat := EscapeRune(c) + tail;
    if IsSpecial(c) {
      assert pat[2..] == tail;
    } else {
      assert pat[1..] == tail;
    }
  }

  lemma PrefixStep(p: string, s: string)
    requires p != [] && s != []
    ensures p <= s <==> p[0] == s[0] && p[1..] <= s[1..]
    ensures p <= s ==> s[|p|..] == s[1..][|p[1..]|..]
  {
    if p <= s {
      assert p[1..] == s[1..][..|p| - 1];
    }
    if p[0] == s[0] && p[1..] <= s[1..] {
      assert p == [p[0]] + p[1..] && s == [s[0]] + s[1..];
    }
  }

  /** An escaped prefix of a pattern matches exactly its own text. */
  lemma {:induction false} LikeEscaped(lit: string, rest: string, s: string)
    ensures Like(Escape(lit) + rest, s) <==> lit <= s && Like(rest, s[|lit|..])
  {
    if lit == [] {
      assert Escape(lit) + rest == rest && s[0..] == s;
    } else {
      var tail := Escape(lit[1..]) + rest;
      assert Escape(lit) + rest == EscapeRune(lit[0]) + tail;
      LikeEscapedRune(lit[0], tail, s);
      if s != [] {
        LikeEscaped(lit[1..], rest, s[1..]);
        PrefixStep(lit, s);
      }
    }
  }

  lemma {:induction false} LikePercent(rest: string, s: string)
    ensures Like("%" + rest, s) <==> exists k :: 0 <= k <= |s| && Like(rest, s[k..])
  {
    var pat := "%" + rest;
    assert pat[1..] == rest && s[0..] == s;
    if s != [] {
      LikePercent(rest, s[1..]);
      if k :| 0 <= k <= |s| && Like(rest, s[k..]) && k > 0 {
        assert s[k..] == s[1..][k - 1..];
      }
      if k :| 0 <= k <= |s[1..]| && Like(rest, s[1..][k..]) {
        assert s[1..][k..] == s[k + 1..];
      }
    }
  }

  lemma LikeEverything(s: string)
    ensures Like("%", s)
  {
    LikePercent([], s);
    assert "%" + [] == "%" && s[|s|..] == [];
  }

  /** '%' + escape(q) + '%' selects exactly the strings that contain q. */
  lemma SearchPatternIsContainment(q: string, s: string)
    ensures Like("%" + (Escape(q) + "%"), s) <==> Contains(s, q)
  {
    LikePercent(Escape(q) + "%", s);
    forall k | 0 <= k <= |s|
      ensures Like(Escape(q) + "%", s[k..]) <==> q <= s[k..]
    {
      LikeEscaped(q, "%", s[k..]);
      if q <= s[k..] { LikeEverything(s[k..][|q|..]); }
    }
  }

  // ---- Unescaped text in a pattern: which text is safe, exactly ----

  /** The shortest text matched by pat when every '%' is empty and every '_' is an 'x'. */
  function Shortest(pat: string): (r: string)
    ensures |r| <= |pat|
    ensures '%' in pat || '\\' in pat ==> |r| < |pat|
    ensures |r| == |pat| ==> forall i :: 0 <= i < |r| ==> r[i] == if pat[i] == '_' then 'x' else pat[i]
  {
    if pat == [] then []
    else if pat[0] == '%' then Shortest(pat[1..])
    else if pat[0] == '_' then ['x'] + Shortest(pat[1..])
    else if pat[0] == '\\' then if |pat| == 1 then [] else [pat[1]] + Shortest(pat[2..])
    else [pat[0]] + Shortest(pat[1..])
  }

  /** A pattern whose escapes are all followed by a character. */
  predicate Complete(pat: string) {
    pat == [] ||
    if pat[0] == '\\' then |pat| >= 2 && Complete(pat[2..]) else Complete(pat[1..])
  }

  lemma {:induction false} ShortestMatches(pat: string)
    requires Complete(pat)
    ensures Like(pat, Shortest(pat))
    decreases |pat|
  {
    if pat != [] {
      if pat[0] == '\\' {
        ShortestMatches(pat[2..]);
        assert Shortest(pat)[1..] == Shortest(pat[2..]);
      } else {
        ShortestMatches(pat[1..]);
        if pat[0] != '%' { assert Shortest(pat)[1..] == Shortest(pat[1..]); }
      }
    }
  }

  /** Appending "/%" completes any pattern. */
  lemma {:induction false} SlashPercentCompletes(p: string)
    ensures Complete(p + "/%")
    decreases |p|
  {
    var pat := p + "/%";
    if p == [] {
      assert pat[1..] == "%" && "%"[1..] == [];
    } else if p[0] == '\\' {
      if |p| == 1 {
        assert pat[2..] == "%" && "%"[1..] == [];
      } else {
        SlashPercentCompletes(p[2..]);
        assert pat[2..] == p[2..] + "/%";
      }
    } else {
      SlashPercentCompletes(p[1..]);
      assert pat[1..] == p[1..] + "/%";
    }
  }

  /** folder_path LIKE p || '/%' as the queries write it, with p not escaped. */
  predicate LikeUnder(p: string, q: string) { Like(p + "/%", q) }

  lemma LikeUnderOfPlain(p: string, q: string)
    requires FreeOfSpecials(p)
    ensures LikeUnder(p, q) <==> p + "/" <= q
  {
    EscapeOfPlain(p + "/");
    LikeEscaped(p + "/", "%", q);
    assert p + "/" + "%" == p + "/%";
    if p + "/" <= q { LikeEverything(q[|p + "/"|..]); }
  }

  /** Without an escape, p || '/%' splits as p and "/%". */
  lemma {:induction false} ShortestOfSlashPercent(p: string)
    ensures |Shortest(p + "/%")| <= |p| + 1
    ensures '%' in p || '\\' in p ==> |Shortest(p + "/%")| <= |p|
    ensures |Shortest(p + "/%")| == |p| + 1 ==>
              forall i :: 0 <= i < |p| ==> Shortest(p + "/%")[i] == if p[i] == '_' then 'x' else p[i]
    decreases |p|
  {
    var pat := p + "/%";
    if p == [] {
      assert pat[1..] == "%" && "%"[1..] == [];
    } else if p[0] == '\\' {
      if |p| == 1 {
        assert pat[2..] == "%" && "%"[1..] == [];
      } else {
        ShortestOfSlashPercent(p[2..]);
        assert pat[2..] == p[2..] + "/%";
      }
    } else {
      ShortestOfSlashPercent(p[1..]);
      assert pat[1..] == p[1..] + "/%";
      assert forall c :: c in p[1..] || c == p[0] <==> c in p;
    }
  }

  lemma ShortestIsNotPrefixed(p: string)
    requires !FreeOfSpecials(p)
    ensures !(p + "/" <= Shortest(p + "/%"))
  {
    ShortestOfSlashPercent(p);
  }

  /** The query's notion of "below p" is the Go code's string prefix exactly when p holds
      none of '%', '_' and backslash. */
  lemma LikeUnderIsPrefixExactly(p: string)
    ensures (forall q :: LikeUnder(p, q) <==> p + "/" <= q) <==> FreeOfSpecials(p)
  {
    if FreeOfSpecials(p) {
      forall q ensures LikeUnder(p, q) <==> p + "/" <= q { LikeUnderOfPlain(p, q); }
    } else {
      var pat := p + "/%";
      var q := Shortest(pat);
      SlashPercentCompletes(p);
      ShortestMatches(pat);
      assert LikeUnder(p, q);
      assert !(p + "/" <= q) by {
        ShortestIsNotPrefixed(p);
      }
    }
  }

  lemma {:induction false} LikeOwnPrefix(p: string, rest: string, q: string)
    requires '\\' !in p && p <= q
    requires Like(rest, q[|p|..])
    ensures Like(p + rest, q)
  {
    if p == [] {
      assert p + rest == rest && q[0..] == q;
    } else {
      assert p[0] in p && (p + rest)[1..] == p[1..] + rest;
      PrefixStep(p, q);
      LikeOwnPrefix(p[1..], rest, q[1..]);
      if p[0] == '%' {
        LikePercent(p[1..] + rest, q);
        assert "%" + (p[1..] + rest) == p + rest;
      }
    }
  }

  /** Wildcards only widen the query: without a backslash no path below p is missed. */
  lemma LikeUnderMissesNothing(p: string, q: string)
    requires '\\' !in p && p + "/" <= q
    ensures LikeUnder(p, q)
  {
    var below := q[|p|..];
    assert below[0] == (p + "/")[|p|];
    LikeEverything(below[1..]);
    assert "/%"[1..] == "%";
    LikeOwnPrefix(p, "/%", q);
  }

  lemma {:induction false} SlashCompletes(p: string)
    ensures Complete(p + "/")
    decreases |p|
  {
    var pat := p + "/";
    if p == [] {
      assert pat[1..] == [];
    } else if p[0] == '\\' {
      if |p| == 1 {
        assert pat[2..] == [];
      } else {
        SlashCompletes(p[2..]);
        assert pat[2..] == p[2..] + "/";
      }
    } else {
      SlashCompletes(p[1..]);
      assert pat[1..] == p[1..] + "/";
    }
  }

  /** A final '%' takes any further text. */
  lemma {:induction false} LikeOpenEnded(x: string, s: string, more: string)
    requires Complete(x) && Like(x + "%", s)
    ensures Like(x + "%", s + more)
    decreases |x| + |s|
  {
    var pat, t := x + "%", s + more;
    if x == [] {
      assert pat == "%";
      LikeEverything(t);
    } else if x[0] == '%' {
      assert pat[1..] == x[1..] + "%";
      if Like(pat[1..], s) {
        LikeOpenEnded(x[1..], s, more);
      } else {
        assert t[1..] == s[1..] + more;
        LikeOpenEnded(x, s[1..], more);
      }
    } else {
      var k := if x[0] == '\\' then 2 else 1;
      assert pat[k..] == x[k..] + "%" && t[1..] == s[1..] + more;
      LikeOpenEnded(x[k..], s[1..], more);
    }
  }

  /** The slash after a segment cannot match while s has not reached a slash. */
  lemma {:induction false} SlashTooEarly(segment: string, rest: string, s: string)
    requires '%' !in segment && '/' !in segment
    requires |s| > |segment| && forall i :: 0 <= i <= |segment| ==> s[i] != '/'
    ensures !Like(segment + ("/" + rest), s)
    decreases |segment|
  {
    var pat := segment + ("/" + rest);
    assert s[0] != '/';
    if segment != [] {
      assert segment[0] in segment;
      if segment[0] == '\\' {
        if |segment| >= 2 {
          assert pat[2..] == segment[2..] + ("/" + rest);
          SlashTooEarly(segment[2..], rest, s[1..]);
        } else {
          assert pat[1] == '/';
        }
      } else {
        assert pat[1..] == segment[1..] + ("/" + rest);
        SlashTooEarly(segment[1..], rest, s[1..]);
      }
    }
  }

  /** The text of p up to its first slash. */
  function FirstSegment(p: string): (r: string)
    ensures r <= p && '/' !in r
    ensures |r| < |p| ==> p[|r|] == '/'
  {
    if p == [] || p[0] == '/' then [] else [p[0]] + FirstSegment(p[1..])
  }

  /** One backslash in a '%'-free p and the query misses every path below p. */
  lemma {:induction false} LikeUnderWithBackslash(p: string, q: string)
    requires '\\' in p && '%' !in p
    requires p + "/" <= q
    ensures !LikeUnder(p, q)
  {
    var pat := p + "/%";
    assert q[0] == p[0] && p[0] in p;
    if p[0] == '\\' {
      var c := FirstSegment(p[1..]);
      if c != [] {
        var rest := pat[1..][|c| + 1..];
        assert pat[2..] == c[1..] + ("/" + rest);
        assert q[1..][..|c|] == c;
        SlashTooEarly(c[1..], rest, q[1..]);
      } else {
        assert pat[1] == '/';
      }
    } else {
      assert pat[1..] == p[1..] + "/%";
      assert p[1..] + "/" <= q[1..];
      LikeUnderWithBackslash(p[1..], q[1..]);
    }
  }

  /** The query sees every path below p exactly when it sees the shortest text below p. */
  lemma LikeUnderSeesAllExactly(p: string)
    ensures (forall q :: p + "/" <= q ==> LikeUnder(p, q)) <==> LikeUnder(p, p + "/")
    ensures '\\' !in p ==> LikeUnder(p, p + "/")
    ensures '\\' in p && '%' !in p ==> !LikeUnder(p, p + "/")
  {
    var shortest := p + "/";
    assert p + "/%" == shortest + "%";
    if LikeUnder(p, shortest) {
      SlashCompletes(p);
      forall q | shortest <= q ensures LikeUnder(p, q) {
        LikeOpenEnded(shortest, shortest, q[|shortest|..]);
        assert shortest + q[|shortest|..] == q;
      }
    }
    if '\\' !in p { LikeUnderMissesNothing(p, shortest); }
    if '\\' in p && '%' !in p { LikeUnderWithBackslash(p, shortest); }
  }

  lemma {:induction false} EscapeOfLast(s: string)
    requires s != []
    ensures Escape(s) == Escape(s[..|s| - 1]) + EscapeRune(s[|s| - 1])
  {
    if |s| > 1 {
      EscapeOfLast(s[1..]);
      assert s[1..][..|s| - 2] == s[..|s| - 1][1..];
    }
  }

  /** name.go:77-93 */
  method EscapeIlikePattern(s: string) returns (b: string)
    ensures b == Escape(s)
  {
    if s == [] { return s; }
    b := [];
    for i := 0 to |s|
      invariant b == Escape(s[..i])
    {
      EscapeOfLast(s[..i + 1]);
      assert s[..i + 1][..i] == s[..i];
      if IsSpecial(s[i]) {
        b := b + ['\\', s[i]];
      } else {
        b := b + [s[i]];
      }
    }
    assert s[..|s|] == s;
  }

  lemma UnescapeFrom(s: string, i: nat, escaped: bool)
    requires i < |s|
    ensures Unescape(s[i..], escaped)
            == if !escaped && s[i] == '\\' then Unescape(s[i + 1..], true) else [s[i]] + Unescape(s[i + 1..], false)
  {
    assert s[i..][1..] == s[i + 1..];
  }

  /** name.go:95-112 */
  method UnescapeIlikePattern(s: string) returns (b: string)
    ensures b == Unescape(s, false)
  {
    b := [];
    var escaped := false;
    assert s[0..] == s;
    for i := 0 to |s|
      invariant b + Unescape(s[i..], escaped) == Unescape(s, false)
    {
      UnescapeFrom(s, i, escaped);
      Regroup(b, [s[i]], Unescape(s[i + 1..], false));
      if escaped {
        b := b + [s[i]];
        escaped := false;
      } else if s[i] == '\\' {
        escaped := true;
      } else {
        b := b + [s[i]];
      }
    }
    assert s[|s|..] == [];
  }
}
