/** Key pages in memory and key pages in SQL are the same pages. */
module RuleLaws {
  import opened GoStrings
  import opened SqlLike
  import opened RuleSet

  /** All keywords of all categories, up to case. */
  ghost function AllLowers(pages: Pages): set<string> {
    set cat, i | cat in pages && 0 <= i < |pages[cat]| :: ToLower(pages[cat][i])
  }

  ghost predicate HitIn(lower: string, ls: set<string>) {
    exists l :: l in ls && l != "" && Contains(lower, l)
  }

  lemma HitsByLowers(pages: Pages, lower: string)
    ensures !NoHit(pages, lower) <==> HitIn(lower, AllLowers(pages))
  {
    if !NoHit(pages, lower) {
      var c :| CategoryHits(pages, lower, c);
      var i :| 0 <= i < |pages[c]| && KeywordHits(lower, pages[c][i]);
      assert ToLower(pages[c][i]) in AllLowers(pages);
    }
    if HitIn(lower, AllLowers(pages)) {
      var l :| l in AllLowers(pages) && l != "" && Contains(lower, l);
      var c, i :| c in pages && 0 <= i < |pages[c]| && ToLower(pages[c][i]) == l;
      assert KeywordHits(lower, pages[c][i]);
      assert CategoryHits(pages, lower, c);
    }
  }

  // ---- which keywords the merged set holds

  lemma {:induction false} LowersOfExtend(have: seq<string>, more: seq<string>)
    ensures Lowers(Extend(have, more)) == Lowers(have) + Lowers(more)
  {
    if more != [] {
      var n := |more| - 1;
      LowersOfExtend(have, more[..n]);
      assert more == more[..n] + [more[n]];
      LowersOneMore(more[..n], more[n]);
      LowersOneMore(Extend(have, more[..n]), more[n]);
    }
  }

  lemma InAllLowers(pages: Pages, l: string)
    ensures l in AllLowers(pages) <==> exists cat :: cat in pages && l in Lowers(pages[cat])
  {
    if cat :| cat in pages && l in Lowers(pages[cat]) {
      var i :| 0 <= i < |pages[cat]| && ToLower(pages[cat][i]) == l;
    }
    if l in AllLowers(pages) {
      var cat, i :| cat in pages && 0 <= i < |pages[cat]| && ToLower(pages[cat][i]) == l;
      assert l in Lowers(pages[cat]);
    }
  }

  lemma LowersOfMergedCategory(p: Pages, add: Pages, l: string, cat: string)
    ensures (cat in Merge(p, add) && l in Lowers(Merge(p, add)[cat]))
            <==> (cat in p && l in Lowers(p[cat])) || (cat in add && l in Lowers(add[cat]))
  {
    LowersOfExtend(PagesAt(p, cat), PagesAt(add, cat));
  }

  lemma InMergedLowers(p: Pages, add: Pages, l: string)
    ensures l in AllLowers(Merge(p, add)) <==> l in AllLowers(p) || l in AllLowers(add)
  {
    InAllLowers(p, l);
    InAllLowers(add, l);
    InAllLowers(Merge(p, add), l);
    if l in AllLowers(p) {
      var cat :| cat in p && l in Lowers(p[cat]);
      LowersOfMergedCategory(p, add, l, cat);
    }
    if l in AllLowers(add) {
      var cat :| cat in add && l in Lowers(add[cat]);
      LowersOfMergedCategory(p, add, l, cat);
    }
    if l in AllLowers(Merge(p, add)) {
      var cat :| cat in Merge(p, add) && l in Lowers(Merge(p, add)[cat]);
      LowersOfMergedCategory(p, add, l, cat);
    }
  }

  lemma LowersOfMerge(p: Pages, add: Pages)
    ensures AllLowers(Merge(p, add)) == AllLowers(p) + AllLowers(add)
  {
    forall l ensures l in AllLowers(Merge(p, add)) <==> l in AllLowers(p) + AllLowers(add) {
      InMergedLowers(p, add, l);
    }
  }

  /** Extras only ever add: a title is a key page afterwards exactly when it was one before or holds one
      of the added keywords. */
  lemma ExtrasOnlyAdd(r: Rules, add: Pages, title: string)
    ensures HoldsKeyword(r.(extra := Merge(r.extra, add)), title)
            <==> HoldsKeyword(r, title) || (TrimSpace(title) != "" && HitIn(ToLower(title), AllLowers(add)))
  {
    var s := r.(extra := Merge(r.extra, add));
    var base := Filtered(r.base, r.lang);
    LowersOfMerge(r.extra, add);
    LowersOfMerge(base, r.extra);
    LowersOfMerge(base, s.extra);
    HitsByLowers(MergedKeyPages(r), ToLower(title));
    HitsByLowers(MergedKeyPages(s), ToLower(title));
  }

  // ---- languages

  lemma FilteredOneMore(kws: seq<string>, kw: string, lang: Lang)
    ensures FilterByLang(kws + [kw], lang) == FilterByLang(kws, lang) + if Speaks(lang, kw) then [kw] else []
  {
    assert (kws + [kw])[..|kws|] == kws;
  }

  lemma {:induction false} LanguagesShareOut(kws: seq<string>)
    ensures Lowers(kws) == Lowers(FilterByLang(kws, En)) + Lowers(FilterByLang(kws, Zh))
  {
    if kws != [] {
      var n := |kws| - 1;
      LanguagesShareOut(kws[..n]);
      assert kws == kws[..n] + [kws[n]];
      LowersOneMore(kws[..n], kws[n]);
      FilteredOneMore(kws[..n], kws[n], En);
      FilteredOneMore(kws[..n], kws[n], Zh);
      LowersOneMore(FilterByLang(kws[..n], En), kws[n]);
      LowersOneMore(FilterByLang(kws[..n], Zh), kws[n]);
      assert forall lang :: FilterByLang(kws[..n], lang) + [] == FilterByLang(kws[..n], lang);
    }
  }

  lemma LowersOfFiltered(base: Pages)
    ensures AllLowers(Filtered(base, Any)) == AllLowers(Filtered(base, En)) + AllLowers(Filtered(base, Zh))
  {
    forall l
      ensures l in AllLowers(Filtered(base, Any))
              <==> l in AllLowers(Filtered(base, En)) || l in AllLowers(Filtered(base, Zh))
    {
      InAllLowers(Filtered(base, Any), l);
      InAllLowers(Filtered(base, En), l);
      InAllLowers(Filtered(base, Zh), l);
      forall cat | cat in base
        ensures Lowers(Filtered(base, Any)[cat])
                == Lowers(Filtered(base, En)[cat]) + Lowers(Filtered(base, Zh)[cat])
      {
        EverythingSpeaksAny(base[cat]);
        LanguagesShareOut(base[cat]);
      }
    }
  }

  lemma HitsByLanguage(r: Rules, lang: Lang, title: string)
    ensures !NoHit(MergedKeyPages(r.(lang := lang)), ToLower(title))
            <==> HitIn(ToLower(title), AllLowers(Filtered(r.base, lang)) + AllLowers(r.extra))
  {
    HitsByLowers(MergedKeyPages(r.(lang := lang)), ToLower(title));
    LowersOfMerge(Filtered(r.base, lang), r.extra);
  }

  /** Without a language a title is a key page exactly when it is one in English or in Chinese. */
  lemma AnyLanguageIsEither(r: Rules, title: string)
    ensures HoldsKeyword(r.(lang := Any), title)
            <==> HoldsKeyword(r.(lang := En), title) || HoldsKeyword(r.(lang := Zh), title)
  {
    LowersOfFiltered(r.base);
    HitsByLanguage(r, Any, title);
    HitsByLanguage(r, En, title);
    HitsByLanguage(r, Zh, title);
  }

  // ---- which pages are key pages

  ghost predicate HasHan(kw: string) { exists i :: 0 <= i < |kw| && IsHan(kw[i]) }

  /** English keywords have no Han character, Chinese ones have one. */
  ghost predicate InLanguage(lang: Lang, kw: string) {
    match lang
    case Any => true
    case En => !HasHan(kw)
    case Zh => HasHan(kw)
  }

  /** A keyword occurs in the title, whatever the case; an empty one never does. */
  ghost predicate Occurs(kw: string, lower: string) { kw != "" && Contains(lower, ToLower(kw)) }

  /** A built-in keyword of the category and the language, or an added one of the category in any language. */
  ghost predicate Concerns(r: Rules, lower: string, cat: string) {
    || (cat in r.base && exists kw :: kw in r.base[cat] && InLanguage(r.lang, kw) && Occurs(kw, lower))
    || (cat in r.extra && exists kw :: kw in r.extra[cat] && Occurs(kw, lower))
  }

  lemma {:induction false} FilterKeepsLanguage(kws: seq<string>, lang: Lang, kw: string)
    ensures kw in FilterByLang(kws, lang) <==> kw in kws && InLanguage(lang, kw)
  {
    if kws != [] {
      var n := |kws| - 1;
      FilterKeepsLanguage(kws[..n], lang, kw);
      assert kws == kws[..n] + [kws[n]];
    }
  }

  lemma AnyHitsByLowers(lower: string, kws: seq<string>)
    ensures AnyHits(lower, kws) <==> HitIn(lower, Lowers(kws))
  {
    if AnyHits(lower, kws) {
      var i :| 0 <= i < |kws| && KeywordHits(lower, kws[i]);
      assert ToLower(kws[i]) in Lowers(kws);
    }
    if HitIn(lower, Lowers(kws)) {
      var l :| l in Lowers(kws) && l != "" && Contains(lower, l);
      var i :| 0 <= i < |kws| && ToLower(kws[i]) == l;
      assert KeywordHits(lower, kws[i]);
    }
  }

  lemma AnyHitsOccurs(lower: string, kws: seq<string>)
    ensures AnyHits(lower, kws) <==> exists kw :: kw in kws && Occurs(kw, lower)
  {
    if kw :| kw in kws && Occurs(kw, lower) {
      var i :| 0 <= i < |kws| && kws[i] == kw;
      assert KeywordHits(lower, kws[i]);
    }
    if AnyHits(lower, kws) {
      var i :| 0 <= i < |kws| && KeywordHits(lower, kws[i]);
      assert kws[i] in kws && Occurs(kws[i], lower);
    }
  }

  lemma FilteredHits(kws: seq<string>, lang: Lang, lower: string)
    ensures AnyHits(lower, FilterByLang(kws, lang)) <==>
            exists kw :: kw in kws && InLanguage(lang, kw) && Occurs(kw, lower)
  {
    AnyHitsOccurs(lower, FilterByLang(kws, lang));
    forall kw ensures kw in FilterByLang(kws, lang) <==> kw in kws && InLanguage(lang, kw) {
      FilterKeepsLanguage(kws, lang, kw);
    }
  }

  lemma ExtendHits(lower: string, have: seq<string>, more: seq<string>)
    ensures AnyHits(lower, Extend(have, more)) <==> AnyHits(lower, have) || AnyHits(lower, more)
  {
    AnyHitsByLowers(lower, have);
    AnyHitsByLowers(lower, more);
    AnyHitsByLowers(lower, Extend(have, more));
    LowersOfExtend(have, more);
  }

  /** A category is hit through a keyword of its own, only the built-in ones being held to the language. */
  lemma CategoryHitExactly(r: Rules, lower: string, cat: string)
    ensures CategoryHits(MergedKeyPages(r), lower, cat) <==> Concerns(r, lower, cat)
  {
    var base := Filtered(r.base, r.lang);
    ExtendHits(lower, PagesAt(base, cat), PagesAt(r.extra, cat));
    if cat in r.base { FilteredHits(r.base[cat], r.lang, lower); }
    if cat in r.extra { AnyHitsOccurs(lower, r.extra[cat]); }
  }

  /** A title is of the least category that one of its keywords is in, and of none if it has none. */
  lemma MatchExactly(r: Rules, title: string, cat: string)
    requires IsMatch(MergedKeyPages(r), title, cat)
    ensures var lower := ToLower(title);
            if TrimSpace(title) == "" || forall c :: !Concerns(r, lower, c) then cat == ""
            else Concerns(r, lower, cat) && forall c :: Concerns(r, lower, c) ==> c == cat || Less(cat, c)
  {
    forall c ensures CategoryHits(MergedKeyPages(r), ToLower(title), c) <==> Concerns(r, ToLower(title), c) {
      CategoryHitExactly(r, ToLower(title), c);
    }
  }

  // ---- patterns

  lemma LowersOfSum(a: seq<string>, b: seq<string>)
    ensures Lowers(a + b) == Lowers(a) + Lowers(b)
  {
    forall l | l in Lowers(a) + Lowers(b) ensures l in Lowers(a + b) {
      if l in Lowers(a) {
        var i :| 0 <= i < |a| && ToLower(a[i]) == l;
        assert (a + b)[i] == a[i];
      } else {
        var i :| 0 <= i < |b| && ToLower(b[i]) == l;
        assert (a + b)[|a| + i] == b[i];
      }
    }
  }

  lemma {:induction false} LowersOfConcat(pages: Pages, cats: seq<string>)
    requires forall c :: c in cats ==> c in pages
    ensures forall l :: l in Lowers(Concat(pages, cats)) <==> exists c :: c in cats && l in Lowers(pages[c])
  {
    if cats != [] {
      var n := |cats| - 1;
      LowersOfConcat(pages, cats[..n]);
      LowersOfSum(Concat(pages, cats[..n]), pages[cats[n]]);
      assert cats == cats[..n] + [cats[n]];
    }
  }

  /** The flat list loses no keyword. */
  lemma KeywordsAreAll(pages: Pages, cats: seq<string>)
    requires IsCategories(pages, cats)
    ensures Lowers(KeywordList(pages, cats)) == AllLowers(pages)
  {
    LowersOfExtend([], Concat(pages, cats));
    LowersOfConcat(pages, cats);
    forall l ensures l in AllLowers(pages) <==> l in Lowers(Concat(pages, cats)) {
      InAllLowers(pages, l);
    }
  }

  ghost predicate DistinctUpToCase(kws: seq<string>) {
    forall i, j :: 0 <= i < j < |kws| ==> ToLower(kws[i]) != ToLower(kws[j])
  }

  /** No keyword, and so no pattern, is listed twice. */
  lemma {:induction false} ExtendKeepsDistinct(have: seq<string>, more: seq<string>)
    requires DistinctUpToCase(have)
    ensures DistinctUpToCase(Extend(have, more))
  {
    if more != [] { ExtendKeepsDistinct(have, more[..|more| - 1]); }
  }

  /** An unescaped keyword between percent signs, filled in the shortest way, is not the keyword. */
  lemma {:induction false} ShortestIsOther(k: string)
    ensures |Shortest(k + "%")| <= |k| && Complete(k + "%")
    ensures !FreeOfSpecials(k) ==> Shortest(k + "%") != k
    decreases |k|
  {
    var pat := k + "%";
    if k == [] {
      assert pat == "%" && pat[1..] == [];
    } else if k[0] == '\\' {
      if |k| == 1 {
        assert pat[2..] == [];
        assert Shortest(pat)[0] == '%';
      } else {
        ShortestIsOther(k[2..]);
        assert pat[2..] == k[2..] + "%";
      }
    } else {
      ShortestIsOther(k[1..]);
      assert pat[1..] == k[1..] + "%";
      assert forall c :: c in k <==> c == k[0] || c in k[1..];
      if k[0] != '%' {
        assert Shortest(pat)[1..] == Shortest(k[1..] + "%");
      }
    }
  }

  lemma ContainedInNoLonger(s: string, k: string)
    requires Contains(s, k) && |s| <= |k|
    ensures s == k
  {
    var i :| 0 <= i <= |s| && k <= s[i..];
    assert i == 0 || k == [];
  }

  /** A keyword's pattern selects the titles that contain it, for all titles, exactly when it holds none
      of '%', '_' and backslash. */
  lemma PatternIsContainmentExactly(k: string)
    ensures (forall s :: Like("%" + (k + "%"), s) <==> Contains(s, k)) <==> FreeOfSpecials(k)
  {
    if FreeOfSpecials(k) {
      EscapeOfPlain(k);
      forall s ensures Like("%" + (k + "%"), s) <==> Contains(s, k) { SearchPatternIsContainment(k, s); }
    } else {
      var s := Shortest(k + "%");
      ShortestIsOther(k);
      ShortestMatches(k + "%");
      LikePercent(k + "%", s);
      assert s[0..] == s;
      assert Like("%" + (k + "%"), s);
      if Contains(s, k) { ContainedInNoLonger(s, k); }
    }
  }

  lemma LowerKeepsPlain(k: string)
    requires FreeOfSpecials(k)
    ensures FreeOfSpecials(ToLower(k))
  {
    forall c | c in ToLower(k) ensures !IsSpecial(c) {
      var i :| 0 <= i < |k| && ToLower(k)[i] == c;
      assert k[i] in k;
    }
  }

  ghost predicate NonBlank(k: string) { exists i :: 0 <= i < |k| && !IsSpace(k[i]) }

  lemma {:induction false} TrimmedIsBlank(s: string)
    ensures TrimRight(s) == "" ==> !NonBlank(s)
    decreases |s|
  {
    if s != [] && IsSpace(s[|s| - 1]) {
      TrimmedIsBlank(s[..|s| - 1]);
      assert forall i :: 0 <= i < |s| - 1 ==> s[..|s| - 1][i] == s[i];
      if NonBlank(s) {
        var i :| 0 <= i < |s| && !IsSpace(s[i]);
        assert s[..|s| - 1][i] == s[i];
      }
    }
  }

  lemma {:induction false} TrimLeftIsBlank(s: string)
    ensures NonBlank(TrimLeft(s)) == NonBlank(s)
    decreases |s|
  {
    if s != [] && IsSpace(s[0]) {
      TrimLeftIsBlank(s[1..]);
      if NonBlank(s[1..]) {
        var i :| 0 <= i < |s[1..]| && !IsSpace(s[1..][i]);
        assert s[i + 1] == s[1..][i];
      }
      if NonBlank(s) {
        var i :| 0 <= i < |s| && !IsSpace(s[i]);
        assert s[1..][i - 1] == s[i];
      }
    }
  }

  lemma SpaceAt(title: string, k: string, n: nat, i: nat)
    requires n <= |title| && ToLower(k) <= ToLower(title)[n..] && i < |k|
    ensures n + i < |title| && LowerRune(title[n + i]) == LowerRune(k[i])
  {
    assert ToLower(title)[n..][i] == ToLower(k)[i];
  }

  lemma LowerOfSpace(c: char)
    requires !IsSpace(c)
    ensures !IsSpace(LowerRune(c))
  {}

  /** A title that is all white space contains no keyword with anything else in it. */
  lemma BlankHoldsNothing(title: string, k: string)
    requires TrimSpace(title) == "" && NonBlank(k)
    ensures !Contains(ToLower(title), ToLower(k))
  {
    TrimmedIsBlank(TrimLeft(title));
    TrimLeftIsBlank(title);
    var i :| 0 <= i < |k| && !IsSpace(k[i]);
    LowerOfSpace(k[i]);
    if Contains(ToLower(title), ToLower(k)) {
      var n :| 0 <= n <= |ToLower(title)| && ToLower(k) <= ToLower(title)[n..];
      SpaceAt(title, k, n, i);
    }
  }

  ghost predicate PlainKeywords(pages: Pages) {
    forall cat, i :: cat in pages && 0 <= i < |pages[cat]| ==> NonBlank(pages[cat][i]) && FreeOfSpecials(pages[cat][i])
  }

  ghost predicate MatchesSome(patterns: seq<string>, s: string) {
    exists i :: 0 <= i < |patterns| && Like(patterns[i], s)
  }

  lemma PlainLowers(pages: Pages, l: string)
    requires PlainKeywords(pages) && l in AllLowers(pages)
    ensures FreeOfSpecials(l) && l != "" && exists k :: NonBlank(k) && ToLower(k) == l
  {
    var cat, i :| cat in pages && 0 <= i < |pages[cat]| && ToLower(pages[cat][i]) == l;
    LowerKeepsPlain(pages[cat][i]);
  }

  lemma MatchIsContainment(kws: seq<string>, lower: string)
    requires forall l :: l in Lowers(kws) ==> FreeOfSpecials(l) && l != ""
    ensures MatchesSome(PatternsOf(kws), lower) <==> HitIn(lower, Lowers(kws))
  {
    var patterns := PatternsOf(kws);
    forall i | 0 <= i < |kws| ensures Like(patterns[i], lower) <==> Contains(lower, ToLower(kws[i])) {
      assert ToLower(kws[i]) in Lowers(kws);
      PatternIsContainmentExactly(ToLower(kws[i]));
    }
    if HitIn(lower, Lowers(kws)) {
      var l :| l in Lowers(kws) && l != "" && Contains(lower, l);
      var i :| 0 <= i < |kws| && ToLower(kws[i]) == l;
      assert Like(patterns[i], lower);
    }
    if MatchesSome(patterns, lower) {
      var i :| 0 <= i < |patterns| && Like(patterns[i], lower);
      assert ToLower(kws[i]) in Lowers(kws);
    }
  }

  /** For keywords without LIKE's special characters, a title is a key page in memory exactly when its
      lower case matches one of the patterns handed to the database. */
  lemma PatternsSelectKeyPages(r: Rules, title: string, cats: seq<string>)
    requires PlainKeywords(MergedKeyPages(r))
    requires IsCategories(MergedKeyPages(r), cats)
    ensures HoldsKeyword(r, title) <==> MatchesSome(PatternsOf(KeywordList(MergedKeyPages(r), cats)), ToLower(title))
  {
    var pages, lower := MergedKeyPages(r), ToLower(title);
    HitsByLowers(pages, lower);
    KeywordsAreAll(pages, cats);
    forall l | l in AllLowers(pages) ensures FreeOfSpecials(l) && l != "" { PlainLowers(pages, l); }
    MatchIsContainment(KeywordList(pages, cats), lower);
    if TrimSpace(title) == "" && HitIn(lower, AllLowers(pages)) {
      var l :| l in AllLowers(pages) && l != "" && Contains(lower, l);
      PlainLowers(pages, l);
      var k :| NonBlank(k) && ToLower(k) == l;
      BlankHoldsNothing(title, k);
    }
  }

  // ---- what normalizing leaves

  lemma {:induction false} TrimmedAreNonEmpty(kws: seq<string>)
    ensures forall i :: 0 <= i < |Trimmed(kws)| ==> Trimmed(kws)[i] != ""
  {
    if kws != [] { TrimmedAreNonEmpty(kws[..|kws| - 1]); }
  }

  lemma {:induction false} ExtendAddsFrom(have: seq<string>, more: seq<string>)
    ensures forall k :: k in Extend(have, more) ==> k in have || k in more
  {
    if more != [] {
      var n := |more| - 1;
      ExtendAddsFrom(have, more[..n]);
      assert forall k :: k in more[..n] ==> k in more;
    }
  }

  /** After normalizing there is no category without a name, no empty one, no empty keyword and no
      keyword twice. */
  lemma NormalizedIsTidy(extra: Pages, out: Pages, cat: string)
    requires IsNormalized(extra, out) && cat in out
    ensures cat != "" && out[cat] != [] && "" !in out[cat] && DistinctUpToCase(out[cat])
  {
    var raw :| FeedsCategory(extra, raw, cat) && out[cat] == Cleaned(extra[raw]);
    TrimmedAreNonEmpty(extra[raw]);
    ExtendAddsFrom([], Trimmed(extra[raw]));
    ExtendKeepsDistinct([], Trimmed(extra[raw]));
  }

  /** No keyword in front of more[i] is the same up to case. */
  predicate IsNew(have: seq<string>, more: seq<string>, i: nat)
    requires i < |more|
  {
    && (forall j :: 0 <= j < |have| ==> ToLower(have[j]) != ToLower(more[i]))
    && (forall j :: 0 <= j < i ==> ToLower(more[j]) != ToLower(more[i]))
  }

  function NewCount(have: seq<string>, more: seq<string>): nat {
    if more == [] then 0
    else NewCount(have, more[..|more| - 1]) + if IsNew(have, more, |more| - 1) then 1 else 0
  }

  lemma NewIsUnlisted(have: seq<string>, more: seq<string>, i: nat)
    requires i < |more|
    ensures IsNew(have, more, i) <==> ToLower(more[i]) !in Lowers(Extend(have, more[..i]))
  {
    LowersOfExtend(have, more[..i]);
    if ToLower(more[i]) in Lowers(more[..i]) {
      var j :| 0 <= j < i && ToLower(more[..i][j]) == ToLower(more[i]);
      assert more[j] == more[..i][j];
    }
    if j :| 0 <= j < i && ToLower(more[j]) == ToLower(more[i]) {
      assert ToLower(more[..i][j]) in Lowers(more[..i]);
    }
  }

  lemma {:induction false} ExtendedCount(have: seq<string>, more: seq<string>)
    ensures |Extend(have, more)| == |have| + NewCount(have, more)
  {
    if more != [] {
      ExtendedCount(have, more[..|more| - 1]);
      NewIsUnlisted(have, more, |more| - 1);
    }
  }

  lemma {:induction false} ExtendedPrefix(have: seq<string>, more: seq<string>, i: nat)
    requires i <= |more|
    ensures Extend(have, more[..i]) <= Extend(have, more)
    decreases |more|
  {
    if i < |more| {
      ExtendedPrefix(have, more[..|more| - 1], i);
      assert more[..|more| - 1][..i] == more[..i];
    } else {
      assert more[..i] == more;
    }
  }

  /** Every keyword is listed in the spelling and at the place in which it comes first. */
  lemma FirstSpellingStays(have: seq<string>, more: seq<string>, i: nat)
    requires i < |more|
    ensures have <= Extend(have, more)
    ensures |Extend(have, more)| == |have| + NewCount(have, more)
    ensures IsNew(have, more, i) ==>
              var at := |have| + NewCount(have, more[..i]);
              at < |Extend(have, more)| && Extend(have, more)[at] == more[i]
  {
    ExtendedCount(have, more);
    ExtendedPrefix(have, more, 0);
    ExtendedPrefix(have, more, i + 1);
    ExtendedCount(have, more[..i]);
    NewIsUnlisted(have, more, i);
    assert more[..i + 1][..i] == more[..i];
  }

  lemma {:induction false} TrimmedExactly(kws: seq<string>, kw: string)
    ensures kw in Trimmed(kws) <==> kw != "" && exists k :: k in kws && TrimSpace(k) == kw
  {
    if kws != [] {
      var n := |kws| - 1;
      TrimmedExactly(kws[..n], kw);
      assert kws == kws[..n] + [kws[n]];
    }
  }

  lemma LowersMembers(kws: seq<string>, l: string)
    ensures l in Lowers(kws) <==> exists k :: k in kws && ToLower(k) == l
  {
    if k :| k in kws && ToLower(k) == l {
      var i :| 0 <= i < |kws| && kws[i] == k;
    }
  }

  /** The cleaned keywords are the trimmed ones that are not empty, up to case. */
  lemma CleanedExactly(kws: seq<string>, l: string)
    ensures l in Lowers(Cleaned(kws)) <==> exists k :: k in kws && TrimSpace(k) != "" && ToLower(TrimSpace(k)) == l
  {
    LowersOfExtend([], Trimmed(kws));
    LowersMembers(Trimmed(kws), l);
    forall kw ensures kw in Trimmed(kws) <==> kw != "" && exists k :: k in kws && TrimSpace(k) == kw {
      TrimmedExactly(kws, kw);
    }
  }

  /** The spelling names the category and comes with a keyword that is not blank. */
  ghost predicate Fills(extra: Pages, raw: string, cat: string) {
    raw in extra && TrimSpace(ToLower(raw)) == cat && exists k :: k in extra[raw] && TrimSpace(k) != ""
  }

  lemma FeedsIffFills(extra: Pages, raw: string, cat: string)
    ensures FeedsCategory(extra, raw, cat) <==> cat != "" && Fills(extra, raw, cat)
  {
    if raw in extra {
      var kws := extra[raw];
      ExtendedCount([], Trimmed(kws));
      if k :| k in kws && TrimSpace(k) != "" {
        CleanedExactly(kws, ToLower(TrimSpace(k)));
      }
      if Cleaned(kws) != [] {
        assert ToLower(Cleaned(kws)[0]) in Lowers(Cleaned(kws));
        CleanedExactly(kws, ToLower(Cleaned(kws)[0]));
      }
    }
  }

  /** Normalizing leaves a category for each name that comes with a keyword, and there the keywords of one
      spelling of the name. */
  lemma NormalizedExactly(extra: Pages, out: Pages, cat: string)
    requires IsNormalized(extra, out)
    ensures cat in out <==> cat != "" && exists raw :: Fills(extra, raw, cat)
    ensures cat in out ==> exists raw :: Fills(extra, raw, cat) && out[cat] == Cleaned(extra[raw])
  {
    forall raw ensures FeedsCategory(extra, raw, cat) <==> cat != "" && Fills(extra, raw, cat) {
      FeedsIffFills(extra, raw, cat);
    }
  }
}
