/** Key-page rules: heat/ruleset.go and the language filter of heat/lang.go.  The built-in pages of the
    circle are the value base. */
module RuleSet {
  import opened GoStrings

  type Pages = map<string, seq<string>>

  datatype Lang = Any | En | Zh

  datatype Rules = Rules(base: Pages, extra: Pages, lang: Lang)

  /** The ranges of the Han script. */
  predicate IsHan(c: char) {
    || '\U{2E80}' <= c <= '\U{2E99}' || '\U{2E9B}' <= c <= '\U{2EF3}' || '\U{2F00}' <= c <= '\U{2FD5}'
    || c == '\U{3005}' || c == '\U{3007}' || '\U{3021}' <= c <= '\U{3029}' || '\U{3038}' <= c <= '\U{303B}'
    || '\U{3400}' <= c <= '\U{4DBF}' || '\U{4E00}' <= c <= '\U{9FFF}'
    || '\U{F900}' <= c <= '\U{FA6D}' || '\U{FA70}' <= c <= '\U{FAD9}' || '\U{20000}' <= c <= '\U{323AF}'
  }

  predicate IsCjk(kw: string) { exists i | 0 <= i < |kw| :: IsHan(kw[i]) }

  predicate Speaks(lang: Lang, kw: string) {
    lang == Any || (lang == Zh <==> IsCjk(kw))
  }

  function FilterByLang(kws: seq<string>, lang: Lang): seq<string> {
    if kws == [] then []
    else
      var n := |kws| - 1;
      FilterByLang(kws[..n], lang) + if Speaks(lang, kws[n]) then [kws[n]] else []
  }

  /** The keywords up to case. */
  function Lowers(kws: seq<string>): set<string> {
    set i | 0 <= i < |kws| :: ToLower(kws[i])
  }

  /** have, then those of more that are not there yet up to case. */
  function Extend(have: seq<string>, more: seq<string>): seq<string> {
    if more == [] then have
    else
      var n := |more| - 1;
      var before := Extend(have, more[..n]);
      if ToLower(more[n]) in Lowers(before) then before else before + [more[n]]
  }

  function Trimmed(kws: seq<string>): seq<string> {
    if kws == [] then []
    else
      var n := |kws| - 1;
      Trimmed(kws[..n]) + if TrimSpace(kws[n]) == "" then [] else [TrimSpace(kws[n])]
  }

  function Cleaned(kws: seq<string>): seq<string> { Extend([], Trimmed(kws)) }

  function CategoryOf(raw: string): string { TrimSpace(ToLower(raw)) }

  predicate FeedsCategory(extra: Pages, raw: string, cat: string) {
    raw in extra && CategoryOf(raw) == cat && cat != "" && Cleaned(extra[raw]) != []
  }

  /** What normalizeExtra may return: each category holds the cleaned keywords of one of the spellings
      that lead to it, which one depends on the order of the map. */
  ghost predicate IsNormalized(extra: Pages, out: Pages) {
    && (forall cat :: cat in out ==> exists raw :: FeedsCategory(extra, raw, cat) && out[cat] == Cleaned(extra[raw]))
    && (forall raw :: raw in extra && FeedsCategory(extra, raw, CategoryOf(raw)) ==> CategoryOf(raw) in out)
  }

  function PagesAt(p: Pages, cat: string): seq<string> { if cat in p then p[cat] else [] }

  /** Keywords of add go behind those of p, category by category. */
  function Merge(p: Pages, add: Pages): Pages {
    map cat | cat in p.Keys + add.Keys :: Extend(PagesAt(p, cat), PagesAt(add, cat))
  }

  function Filtered(base: Pages, lang: Lang): Pages {
    map cat | cat in base :: FilterByLang(base[cat], lang)
  }

  function MergedKeyPages(r: Rules): Pages { Merge(Filtered(r.base, r.lang), r.extra) }

  // ---- sorted categories

  ghost predicate Ascending(s: seq<string>) {
    forall i, j :: 0 <= i < j < |s| ==> Less(s[i], s[j])
  }

  ghost predicate IsCategories(p: Pages, cats: seq<string>) {
    Ascending(cats) && forall c :: c in cats <==> c in p
  }

  lemma InsertedMembers(s: seq<string>, i: nat, x: string)
    requires i <= |s|
    ensures forall c :: c in s[..i] + [x] + s[i..] <==> c in s || c == x
  {
    assert s == s[..i] + s[i..];
  }

  /** Puts x where sort.Strings would. */
  method InsertSorted(s: seq<string>, x: string) returns (r: seq<string>)
    requires Ascending(s) && x !in s
    ensures Ascending(r) && forall c :: c in r <==> c in s || c == x
  {
    var i := 0;
    while i < |s| && Less(s[i], x)
      invariant 0 <= i <= |s|
      invariant forall j :: 0 <= j < i ==> Less(s[j], x)
    {
      i := i + 1;
    }
    r := s[..i] + [x] + s[i..];
    forall j | i <= j < |s| ensures Less(x, s[j]) {
      LessIsTotal(s[i], x);
      if j > i { LessIsTransitive(x, s[i], s[j]); }
    }
    InsertedMembers(s, i, x);
  }

  method Categories(pages: Pages) returns (cats: seq<string>)
    ensures IsCategories(pages, cats)
  {
    cats := [];
    var left := pages.Keys;
    while left != {}
      invariant left <= pages.Keys
      invariant Ascending(cats) && forall c :: c in cats <==> c in pages.Keys - left
    {
      var cat :| cat in left;
      left := left - {cat};
      cats := InsertSorted(cats, cat);
    }
  }

  // ---- the loops of ruleset.go

  lemma LowersOneMore(kws: seq<string>, kw: string)
    ensures Lowers(kws + [kw]) == Lowers(kws) + {ToLower(kw)}
  {
    var after := kws + [kw];
    assert after[|kws|] == kw;
    forall k | k in Lowers(kws) ensures k in Lowers(after) {
      var i :| 0 <= i < |kws| && ToLower(kws[i]) == k;
      assert after[i] == kws[i];
    }
  }

  /** The loop that WithExtra, mergedKeyPages and Keywords share. */
  method AppendNew(have: seq<string>, more: seq<string>) returns (out: seq<string>)
    ensures out == Extend(have, more)
  {
    out := have;
    var seen := Lowers(have);
    for i := 0 to |more|
      invariant out == Extend(have, more[..i])
      invariant seen == Lowers(out)
    {
      var key := ToLower(more[i]);
      assert more[..i + 1][..i] == more[..i];
      if key in seen { continue; }
      LowersOneMore(out, more[i]);
      seen := seen + {key};
      out := out + [more[i]];
    }
    assert more[..|more|] == more;
  }

  lemma TrimmedOneMore(kws: seq<string>, i: nat)
    requires i < |kws|
    ensures var kw := TrimSpace(kws[i]);
            Cleaned(kws[..i + 1])
            == if kw == "" || ToLower(kw) in Lowers(Cleaned(kws[..i])) then Cleaned(kws[..i])
               else Cleaned(kws[..i]) + [kw]
  {
    assert kws[..i + 1][..i] == kws[..i];
    var t, kw := Trimmed(kws[..i]), TrimSpace(kws[i]);
    if kw == "" {
      assert Trimmed(kws[..i + 1]) == t;
    } else {
      assert (t + [kw])[..|t|] == t;
    }
  }

  method Clean(kws: seq<string>) returns (cleaned: seq<string>)
    ensures cleaned == Cleaned(kws)
  {
    cleaned := [];
    var seen: set<string> := {};
    for i := 0 to |kws|
      invariant cleaned == Cleaned(kws[..i])
      invariant seen == Lowers(cleaned)
    {
      var kw := TrimSpace(kws[i]);
      TrimmedOneMore(kws, i);
      if kw == "" { continue; }
      var key := ToLower(kw);
      if key in seen { continue; }
      LowersOneMore(cleaned, kw);
      seen := seen + {key};
      cleaned := cleaned + [kw];
    }
    assert kws[..|kws|] == kws;
  }

  /** normalizeExtra, in any order of the map. */
  method NormalizeExtra(extra: Pages) returns (out: Pages)
    ensures IsNormalized(extra, out)
  {
    out := map[];
    var left := extra.Keys;
    while left != {}
      invariant left <= extra.Keys
      invariant forall cat :: cat in out ==>
                  exists raw :: FeedsCategory(extra, raw, cat) && out[cat] == Cleaned(extra[raw])
      invariant forall raw :: raw in extra && raw !in left && FeedsCategory(extra, raw, CategoryOf(raw)) ==>
                  CategoryOf(raw) in out
    {
      var raw :| raw in left;
      left := left - {raw};
      var cat := CategoryOf(raw);
      if cat == "" { continue; }
      var cleaned := Clean(extra[raw]);
      if |cleaned| > 0 {
        assert FeedsCategory(extra, raw, cat);
        out := out[cat := cleaned];
      }
    }
  }

  lemma {:induction false} EverythingSpeaksAny(kws: seq<string>)
    ensures FilterByLang(kws, Any) == kws
  {
    if kws != [] { EverythingSpeaksAny(kws[..|kws| - 1]); }
  }

  method FilterKeywordsByLang(kws: seq<string>, lang: Lang) returns (out: seq<string>)
    ensures out == FilterByLang(kws, lang)
  {
    if lang == Any {
      EverythingSpeaksAny(kws);
      return kws;
    }
    out := [];
    for i := 0 to |kws|
      invariant out == FilterByLang(kws[..i], lang)
    {
      assert kws[..i + 1][..i] == kws[..i];
      var cjk := IsCjk(kws[i]);
      if lang == Zh && cjk {
        out := out + [kws[i]];
        continue;
      }
      if lang == En && !cjk { out := out + [kws[i]]; }
    }
    assert kws[..|kws|] == kws;
  }

  /** The second loop of mergedKeyPages and the one of WithExtra, in any order of the map. */
  method AddExtras(pages: Pages, extra: Pages) returns (out: Pages)
    ensures out == Merge(pages, extra)
  {
    out := pages;
    var left := extra.Keys;
    while left != {}
      invariant left <= extra.Keys
      invariant out.Keys == pages.Keys + (extra.Keys - left)
      invariant forall cat :: cat in out ==>
                  out[cat] == if cat in left then pages[cat] else Extend(PagesAt(pages, cat), PagesAt(extra, cat))
    {
      var cat :| cat in left;
      left := left - {cat};
      var kws := AppendNew(if cat in out then out[cat] else [], extra[cat]);
      out := out[cat := kws];
    }
  }

  method FilterPages(base: Pages, lang: Lang) returns (out: Pages)
    ensures out == Filtered(base, lang)
  {
    out := map[];
    var left := base.Keys;
    while left != {}
      invariant left <= base.Keys
      invariant out.Keys == base.Keys - left
      invariant forall cat :: cat in out ==> out[cat] == FilterByLang(base[cat], lang)
    {
      var cat :| cat in left;
      left := left - {cat};
      var kws := FilterKeywordsByLang(base[cat], lang);
      out := out[cat := kws];
    }
  }

  method MergePages(r: Rules) returns (out: Pages)
    ensures out == MergedKeyPages(r)
  {
    var base := FilterPages(r.base, r.lang);
    out := AddExtras(base, r.extra);
  }

  method WithExtra(r: Rules, extra: Pages) returns (s: Rules)
    ensures exists add :: IsNormalized(extra, add) && s == r.(extra := Merge(r.extra, add))
  {
    var add := NormalizeExtra(extra);
    if |add| == 0 {
      assert forall cat :: cat in r.extra ==> PagesAt(add, cat) == [];
      assert Merge(r.extra, add) == r.extra;
      return r;
    }
    var merged := AddExtras(r.extra, add);
    s := r.(extra := merged);
  }

  function Concat(pages: Pages, cats: seq<string>): seq<string>
    requires forall c :: c in cats ==> c in pages
  {
    if cats == [] then []
    else
      var n := |cats| - 1;
      Concat(pages, cats[..n]) + pages[cats[n]]
  }

  lemma {:induction false} ExtendTwice(have: seq<string>, a: seq<string>, b: seq<string>)
    ensures Extend(Extend(have, a), b) == Extend(have, a + b)
  {
    if b == [] {
      assert a + b == a;
    } else {
      var n := |b| - 1;
      ExtendTwice(have, a, b[..n]);
      assert (a + b)[..|a + b| - 1] == a + b[..n];
    }
  }

  /** The keywords of the categories in order, none of them twice. */
  function KeywordList(pages: Pages, cats: seq<string>): seq<string>
    requires forall c :: c in cats ==> c in pages
  {
    Extend([], Concat(pages, cats))
  }

  lemma NextCategory(pages: Pages, cats: seq<string>, i: nat)
    requires i < |cats| && forall c :: c in cats ==> c in pages
    ensures KeywordList(pages, cats[..i + 1]) == Extend(KeywordList(pages, cats[..i]), pages[cats[i]])
  {
    ExtendTwice([], Concat(pages, cats[..i]), pages[cats[i]]);
    assert cats[..i + 1][..i] == cats[..i];
  }

  method FlatKeywords(pages: Pages, cats: seq<string>) returns (out: seq<string>)
    requires forall c :: c in cats ==> c in pages
    ensures out == KeywordList(pages, cats)
  {
    out := [];
    for i := 0 to |cats|
      invariant out == KeywordList(pages, cats[..i])
    {
      NextCategory(pages, cats, i);
      out := AppendNew(out, pages[cats[i]]);
    }
    assert cats[..|cats|] == cats;
  }

  method Keywords(r: Rules) returns (out: seq<string>)
    ensures exists cats :: IsCategories(MergedKeyPages(r), cats) && out == KeywordList(MergedKeyPages(r), cats)
  {
    var pages := MergePages(r);
    var cats := Categories(pages);
    out := FlatKeywords(pages, cats);
  }

  function Pattern(kw: string): string { "%" + (ToLower(kw) + "%") }

  function PatternsOf(kws: seq<string>): seq<string> {
    seq(|kws|, i requires 0 <= i < |kws| => Pattern(kws[i]))
  }

  method PatternsFor(kws: seq<string>) returns (patterns: seq<string>)
    ensures patterns == PatternsOf(kws)
  {
    patterns := [];
    for i := 0 to |kws|
      invariant |patterns| == i
      invariant forall j :: 0 <= j < i ==> patterns[j] == Pattern(kws[j])
    {
      patterns := patterns + [Pattern(kws[i])];
    }
  }

  /** One LIKE pattern per keyword. */
  method Patterns(r: Rules) returns (patterns: seq<string>)
    ensures exists cats :: IsCategories(MergedKeyPages(r), cats)
                           && patterns == PatternsOf(KeywordList(MergedKeyPages(r), cats))
  {
    var kws := Keywords(r);
    patterns := PatternsFor(kws);
  }

  predicate KeywordHits(lower: string, kw: string) { kw != "" && Contains(lower, ToLower(kw)) }

  predicate AnyHits(lower: string, kws: seq<string>) {
    exists i | 0 <= i < |kws| :: KeywordHits(lower, kws[i])
  }

  predicate CategoryHits(pages: Pages, lower: string, cat: string) {
    cat in pages && AnyHits(lower, pages[cat])
  }

  method FindKeyword(lower: string, kws: seq<string>) returns (hit: bool)
    ensures hit == AnyHits(lower, kws)
  {
    for k := 0 to |kws|
      invariant forall j :: 0 <= j < k ==> !KeywordHits(lower, kws[j])
    {
      if kws[k] == "" { continue; }
      if Contains(lower, ToLower(kws[k])) {
        assert KeywordHits(lower, kws[k]);
        return true;
      }
    }
    return false;
  }

  ghost predicate IsFirstHit(pages: Pages, lower: string, cat: string) {
    CategoryHits(pages, lower, cat) && forall c :: CategoryHits(pages, lower, c) ==> c == cat || Less(cat, c)
  }

  ghost predicate NoHit(pages: Pages, lower: string) { forall c :: !CategoryHits(pages, lower, c) }

  /** What MatchCategory answers: the first category in sorted order with a keyword in the title. */
  ghost predicate IsMatch(pages: Pages, title: string, cat: string) {
    if TrimSpace(title) == "" || NoHit(pages, ToLower(title)) then cat == ""
    else IsFirstHit(pages, ToLower(title), cat)
  }

  lemma FirstOfSorted(pages: Pages, lower: string, cats: seq<string>, i: nat)
    requires IsCategories(pages, cats) && i < |cats| && CategoryHits(pages, lower, cats[i])
    requires forall j :: 0 <= j < i ==> !CategoryHits(pages, lower, cats[j])
    ensures IsFirstHit(pages, lower, cats[i])
  {
    forall c | CategoryHits(pages, lower, c) ensures c == cats[i] || Less(cats[i], c) {
      assert c in cats;
      var j :| 0 <= j < |cats| && cats[j] == c;
    }
  }

  method FindCategory(pages: Pages, lower: string) returns (cat: string)
    ensures if NoHit(pages, lower) then cat == "" else IsFirstHit(pages, lower, cat)
  {
    var cats := Categories(pages);
    for i := 0 to |cats|
      invariant forall j :: 0 <= j < i ==> !CategoryHits(pages, lower, cats[j])
    {
      var hit := FindKeyword(lower, pages[cats[i]]);
      if hit {
        FirstOfSorted(pages, lower, cats, i);
        return cats[i];
      }
    }
    forall c ensures !CategoryHits(pages, lower, c) {
      if c in pages { assert c in cats; }
    }
    return "";
  }

  method MatchCategory(r: Rules, title: string) returns (cat: string)
    ensures IsMatch(MergedKeyPages(r), title, cat)
  {
    if TrimSpace(title) == "" { return ""; }
    var pages := MergePages(r);
    cat := FindCategory(pages, ToLower(title));
  }

  /** Does the title hold a keyword of some category? */
  ghost predicate HoldsKeyword(r: Rules, title: string) {
    TrimSpace(title) != "" && !NoHit(MergedKeyPages(r), ToLower(title))
  }

  /** Exact for rules whose categories all have names, as the built-in and the normalized ones do. */
  method IsKeyPage(r: Rules, title: string) returns (b: bool)
    ensures b ==> HoldsKeyword(r, title)
    ensures "" !in MergedKeyPages(r) ==> b == HoldsKeyword(r, title)
  {
    var cat := MatchCategory(r, title);
    b := cat != "";
  }
}
