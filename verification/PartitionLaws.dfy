/** What the monthly partitions guarantee: a place for every new row, and no row lost too early. */
module PartitionLaws {
  import opened GoStrings
  import opened Months
  import opened Partitions

  /** The last whole number of days that fits a time.Duration. */
  const LONGEST_RETENTION: int := 106751

  // ---- which names are judged

  ghost predicate AreDigits(s: string) { s != [] && AllDigits(s) }

  /** Decimal digits behind a sign or none. */
  ghost predicate IsSigned(u: string, value: int) {
    && u != []
    && (u[0] == '-' ==> AreDigits(u[1..]) && value == -(DecimalValue(u[1..]) as int))
    && (u[0] == '+' ==> AreDigits(u[1..]) && value == DecimalValue(u[1..]))
    && (u[0] != '-' && u[0] != '+' ==> AreDigits(u) && value == DecimalValue(u))
  }

  /** White space, a sign or none, and decimal digits. */
  ghost predicate IsNumber(t: string, value: int) {
    exists k :: 0 <= k <= |t| && AllSpace(t[..k]) && IsSigned(t[k..], value)
  }

  predicate NoDigitFirst(rest: string) { rest == [] || !IsDigit(rest[0]) }

  lemma {:induction false} TrimLeftDropsSpace(blank: string, t: string)
    requires AllSpace(blank) && t != [] && !IsSpace(t[0])
    ensures TrimLeft(blank + t) == t
  {
    if blank == [] {
      assert blank + t == t;
    } else {
      assert (blank + t)[1..] == blank[1..] + t;
      TrimLeftDropsSpace(blank[1..], t);
    }
  }

  lemma Behind(a: string, b: string)
    ensures a <= a + b && (a + b)[|a|..] == b && (a + b)[..|a|] == a
  {}

  lemma DigitsAreCounted(digits: string, rest: string)
    requires AreDigits(digits) && NoDigitFirst(rest)
    ensures CountDigits(digits + rest) == |digits|
    ensures (digits + rest)[..|digits|] == digits && (digits + rest)[|digits|..] == rest
  {
    CountThrough(digits, rest);
    Behind(digits, rest);
  }

  lemma SignedStart(u: string, value: int, rest: string)
    requires IsSigned(u, value)
    ensures !IsSpace(u[0]) && TrimLeft(u + rest) == u + rest
  {
    if u[0] != '-' && u[0] != '+' { assert u[0] in u; }
    assert (u + rest)[0] == u[0];
  }

  lemma FirstAndRest(u: string, rest: string)
    requires u != []
    ensures (u + rest)[0] == u[0] && (u + rest)[1..] == u[1..] + rest
  {}

  lemma SignedIsScanned(u: string, value: int, rest: string)
    requires IsSigned(u, value) && NoDigitFirst(rest)
    ensures ScanInt(u + rest) == Scanned(value, rest)
  {
    SignedStart(u, value, rest);
    FirstAndRest(u, rest);
    if u[0] == '-' || u[0] == '+' {
      DigitsAreCounted(u[1..], rest);
    } else {
      DigitsAreCounted(u, rest);
    }
  }

  lemma ScanIgnoresSpace(s: string)
    ensures TrimLeft(TrimLeft(s)) == TrimLeft(s) ==> ScanInt(TrimLeft(s)) == ScanInt(s)
  {}

  lemma SpacedIsScanned(blank: string, u: string, value: int, rest: string)
    requires AllSpace(blank) && IsSigned(u, value) && NoDigitFirst(rest)
    ensures ScanInt(blank + (u + rest)) == Scanned(value, rest)
  {
    SignedIsScanned(u, value, rest);
    SignedStart(u, value, rest);
    assert (u + rest)[0] == u[0];
    TrimLeftDropsSpace(blank, u + rest);
    ScanIgnoresSpace(blank + (u + rest));
  }

  lemma SplitInFront(t: string, k: nat, rest: string)
    requires k <= |t|
    ensures t + rest == t[..k] + (t[k..] + rest)
  {}

  lemma NumberIsScanned(t: string, value: int, rest: string)
    requires IsNumber(t, value) && NoDigitFirst(rest)
    ensures ScanInt(t + rest) == Scanned(value, rest)
  {
    var k: nat :| k <= |t| && AllSpace(t[..k]) && IsSigned(t[k..], value);
    SplitInFront(t, k, rest);
    SpacedIsScanned(t[..k], t[k..], value, rest);
  }

  lemma ScannedIsSigned(u: string) returns (n: nat)
    requires TrimLeft(u) == u && ScanInt(u).Scanned?
    ensures n <= |u| && IsSigned(u[..n], ScanInt(u).value) && u[n..] == ScanInt(u).rest && NoDigitFirst(u[n..])
  {
    if u[0] == '-' || u[0] == '+' {
      n := 1 + CountDigits(u[1..]);
      assert u[..n][1..] == u[1..][..n - 1] && u[n..] == u[1..][n - 1..];
    } else {
      n := CountDigits(u);
    }
  }

  lemma {:induction false} TrimmedTwice(s: string)
    ensures TrimLeft(TrimLeft(s)) == TrimLeft(s)
  {
    if s != [] && IsSpace(s[0]) { TrimmedTwice(s[1..]); }
  }

  lemma SpacedIsNumber(s: string, k: nat, n: nat, value: int)
    requires k <= |s| && AllSpace(s[..k]) && n <= |s[k..]| && IsSigned(s[k..][..n], value)
    ensures IsNumber(s[..k + n], value)
  {
    assert s[..k + n][..k] == s[..k] && s[..k + n][k..] == s[k..][..n];
  }

  lemma SuffixOfSuffix(s: string, k: nat, n: nat)
    requires k + n <= |s|
    ensures s[k..][n..] == s[k + n..]
  {}

  lemma TrimmedIsScanned(s: string, k: nat) returns (n: nat)
    requires k <= |s| && TrimLeft(s) == s[k..] && ScanInt(s).Scanned?
    ensures n <= |s| - k && IsSigned(s[k..][..n], ScanInt(s).value)
    ensures s[k..][n..] == ScanInt(s).rest && NoDigitFirst(s[k..][n..])
  {
    TrimmedTwice(s);
    ScanIgnoresSpace(s);
    n := ScannedIsSigned(s[k..]);
  }

  lemma ScannedIsNumber(s: string) returns (n: nat)
    requires ScanInt(s).Scanned?
    ensures n <= |s| && IsNumber(s[..n], ScanInt(s).value) && s[n..] == ScanInt(s).rest && NoDigitFirst(s[n..])
  {
    var k := TrimLeftIsSuffix(s);
    n := TrimmedIsScanned(s, k);
    SpacedIsNumber(s, k, n, ScanInt(s).value);
    SuffixOfSuffix(s, k, n);
    n := k + n;
  }

  /** The year is in front of place i, which holds the m, and the month between there and n. */
  ghost predicate Reads(suffix: string, i: nat, n: nat, year: int, month: int)
    requires i < n <= |suffix|
  {
    && IsNumber(suffix[..i], year) && suffix[i] == 'm' && IsNumber(suffix[i + 1..n], month)
    && 1 <= month <= 12 && NoDigitFirst(suffix[n..])
  }

  /** A year, an m and a month, with anything behind them that does not go on the month. */
  ghost predicate TellsMonth(suffix: string, year: int, month: int) {
    exists i, n :: 0 <= i < n <= |suffix| && Reads(suffix, i, n, year, month)
  }

  lemma BoundOfScans(suffix: string, year: Scan, month: Scan)
    requires ScanInt(suffix) == year && year.Scanned? && year.rest != [] && year.rest[0] == 'm'
    requires ScanInt(year.rest[1..]) == month && month.Scanned? && 1 <= month.value <= 12
    ensures ParseSuffix(suffix) == Bound(12 * year.value + month.value)
  {}

  lemma AroundLetter(suffix: string, i: nat, n: nat)
    requires i < n <= |suffix|
    ensures suffix[..i] + suffix[i..] == suffix && suffix[i..][0] == suffix[i]
    ensures suffix[i..][1..] == suffix[i + 1..n] + suffix[n..]
  {}

  lemma ReadIsParsed(suffix: string, i: nat, n: nat, year: int, month: int)
    requires i < n <= |suffix| && Reads(suffix, i, n, year, month)
    ensures ParseSuffix(suffix) == Bound(12 * year + month)
  {
    AroundLetter(suffix, i, n);
    NumberIsScanned(suffix[..i], year, suffix[i..]);
    NumberIsScanned(suffix[i + 1..n], month, suffix[n..]);
    BoundOfScans(suffix, Scanned(year, suffix[i..]), Scanned(month, suffix[n..]));
  }

  lemma ScansOfBound(suffix: string)
    requires ParseSuffix(suffix).Bound?
    ensures var year := ScanInt(suffix);
            && year.Scanned? && year.rest != [] && year.rest[0] == 'm'
            && (var month := ScanInt(year.rest[1..]);
                && month.Scanned? && 1 <= month.value <= 12
                && ParseSuffix(suffix) == Bound(12 * year.value + month.value))
  {}

  lemma ScansAreRead(suffix: string, i: nat, tail: string, k: nat, year: int, month: int)
    requires i < |suffix| && tail == suffix[i + 1..] && k <= |tail| && suffix[i] == 'm'
    requires IsNumber(suffix[..i], year) && IsNumber(tail[..k], month) && NoDigitFirst(tail[k..]) && 1 <= month <= 12
    ensures TellsMonth(suffix, year, month)
  {
    var n := i + 1 + k;
    assert tail[..k] == suffix[i + 1..n] && tail[k..] == suffix[n..];
    assert Reads(suffix, i, n, year, month);
  }

  lemma LetterIsNext(suffix: string, i: nat, rest: string)
    requires i <= |suffix| && suffix[i..] == rest != []
    ensures i < |suffix| && suffix[i] == rest[0] && suffix[i + 1..] == rest[1..]
  {}

  lemma ParsedIsRead(suffix: string) returns (year: int, month: int)
    requires ParseSuffix(suffix).Bound?
    ensures TellsMonth(suffix, year, month) && ParseSuffix(suffix) == Bound(12 * year + month)
  {
    ScansOfBound(suffix);
    var first := ScanInt(suffix);
    var tail := first.rest[1..];
    year, month := first.value, ScanInt(tail).value;
    var i := ScannedIsNumber(suffix);
    LetterIsNext(suffix, i, first.rest);
    var k := ScannedIsNumber(tail);
    ScansAreRead(suffix, i, tail, k, year, month);
  }

  lemma ReadHoldsLetter(table: string, name: string, year: int, month: int)
    requires table + "_y" <= name && TellsMonth(name[|table| + 2..], year, month)
    ensures 'm' in name
  {
    var suffix := name[|table| + 2..];
    var i, n :| 0 <= i < n <= |suffix| && Reads(suffix, i, n, year, month);
    assert name[|table| + 2 + i] == 'm';
  }

  ghost predicate TellsBound(suffix: string, bound: int) {
    exists year, month :: TellsMonth(suffix, year, month) && bound == 12 * year + month
  }

  lemma ToldIsParsed(suffix: string, bound: int)
    requires TellsBound(suffix, bound)
    ensures ParseSuffix(suffix) == Bound(bound)
  {
    var year, month :| TellsMonth(suffix, year, month) && bound == 12 * year + month;
    var i, n :| 0 <= i < n <= |suffix| && Reads(suffix, i, n, year, month);
    ReadIsParsed(suffix, i, n, year, month);
  }

  lemma ParsedIsTold(suffix: string, bound: int)
    requires ParseSuffix(suffix) == Bound(bound)
    ensures TellsBound(suffix, bound)
  {
    var year, month := ParsedIsRead(suffix);
  }

  lemma ToldHoldsLetter(table: string, name: string, bound: int)
    requires table + "_y" <= name && TellsBound(name[|table| + 2..], bound)
    ensures 'm' in name
  {
    var year, month :| TellsMonth(name[|table| + 2..], year, month) && bound == 12 * year + month;
    ReadHoldsLetter(table, name, year, month);
  }

  /** The names that are judged, and the bound each of them stands for: signs, white space and anything behind
      the month are let pass. */
  lemma ParsesExactly(table: string, name: string, bound: int)
    ensures ParseUpperBound(table, name) == Bound(bound)
            <==> table + "_y" <= name && TellsBound(name[|table| + 2..], bound)
  {
    if table + "_y" <= name {
      var suffix := name[|table| + 2..];
      assert name[|table + "_y"|..] == suffix;
      if TellsBound(suffix, bound) {
        ToldHoldsLetter(table, name, bound);
        ToldIsParsed(suffix, bound);
      } else if ParseSuffix(suffix) == Bound(bound) {
        ParsedIsTold(suffix, bound);
      }
    }
  }

  // ---- names and ranges

  /** A partition that has the name of a month covers that month. */
  ghost predicate NamesCover(t: Table) {
    forall k: nat :: PartitionName(t.name, k) in t.catalog ==> t.catalog[PartitionName(t.name, k)] == MonthRange(k)
  }

  /** Does the range end that long before the bound in the name? */
  predicate Truthful(table: string, name: string, r: Range, slack: int) {
    var b := ParseUpperBound(table, name);
    b.Bound? ==> r.to <= Start(b.month) - slack
  }

  /** No partition reaches past the bound that its name parses to. */
  ghost predicate Honest(t: Table) {
    forall n :: n in t.catalog ==> Truthful(t.name, n, t.catalog[n], 0)
  }

  lemma MonthlyIsTruthful(table: string, name: string, r: Range, k: int)
    requires IsMonthly(table, name, r, k)
    ensures ParseUpperBound(table, name) == Bound(k + 1) && Truthful(table, name, r, 0)
  {
    NameRoundTrip(table, k);
  }

  lemma ExtendsKeepsHonest(t: Table, u: Table, m: nat, e: int)
    requires Extends(t, u, m, e) && Honest(t)
    ensures Honest(u)
  {
    forall n | n in u.catalog ensures Truthful(u.name, n, u.catalog[n], 0) {
      if n !in t.catalog {
        var k :| IsMonthly(t.name, n, u.catalog[n], k) && m <= k <= e;
        MonthlyIsTruthful(t.name, n, u.catalog[n], k);
      }
    }
  }

  lemma ExtendsKeepsNamesCover(t: Table, u: Table, m: nat, e: int)
    requires Extends(t, u, m, e) && NamesCover(t)
    ensures NamesCover(u)
  {
    forall k: nat | PartitionName(u.name, k) in u.catalog
      ensures u.catalog[PartitionName(u.name, k)] == MonthRange(k)
    {
      var n := PartitionName(u.name, k);
      if n !in t.catalog {
        var j :| IsMonthly(t.name, n, u.catalog[n], j) && m <= j <= e;
        NameRoundTrip(t.name, j);
        NameRoundTrip(t.name, k);
      }
    }
  }

  // ---- the retention as a duration

  /** By how much the wrapped duration falls short of the retention. */
  function Slip(days: int): int { Shift(days) + days * DAY }

  /** Nothing is lost exactly up to 106751 days; past them, at least 2 to the 64 nanoseconds are. */
  lemma SlipIsZeroExactly(days: int)
    requires days > 0
    ensures days <= LONGEST_RETENTION ==> Slip(days) == 0
    ensures days > LONGEST_RETENTION ==> Slip(days) >= TWO_TO_64
  {
    if days > LONGEST_RETENTION {
      var x := -days * DAY + TWO_TO_63;
      assert x < 0;
      assert Shift(days) == x % TWO_TO_64 - TWO_TO_63;
      assert x == TWO_TO_64 * (x / TWO_TO_64) + x % TWO_TO_64 && x / TWO_TO_64 <= -1;
    }
  }

  lemma PastIsBeforeCutoff(bound: int, now: Time, days: int)
    ensures IsPast(bound, now, days) <==> Start(bound) <= now + Shift(days)
  {
    var c := now + Shift(days);
    StartsAscend(bound, MonthOf(c));
    StartsAscend(MonthOf(c) + 1, bound);
    StartsAscend(MonthOf(c), bound);
  }

  lemma ShortIsPast(bound: int, now: Time, days: int)
    requires 0 < days <= LONGEST_RETENTION
    ensures IsPast(bound, now, days) <==> Start(bound) <= now - days * DAY
  {
    SlipIsZeroExactly(days);
    PastIsBeforeCutoff(bound, now, days);
  }

  // ---- the promise

  /** The retention promise: no row of a partition that expires now is younger than so many days. */
  ghost predicate KeepsPromise(t: Table, days: int) {
    forall n, now, row :: n in t.catalog && Expires(t.name, n, now, days) && InRange(row, t.catalog[n])
      ==> row < now - days * DAY
  }

  ghost predicate TruthfulBy(t: Table, slack: int) {
    forall n :: n in t.catalog ==> Truthful(t.name, n, t.catalog[n], slack)
  }

  lemma TruthfulKeepsRow(table: string, n: string, r: Range, now: Time, days: int, row: Time)
    requires Truthful(table, n, r, Slip(days)) && Expires(table, n, now, days) && InRange(row, r)
    ensures row < now - days * DAY
  {
    PastIsBeforeCutoff(ParseUpperBound(table, n).month, now, days);
  }

  /** The last row of a partition whose name understates its range, as soon as the partition expires. */
  lemma UntruthfulLosesRow(table: string, n: string, r: Range, days: int) returns (now: Time, row: Time)
    requires !Truthful(table, n, r, Slip(days)) && r.from < r.to
    ensures Expires(table, n, now, days) && InRange(row, r) && row >= now - days * DAY
  {
    var bound := ParseUpperBound(table, n).month;
    now, row := Start(bound) - Shift(days), r.to - 1;
    PastIsBeforeCutoff(bound, now, days);
  }

  /** A table never loses a row within its retention if and only if no partition reaches past the bound in
      its name, less what the 64-bit duration has lost. */
  lemma PromiseHoldsExactly(t: Table, days: int)
    requires forall n :: n in t.catalog ==> t.catalog[n].from < t.catalog[n].to
    ensures KeepsPromise(t, days) <==> TruthfulBy(t, Slip(days))
  {
    if TruthfulBy(t, Slip(days)) {
      forall n, now, row | n in t.catalog && Expires(t.name, n, now, days) && InRange(row, t.catalog[n])
        ensures row < now - days * DAY
      {
        TruthfulKeepsRow(t.name, n, t.catalog[n], now, days, row);
      }
    } else {
      var n :| n in t.catalog && !Truthful(t.name, n, t.catalog[n], Slip(days));
      var now, row := UntruthfulLosesRow(t.name, n, t.catalog[n], days);
    }
  }

  /** All partitions are of months, with their names. */
  ghost predicate Canonical(t: Table) {
    forall n :: n in t.catalog ==> exists k :: IsMonthly(t.name, n, t.catalog[n], k)
  }

  /** For a table of monthly partitions the promise holds exactly for retentions of at most 106751 days. */
  lemma MonthlyPromiseHoldsExactly(t: Table, days: int)
    requires Canonical(t) && t.catalog != map[] && days > 0
    ensures KeepsPromise(t, days) <==> days <= LONGEST_RETENTION
  {
    forall n | n in t.catalog
      ensures t.catalog[n].from < t.catalog[n].to
      ensures Truthful(t.name, n, t.catalog[n], Slip(days)) <==> Slip(days) <= 0
    {
      var k :| IsMonthly(t.name, n, t.catalog[n], k);
      NextMonth(k);
      MonthlyIsTruthful(t.name, n, t.catalog[n], k);
    }
    PromiseHoldsExactly(t, days);
    SlipIsZeroExactly(days);
    var n :| n in t.catalog;
    assert TruthfulBy(t, Slip(days)) <==> Slip(days) <= 0;
  }

  /** A month's partition expires when its last instant is more than the retention ago, to the nanosecond. */
  lemma ExpiresExactly(table: string, name: string, r: Range, k: int, now: Time, days: int)
    requires IsMonthly(table, name, r, k) && 0 < days <= 106751
    ensures Expires(table, name, now, days) <==>
            forall row :: InRange(row, r) ==> row < now - days * (24 * 3_600_000_000_000)
  {
    NameRoundTrip(table, k);
    ShortIsPast(k + 1, now, days);
    NextMonth(k);
    assert InRange(r.to - 1, r);
  }

  // ---- a place for coming rows

  /** The partition an instant falls into. */
  ghost predicate Holds(t: Table, name: string, x: Time) { name in t.catalog && InRange(x, t.catalog[name]) }

  ghost predicate Covered(t: Table, x: Time) { exists n :: Holds(t, n, x) }

  ghost predicate InExactlyOne(t: Table, x: Time) {
    Covered(t, x) && forall m, n :: Holds(t, m, x) && Holds(t, n, x) ==> m == n
  }

  lemma OneIfNamed(t: Table, x: Time)
    requires Disjoint(t) && NamesCover(t) && MonthOf(x) >= 0 && PartitionName(t.name, MonthOf(x)) in t.catalog
    ensures InExactlyOne(t, x)
  {
    assert Holds(t, PartitionName(t.name, MonthOf(x)), x);
  }

  lemma DropKeepsPlaces(t: Table, u: Table, gone: set<string>)
    requires Without(t, u, gone)
    ensures Disjoint(t) ==> Disjoint(u)
    ensures NamesCover(t) ==> NamesCover(u)
    ensures Honest(t) ==> Honest(u)
  {
    forall n | n in u.catalog ensures n in t.catalog && u.catalog[n] == t.catalog[n] {}
  }

  lemma PresentIsNotPast(k: int, now: Time, days: int)
    requires 0 < days <= LONGEST_RETENTION && k >= MonthOf(now)
    ensures !IsPast(k + 1, now, days)
  {
    ShortIsPast(k + 1, now, days);
    StartsAscend(MonthOf(now) + 1, k + 1);
  }

  lemma PresentIsNotExpired(table: string, k: nat, now: Time, days: int)
    requires 0 < days <= LONGEST_RETENTION && k >= MonthOf(now)
    ensures !Expires(table, PartitionName(table, k), now, days)
  {
    NameRoundTrip(table, k);
    PresentIsNotPast(k, now, days);
  }

  lemma DropSparesPresent(mid: Table, u: Table, now: Time, days: int, gone: set<string>, ok: bool, k: nat)
    requires Dropped(mid, u, now, days, gone, ok) && days <= LONGEST_RETENTION
    requires PartitionName(mid.name, k) in mid.catalog && k >= MonthOf(now)
    ensures PartitionName(mid.name, k) in u.catalog
  {
    if days > 0 { PresentIsNotExpired(mid.name, k, now, days); }
  }

  lemma CleanedCovers(mid: Table, u: Table, days: int, r: Round, gone: set<string>, x: Time)
    requires NamesCover(mid) && Disjoint(mid) && days <= LONGEST_RETENTION
    requires Dropped(mid, u, r.dropAt, days, gone, true)
    requires MonthOf(r.ensureAt) >= 0
    requires NamesThere(mid, MonthOf(r.ensureAt), MonthOf(AddMonths(r.started, LOOKAHEAD_MONTHS)))
    requires r.ensureAt <= r.dropAt <= x < Start(MonthOf(r.started) + LOOKAHEAD_MONTHS + 1)
    ensures InExactlyOne(u, x)
  {
    AddMonthsLands(r.started, LOOKAHEAD_MONTHS);
    StartsAscend(MonthOf(x), MonthOf(r.started) + LOOKAHEAD_MONTHS + 1);
    MonthOfIsMonotone(r.ensureAt, x);
    MonthOfIsMonotone(r.dropAt, x);
    DropSparesPresent(mid, u, r.dropAt, days, gone, true, MonthOf(x));
    DropKeepsPlaces(mid, u, gone);
    OneIfNamed(u, x);
  }

  /** After a round without failures every instant from then to the end of the second month ahead lies
      in exactly one partition, unless a partition bears a month's name and covers something else. */
  lemma RoundCoversComingMonths(t: Table, u: Table, days: int, r: Round, x: Time)
    requires Cleaned(t, u, days, r, true) && NamesCover(t) && Disjoint(t) && days <= LONGEST_RETENTION
    requires r.ensureAt <= r.dropAt <= x < Start(MonthOf(r.started) + 3)
    ensures InExactlyOne(u, x)
  {
    var mid, gone, ensured, dropped :|
      Provided(t, mid, r, ensured) && Dropped(mid, u, r.dropAt, days, gone, dropped) && (true <==> ensured && dropped);
    ExtendsKeepsNamesCover(t, mid, MonthOf(r.ensureAt), MonthOf(AddMonths(r.started, LOOKAHEAD_MONTHS)));
    CleanedCovers(mid, u, days, r, gone, x);
  }

  /** What the other results ask of a table's catalog is kept by every round, failing or not. */
  lemma RoundKeepsCatalog(t: Table, u: Table, days: int, r: Round, ok: bool)
    requires Cleaned(t, u, days, r, ok)
    ensures Disjoint(t) ==> Disjoint(u)
    ensures NamesCover(t) ==> NamesCover(u)
    ensures Honest(t) ==> Honest(u)
  {
    var mid, gone, ensured, dropped :|
      Provided(t, mid, r, ensured) && Dropped(mid, u, r.dropAt, days, gone, dropped) && (ok <==> ensured && dropped);
    var m, e := MonthOf(r.ensureAt), MonthOf(AddMonths(r.started, LOOKAHEAD_MONTHS));
    if NamesCover(t) { ExtendsKeepsNamesCover(t, mid, m, e); }
    if Honest(t) { ExtendsKeepsHonest(t, mid, m, e); }
    DropKeepsPlaces(mid, u, gone);
  }

  // ---- a round without faults

  lemma MonthsAreApart(j: nat, k: nat)
    requires j != k
    ensures !Overlap(MonthRange(j), MonthRange(k))
  {
    StartsAscend(j + 1, k);
    StartsAscend(k + 1, j);
  }

  lemma MonthsAreNotRefused(t: Table, k: nat)
    requires Canonical(t)
    ensures !Refused(t, k)
  {
    if PartitionName(t.name, k) !in t.catalog {
      forall n | n in t.catalog.Keys ensures !Overlap(t.catalog[n], MonthRange(k)) {
        var j :| IsMonthly(t.name, n, t.catalog[n], j);
        MonthsAreApart(j, k);
      }
    }
  }

  lemma ExtendsKeepsCanonical(t: Table, u: Table, m: nat, e: int)
    requires Extends(t, u, m, e) && Canonical(t)
    ensures Canonical(u)
  {
    forall n | n in u.catalog ensures exists k :: IsMonthly(u.name, n, u.catalog[n], k) {
      if n in t.catalog {
        var k :| IsMonthly(t.name, n, t.catalog[n], k);
        assert IsMonthly(u.name, n, u.catalog[n], k);
      } else {
        var k :| IsMonthly(t.name, n, u.catalog[n], k) && m <= k <= e;
        assert IsMonthly(u.name, n, u.catalog[n], k);
      }
    }
  }

  /** For a table of monthly partitions a round succeeds exactly when no statement of its own fails: none of the
      months is refused. */
  lemma RoundSucceedsExactly(t: Table, u: Table, days: int, r: Round, ok: bool)
    requires Cleaned(t, u, days, r, ok) && Canonical(t)
    ensures var m, e := MonthOf(r.ensureAt), MonthOf(AddMonths(r.started, LOOKAHEAD_MONTHS));
            exists mid ::
              && Extends(t, mid, m, e) && Canonical(mid)
              && (ok <==> NoneFails(r.noCreate, m, e) && !DropFails(mid, r.dropAt, days, r.unlisted, r.noDrop))
  {
    var m, e := MonthOf(r.ensureAt), MonthOf(AddMonths(r.started, LOOKAHEAD_MONTHS));
    var mid, gone, ensured, dropped :|
      && Provided(t, mid, r, ensured) && Dropped(mid, u, r.dropAt, days, gone, dropped)
      && (!dropped <==> DropFails(mid, r.dropAt, days, r.unlisted, r.noDrop)) && (ok <==> ensured && dropped);
    ExtendsKeepsCanonical(t, mid, m, e);
    if !ensured {
      var k: nat :| StopsAt(t, mid, m, e, r.noCreate, k);
      MonthsAreNotRefused(mid, k);
      assert !NoneFails(r.noCreate, m, e);
    }
  }

  // ---- rows

  function CountIn(rows: seq<Time>, r: Time): nat {
    if rows == [] then 0 else CountIn(rows[..|rows| - 1], r) + if rows[|rows| - 1] == r then 1 else 0
  }

  lemma CountOneMore(rows: seq<Time>, x: Time, r: Time)
    ensures CountIn(rows + [x], r) == CountIn(rows, r) + if x == r then 1 else 0
  {
    assert (rows + [x])[..|rows|] == rows;
  }

  lemma {:induction false} CountedIsThere(rows: seq<Time>, r: Time)
    ensures CountIn(rows, r) == 0 <==> r !in rows
  {
    if rows != [] {
      CountedIsThere(rows[..|rows| - 1], r);
      assert rows == rows[..|rows| - 1] + [rows[|rows| - 1]];
    }
  }

  lemma {:induction false} CountOutside(rows: seq<Time>, gone: set<Range>, r: Time)
    ensures CountIn(RowsOutside(rows, gone), r) == if InSome(r, gone) then 0 else CountIn(rows, r)
  {
    if rows != [] {
      var n := |rows| - 1;
      var kept := RowsOutside(rows[..n], gone);
      CountOutside(rows[..n], gone, r);
      if InSome(rows[n], gone) {
        assert kept + [] == kept;
      } else {
        CountOneMore(kept, rows[n], r);
      }
    }
  }

  lemma OldIsPast(now: Time, days: int, row: Time)
    requires 0 < days <= LONGEST_RETENTION && row <= now - days * DAY - 31 * DAY
    ensures IsPast(MonthOf(row) + 1, now, days)
  {
    NextMonth(MonthOf(row));
    ShortIsPast(MonthOf(row) + 1, now, days);
  }

  lemma OldIsExpired(table: string, now: Time, days: int, row: Time)
    requires 0 < days <= LONGEST_RETENTION && row <= now - days * DAY - 31 * DAY && MonthOf(row) >= 0
    ensures Expires(table, PartitionName(table, MonthOf(row)), now, days)
  {
    NameRoundTrip(table, MonthOf(row));
    OldIsPast(now, days, row);
  }

  /** Rows of a month that are 31 days past the retention period are gone after a round without failures. */
  lemma OldRowsGo(t: Table, u: Table, days: int, now: Time, gone: set<string>, name: string, row: Time)
    requires Dropped(t, u, now, days, gone, true) && 0 < days <= LONGEST_RETENTION
    requires name in t.catalog && IsMonthly(t.name, name, t.catalog[name], MonthOf(row))
    requires row <= now - days * DAY - 31 * DAY
    ensures row !in u.rows
  {
    OldIsExpired(t.name, now, days, row);
    assert t.catalog[name] in RangesOf(t, gone);
    CountOutside(t.rows, RangesOf(t, gone), row);
    CountedIsThere(u.rows, row);
  }

  // ---- runs

  datatype Op = Insert(at: Time) | Clean(round: Round)

  /** An insert needs a partition for its row; a round of the cleaner may fail at any statement. */
  ghost predicate Step(t: Table, u: Table, days: int, op: Op) {
    match op
    case Insert(at) => u == if Covered(t, at) then t.(rows := t.rows + [at]) else t
    case Clean(r) => exists ok :: Cleaned(t, u, days, r, ok)
  }

  ghost predicate StepAt(ts: seq<Table>, days: int, ops: seq<Op>, i: nat)
    requires i < |ops| == |ts| - 1
  {
    Step(ts[i], ts[i + 1], days, ops[i])
  }

  ghost predicate IsRun(ts: seq<Table>, days: int, ops: seq<Op>) {
    |ts| == |ops| + 1 && forall i :: 0 <= i < |ops| ==> StepAt(ts, days, ops, i)
  }

  /** A row created at r is within the retention period at this round. */
  predicate InTime(op: Op, days: int, r: Time) { op.Clean? ==> r >= op.round.dropAt - days * DAY }

  function CountAt(t: Table, r: Time): nat { CountIn(t.rows, r) }

  ghost predicate AllInTime(ops: seq<Op>, days: int, r: Time) { forall op :: op in ops ==> InTime(op, days, r) }

  /** How many rows created at r one operation adds. */
  ghost function Added(t: Table, op: Op, r: Time): nat { if op == Insert(r) && Covered(t, r) then 1 else 0 }

  /** How many rows created at r the first n operations add. */
  ghost function Inserted(ts: seq<Table>, ops: seq<Op>, n: nat, r: Time): nat
    requires n <= |ops| == |ts| - 1
  {
    if n == 0 then 0 else Inserted(ts, ops, n - 1, r) + Added(ts[n - 1], ops[n - 1], r)
  }

  lemma RecentIsOutside(table: string, n: string, range: Range, now: Time, days: int, r: Time)
    requires Truthful(table, n, range, 0) && Expires(table, n, now, days) && 0 < days <= LONGEST_RETENTION
    requires r >= now - days * DAY
    ensures !InRange(r, range)
  {
    ShortIsPast(ParseUpperBound(table, n).month, now, days);
  }

  lemma DropKeepsRecent(mid: Table, u: Table, days: int, now: Time, gone: set<string>, ok: bool, r: Time)
    requires Dropped(mid, u, now, days, gone, ok) && Honest(mid) && days <= LONGEST_RETENTION
    requires r >= now - days * DAY
    ensures CountAt(u, r) == CountAt(mid, r)
  {
    CountOutside(mid.rows, RangesOf(mid, gone), r);
    forall n | n in gone ensures !InRange(r, mid.catalog[n]) {
      RecentIsOutside(mid.name, n, mid.catalog[n], now, days, r);
    }
  }

  lemma CleanKeepsRecent(t: Table, u: Table, days: int, round: Round, ok: bool, r: Time)
    requires Cleaned(t, u, days, round, ok) && Honest(t) && days <= LONGEST_RETENTION
    requires r >= round.dropAt - days * DAY
    ensures CountAt(u, r) == CountAt(t, r)
  {
    var mid, gone, ensured, dropped :|
      Provided(t, mid, round, ensured) && Dropped(mid, u, round.dropAt, days, gone, dropped)
      && (ok <==> ensured && dropped);
    ExtendsKeepsHonest(t, mid, MonthOf(round.ensureAt), MonthOf(AddMonths(round.started, LOOKAHEAD_MONTHS)));
    DropKeepsRecent(mid, u, days, round.dropAt, gone, dropped, r);
  }

  lemma OneStepKeepsRecent(t: Table, u: Table, days: int, op: Op, r: Time)
    requires Step(t, u, days, op) && Honest(t) && days <= LONGEST_RETENTION
    requires InTime(op, days, r)
    ensures Honest(u)
    ensures CountAt(u, r) == CountAt(t, r) + Added(t, op, r)
  {
    if op.Clean? {
      var ok :| Cleaned(t, u, days, op.round, ok);
      RoundKeepsCatalog(t, u, days, op.round, ok);
      CleanKeepsRecent(t, u, days, op.round, ok, r);
    }
  }

  lemma StepOfRun(ts: seq<Table>, days: int, ops: seq<Op>, i: nat, r: Time)
    requires IsRun(ts, days, ops) && i < |ops| && InTime(ops[i], days, r) && days <= LONGEST_RETENTION
    requires Honest(ts[i])
    ensures Honest(ts[i + 1]) && CountAt(ts[i + 1], r) == CountAt(ts[i], r) + Added(ts[i], ops[i], r)
  {
    assert StepAt(ts, days, ops, i);
    OneStepKeepsRecent(ts[i], ts[i + 1], days, ops[i], r);
  }

  ghost predicate Kept(ts: seq<Table>, ops: seq<Op>, n: nat, r: Time)
    requires n <= |ops| == |ts| - 1
  {
    Honest(ts[n]) && CountAt(ts[n], r) == CountAt(ts[0], r) + Inserted(ts, ops, n, r)
  }

  lemma KeptAtFirst(ts: seq<Table>, ops: seq<Op>, r: Time)
    requires |ts| == |ops| + 1 && Honest(ts[0])
    ensures Kept(ts, ops, 0, r)
  {}

  lemma EarlierInTime(ops: seq<Op>, n: nat, days: int, r: Time)
    requires 0 < n <= |ops| && AllInTime(ops[..n], days, r)
    ensures AllInTime(ops[..n - 1], days, r) && InTime(ops[n - 1], days, r)
  {
    assert ops[..n] == ops[..n - 1] + [ops[n - 1]];
  }

  lemma OneMoreStep(ts: seq<Table>, days: int, ops: seq<Op>, n: nat, r: Time)
    requires IsRun(ts, days, ops) && n < |ops| && InTime(ops[n], days, r) && days <= LONGEST_RETENTION
    requires Kept(ts, ops, n, r)
    ensures Kept(ts, ops, n + 1, r)
  {
    StepOfRun(ts, days, ops, n, r);
  }

  lemma {:induction false} KeptThroughout(ts: seq<Table>, days: int, ops: seq<Op>, n: nat, r: Time)
    requires IsRun(ts, days, ops) && n <= |ops| && days <= LONGEST_RETENTION && Honest(ts[0])
    requires AllInTime(ops[..n], days, r)
    ensures Kept(ts, ops, n, r)
    decreases n
  {
    if n == 0 {
      KeptAtFirst(ts, ops, r);
    } else {
      EarlierInTime(ops, n, days, r);
      KeptThroughout(ts, days, ops, n - 1, r);
      OneMoreStep(ts, days, ops, n - 1, r);
    }
  }

  /** Over any run of inserts and rounds, failing or not, rows that never were older than the retention
      period at a round are all still there: none is lost and none doubled. */
  lemma RecentRowsAreKept(ts: seq<Table>, days: int, ops: seq<Op>, r: Time)
    requires IsRun(ts, days, ops) && days <= LONGEST_RETENTION && Honest(ts[0])
    requires AllInTime(ops, days, r)
    ensures CountAt(ts[|ops|], r) == CountAt(ts[0], r) + Inserted(ts, ops, |ops|, r)
  {
    assert ops[..|ops|] == ops;
    KeptThroughout(ts, days, ops, |ops|, r);
  }
}
