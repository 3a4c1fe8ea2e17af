/** Monthly partitions of the event tables: analytics/partition.go and analytics/retention.go:63-95. */
module Partitions {
  import opened GoStrings
  import opened Months

  const LOOKAHEAD_MONTHS := 2
  const TWO_TO_63: int := 0x8000_0000_0000_0000
  const TWO_TO_64: int := 0x1_0000_0000_0000_0000

  /** The instants from one bound up to the other. */
  datatype Range = Range(from: Time, to: Time)

  /** The catalog, each partition by name with the range it covers, and the creation times of the rows. */
  datatype Table = Table(name: string, catalog: map<string, Range>, rows: seq<Time>)

  predicate InRange(x: Time, r: Range) { r.from <= x < r.to }

  predicate Overlap(a: Range, b: Range) { a.from < b.to && b.from < a.to }

  function MonthRange(k: int): Range { Range(Start(k), Start(k + 1)) }

  // ---- names

  function Zeros(n: nat): (s: string)
    ensures |s| == n && forall i :: 0 <= i < n ==> s[i] == '0'
  {
    if n == 0 then [] else Zeros(n - 1) + "0"
  }

  /** %0wd of a natural number */
  function Padded(n: nat, w: nat): string {
    var d := Decimal(n);
    Zeros(if |d| < w then w - |d| else 0) + d
  }

  function MonthSuffix(k: nat): string { Padded(k / 12, 4) + ("m" + Padded(k % 12 + 1, 2)) }

  /** partitionName */
  function PartitionName(table: string, k: nat): string { (table + "_y") + MonthSuffix(k) }

  function CountDigits(s: string): (n: nat)
    ensures n <= |s| && forall i :: 0 <= i < n ==> IsDigit(s[i])
    ensures n < |s| ==> !IsDigit(s[n])
  {
    if s == [] || !IsDigit(s[0]) then 0 else 1 + CountDigits(s[1..])
  }

  datatype Scan = NoScan | Scanned(value: int, rest: string)

  /** %d of fmt.Sscanf */
  function ScanInt(s: string): Scan {
    var t := TrimLeft(s);
    var u := if t != [] && (t[0] == '-' || t[0] == '+') then t[1..] else t;
    var n := CountDigits(u);
    if n == 0 then NoScan
    else
      var v: int := DecimalValue(u[..n]);
      Scanned(if t[0] == '-' then -v else v, u[n..])
  }

  datatype UpperBound = NoBound | Bound(month: int)

  /** "%dm%d": as in Sscanf, text behind the second number is not looked at. */
  function ParseSuffix(suffix: string): UpperBound {
    var year := ScanInt(suffix);
    if year.NoScan? || year.rest == [] || year.rest[0] != 'm' then NoBound
    else
      var month := ScanInt(year.rest[1..]);
      if month.NoScan? || month.value < 1 || month.value > 12 then NoBound
      else Bound(12 * year.value + (month.value - 1) + 1)
  }

  /** parsePartitionUpperBound: the month that begins where the partition ends. */
  function ParseUpperBound(table: string, name: string): UpperBound {
    var prefix := table + "_y";
    if !(prefix <= name) || 'm' !in name then NoBound else ParseSuffix(name[|prefix|..])
  }

  lemma DigitsOfDecimal(n: nat)
    ensures forall i :: 0 <= i < |Decimal(n)| ==> IsDigit(Decimal(n)[i])
  {
    forall i | 0 <= i < |Decimal(n)| ensures IsDigit(Decimal(n)[i]) { assert Decimal(n)[i] in Decimal(n); }
  }

  ghost predicate AllDigits(s: string) { forall c :: c in s ==> IsDigit(c) }

  lemma PaddedIsDigits(n: nat, w: nat)
    ensures Padded(n, w) != [] && AllDigits(Padded(n, w))
  {
    DigitsOfDecimal(n);
  }

  lemma {:induction false} LeadingZeros(z: nat, s: string)
    requires AllDigits(s)
    ensures AllDigits(Zeros(z) + s) && DecimalValue(Zeros(z) + s) == DecimalValue(s)
    decreases |s|, z
  {
    var t := Zeros(z) + s;
    if s != [] {
      assert t[..|t| - 1] == Zeros(z) + s[..|s| - 1];
      LeadingZeros(z, s[..|s| - 1]);
      assert AllDigits(t);
    } else if z > 0 {
      assert Zeros(z) + s == Zeros(z);
      assert Zeros(z)[..z - 1] == Zeros(z - 1) + [];
      LeadingZeros(z - 1, []);
    } else {
      assert t == s;
    }
  }

  lemma PaddedValue(n: nat, w: nat)
    ensures AllDigits(Padded(n, w)) && DecimalValue(Padded(n, w)) == n
  {
    var d := Decimal(n);
    LeadingZeros(if |d| < w then w - |d| else 0, d);
    DecimalRoundTrip(n);
  }

  lemma {:induction false} CountThrough(d: string, rest: string)
    requires AllDigits(d) && (rest == [] || !IsDigit(rest[0]))
    ensures CountDigits(d + rest) == |d|
  {
    if d != [] {
      assert d[0] in d;
      assert (d + rest)[1..] == d[1..] + rest;
      CountThrough(d[1..], rest);
    } else {
      assert d + rest == rest;
    }
  }

  lemma ScanDigits(d: string, rest: string)
    requires d != [] && AllDigits(d) && (rest == [] || !IsDigit(rest[0]))
    ensures ScanInt(d + rest) == Scanned(DecimalValue(d), rest)
  {
    assert d[0] in d;
    var s := d + rest;
    assert s[0] == d[0];
    assert TrimLeft(s) == s;
    CountThrough(d, rest);
    assert s[..|d|] == d && s[|d|..] == rest;
  }

  lemma ScanPadded(n: nat, w: nat, rest: string)
    requires rest == [] || !IsDigit(rest[0])
    ensures ScanInt(Padded(n, w) + rest) == Scanned(n, rest)
  {
    PaddedIsDigits(n, w);
    PaddedValue(n, w);
    ScanDigits(Padded(n, w), rest);
  }

  lemma ParseScanned(suffix: string, year: int, tail: string, month: int)
    requires ScanInt(suffix) == Scanned(year, "m" + tail)
    requires ScanInt(tail) == Scanned(month, []) && 1 <= month <= 12
    ensures ParseSuffix(suffix) == Bound(12 * year + month)
  {
    assert ("m" + tail)[1..] == tail;
  }

  lemma ParsePadded(year: nat, month: nat)
    requires 1 <= month <= 12
    ensures ParseSuffix(Padded(year, 4) + ("m" + Padded(month, 2))) == Bound(12 * year + month)
  {
    ScanPadded(year, 4, "m" + Padded(month, 2));
    ScanPadded(month, 2, []);
    assert Padded(month, 2) + [] == Padded(month, 2);
    ParseScanned(Padded(year, 4) + ("m" + Padded(month, 2)), year, Padded(month, 2), month);
  }

  lemma YearAndMonth(k: nat)
    ensures 12 * (k / 12) + (k % 12 + 1) == k + 1 && 1 <= k % 12 + 1 <= 12
  {}

  lemma SuffixRoundTrip(k: nat)
    ensures ParseSuffix(MonthSuffix(k)) == Bound(k + 1)
  {
    YearAndMonth(k);
    ParsePadded(k / 12, k % 12 + 1);
  }

  /** A partition's name leads back to its upper bound. */
  lemma NameRoundTrip(table: string, k: nat)
    ensures ParseUpperBound(table, PartitionName(table, k)) == Bound(k + 1)
  {
    var prefix, name := table + "_y", PartitionName(table, k);
    assert name[|prefix|..] == MonthSuffix(k);
    assert MonthSuffix(k)[|Padded(k / 12, 4)|] == 'm';
    assert name[|prefix| + |Padded(k / 12, 4)|] == 'm';
    SuffixRoundTrip(k);
  }

  // ---- creating

  /** PostgreSQL refuses a partition that would overlap another one. */
  predicate Refused(t: Table, k: nat) {
    && PartitionName(t.name, k) !in t.catalog
    && exists n | n in t.catalog.Keys :: Overlap(t.catalog[n], MonthRange(k))
  }

  ghost predicate Disjoint(t: Table) {
    forall m, n :: m in t.catalog && n in t.catalog && m != n ==> !Overlap(t.catalog[m], t.catalog[n])
  }

  ghost predicate IsMonthly(table: string, n: string, r: Range, k: int) {
    k >= 0 && n == PartitionName(table, k) && r == MonthRange(k)
  }

  ghost predicate AddsMonths(t: Table, u: Table, m: nat, e: int) {
    forall n :: n in u.catalog && n !in t.catalog ==> exists k :: IsMonthly(t.name, n, u.catalog[n], k) && m <= k <= e
  }

  /** u is t with the partitions of some months from m to e added. */
  ghost predicate Extends(t: Table, u: Table, m: nat, e: int) {
    && u.name == t.name && u.rows == t.rows
    && (forall n :: n in t.catalog ==> n in u.catalog && u.catalog[n] == t.catalog[n])
    && AddsMonths(t, u, m, e)
    && (Disjoint(t) ==> Disjoint(u))
  }

  /** CREATE TABLE IF NOT EXISTS ... PARTITION OF */
  function WithPartition(t: Table, k: nat): Table {
    var name := PartitionName(t.name, k);
    if name in t.catalog then t else t.(catalog := t.catalog[name := MonthRange(k)])
  }

  lemma WithKeepsDisjoint(u: Table, k: nat)
    requires Disjoint(u) && !Refused(u, k)
    ensures Disjoint(WithPartition(u, k))
  {
    var name, v := PartitionName(u.name, k), WithPartition(u, k);
    if name !in u.catalog {
      forall m, n | m in v.catalog && n in v.catalog && m != n ensures !Overlap(v.catalog[m], v.catalog[n]) {
        if m == name {
          assert n in u.catalog.Keys && !Overlap(u.catalog[n], MonthRange(k));
        } else if n == name {
          assert m in u.catalog.Keys && !Overlap(u.catalog[m], MonthRange(k));
        }
      }
    }
  }

  lemma AddedAreMonthly(t: Table, u: Table, m: nat, e: int, k: nat)
    requires Extends(t, u, m, e) && m <= k <= e
    ensures AddsMonths(t, WithPartition(u, k), m, e)
  {
    var name, v := PartitionName(t.name, k), WithPartition(u, k);
    forall n | n in v.catalog && n !in t.catalog
      ensures exists j :: IsMonthly(t.name, n, v.catalog[n], j) && m <= j <= e
    {
      if n in u.catalog {
        var j :| IsMonthly(t.name, n, u.catalog[n], j) && m <= j <= e;
        assert v.catalog[n] == u.catalog[n];
      } else {
        assert IsMonthly(t.name, n, v.catalog[n], k);
      }
    }
  }

  lemma ExtendsByOne(t: Table, u: Table, m: nat, e: int, k: nat)
    requires Extends(t, u, m, e) && m <= k <= e && !Refused(u, k)
    ensures Extends(t, WithPartition(u, k), m, e)
  {
    AddedAreMonthly(t, u, m, e, k);
    if Disjoint(t) { WithKeepsDisjoint(u, k); }
  }

  lemma WithKeepsNames(t: Table, k: nat, n: string)
    ensures n in WithPartition(t, k).catalog <==> n in t.catalog || n == PartitionName(t.name, k)
  {}

  /** Months from the one of now to the one of upTo have a partition of their name. */
  ghost predicate NamesThere(t: Table, m: nat, e: int) {
    forall k: nat :: m <= k <= e ==> PartitionName(t.name, k) in t.catalog
  }

  /** What EnsurePartitions does: only months from now to upTo are added, all of them if ok. */
  ghost predicate Ensured(t: Table, u: Table, now: Time, upTo: Time, ok: bool) {
    && MonthOf(now) >= 0
    && Extends(t, u, MonthOf(now), MonthOf(upTo))
    && (ok ==> NamesThere(u, MonthOf(now), MonthOf(upTo)))
  }

  lemma NamesOneMore(t: Table, m: nat, d: nat)
    requires NamesThere(t, m, d - 1)
    ensures NamesThere(WithPartition(t, d), m, d)
  {
    forall k: nat | m <= k <= d ensures PartitionName(t.name, k) in WithPartition(t, d).catalog {
      WithKeepsNames(t, d, PartitionName(t.name, k));
    }
  }

  /** The month k fails or is refused: those before it are there, and none from it on is added. */
  ghost predicate StopsAt(t: Table, u: Table, m: nat, e: int, failing: set<int>, k: nat) {
    m <= k <= e && (k in failing || Refused(u, k)) && NamesThere(u, m, k - 1) && Extends(t, u, m, k - 1)
  }

  lemma ExtendsFurther(t: Table, u: Table, m: nat, d: int, e: int)
    requires Extends(t, u, m, d) && d <= e
    ensures Extends(t, u, m, e)
  {
    forall n | n in u.catalog && n !in t.catalog
      ensures exists k :: IsMonthly(t.name, n, u.catalog[n], k) && m <= k <= e
    {
      var k :| IsMonthly(t.name, n, u.catalog[n], k) && m <= k <= d;
    }
  }

  ghost predicate NoneFails(failing: set<int>, m: int, e: int) { forall k :: m <= k <= e ==> k !in failing }

  /** What one more month makes of the loop's state. */
  lemma OneMonthMore(t: Table, u: Table, m: nat, d: nat, failing: set<int>)
    requires m <= d && d !in failing && !Refused(u, d)
    requires Extends(t, u, m, d - 1) && NamesThere(u, m, d - 1) && NoneFails(failing, m, d - 1)
    ensures var v := WithPartition(u, d);
            Extends(t, v, m, d) && NamesThere(v, m, d) && NoneFails(failing, m, d)
  {
    ExtendsFurther(t, u, m, d - 1, d);
    ExtendsByOne(t, u, m, d, d);
    NamesOneMore(u, m, d);
  }

  /** EnsurePartitions: now is the time it reads, and failing holds the months whose statement fails.  It
      stops at the first month whose statement fails or is refused. */
  method EnsurePartitions(t: Table, now: Time, upTo: Time, failing: set<int>) returns (u: Table, ok: bool)
    requires MonthOf(now) >= 0
    ensures Ensured(t, u, now, upTo, ok)
    ensures ok ==> NoneFails(failing, MonthOf(now), MonthOf(upTo))
    ensures !ok ==> exists k: nat :: StopsAt(t, u, MonthOf(now), MonthOf(upTo), failing, k)
  {
    var end := MonthOf(upTo);
    var d: nat := MonthOf(now);
    u := t;
    while d <= end
      invariant d == MonthOf(now) || MonthOf(now) < d <= end + 1
      invariant Extends(t, u, MonthOf(now), d - 1)
      invariant NamesThere(u, MonthOf(now), d - 1) && NoneFails(failing, MonthOf(now), d - 1)
      decreases end - d + 1
    {
      if d in failing || Refused(u, d) {
        assert StopsAt(t, u, MonthOf(now), end, failing, d);
        ExtendsFurther(t, u, MonthOf(now), d - 1, end);
        return u, false;
      }
      OneMonthMore(t, u, MonthOf(now), d, failing);
      u := WithPartition(u, d);
      d := d + 1;
    }
    ok := true;
  }

  // ---- dropping

  /** int64 arithmetic */
  function Wrap64(x: int): (r: int)
    ensures -TWO_TO_63 <= r < TWO_TO_63
  {
    (x + TWO_TO_63) % TWO_TO_64 - TWO_TO_63
  }

  /** -time.Duration(days) * 24 * time.Hour */
  function Shift(days: int): int { Wrap64(-days * DAY) }

  function CutoffMonth(now: Time, days: int): int { MonthOf(now + Shift(days)) }

  /** Does the bound of a name lie at or before the start of the cutoff's month? */
  predicate IsPast(bound: int, now: Time, days: int) { Start(bound) <= Start(CutoffMonth(now, days)) }

  /** A partition is judged by its name; one whose name does not fit never expires. */
  predicate Expires(table: string, name: string, now: Time, days: int) {
    var b := ParseUpperBound(table, name);
    b.Bound? && IsPast(b.month, now, days)
  }

  predicate InSome(x: Time, ranges: set<Range>) { exists r | r in ranges :: InRange(x, r) }

  /** The rows without those in the ranges gone. */
  function RowsOutside(rows: seq<Time>, gone: set<Range>): seq<Time> {
    if rows == [] then []
    else
      var n := |rows| - 1;
      RowsOutside(rows[..n], gone) + if InSome(rows[n], gone) then [] else [rows[n]]
  }

  function RangesOf(t: Table, names: set<string>): set<Range>
    requires names <= t.catalog.Keys
  {
    set n | n in names :: t.catalog[n]
  }

  /** u is t without the partitions gone and their rows. */
  ghost predicate Without(t: Table, u: Table, gone: set<string>) {
    && gone <= t.catalog.Keys && u.name == t.name && u.catalog == t.catalog - gone
    && u.rows == RowsOutside(t.rows, RangesOf(t, gone))
  }

  /** Only expired partitions were dropped, all of them if ok. */
  ghost predicate Dropped(t: Table, u: Table, now: Time, days: int, gone: set<string>, ok: bool) {
    && Without(t, u, gone)
    && (forall n :: n in gone ==> days > 0 && Expires(t.name, n, now, days))
    && (ok && days > 0 ==> forall n :: n in t.catalog && Expires(t.name, n, now, days) ==> n in gone)
  }

  function DropPartition(t: Table, name: string): Table
    requires name in t.catalog
  {
    Table(t.name, t.catalog - {name}, RowsOutside(t.rows, {t.catalog[name]}))
  }

  lemma RowsOutsideOneMore(rows: seq<Time>, r: Time, gone: set<Range>)
    ensures RowsOutside(rows + [r], gone) == RowsOutside(rows, gone) + if InSome(r, gone) then [] else [r]
  {
    assert (rows + [r])[..|rows|] == rows;
  }

  lemma InSomeOfBoth(x: Time, a: set<Range>, b: set<Range>)
    ensures InSome(x, a + b) <==> InSome(x, a) || InSome(x, b)
  {}

  lemma {:induction false} GoneTwice(rows: seq<Time>, a: set<Range>, b: set<Range>)
    ensures RowsOutside(RowsOutside(rows, a), b) == RowsOutside(rows, a + b)
  {
    if rows != [] {
      var n := |rows| - 1;
      GoneTwice(rows[..n], a, b);
      InSomeOfBoth(rows[n], a, b);
      if InSome(rows[n], a) {
        assert RowsOutside(rows, a) == RowsOutside(rows[..n], a);
      } else {
        RowsOutsideOneMore(RowsOutside(rows[..n], a), rows[n], b);
      }
    }
  }

  lemma DropOne(t: Table, u: Table, gone: set<string>, name: string)
    requires Without(t, u, gone) && name in u.catalog
    ensures Without(t, DropPartition(u, name), gone + {name})
  {
    assert RangesOf(t, gone + {name}) == RangesOf(t, gone) + {t.catalog[name]};
    GoneTwice(t.rows, RangesOf(t, gone), {t.catalog[name]});
  }

  /** The catalog cannot be read, or an expired partition cannot be dropped. */
  ghost predicate DropFails(t: Table, now: Time, days: int, unlisted: bool, failing: set<string>) {
    days > 0 && (unlisted || exists n :: n in failing && n in t.catalog && Expires(t.name, n, now, days))
  }

  method DropLoop(t: Table, now: Time, days: int, failing: set<string>)
    returns (u: Table, dropped: nat, ok: bool, ghost gone: set<string>)
    requires days > 0 && Without(t, t, {})
    ensures Dropped(t, u, now, days, gone, ok) && dropped == |gone|
    ensures !ok <==> DropFails(t, now, days, false, failing)
  {
    u, dropped, ok, gone := t, 0, true, {};
    var cutoff := CutoffMonth(now, days);
    var left := t.catalog.Keys;
    while left != {}
      invariant left <= t.catalog.Keys && left !! gone
      invariant Without(t, u, gone) && dropped == |gone|
      invariant forall n :: n in gone ==> Expires(t.name, n, now, days)
      invariant forall n :: n in t.catalog && n !in left && Expires(t.name, n, now, days) ==> n in gone
      invariant forall n :: n in t.catalog && n !in left && Expires(t.name, n, now, days) ==> n !in failing
    {
      var name :| name in left;
      left := left - {name};
      var upper := ParseUpperBound(t.name, name);
      if upper.NoBound? || Start(upper.month) > Start(cutoff) { continue; }
      if name in failing { return u, dropped, false, gone; }
      DropOne(t, u, gone, name);
      u, dropped, gone := DropPartition(u, name), dropped + 1, gone + {name};
    }
  }

  lemma {:induction false} NoRowsGone(rows: seq<Time>)
    ensures RowsOutside(rows, {}) == rows
  {
    if rows != [] { NoRowsGone(rows[..|rows| - 1]); }
  }

  lemma NothingGone(t: Table)
    ensures Without(t, t, {})
  {
    assert RangesOf(t, {}) == {};
    NoRowsGone(t.rows);
  }

  /** DropExpiredPartitions, in any order of the partitions; the catalog query and any of the drops may fail. */
  method DropExpiredPartitions(t: Table, now: Time, days: int, unlisted: bool, failing: set<string>)
    returns (u: Table, dropped: nat, ok: bool)
    ensures exists gone :: Dropped(t, u, now, days, gone, ok) && dropped == |gone|
    ensures !ok <==> DropFails(t, now, days, unlisted, failing)
  {
    u, dropped, ok := t, 0, true;
    ghost var gone: set<string> := {};
    NothingGone(t);
    if days > 0 && unlisted {
      ok := false;
    } else if days > 0 {
      u, dropped, ok, gone := DropLoop(t, now, days, failing);
    }
    assert Dropped(t, u, now, days, gone, ok);
  }

  // ---- the cleaner

  /** The times one round reads for a table, and the statements that fail. */
  datatype Round = Round(
    started: Time, ensureAt: Time, dropAt: Time, noCreate: set<int>, unlisted: bool, noDrop: set<string>)

  ghost predicate Provided(t: Table, u: Table, r: Round, ok: bool) {
    var m, upTo := MonthOf(r.ensureAt), AddMonths(r.started, LOOKAHEAD_MONTHS);
    && Ensured(t, u, r.ensureAt, upTo, ok)
    && (ok ==> NoneFails(r.noCreate, m, MonthOf(upTo)))
    && (!ok ==> exists k: nat :: StopsAt(t, u, m, MonthOf(upTo), r.noCreate, k))
  }

  ghost predicate Cleaned(t: Table, u: Table, days: int, r: Round, ok: bool) {
    exists mid, gone, ensured, dropped ::
      && Provided(t, mid, r, ensured)
      && Dropped(mid, u, r.dropAt, days, gone, dropped)
      && (!dropped <==> DropFails(mid, r.dropAt, days, r.unlisted, r.noDrop))
      && (ok <==> ensured && dropped)
  }

  method DropFrom(ghost t: Table, mid: Table, days: int, r: Round, ensured: bool) returns (u: Table, ok: bool)
    requires Provided(t, mid, r, ensured)
    ensures Cleaned(t, u, days, r, ok)
  {
    if days <= 0 {
      NothingGone(mid);
      assert Dropped(mid, mid, r.dropAt, days, {}, true);
      return mid, ensured;
    }
    var n, dropped;
    u, n, dropped := DropExpiredPartitions(mid, r.dropAt, days, r.unlisted, r.noDrop);
    ok := ensured && dropped;
    ghost var gone :| Dropped(mid, u, r.dropAt, days, gone, dropped);
  }

  class RetentionCleaner {
    const days: seq<int>
    var tables: seq<Table>

    constructor (tables: seq<Table>, days: seq<int>)
      requires |tables| == |days|
      ensures this.tables == tables && this.days == days && Valid()
    {
      this.tables := tables;
      this.days := days;
    }

    ghost predicate Valid()
      reads this
    {
      |tables| == |days|
    }

    /** First every table gets its partitions, then every table loses its expired ones; a failure is
        logged and the round goes on. */
    method RunOnce(rounds: seq<Round>) returns (oks: seq<bool>)
      requires Valid() && |rounds| == |tables|
      requires forall i :: 0 <= i < |rounds| ==> MonthOf(rounds[i].ensureAt) >= 0
      modifies this
      ensures Valid() && |tables| == |old(tables)| == |oks|
      ensures forall i :: 0 <= i < |tables| ==> Cleaned(old(tables)[i], tables[i], days[i], rounds[i], oks[i])
    {
      ghost var before := tables;
      var ensured := EnsureAll(rounds);
      ghost var between := tables;
      oks := [];
      for i := 0 to |tables|
        invariant |tables| == |before| == |days| && |oks| == i
        invariant forall j :: i <= j < |tables| ==> tables[j] == between[j]
        invariant forall j :: 0 <= j < i ==> Cleaned(before[j], tables[j], days[j], rounds[j], oks[j])
      {
        var u, ok := DropFrom(before[i], tables[i], days[i], rounds[i], ensured[i]);
        tables := tables[i := u];
        oks := oks + [ok];
      }
    }

    method EnsureAll(rounds: seq<Round>) returns (oks: seq<bool>)
      requires |rounds| == |tables|
      requires forall i :: 0 <= i < |rounds| ==> MonthOf(rounds[i].ensureAt) >= 0
      modifies this
      ensures |tables| == |old(tables)| == |oks|
      ensures forall i :: 0 <= i < |tables| ==> Provided(old(tables)[i], tables[i], rounds[i], oks[i])
    {
      ghost var before := tables;
      oks := [];
      for i := 0 to |tables|
        invariant |tables| == |before| && |oks| == i
        invariant forall j :: i <= j < |tables| ==> tables[j] == before[j]
        invariant forall j :: 0 <= j < i ==> Provided(before[j], tables[j], rounds[j], oks[j])
      {
        var upTo := AddMonths(rounds[i].started, LOOKAHEAD_MONTHS);
        var u, ok := EnsurePartitions(tables[i], rounds[i].ensureAt, upTo, rounds[i].noCreate);
        tables := tables[i := u];
        oks := oks + [ok];
      }
    }
  }
}
