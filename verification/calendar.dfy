/**
 * The calendar page: bookings grouped by calendar day (days ascending,
 * each day's bookings by time), the search and status filter, the
 * completed/pending tallies, and the local update after "mark done".
 */
module Calendar {
  import opened Wrappers
  import opened Text
  import opened Seqs
  import opened Sorting
  import Ledger

  type Booking = Ledger.Booking

  /** `date.split('T')[0]`: the day part of an ISO timestamp. */
  function DateKey(b: Booking): string { Before(b.date, 'T') }

  function TimeOf(b: Booking): string { b.time }

  /** The selector "belongs to another day than `k`". */
  function OtherDay(k: string): Booking -> bool {
    (b: Booking) => DateKey(b) != k
  }

  /** The bookings of day `k`, in their original order. */
  function OnDay(bs: seq<Booking>, k: string): seq<Booking> {
    WithKey(bs, DateKey, k)
  }

  /** Every element of `s` occurs in it exactly once. */
  ghost predicate Once<T>(s: seq<T>) {
    forall x | x in s :: multiset(s)[x] == 1
  }

  /** `k` is the day of some booking in `bs`. */
  ghost predicate IsDayOf(bs: seq<Booking>, k: string) {
    exists i | 0 <= i < |bs| :: DateKey(bs[i]) == k
  }

  /** The days of `bs` in order of first appearance: the keys of the
      grouping object, each once. */
  function Days(bs: seq<Booking>): (r: seq<string>)
    ensures forall i | 0 <= i < |bs| :: DateKey(bs[i]) in r
    ensures forall k | k in r :: IsDayOf(bs, k)
    ensures Once(r)
    decreases |bs|
  {
    if bs == [] then []
    else
      var k := DateKey(bs[0]);
      var rest := Filter(bs[1..], OtherDay(k));
      var later := Days(rest);
      DaysStepCovers(bs, rest, later);
      DaysStepSound(bs, rest, later);
      DaysStepOnce(bs, rest, later);
      [k] + later
  }

  lemma DaysStepCovers(bs: seq<Booking>, rest: seq<Booking>, later: seq<string>)
    requires |bs| > 0 && rest == Filter(bs[1..], OtherDay(DateKey(bs[0])))
    requires forall i | 0 <= i < |rest| :: DateKey(rest[i]) in later
    ensures forall i | 0 <= i < |bs| :: DateKey(bs[i]) in [DateKey(bs[0])] + later
  {
    var k0 := DateKey(bs[0]);
    forall i | 0 < i < |bs| && DateKey(bs[i]) != k0 ensures DateKey(bs[i]) in later {
      assert bs[i] in bs[1..];
      FilterHas(bs[1..], OtherDay(k0), bs[i]);
      var j :| 0 <= j < |rest| && rest[j] == bs[i];
    }
  }

  lemma DaysStepSound(bs: seq<Booking>, rest: seq<Booking>, later: seq<string>)
    requires |bs| > 0 && rest == Filter(bs[1..], OtherDay(DateKey(bs[0])))
    requires forall k | k in later :: IsDayOf(rest, k)
    ensures forall k | k in [DateKey(bs[0])] + later :: IsDayOf(bs, k)
  {
    assert IsDayOf(bs, DateKey(bs[0])) by { assert DateKey(bs[0]) == DateKey(bs[0]); }
    forall k | k in later ensures IsDayOf(bs, k) {
      var j :| 0 <= j < |rest| && DateKey(rest[j]) == k;
      FilterHas(bs[1..], OtherDay(DateKey(bs[0])), rest[j]);
      var i :| 0 <= i < |bs[1..]| && bs[1..][i] == rest[j];
      assert DateKey(bs[i + 1]) == k;
    }
  }

  lemma DaysStepOnce(bs: seq<Booking>, rest: seq<Booking>, later: seq<string>)
    requires |bs| > 0 && rest == Filter(bs[1..], OtherDay(DateKey(bs[0])))
    requires forall k | k in later :: IsDayOf(rest, k)
    requires Once(later)
    ensures Once([DateKey(bs[0])] + later)
  {
    var k0 := DateKey(bs[0]);
    forall j | 0 <= j < |rest| ensures DateKey(rest[j]) != k0 {
      assert OtherDay(k0)(rest[j]);
    }
    assert k0 !in later;
  }

  /** One day of the calendar. */
  datatype Day = Day(date: string, bookings: seq<Booking>)

  /** The day `k` with its bookings sorted by the time key `order`. */
  function DayOf(bs: seq<Booking>, k: string, order: Booking -> string): Day {
    Day(k, SortBy(OnDay(bs, k), order))
  }

  /** The distinct days, ascending: `Object.keys(grouped).sort(...)`. */
  function SortedDays(bs: seq<Booking>): (r: seq<string>)
    ensures forall i, j | 0 <= i < j < |r| :: StrLt(r[i], r[j])
    ensures forall i | 0 <= i < |bs| :: DateKey(bs[i]) in r
    ensures forall k | k in r :: IsDayOf(bs, k)
  {
    var keys := Days(bs);
    var r := SortBy(keys, (k: string) => k);
    assert forall i, j | 0 <= i < j < |r| :: StrLe(r[i], r[j]);
    SameElements(keys, r);
    Ascending(keys, r);
    r
  }

  lemma SameElements<T>(a: seq<T>, b: seq<T>)
    requires multiset(a) == multiset(b)
    ensures forall x :: x in a <==> x in b
  {
    forall x ensures x in a <==> x in b {
      assert x in a <==> x in multiset(a);
      assert x in b <==> x in multiset(b);
    }
  }

  lemma Ascending(keys: seq<string>, r: seq<string>)
    requires Once(keys) && multiset(r) == multiset(keys)
    requires forall i, j | 0 <= i < j < |r| :: StrLe(r[i], r[j])
    ensures forall i, j | 0 <= i < j < |r| :: StrLt(r[i], r[j])
  {
    forall i, j | 0 <= i < j < |r| ensures StrLt(r[i], r[j]) {
      assert r[i] in multiset(r);
      assert multiset(keys)[r[i]] == 1;
      TwiceCounted(r, i, j);
      StrLeTotal(r[i], r[j]);
      if StrLe(r[j], r[i]) {
        StrLeAntisymmetric(r[i], r[j]);
      }
    }
  }

  /** A day some booking falls on has at least one booking. */
  lemma DayNonEmpty(bs: seq<Booking>, k: string)
    requires IsDayOf(bs, k)
    ensures |OnDay(bs, k)| > 0
  {
    var i :| 0 <= i < |bs| && DateKey(bs[i]) == k;
    FilterHas(bs, HasKey(DateKey, k), bs[i]);
  }

  function DaysOf(bs: seq<Booking>, days: seq<string>, order: Booking -> string): (r: seq<Day>)
    ensures |r| == |days| && forall d | 0 <= d < |days| :: r[d] == DayOf(bs, days[d], order)
  {
    seq(|days|, d requires 0 <= d < |days| => DayOf(bs, days[d], order))
  }

  /** The dates of `r`, in order. */
  function Dates(r: seq<Day>): (ds: seq<string>)
    ensures |ds| == |r| && forall d | 0 <= d < |r| :: ds[d] == r[d].date
  {
    seq(|r|, d requires 0 <= d < |r| => r[d].date)
  }

  /** `groupBookingsByDate` with the bookings of each day sorted by the
      time key `order`: the days ascending, each holding exactly its own
      bookings. */
  function GroupByDateWith(bs: seq<Booking>, order: Booking -> string): (r: seq<Day>)
    ensures forall i, j | 0 <= i < j < |r| :: StrLt(r[i].date, r[j].date)
    ensures forall i | 0 <= i < |bs| :: DateKey(bs[i]) in Dates(r)
    ensures forall d | 0 <= d < |r| :: IsDayOf(bs, r[d].date)
    ensures forall d | 0 <= d < |r| ::
              && |r[d].bookings| > 0
              && SortedBy(r[d].bookings, order)
              && multiset(r[d].bookings) == multiset(OnDay(bs, r[d].date))
  {
    var days := SortedDays(bs);
    var r := DaysOf(bs, days, order);
    assert Dates(r) == days;
    GroupNonEmpty(bs, days, r, order);
    r
  }

  lemma GroupNonEmpty(bs: seq<Booking>, days: seq<string>, r: seq<Day>, order: Booking -> string)
    requires forall k | k in days :: IsDayOf(bs, k)
    requires |r| == |days| && forall d | 0 <= d < |days| :: r[d] == DayOf(bs, days[d], order)
    ensures forall d | 0 <= d < |r| :: IsDayOf(bs, r[d].date) && |r[d].bookings| > 0
  {
    forall d | 0 <= d < |r| ensures IsDayOf(bs, r[d].date) && |r[d].bookings| > 0 {
      assert days[d] in days;
      DayNonEmpty(bs, days[d]);
    }
  }

  /** A value found at two positions occurs at least twice. */
  lemma TwiceCounted<T>(s: seq<T>, i: nat, j: nat)
    requires i < j < |s|
    ensures s[i] == s[j] ==> multiset(s)[s[i]] >= 2
  {
    assert s == s[..j] + [s[j]] + s[j + 1..];
    assert s[..j][i] == s[i];
    assert s[i] in multiset(s[..j]);
  }

  /** Within a day, bookings with the same time key keep the order they had. */
  lemma DayIsStable(bs: seq<Booking>, order: Booking -> string, t: string)
    ensures var r := GroupByDateWith(bs, order);
            forall d | 0 <= d < |r| ::
              WithKey(r[d].bookings, order, t) == WithKey(OnDay(bs, r[d].date), order, t)
  {
    var r := GroupByDateWith(bs, order);
    forall d | 0 <= d < |r|
      ensures WithKey(r[d].bookings, order, t) == WithKey(OnDay(bs, r[d].date), order, t)
    {
      SortByStable(OnDay(bs, r[d].date), order, t);
    }
  }

  /** All the bookings of the days `keys`, gathered day by day. */
  function Total(bs: seq<Booking>, keys: seq<string>): multiset<Booking> {
    if keys == [] then multiset{} else multiset(OnDay(bs, keys[0])) + Total(bs, keys[1..])
  }

  /** The bookings shown across `days`, day after day. */
  function Flatten(days: seq<Day>): seq<Booking> {
    if days == [] then [] else days[0].bookings + Flatten(days[1..])
  }

  lemma {:induction false} TotalAppend(bs: seq<Booking>, a: seq<string>, b: seq<string>)
    ensures Total(bs, a + b) == Total(bs, a) + Total(bs, b)
  {
    if a == [] {
      assert a + b == b;
    } else {
      assert (a + b)[1..] == a[1..] + b;
      TotalAppend(bs, a[1..], b);
    }
  }

  /** Taking one day out of `b` takes its bookings out of the total. */
  lemma TotalRemove(bs: seq<Booking>, b: seq<string>, i: nat)
    requires i < |b|
    ensures Total(bs, b) == multiset(OnDay(bs, b[i])) + Total(bs, b[..i] + b[i + 1..])
  {
    assert b == (b[..i] + [b[i]]) + b[i + 1..];
    TotalAppend(bs, b[..i] + [b[i]], b[i + 1..]);
    TotalAppend(bs, b[..i], [b[i]]);
    TotalAppend(bs, b[..i], b[i + 1..]);
  }

  /** Removing the same element from two permutations leaves permutations. */
  lemma RemoveBoth<T>(a: seq<T>, b: seq<T>, i: nat)
    requires multiset(a) == multiset(b) && |a| > 0 && i < |b| && b[i] == a[0]
    ensures multiset(a[1..]) == multiset(b[..i] + b[i + 1..])
  {
    assert a == [a[0]] + a[1..];
    assert b == b[..i] + [b[i]] + b[i + 1..];
    assert multiset(a[1..]) == multiset(a) - multiset{a[0]};
    assert multiset(b[..i] + b[i + 1..]) == multiset(b) - multiset{b[i]};
  }

  /** The gathered bookings do not depend on the order of the days. */
  lemma {:induction false} TotalPermutation(bs: seq<Booking>, a: seq<string>, b: seq<string>)
    requires multiset(a) == multiset(b)
    ensures Total(bs, a) == Total(bs, b)
    decreases |a|
  {
    if a != [] {
      assert a[0] in multiset(b);
      var i :| 0 <= i < |b| && b[i] == a[0];
      RemoveBoth(a, b, i);
      TotalPermutation(bs, a[1..], b[..i] + b[i + 1..]);
      TotalRemove(bs, b, i);
    }
  }

  /** Two booking lists with the same bookings on each of `keys`. */
  lemma {:induction false} TotalAgree(a: seq<Booking>, b: seq<Booking>, keys: seq<string>)
    requires forall k | k in keys :: OnDay(a, k) == OnDay(b, k)
    ensures Total(a, keys) == Total(b, keys)
  {
    if keys != [] {
      TotalAgree(a, b, keys[1..]);
    }
  }

  /** Gathering day by day over the distinct days gives back every booking,
      each as often as it occurs. */
  lemma {:induction false} DaysCoverAll(bs: seq<Booking>)
    ensures Total(bs, Days(bs)) == multiset(bs)
    decreases |bs|
  {
    if bs != [] {
      var k := DateKey(bs[0]);
      var rest := Filter(bs[1..], OtherDay(k));
      var later := Days(rest);
      assert Days(bs) == [k] + later;
      DaysCoverAll(rest);
      LaterDaysAgree(bs, k, later);
      TotalAgree(bs, rest, later);
      FirstDaySplit(bs);
      assert ([k] + later)[1..] == later;
      assert Total(bs, Days(bs)) == multiset(OnDay(bs, k)) + Total(bs, later);
    }
  }

  /** The first booking's day and the remaining bookings of other days
      split `bs` between them. */
  lemma FirstDaySplit(bs: seq<Booking>)
    requires bs != []
    ensures multiset(OnDay(bs, DateKey(bs[0]))) + multiset(Filter(bs[1..], OtherDay(DateKey(bs[0])))) == multiset(bs)
  {
    var k := DateKey(bs[0]);
    var first := Filter(bs[1..], HasKey(DateKey, k));
    assert OnDay(bs, k) == [bs[0]] + first;
    FilterSplit(bs[1..], HasKey(DateKey, k), OtherDay(k));
    assert bs == [bs[0]] + bs[1..];
  }

  /** Once the first day's bookings are set aside, the other days of `bs`
      hold the same bookings as before. */
  lemma LaterDaysAgree(bs: seq<Booking>, k: string, later: seq<string>)
    requires bs != [] && k == DateKey(bs[0]) && later == Days(Filter(bs[1..], OtherDay(k)))
    ensures forall k' | k' in later :: OnDay(bs, k') == OnDay(Filter(bs[1..], OtherDay(k)), k')
  {
    var rest := Filter(bs[1..], OtherDay(k));
    forall k' | k' in later ensures OnDay(bs, k') == OnDay(rest, k') {
      var j :| 0 <= j < |rest| && DateKey(rest[j]) == k';
      assert OtherDay(k)(rest[j]);
      FilterNarrow(bs[1..], HasKey(DateKey, k'), OtherDay(k));
    }
  }

  lemma {:induction false} ShownIsTotal(bs: seq<Booking>, keys: seq<string>, days: seq<Day>, order: Booking -> string)
    requires |days| == |keys| && forall d | 0 <= d < |keys| :: days[d] == DayOf(bs, keys[d], order)
    ensures multiset(Flatten(days)) == Total(bs, keys)
  {
    if keys != [] {
      ShownIsTotal(bs, keys[1..], days[1..], order);
    }
  }

  /** The calendar shows every booking it is given, each exactly as often
      as it occurs: its days, taken together, are a permutation of `bs`. */
  lemma GroupedIsPermutation(bs: seq<Booking>, order: Booking -> string)
    ensures multiset(Flatten(GroupByDateWith(bs, order))) == multiset(bs)
    ensures |Flatten(GroupByDateWith(bs, order))| == |bs|
  {
    var days := SortedDays(bs);
    ShownIsTotal(bs, days, GroupByDateWith(bs, order), order);
    TotalPermutation(bs, days, Days(bs));
    DaysCoverAll(bs);
    assert |multiset(Flatten(GroupByDateWith(bs, order)))| == |multiset(bs)|;
  }

  /** The status filter of the page. */
  datatype StatusFilter = All | PendingOnly | CompletedOnly

  /** `!status || status === "Pending"`. */
  predicate IsPending(b: Booking) {
    b.status.None? || b.status == Some("") || b.status == Some(Ledger.Pending)
  }

  predicate IsCompleted(b: Booking) {
    b.status == Some(Ledger.Completed)
  }

  predicate NotCompleted(b: Booking) {
    !IsCompleted(b)
  }

  /** The search term occurs, ignoring case, in the name, the service, or a
      non-empty contact. */
  predicate MatchesSearch(b: Booking, term: string) {
    var t := Lower(term);
    || Contains(Lower(b.name), t)
    || Contains(Lower(b.service), t)
    || (b.contact.Some? && b.contact.value != "" && Contains(Lower(b.contact.value), t))
  }

  predicate MatchesStatus(b: Booking, f: StatusFilter) {
    match f
    case All => true
    case PendingOnly => IsPending(b)
    case CompletedOnly => IsCompleted(b)
  }

  function Visible(term: string, f: StatusFilter): Booking -> bool {
    (b: Booking) => MatchesSearch(b, term) && MatchesStatus(b, f)
  }

  /** `filteredBookings`: the bookings matching both the search and the
      status filter, in their original order. */
  function FilteredBookings(bs: seq<Booking>, term: string, f: StatusFilter): (r: seq<Booking>)
    ensures forall b :: b in r <==> b in bs && MatchesSearch(b, term) && MatchesStatus(b, f)
    ensures IsSubsequence(r, bs)
  {
    var r := Filter(bs, Visible(term, f));
    forall b ensures b in r <==> b in bs && MatchesSearch(b, term) && MatchesStatus(b, f) {
      FilterHas(bs, Visible(term, f), b);
    }
    r
  }

  /** With an empty search and no status filter, nothing is hidden. */
  lemma EmptySearchShowsAll(bs: seq<Booking>)
    ensures FilteredBookings(bs, "", All) == bs
  {
    assert Lower("") == "";
    forall i | 0 <= i < |bs| ensures Visible("", All)(bs[i]) {
      ContainsEmpty(Lower(bs[i].name));
    }
    FilterKeepsAll(bs, Visible("", All));
  }

  /** A search term matches regardless of the case it is typed in. */
  lemma SearchIgnoresCase(b: Booking, term: string)
    ensures MatchesSearch(b, Lower(term)) == MatchesSearch(b, term)
  {
    LowerIdempotent(term);
  }

  /** `groupedBookings`: the visible bookings grouped by day, as the page
      does it. The days ascend, each day's bookings are ordered by the text
      of their times, and the days together hold each visible booking
      exactly as often as the filter keeps it, and nothing else. */
  function CalendarView(bs: seq<Booking>, term: string, f: StatusFilter): (r: seq<Day>)
    ensures forall i, j | 0 <= i < j < |r| :: StrLt(r[i].date, r[j].date)
    ensures forall d | 0 <= d < |r| :: SortedBy(r[d].bookings, TimeOf)
    ensures multiset(Flatten(r)) == multiset(FilteredBookings(bs, term, f))
    ensures forall b | b in FilteredBookings(bs, term, f) :: DateKey(b) in Dates(r)
    ensures forall d | 0 <= d < |r| ::
              && IsDayOf(FilteredBookings(bs, term, f), r[d].date)
              && multiset(r[d].bookings) == multiset(OnDay(FilteredBookings(bs, term, f), r[d].date))
    ensures forall d, i | 0 <= d < |r| && 0 <= i < |r[d].bookings| ::
              r[d].bookings[i] in bs && MatchesSearch(r[d].bookings[i], term) && MatchesStatus(r[d].bookings[i], f)
  {
    var visible := FilteredBookings(bs, term, f);
    var r := GroupByDateAsWritten(visible);
    GroupedIsPermutation(visible, TimeOf);
    ViewShowsVisible(visible, r);
    EveryDayListed(visible, r);
    r
  }

  /** The calendar with the corrected, chronological order within a day. */
  function CorrectedCalendarView(bs: seq<Booking>, term: string, f: StatusFilter): (r: seq<Day>)
    ensures forall i, j | 0 <= i < j < |r| :: StrLt(r[i].date, r[j].date)
    ensures forall d, i, j | 0 <= d < |r| && 0 <= i < j < |r[d].bookings| ::
              IsClockTime(r[d].bookings[i].time) && IsClockTime(r[d].bookings[j].time) ==>
                MinuteOfDay(r[d].bookings[i].time) <= MinuteOfDay(r[d].bookings[j].time)
    ensures multiset(Flatten(r)) == multiset(FilteredBookings(bs, term, f))
    ensures forall b | b in FilteredBookings(bs, term, f) :: DateKey(b) in Dates(r)
    ensures forall d | 0 <= d < |r| ::
              && IsDayOf(FilteredBookings(bs, term, f), r[d].date)
              && multiset(r[d].bookings) == multiset(OnDay(FilteredBookings(bs, term, f), r[d].date))
  {
    var visible := FilteredBookings(bs, term, f);
    var r := GroupByDate(visible);
    GroupedIsPermutation(visible, ClockOf);
    EveryDayListed(visible, r);
    r
  }

  /** The day of every member of `bs` is among the dates of `r`. */
  lemma EveryDayListed(bs: seq<Booking>, r: seq<Day>)
    requires forall i | 0 <= i < |bs| :: DateKey(bs[i]) in Dates(r)
    ensures forall b | b in bs :: DateKey(b) in Dates(r)
  {
    forall b | b in bs ensures DateKey(b) in Dates(r) {
      var i :| 0 <= i < |bs| && bs[i] == b;
    }
  }

  lemma ViewShowsVisible(visible: seq<Booking>, r: seq<Day>)
    requires forall d | 0 <= d < |r| :: multiset(r[d].bookings) == multiset(OnDay(visible, r[d].date))
    ensures forall d, i | 0 <= d < |r| && 0 <= i < |r[d].bookings| :: r[d].bookings[i] in visible
  {
    forall d, i | 0 <= d < |r| && 0 <= i < |r[d].bookings| ensures r[d].bookings[i] in visible {
      var b := r[d].bookings[i];
      assert b in multiset(r[d].bookings);
      FilterHas(visible, HasKey(DateKey, r[d].date), b);
    }
  }

  /** `completedBookings`. */
  function CompletedCount(bs: seq<Booking>): nat {
    |Filter(bs, IsCompleted)|
  }

  /** `pendingBookings`: everything not completed. */
  function PendingCount(bs: seq<Booking>): (n: nat)
    ensures n + CompletedCount(bs) == |bs|
    ensures n == |Filter(bs, NotCompleted)|
  {
    FilterPartition(bs, IsCompleted, NotCompleted);
    |bs| - CompletedCount(bs)
  }

  /** The "completed" filter shows exactly the completed tally; the
      "pending" filter shows at most the pending tally, and exactly it when
      every status is absent, empty, "Pending" or "Completed". */
  lemma TalliesMatchFilters(bs: seq<Booking>)
    ensures |FilteredBookings(bs, "", CompletedOnly)| == CompletedCount(bs)
    ensures |FilteredBookings(bs, "", PendingOnly)| <= PendingCount(bs)
    ensures (forall i | 0 <= i < |bs| :: IsPending(bs[i]) || IsCompleted(bs[i])) ==>
              |FilteredBookings(bs, "", PendingOnly)| == PendingCount(bs)
  {
    assert Lower("") == "";
    forall i | 0 <= i < |bs| ensures MatchesSearch(bs[i], "") {
      ContainsEmpty(Lower(bs[i].name));
    }
    SameFilter(bs, Visible("", CompletedOnly), IsCompleted);
    FilterMonotone(bs, Visible("", PendingOnly), NotCompleted);
    if forall i | 0 <= i < |bs| :: IsPending(bs[i]) || IsCompleted(bs[i]) {
      SameFilter(bs, Visible("", PendingOnly), NotCompleted);
    }
  }

  /** Selectors agreeing on every element filter alike. */
  lemma {:induction false} SameFilter<T>(s: seq<T>, p: T -> bool, q: T -> bool)
    requires forall i | 0 <= i < |s| :: p(s[i]) == q(s[i])
    ensures Filter(s, p) == Filter(s, q)
  {
    if s != [] { SameFilter(s[1..], p, q); }
  }

  const MsgUpdateFailed: string := "Failed to update booking."

  /** The page's bookings and error banner. */
  datatype Page = Page(bookings: seq<Booking>, error: string)

  /** `handleMarkDone`: after the server accepts, every booking with that id
      is shown "Completed" and nothing else changes; after a failure only
      the error banner changes. */
  function MarkDone(p: Page, id: nat, accepted: bool): (r: Page)
    ensures !accepted ==> r == p.(error := MsgUpdateFailed)
    ensures accepted ==> r.error == p.error && |r.bookings| == |p.bookings|
    ensures accepted ==> forall i | 0 <= i < |p.bookings| ::
              && (p.bookings[i].id == id ==> IsCompleted(r.bookings[i]))
              && r.bookings[i] == p.bookings[i].(status := r.bookings[i].status)
              && (p.bookings[i].id != id ==> r.bookings[i] == p.bookings[i])
  {
    if accepted then p.(bookings := Completing(p.bookings, id)) else p.(error := MsgUpdateFailed)
  }

  function Completing(bs: seq<Booking>, id: nat): (r: seq<Booking>)
    ensures |r| == |bs|
    ensures forall i | 0 <= i < |bs| ::
              r[i] == if bs[i].id == id then bs[i].(status := Some(Ledger.Completed)) else bs[i]
  {
    seq(|bs|, i requires 0 <= i < |bs| =>
      if bs[i].id == id then bs[i].(status := Some(Ledger.Completed)) else bs[i])
  }

  /** Marking the same booking done twice shows the same list as once. */
  lemma MarkDoneIdempotent(p: Page, id: nat)
    ensures MarkDone(MarkDone(p, id, true), id, true) == MarkDone(p, id, true)
  {
    var once := MarkDone(p, id, true);
    assert Completing(once.bookings, id) == once.bookings;
  }

  /** The selector "has id `id` and is not completed yet". */
  function Unfinished(id: nat): Booking -> bool {
    (b: Booking) => b.id == id && !IsCompleted(b)
  }

  /** Marking done raises the completed tally by the number of bookings
      with that id that were not completed yet. */
  lemma {:induction false} MarkDoneRaisesTally(bs: seq<Booking>, id: nat)
    ensures CompletedCount(Completing(bs, id)) == CompletedCount(bs) + |Filter(bs, Unfinished(id))|
  {
    if bs != [] {
      MarkDoneRaisesTally(bs[1..], id);
      assert Completing(bs, id)[1..] == Completing(bs[1..], id);
    }
  }

  /** With ids unique, marking a pending booking done adds exactly one to
      the completed tally and removes one from the pending tally. */
  lemma MarkDoneCountsOne(bs: seq<Booking>, k: nat)
    requires forall i, j | 0 <= i < j < |bs| :: bs[i].id != bs[j].id
    requires k < |bs| && !IsCompleted(bs[k])
    ensures CompletedCount(Completing(bs, bs[k].id)) == CompletedCount(bs) + 1
    ensures PendingCount(Completing(bs, bs[k].id)) + 1 == PendingCount(bs)
  {
    var id := bs[k].id;
    MarkDoneRaisesTally(bs, id);
    OnlyOne(bs, k);
  }

  lemma {:induction false} OnlyOne(bs: seq<Booking>, k: nat)
    requires forall i, j | 0 <= i < j < |bs| :: bs[i].id != bs[j].id
    requires k < |bs| && !IsCompleted(bs[k])
    ensures |Filter(bs, Unfinished(bs[k].id))| == 1
  {
    var id := bs[k].id;
    if k == 0 {
      forall i | 0 <= i < |bs[1..]| ensures !Unfinished(id)(bs[1..][i]) {
        assert bs[1..][i] == bs[i + 1];
      }
      NoneSelected(bs[1..], Unfinished(id));
    } else {
      assert bs[0].id != id;
      OnlyOne(bs[1..], k - 1);
    }
  }

  lemma {:induction false} NoneSelected<T>(s: seq<T>, p: T -> bool)
    requires forall i | 0 <= i < |s| :: !p(s[i])
    ensures Filter(s, p) == []
  {
    if s != [] { NoneSelected(s[1..], p); }
  }

  /** A time as the booking form offers it: "hh:mm AM" or "hh:mm PM", with
      hh from 01 to 12 and mm from 00 to 59. */
  predicate IsClockTime(t: string) {
    && |t| == 8
    && IsDigit(t[0]) && IsDigit(t[1]) && t[2] == ':' && IsDigit(t[3]) && IsDigit(t[4])
    && t[5] == ' ' && (t[6] == 'A' || t[6] == 'P') && t[7] == 'M'
    && 1 <= 10 * DigitValue(t[0]) + DigitValue(t[1]) <= 12
    && DigitValue(t[3]) < 6
  }

  /** The hour on a 24-hour clock: 12 AM is hour 0, 12 PM is hour 12. */
  function Hour24(t: string): (h: nat)
    requires IsClockTime(t)
    ensures h < 24
  {
    (10 * DigitValue(t[0]) + DigitValue(t[1])) % 12 + (if t[6] == 'P' then 12 else 0)
  }

  /** Minutes after midnight. */
  function MinuteOfDay(t: string): (m: nat)
    requires IsClockTime(t)
    ensures m < 24 * 60
  {
    Hour24(t) * 60 + 10 * DigitValue(t[3]) + DigitValue(t[4])
  }

  /** The 24-hour "HH:MM" form of a clock time; other text stays as it is. */
  function ClockKey(t: string): (k: string)
    ensures IsClockTime(t) ==> |k| == 5 && k[2] == ':'
  {
    if IsClockTime(t) then
      [DigitChar(Hour24(t) / 10), DigitChar(Hour24(t) % 10), ':', t[3], t[4]]
    else t
  }

  /** The corrected time key of a booking. */
  function ClockOf(b: Booking): string { ClockKey(b.time) }

  /** Lexicographic order on "XX:XX" texts compares the four digits in turn. */
  lemma LexFive(p: string, q: string)
    requires |p| == 5 && |q| == 5 && p[2] == q[2]
    ensures StrLe(p, q) <==>
              p[0] < q[0] || (p[0] == q[0] &&
              (p[1] < q[1] || (p[1] == q[1] &&
              (p[3] < q[3] || (p[3] == q[3] && p[4] <= q[4])))))
  {
    assert p[1..][0] == p[1] && q[1..][0] == q[1];
    assert p[1..][1..] == p[2..] && q[1..][1..] == q[2..];
    assert p[2..][1..] == p[3..] && q[2..][1..] == q[3..];
    assert p[3..][1..] == p[4..] && q[3..][1..] == q[4..];
    assert p[4..][1..] == [] && q[4..][1..] == [];
    assert StrLe(p[4..], q[4..]) <==> p[4] <= q[4];
    assert StrLe(p[3..], q[3..]) <==> p[3] < q[3] || (p[3] == q[3] && p[4] <= q[4]);
    assert StrLe(p[2..], q[2..]) <==> StrLe(p[3..], q[3..]);
  }

  /** The 24-hour key orders clock times chronologically. */
  lemma ClockKeyOrder(a: string, b: string)
    requires IsClockTime(a) && IsClockTime(b)
    ensures StrLe(ClockKey(a), ClockKey(b)) <==> MinuteOfDay(a) <= MinuteOfDay(b)
  {
    LexFive(ClockKey(a), ClockKey(b));
    var ha, hb := Hour24(a), Hour24(b);
    assert ha == 10 * (ha / 10) + ha % 10 && hb == 10 * (hb / 10) + hb % 10;
  }

  /** `groupBookingsByDate` with each day's bookings in chronological order,
      the order the calendar evidently intends; times the form cannot
      produce are ordered as text after the clock key. */
  function GroupByDate(bs: seq<Booking>): (r: seq<Day>)
    ensures r == GroupByDateWith(bs, ClockOf)
    ensures forall d, i, j | 0 <= d < |r| && 0 <= i < j < |r[d].bookings| ::
              IsClockTime(r[d].bookings[i].time) && IsClockTime(r[d].bookings[j].time) ==>
                MinuteOfDay(r[d].bookings[i].time) <= MinuteOfDay(r[d].bookings[j].time)
  {
    var r := GroupByDateWith(bs, ClockOf);
    Chronological(r);
    r
  }

  lemma Chronological(r: seq<Day>)
    requires forall d | 0 <= d < |r| :: SortedBy(r[d].bookings, ClockOf)
    ensures forall d, i, j | 0 <= d < |r| && 0 <= i < j < |r[d].bookings| ::
              IsClockTime(r[d].bookings[i].time) && IsClockTime(r[d].bookings[j].time) ==>
                MinuteOfDay(r[d].bookings[i].time) <= MinuteOfDay(r[d].bookings[j].time)
  {
    forall d, i, j | 0 <= d < |r| && 0 <= i < j < |r[d].bookings| &&
                     IsClockTime(r[d].bookings[i].time) && IsClockTime(r[d].bookings[j].time)
      ensures MinuteOfDay(r[d].bookings[i].time) <= MinuteOfDay(r[d].bookings[j].time)
    {
      assert StrLe(ClockOf(r[d].bookings[i]), ClockOf(r[d].bookings[j]));
      ClockKeyOrder(r[d].bookings[i].time, r[d].bookings[j].time);
    }
  }

  /** `groupBookingsByDate` as written: each day's bookings ordered by the
      text of their times. */
  function GroupByDateAsWritten(bs: seq<Booking>): (r: seq<Day>)
    ensures r == GroupByDateWith(bs, TimeOf)
    ensures forall d | 0 <= d < |r| :: SortedBy(r[d].bookings, TimeOf)
  {
    GroupByDateWith(bs, TimeOf)
  }

  /** A 5 AM and a 1 PM booking on the same day. */
  const EarlyBooking: Booking :=
    Ledger.Booking(0, 0, "Ana", None, "2025-03-01", "05:00 AM", "Wash", None, Some(Ledger.Pending))
  const AfternoonBooking: Booking := EarlyBooking.(id := 1, time := "01:00 PM")

  /** Bookings all on day `k` are that day's bookings, in order. */
  lemma AllOnDay(bs: seq<Booking>, k: string)
    requires forall i | 0 <= i < |bs| :: DateKey(bs[i]) == k
    ensures OnDay(bs, k) == bs
  {
    FilterKeepsAll(bs, HasKey(DateKey, k));
  }

  /** Two bookings on the same date: every day of the calendar holds both. */
  lemma TwoOnOneDay(x: Booking, y: Booking, order: Booking -> string)
    requires x.date == y.date
    ensures var r := GroupByDateWith([x, y], order);
            |r| > 0 && forall d | 0 <= d < |r| :: multiset(r[d].bookings) == multiset{x, y}
  {
    var bs := [x, y];
    var r := GroupByDateWith(bs, order);
    assert DateKey(bs[0]) in Dates(r);
    SingleDay(bs, r, DateKey(x));
    assert multiset(bs) == multiset{x, y};
  }

  /** When every booking falls on day `k`, every day of a grouping holds them all. */
  lemma SingleDay(bs: seq<Booking>, r: seq<Day>, k: string)
    requires forall i | 0 <= i < |bs| :: DateKey(bs[i]) == k
    requires forall d | 0 <= d < |r| :: IsDayOf(bs, r[d].date)
    requires forall d | 0 <= d < |r| :: multiset(r[d].bookings) == multiset(OnDay(bs, r[d].date))
    ensures forall d | 0 <= d < |r| :: multiset(r[d].bookings) == multiset(bs)
  {
    AllOnDay(bs, k);
    forall d | 0 <= d < |r| ensures r[d].date == k {
      assert IsDayOf(bs, r[d].date);
    }
  }

  /** Two bookings on one date, strictly ordered by `order`, are listed
      smaller key first. */
  lemma TwoListed(x: Booking, y: Booking, order: Booking -> string)
    requires x.date == y.date && StrLt(order(x), order(y))
    ensures var r := GroupByDateWith([x, y], order);
            |r| > 0 && forall d | 0 <= d < |r| :: r[d].bookings == [x, y]
  {
    var r := GroupByDateWith([x, y], order);
    TwoOnOneDay(x, y, order);
    forall d | 0 <= d < |r| ensures r[d].bookings == [x, y] {
      TwoOrdered(r[d].bookings, order, x, y);
    }
  }

  /** As text, "05:00 AM" sorts after "01:00 PM": the second characters decide. */
  lemma MorningTextLater()
    ensures StrLt(TimeOf(AfternoonBooking), TimeOf(EarlyBooking))
  {
    var a, b := TimeOf(EarlyBooking), TimeOf(AfternoonBooking);
    assert a == "05:00 AM" && b == "01:00 PM";
    assert a[0] == b[0];
    assert a[1..][0] == '5' && b[1..][0] == '1';
  }

  /** On the clock, 5 AM is minute 300 and 1 PM is minute 780. */
  lemma MorningClockEarlier()
    ensures IsClockTime(EarlyBooking.time) && IsClockTime(AfternoonBooking.time)
    ensures MinuteOfDay(EarlyBooking.time) == 300 && MinuteOfDay(AfternoonBooking.time) == 780
  {
    var a, b := EarlyBooking.time, AfternoonBooking.time;
    assert a == "05:00 AM" && b == "01:00 PM";
    assert DigitValue(a[0]) == 0 && DigitValue(a[1]) == 5 && DigitValue(a[3]) == 0 && DigitValue(a[4]) == 0;
    assert DigitValue(b[0]) == 0 && DigitValue(b[1]) == 1 && DigitValue(b[3]) == 0 && DigitValue(b[4]) == 0;
    assert Hour24(a) == 5 && Hour24(b) == 13;
  }

  /** As written, the calendar lists the 1 PM booking before the 5 AM one. */
  lemma AsWrittenAfternoonFirst()
    ensures MinuteOfDay(EarlyBooking.time) < MinuteOfDay(AfternoonBooking.time)
    ensures var r := GroupByDateAsWritten([AfternoonBooking, EarlyBooking]);
            |r| > 0 && forall d | 0 <= d < |r| :: r[d].bookings == [AfternoonBooking, EarlyBooking]
  {
    MorningClockEarlier();
    MorningTextLater();
    TwoListed(AfternoonBooking, EarlyBooking, TimeOf);
  }

  /** Corrected, the 5 AM booking comes first. */
  lemma CorrectedEarlyFirst()
    ensures var r := GroupByDate([EarlyBooking, AfternoonBooking]);
            |r| > 0 && forall d | 0 <= d < |r| :: r[d].bookings == [EarlyBooking, AfternoonBooking]
  {
    MorningClockEarlier();
    ClockKeyOrder(AfternoonBooking.time, EarlyBooking.time);
    TwoListed(EarlyBooking, AfternoonBooking, ClockOf);
  }

  /** A sorted arrangement of two elements whose keys are strictly ordered
      puts the smaller first. */
  lemma TwoOrdered(s: seq<Booking>, order: Booking -> string, x: Booking, y: Booking)
    requires multiset(s) == multiset{x, y} && SortedBy(s, order) && StrLt(order(x), order(y))
    ensures s == [x, y]
  {
    assert |s| == |multiset(s)| == 2;
    assert s == [s[0], s[1]];
    assert multiset{s[0], s[1]} == multiset{x, y};
    assert StrLe(order(s[0]), order(s[1]));
    assert s[0] != y;
  }
}
