/** The GitHub section's data shaping: totals over the fetched repositories,
    the two repository views, the per-day event counts, the one-year
    calendar split into weeks, and the activity badge. Dates are day
    numbers counted from 1970-01-01; fetching and decoding are not
    modelled. */
module GitHub {
  import opened Seqs

  datatype Repo = Repo(id: int, name: string, stars: nat, forks: nat, topics: seq<string>)

  datatype Stats = Stats(stars: nat, forks: nat, repos: nat)

  function TotalStars(rs: seq<Repo>): nat
  {
    if |rs| == 0 then 0 else rs[0].stars + TotalStars(rs[1..])
  }

  function TotalForks(rs: seq<Repo>): nat
  {
    if |rs| == 0 then 0 else rs[0].forks + TotalForks(rs[1..])
  }

  /** Totals add up over a concatenation. */
  lemma {:induction false} TotalsAppend(a: seq<Repo>, b: seq<Repo>)
    ensures TotalStars(a + b) == TotalStars(a) + TotalStars(b)
    ensures TotalForks(a + b) == TotalForks(a) + TotalForks(b)
    decreases |a|
  {
    if |a| == 0 {
      assert a + b == b;
    } else {
      assert (a + b)[1..] == a[1..] + b;
      TotalsAppend(a[1..], b);
    }
  }

  /** The two `reduce` calls and the length, as the fetch handler computes
      them, one repository at a time from the left. */
  method ComputeStats(rs: seq<Repo>) returns (st: Stats)
    ensures st == Stats(TotalStars(rs), TotalForks(rs), |rs|)
  {
    var stars := 0;
    var forks := 0;
    var k := 0;
    while k < |rs|
      invariant 0 <= k <= |rs|
      invariant stars == TotalStars(rs[..k])
      invariant forks == TotalForks(rs[..k])
    {
      assert rs[..k + 1] == rs[..k] + [rs[k]];
      TotalsAppend(rs[..k], [rs[k]]);
      stars := stars + rs[k].stars;
      forks := forks + rs[k].forks;
      k := k + 1;
    }
    assert rs[..k] == rs;
    st := Stats(stars, forks, |rs|);
  }

  /** Each repository's stars are part of the total, and the total is zero
      exactly when no repository has a star. */
  lemma {:induction false} TotalStarsBounds(rs: seq<Repo>)
    ensures forall i :: 0 <= i < |rs| ==> rs[i].stars <= TotalStars(rs)
    ensures TotalStars(rs) == 0 <==> forall i :: 0 <= i < |rs| ==> rs[i].stars == 0
  {
    if |rs| > 0 {
      TotalStarsBounds(rs[1..]);
      assert forall i :: 1 <= i < |rs| ==> rs[i] == rs[1..][i - 1];
    }
  }

  predicate IsPopular(r: Repo)
  {
    r.stars > 0 || r.forks > 0
  }

  /** The "popular" view: the repositories with a star or a fork, in the
      order of the list. */
  function Popular(rs: seq<Repo>): (r: seq<Repo>)
    ensures SubseqOf(r, rs)
    ensures forall i :: 0 <= i < |r| ==> r[i].stars > 0 || r[i].forks > 0
    ensures forall i :: 0 <= i < |rs| && (rs[i].stars > 0 || rs[i].forks > 0) ==> rs[i] in r
    ensures |r| == CountWhere(rs, IsPopular)
  {
    KeepIsSubseq(rs, IsPopular);
    Keep(rs, IsPopular)
  }

  /** Any in-order selection of popular repositories that has one element
      per popular position is the "popular" view: it keeps exactly those. */
  lemma PopularExact(r: seq<Repo>, rs: seq<Repo>)
    requires SubseqOf(r, rs)
    requires forall i :: 0 <= i < |r| ==> IsPopular(r[i])
    requires |r| == CountWhere(rs, IsPopular)
    ensures r == Popular(rs)
  {
    KeepUnique(r, rs, IsPopular);
  }

  /** Dropping the repositories with neither stars nor forks loses nothing
      from the totals. */
  lemma {:induction false} PopularKeepsTotals(rs: seq<Repo>)
    ensures TotalStars(Popular(rs)) == TotalStars(rs)
    ensures TotalForks(Popular(rs)) == TotalForks(rs)
    decreases |rs|
  {
    if |rs| > 0 {
      PopularKeepsTotals(rs[1..]);
      if IsPopular(rs[0]) {
        assert Popular(rs) == [rs[0]] + Popular(rs[1..]);
        TotalsAppend([rs[0]], Popular(rs[1..]));
      } else {
        assert Popular(rs) == Popular(rs[1..]);
      }
    }
  }

  /** Stars never increase from left to right. */
  ghost predicate ByStarsDescending(s: seq<Repo>)
  {
    forall i, j :: 0 <= i < j < |s| ==> s[i].stars >= s[j].stars
  }

  /** Places `x` before the first element with no more stars than it, so
      that among equal counts the earlier input stays first. */
  function InsertByStars(x: Repo, sorted: seq<Repo>): (r: seq<Repo>)
    requires ByStarsDescending(sorted)
    ensures |r| == |sorted| + 1
    ensures r[0] == x || (|sorted| > 0 && r[0] == sorted[0])
    ensures ByStarsDescending(r)
    ensures multiset(r) == multiset(sorted) + multiset{x}
  {
    if |sorted| == 0 || sorted[0].stars <= x.stars then [x] + sorted
    else
      var rest := InsertByStars(x, sorted[1..]);
      assert rest[0].stars <= sorted[0].stars;
      assert sorted == [sorted[0]] + sorted[1..];
      [sorted[0]] + rest
  }

  /** `sort((a, b) => b.stargazers_count - a.stargazers_count)`. */
  function SortByStars(rs: seq<Repo>): (r: seq<Repo>)
    ensures ByStarsDescending(r)
    ensures multiset(r) == multiset(rs)
  {
    if |rs| == 0 then []
    else
      assert rs == [rs[0]] + rs[1..];
      InsertByStars(rs[0], SortByStars(rs[1..]))
  }

  /** The repositories with exactly `k` stars, in order. */
  function WithStars(s: seq<Repo>, k: nat): seq<Repo>
  {
    if |s| == 0 then [] else (if s[0].stars == k then [s[0]] else []) + WithStars(s[1..], k)
  }

  lemma WithStarsCons(y: Repo, s: seq<Repo>, k: nat)
    ensures WithStars([y] + s, k) == (if y.stars == k then [y] else []) + WithStars(s, k)
  {
    assert ([y] + s)[1..] == s;
  }

  /** Insertion puts `x` ahead of every repository with as many stars. */
  lemma {:induction false} InsertStable(x: Repo, sorted: seq<Repo>, k: nat)
    requires ByStarsDescending(sorted)
    ensures WithStars(InsertByStars(x, sorted), k) == (if x.stars == k then [x] else []) + WithStars(sorted, k)
    decreases |sorted|
  {
    if |sorted| == 0 || sorted[0].stars <= x.stars {
      WithStarsCons(x, sorted, k);
    } else {
      var rest := InsertByStars(x, sorted[1..]);
      InsertStable(x, sorted[1..], k);
      WithStarsCons(sorted[0], rest, k);
      WithStarsCons(sorted[0], sorted[1..], k);
      assert sorted == [sorted[0]] + sorted[1..];
    }
  }

  /** The sort is stable, as `Array.prototype.sort` is: for every star
      count, the repositories with that count keep their input order. */
  lemma {:induction false} SortStable(rs: seq<Repo>, k: nat)
    ensures WithStars(SortByStars(rs), k) == WithStars(rs, k)
    decreases |rs|
  {
    if |rs| > 0 {
      SortStable(rs[1..], k);
      InsertStable(rs[0], SortByStars(rs[1..]), k);
    }
  }

  const TopCount: nat := 25

  /** The default ("all") view: sorted by stars, first 25. */
  function TopRepos(rs: seq<Repo>): (r: seq<Repo>)
    ensures |r| == if |rs| < TopCount then |rs| else TopCount
    ensures ByStarsDescending(r)
    ensures multiset(r) <= multiset(rs)
  {
    var sorted := SortByStars(rs);
    assert |sorted| == |multiset(sorted)| == |rs|;
    var r := Take(sorted, TopCount);
    assert sorted == r + sorted[|r|..];
    assert multiset(sorted) == multiset(r) + multiset(sorted[|r|..]);
    r
  }

  /** No repository left out of the default view has more stars than any
      repository in it. */
  lemma TopReposAreTop(rs: seq<Repo>)
    ensures forall y | y in multiset(rs) - multiset(TopRepos(rs)) ::
      forall i | 0 <= i < |TopRepos(rs)| :: TopRepos(rs)[i].stars >= y.stars
  {
    var sorted := SortByStars(rs);
    var r := TopRepos(rs);
    TopReposSplit(rs);
    forall y | y in multiset(rs) - multiset(r)
      ensures forall i | 0 <= i < |r| :: r[i].stars >= y.stars
    {
      SortedSplit(sorted, |r|, y);
    }
  }

  /** The default view and the repositories it leaves out split the sorted
      list in two. */
  lemma TopReposSplit(rs: seq<Repo>)
    ensures var sorted := SortByStars(rs);
      && |TopRepos(rs)| <= |sorted|
      && TopRepos(rs) == sorted[..|TopRepos(rs)|]
      && multiset(rs) - multiset(TopRepos(rs)) == multiset(sorted[|TopRepos(rs)|..])
  {
    var sorted := SortByStars(rs);
    var r := TopRepos(rs);
    var rest := sorted[|r|..];
    assert sorted == r + rest;
    assert multiset(sorted) == multiset(r) + multiset(rest);
  }

  lemma SortedSplit(sorted: seq<Repo>, k: nat, y: Repo)
    requires k <= |sorted| && ByStarsDescending(sorted)
    requires y in multiset(sorted[k..])
    ensures forall i | 0 <= i < k :: sorted[i].stars >= y.stars
  {
    var rest := sorted[k..];
    assert y in rest;
    var j :| 0 <= j < |rest| && rest[j] == y;
    assert sorted[k + j] == y;
  }

  /** The view the toggle selects. */
  function FilteredRepos(popularSelected: bool, rs: seq<Repo>): (r: seq<Repo>)
    ensures forall i :: 0 <= i < |r| ==> r[i] in rs
    ensures popularSelected ==> forall i :: 0 <= i < |r| ==> IsPopular(r[i])
    ensures popularSelected ==> forall i :: 0 <= i < |rs| && IsPopular(rs[i]) ==> rs[i] in r
    ensures !popularSelected ==> |r| == (if |rs| < TopCount then |rs| else TopCount)
    ensures !popularSelected ==> ByStarsDescending(r)
  {
    if popularSelected then Popular(rs)
    else
      var top := TopRepos(rs);
      assert forall i :: 0 <= i < |top| ==> top[i] in multiset(rs);
      top
  }

  /** The "no repositories" message appears exactly when the list is empty
      (default view) or when nothing has a star or a fork (popular view). */
  lemma {:induction false} NoReposMessageIff(popularSelected: bool, rs: seq<Repo>)
    ensures |FilteredRepos(popularSelected, rs)| == 0 <==>
      if popularSelected then forall i :: 0 <= i < |rs| ==> rs[i].stars == 0 && rs[i].forks == 0
      else |rs| == 0
  {
    if popularSelected {
      if |Popular(rs)| == 0 {
        forall i | 0 <= i < |rs|
          ensures rs[i].stars == 0 && rs[i].forks == 0
        {
        }
      } else {
        var x := Popular(rs)[0];
        assert x in multiset(rs);
        var i :| 0 <= i < |rs| && rs[i] == x;
      }
    }
  }

  /** A repository card shows at most its first three topics, and the topic
      row only when there is a topic. */
  function VisibleTopics(topics: seq<string>): (r: seq<string>)
    ensures |r| == if |topics| < 3 then |topics| else 3
    ensures r <= topics
    ensures |r| == 0 <==> |topics| == 0
  {
    Take(topics, 3)
  }

  // ---------------------------------------------------------------------
  // Per-day event counts

  /** One fetched event, by the day number of its creation time. */
  datatype Event = Event(day: int)

  /** One entry of `contributionMap`; entries keep first-insertion order. */
  datatype DayCount = DayCount(day: int, count: nat)

  /** `contributionMap[day] || 0`. */
  function Lookup(m: seq<DayCount>, day: int): nat
  {
    if |m| == 0 then 0 else if m[0].day == day then m[0].count else Lookup(m[1..], day)
  }

  function Days(m: seq<DayCount>): set<int>
  {
    if |m| == 0 then {} else {m[0].day} + Days(m[1..])
  }

  /** Every day appears at most once, with a positive count. */
  predicate WellFormed(m: seq<DayCount>)
  {
    |m| == 0 || (m[0].day !in Days(m[1..]) && m[0].count > 0 && WellFormed(m[1..]))
  }

  function SumCounts(m: seq<DayCount>): nat
  {
    if |m| == 0 then 0 else m[0].count + SumCounts(m[1..])
  }

  /** `contributionMap[day] = (contributionMap[day] || 0) + 1`. */
  function Bump(m: seq<DayCount>, day: int): (r: seq<DayCount>)
    requires WellFormed(m)
    ensures WellFormed(r)
    ensures forall d :: Lookup(r, d) == Lookup(m, d) + (if d == day then 1 else 0)
    ensures Days(r) == Days(m) + {day}
    ensures SumCounts(r) == SumCounts(m) + 1
  {
    if |m| == 0 then [DayCount(day, 1)]
    else if m[0].day == day then
      var r := [m[0].(count := m[0].count + 1)] + m[1..];
      assert r[1..] == m[1..];
      NotInDaysLookup(m[1..], day);
      r
    else
      var r := [m[0]] + Bump(m[1..], day);
      assert r[1..] == Bump(m[1..], day);
      r
  }

  lemma {:induction false} NotInDaysLookup(m: seq<DayCount>, day: int)
    requires day !in Days(m)
    ensures Lookup(m, day) == 0
  {
    if |m| > 0 {
      NotInDaysLookup(m[1..], day);
    }
  }

  /** The `forEach` over the events, in order. */
  function ContributionMap(events: seq<Event>): (m: seq<DayCount>)
    ensures WellFormed(m)
    ensures forall i :: 0 <= i < |events| ==> events[i].day in Days(m)
    ensures forall d :: d in Days(m) ==> exists i :: 0 <= i < |events| && events[i].day == d
  {
    if |events| == 0 then []
    else Bump(ContributionMap(events[..|events| - 1]), events[|events| - 1].day)
  }

  /** Number of events on a given day. */
  function EventsOn(events: seq<Event>, day: int): nat
  {
    if |events| == 0 then 0
    else EventsOn(events[..|events| - 1], day) + (if events[|events| - 1].day == day then 1 else 0)
  }

  /** Each day's entry is the number of events on that day, a day without
      events reads as 0, and the contribution total is the number of events
      processed. */
  lemma {:induction false} ContributionCounts(events: seq<Event>)
    ensures forall d :: Lookup(ContributionMap(events), d) == EventsOn(events, d)
    ensures forall d :: EventsOn(events, d) == 0 ==> Lookup(ContributionMap(events), d) == 0
    ensures forall d :: d in Days(ContributionMap(events)) <==> EventsOn(events, d) > 0
    ensures SumCounts(ContributionMap(events)) == |events|
  {
    if |events| > 0 {
      ContributionCounts(events[..|events| - 1]);
    }
  }

  // ---------------------------------------------------------------------
  // The calendar

  /** `getDay()` of a day number: 1970-01-01 was a Thursday (4); 6 is
      Saturday. */
  function DayOfWeek(day: int): (r: int)
    ensures 0 <= r < 7
  {
    (day + 4) % 7
  }

  /** Day 0 (1970-01-01) was a Thursday, and the weekday repeats every
      seven days. */
  lemma DayOfWeekAnchor(day: int)
    ensures DayOfWeek(0) == 4
    ensures DayOfWeek(day + 7) == DayOfWeek(day)
  {
  }

  lemma NextDayOfWeek(day: int)
    ensures DayOfWeek(day + 1) == if DayOfWeek(day) == 6 then 0 else DayOfWeek(day) + 1
  {
  }

  datatype ContributionDay = ContributionDay(date: int, count: nat)

  const CalendarSpan: nat := 365

  /** Every day from 365 days before today up to today, with its count. */
  function Calendar(m: seq<DayCount>, today: int): (r: seq<ContributionDay>)
    ensures |r| == CalendarSpan + 1
  {
    seq(CalendarSpan + 1, i requires 0 <= i <= CalendarSpan =>
      ContributionDay(today - CalendarSpan + i, Lookup(m, today - CalendarSpan + i)))
  }

  /** The calendar is consecutive days, each with its count from the map. */
  lemma CalendarDays(m: seq<DayCount>, today: int)
    ensures var r := Calendar(m, today);
      && r[0].date == today - CalendarSpan && r[|r| - 1].date == today
      && (forall i :: 0 <= i < |r| - 1 ==> r[i + 1].date == r[i].date + 1)
      && (forall i :: 0 <= i < |r| ==> r[i].count == Lookup(m, r[i].date))
  {
  }

  function LastDay(w: seq<ContributionDay>): ContributionDay
    requires |w| > 0
  {
    w[|w| - 1]
  }

  /** The week-building loop: walk the days from start to today, closing the
      current week after each Saturday and after today. */
  method Weeks(m: seq<DayCount>, today: int) returns (weeks: seq<seq<ContributionDay>>)
    ensures Flatten(weeks) == Calendar(m, today)
    ensures forall i :: 0 <= i < |weeks| ==> 0 < |weeks[i]| <= 7
    ensures forall i :: 0 <= i < |weeks| - 1 ==> DayOfWeek(LastDay(weeks[i]).date) == 6
    ensures |weeks| > 0 && LastDay(weeks[|weeks| - 1]).date == today
  {
    var start := today - CalendarSpan;
    var cal := Calendar(m, today);
    var cur := start;
    var week: seq<ContributionDay> := [];
    weeks := [];
    while cur <= today
      invariant start <= cur <= today + 1
      invariant Flatten(weeks) + week == cal[..cur - start]
      invariant forall i :: 0 <= i < |weeks| ==> 0 < |weeks[i]| <= 7
      invariant forall i :: 0 <= i < |weeks| - 1 ==> DayOfWeek(LastDay(weeks[i]).date) == 6
      invariant |weeks| > 0 ==>
        var last := LastDay(weeks[|weeks| - 1]).date;
        last < cur && (DayOfWeek(last) == 6 || last == today)
      invariant |week| > 0 ==> DayOfWeek(cur - 1) != 6 && |week| <= DayOfWeek(cur - 1) + 1
      invariant cur > today ==> |week| == 0 && |weeks| > 0 && LastDay(weeks[|weeks| - 1]).date == today
      decreases today + 1 - cur
    {
      var day := ContributionDay(cur, Lookup(m, cur));
      assert cal[cur - start] == day;
      assert cal[..cur + 1 - start] == cal[..cur - start] + [day];
      NextDayOfWeek(cur - 1);
      if DayOfWeek(cur) == 6 || cur >= today {
        FlattenSnoc(weeks, week + [day]);
        weeks := weeks + [week + [day]];
        week := [];
      } else {
        week := week + [day];
      }
      cur := cur + 1;
    }
    assert cal[..cur - start] == cal;
  }

  // ---------------------------------------------------------------------
  // Activity badge

  datatype Activity = High | Medium | Low

  /** Milliseconds in the 30-day month the badge uses. */
  const MsPerMonth: int := 1000 * 60 * 60 * 24 * 30

  /** `getActivityLevel`, from the milliseconds elapsed since the last
      update: under 3 months high, under 6 medium, otherwise low. */
  function ActivityLevel(elapsedMs: int): (a: Activity)
    ensures a == High <==> elapsedMs < 3 * MsPerMonth
    ensures a == Low <==> elapsedMs >= 6 * MsPerMonth
  {
    if elapsedMs < 3 * MsPerMonth then High
    else if elapsedMs < 6 * MsPerMonth then Medium
    else Low
  }

  function Rank(a: Activity): nat
  {
    match a
    case High => 2
    case Medium => 1
    case Low => 0
  }

  /** A longer time since the last update never gives a higher level. */
  lemma ActivityMonotone(e1: int, e2: int)
    requires e1 <= e2
    ensures Rank(ActivityLevel(e2)) <= Rank(ActivityLevel(e1))
  {
  }

  function ActivityName(a: Activity): string
  {
    match a
    case High => "high"
    case Medium => "medium"
    case Low => "low"
  }

  /** `getActivityColor`: a switch over the level's name whose default
      branch covers "low" and any other text. */
  function ActivityColor(level: string): (c: string)
    ensures level != "high" && level != "medium" ==> c == "bg-gray-400"
  {
    if level == "high" then "bg-green-500"
    else if level == "medium" then "bg-yellow-500"
    else "bg-gray-400"
  }

  /** The three levels get three different colours. */
  lemma ActivityColorsDistinct()
    ensures ActivityColor(ActivityName(High)) == "bg-green-500"
    ensures ActivityColor(ActivityName(Medium)) == "bg-yellow-500"
    ensures ActivityColor(ActivityName(Low)) == "bg-gray-400"
  {
  }
}
