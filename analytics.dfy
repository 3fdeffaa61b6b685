/** The per-Thing analytics: recency, cadence, suggested goal, streak and
    status, all derived from a Thing's events on demand. */
module Analytics {
  import opened Model
  import opened Seqs

  /** `lastEvent`: an event with the latest timestamp, none without events.
      Among events sharing the latest timestamp this picks the earliest in
      the list; the app's sort leaves that choice open. */
  function LastEvent(es: seq<Event>): (r: Option<Event>)
    ensures r.None? <==> es == []
    ensures r.Some? ==> r.value in es && forall e :: e in es ==> e.timestamp <= r.value.timestamp
  {
    if es == [] then None
    else match LastEvent(es[1..])
      case None => Some(es[0])
      case Some(latest) => if es[0].timestamp >= latest.timestamp then Some(es[0]) else Some(latest)
  }

  /** `daysSinceLastEvent`: whole days from the latest event to `now`. */
  function DaysSinceLastEvent(t: Thing, now: Day): (r: Option<int>)
    ensures r.None? <==> t.events == []
    ensures r.Some? ==> exists e :: e in t.events && r.value == now - e.timestamp
    ensures r.Some? ==> forall e :: e in t.events ==> r.value <= now - e.timestamp
  {
    match LastEvent(t.events)
    case None => None
    case Some(last) => Some(now - last.timestamp)
  }

  /** Sort keys for timestamps: oldest first, and newest first. */
  function Up(d: Day): seq<int> { [d] }
  function Down(d: Day): seq<int> { [-d] }

  /** `sorted(by: { $0.timestamp < $1.timestamp })`, on the timestamps. */
  function Ascending(ts: seq<Day>): (r: seq<Day>)
    ensures |r| == |ts| && multiset(r) == multiset(ts)
  {
    SortBy(ts, Up)
  }

  /** `sorted(by: { $0.timestamp > $1.timestamp })`, on the timestamps. */
  function Descending(ts: seq<Day>): (r: seq<Day>)
    ensures |r| == |ts| && multiset(r) == multiset(ts)
  {
    SortBy(ts, Down)
  }

  lemma AscendingOrdered(ts: seq<Day>)
    ensures forall i, j :: 0 <= i < j < |ts| ==> Ascending(ts)[i] <= Ascending(ts)[j]
  {
    var s := Ascending(ts);
    SortBySorted(ts, Up);
    forall i, j | 0 <= i < j < |ts| ensures s[i] <= s[j] {
      KeyLeSingle(s[i], s[j]);
    }
  }

  lemma DescendingOrdered(ts: seq<Day>)
    ensures forall i, j :: 0 <= i < j < |ts| ==> Descending(ts)[i] >= Descending(ts)[j]
  {
    var s := Descending(ts);
    SortBySorted(ts, Down);
    forall i, j | 0 <= i < j < |ts| ensures s[i] >= s[j] {
      KeyLeSingle(-s[i], -s[j]);
    }
  }

  /** The gaps between consecutive entries, built by appending as the
      app's loop does. */
  function Gaps(s: seq<int>): (g: seq<int>)
    ensures |g| == if |s| < 2 then 0 else |s| - 1
    ensures forall i :: 0 <= i < |g| ==> g[i] == s[i + 1] - s[i]
  {
    if |s| < 2 then [] else Gaps(s[..|s| - 1]) + [s[|s| - 1] - s[|s| - 2]]
  }

  /** `reduce(0, +)`. */
  function Sum(xs: seq<int>): int
  {
    if xs == [] then 0 else Sum(xs[..|xs| - 1]) + xs[|xs| - 1]
  }

  /** Summing a list in two pieces gives its sum, so the order in which
      `reduce` visits the gaps does not matter. */
  lemma {:induction false} SumAppend(xs: seq<int>, ys: seq<int>)
    ensures Sum(xs + ys) == Sum(xs) + Sum(ys)
    decreases |ys|
  {
    if ys == [] {
      assert xs + ys == xs;
    } else {
      var zs := xs + ys;
      assert zs[..|zs| - 1] == xs + ys[..|ys| - 1];
      SumAppend(xs, ys[..|ys| - 1]);
    }
  }

  /** Swift's `Int` division, which truncates toward zero. */
  function TruncDiv(a: int, b: int): (r: int)
    requires b > 0
    ensures a >= 0 ==> r >= 0
    ensures a <= 0 ==> r <= 0
  {
    if a >= 0 then a / b else -((-a) / b)
  }

  /** `averageFrequency`: the truncated mean of the gaps between
      consecutive events in time order; none below two events. */
  function MeanGap(es: seq<Event>): (r: Option<int>)
    ensures r.None? <==> |es| < 2
  {
    if |es| < 2 then None
    else
      var gaps := Gaps(Ascending(Times(es)));
      Some(TruncDiv(Sum(gaps), |gaps|))
  }

  /** `averageFrequency` as the app computes it, with a loop collecting the
      gaps. (The app's guard against an empty gap list cannot fire: two
      events give at least one gap.) */
  method AverageFrequency(events: seq<Event>) returns (r: Option<int>)
    ensures r == MeanGap(events)
  {
    if |events| < 2 {
      return None;
    }
    var sorted := Ascending(Times(events));
    var gaps: seq<int> := [];
    for i := 1 to |sorted|
      invariant gaps == Gaps(sorted[..i])
    {
      GapsExtend(sorted, i);
      gaps := gaps + [sorted[i] - sorted[i - 1]];
    }
    assert sorted[..|sorted|] == sorted;
    return Some(TruncDiv(Sum(gaps), |gaps|));
  }

  /** One more entry adds one more gap. */
  lemma GapsExtend(s: seq<int>, i: nat)
    requires 1 <= i < |s|
    ensures Gaps(s[..i + 1]) == Gaps(s[..i]) + [s[i] - s[i - 1]]
  {
    assert s[..i + 1][..i] == s[..i];
  }

  /** The gaps of a sequence add up to its last entry minus its first. */
  lemma {:induction false} SumOfGaps(s: seq<int>)
    requires |s| >= 1
    ensures Sum(Gaps(s)) == s[|s| - 1] - s[0]
  {
    if |s| >= 2 {
      var p := s[..|s| - 1];
      SumOfGaps(p);
      var g := Gaps(s);
      assert g[..|g| - 1] == Gaps(p);
    }
  }

  lemma {:induction false} SumBounds(xs: seq<int>, lo: int, hi: int)
    requires forall i :: 0 <= i < |xs| ==> lo <= xs[i] <= hi
    ensures lo * |xs| <= Sum(xs) <= hi * |xs|
  {
    if xs != [] {
      SumBounds(xs[..|xs| - 1], lo, hi);
    }
  }

  lemma MulLe(a: int, b: int, n: int)
    requires 0 < n
    ensures a <= b <==> a * n <= b * n
  {
    if a <= b {
      assert a * n <= b * n;
    } else {
      assert b * n < a * n;
    }
  }

  lemma DivBounds(s: int, n: int, lo: int, hi: int)
    requires n > 0 && lo * n <= s <= hi * n
    ensures lo <= s / n <= hi
  {
    var q, r := s / n, s % n;
    assert s == q * n + r && 0 <= r < n;
    assert (q + 1) * n == q * n + n;
    MulLe(q + 1, lo, n);
    MulLe(q, hi, n);
  }

  /** Gaps between events in time order are never negative. */
  lemma AscendingGapsNonNegative(es: seq<Event>)
    ensures forall i :: 0 <= i < |Gaps(Ascending(Times(es)))| ==> Gaps(Ascending(Times(es)))[i] >= 0
  {
    var s := Ascending(Times(es));
    var g := Gaps(s);
    AscendingOrdered(Times(es));
    forall i | 0 <= i < |g| ensures g[i] >= 0 {
      assert g[i] == s[i + 1] - s[i];
    }
  }

  /** The average is never negative. */
  lemma MeanGapNonNegative(es: seq<Event>)
    requires |es| >= 2
    ensures MeanGap(es).value >= 0
  {
    var s := Ascending(Times(es));
    AscendingOrdered(Times(es));
    assert s[0] <= s[|s| - 1];
    SumOfGaps(s);
    var g := Gaps(s);
    assert MeanGap(es).value == TruncDiv(Sum(g), |g|);
  }

  /** The average lies between the smallest and the largest gap: whatever
      bounds every gap bounds the average. */
  lemma MeanGapBetweenGaps(es: seq<Event>, lo: int, hi: int)
    requires |es| >= 2
    requires forall i :: 0 <= i < |Gaps(Ascending(Times(es)))| ==> lo <= Gaps(Ascending(Times(es)))[i] <= hi
    ensures lo <= MeanGap(es).value <= hi
  {
    var g := Gaps(Ascending(Times(es)));
    SumBounds(g, lo, hi);
    MeanGapNonNegative(es);
    AscendingGapsNonNegative(es);
    SumBounds(g, 0, hi);
    DivBounds(Sum(g), |g|, lo, hi);
  }

  /** Sorted oldest first, the earliest day comes first and the latest last. */
  lemma AscendingEnds(ts: seq<Day>, earliest: Day, latest: Day)
    requires earliest in ts && latest in ts
    requires forall d :: d in ts ==> earliest <= d <= latest
    ensures Ascending(ts)[0] == earliest && Ascending(ts)[|ts| - 1] == latest
  {
    var s := Ascending(ts);
    AscendingOrdered(ts);
    assert s[0] in multiset(ts) && s[|s| - 1] in multiset(ts);
    assert earliest in multiset(s) && latest in multiset(s);
    var a :| 0 <= a < |s| && s[a] == earliest;
    var b :| 0 <= b < |s| && s[b] == latest;
    assert s[0] <= s[a] && s[b] <= s[|s| - 1];
    assert s[0] in ts && s[|s| - 1] in ts;
  }

  /** The average is the span from the earliest to the latest event,
      divided by the number of gaps. */
  lemma MeanGapSpan(es: seq<Event>, earliest: Day, latest: Day)
    requires |es| >= 2
    requires earliest in Times(es) && latest in Times(es)
    requires forall d :: d in Times(es) ==> earliest <= d <= latest
    ensures MeanGap(es).Some? && MeanGap(es).value == (latest - earliest) / (|es| - 1)
  {
    var s := Ascending(Times(es));
    AscendingEnds(Times(es), earliest, latest);
    SumOfGaps(s);
    var g := Gaps(s);
    assert Sum(g) == latest - earliest >= 0;
    assert |g| == |es| - 1;
    assert MeanGap(es) == Some(TruncDiv(Sum(g), |g|));
  }

  /** Events on days 20, 0 and 10, logged in that order, average 10 days. */
  lemma MeanGapExample(es: seq<Event>)
    requires Times(es) == [20, 0, 10]
    ensures MeanGap(es).Some? && MeanGap(es).value == 10
  {
    var ts := Times(es);
    assert 0 in ts && 20 in ts;
    assert forall d :: d in ts ==> 0 <= d <= 20;
    assert |es| == |ts| == 3;
    MeanGapSpan(es, 0, 20);
    assert (20 - 0) / (|es| - 1) == 10;
  }

  /** `suggestedGoalFrequency`: the average, once there are three events. */
  function SuggestedGoalFrequency(t: Thing): (r: Option<int>)
    ensures r.None? <==> |t.events| < 3
    ensures r.Some? ==> r == MeanGap(t.events)
  {
    if |t.events| >= 3 then MeanGap(t.events) else None
  }

  /** `nextSuggestedDate`: the latest event's day plus the average. */
  function NextSuggestedDate(t: Thing): (r: Option<Day>)
    ensures r.None? <==> |t.events| < 2
    ensures r.Some? ==> exists e :: e in t.events && r.value == e.timestamp + MeanGap(t.events).value
    ensures r.Some? ==> forall e :: e in t.events ==> e.timestamp + MeanGap(t.events).value <= r.value
  {
    match LastEvent(t.events)
    case None => None
    case Some(last) =>
      match MeanGap(t.events)
      case None => None
      case Some(avg) => Some(last.timestamp + avg)
  }

  /** With no goal, gaps of up to ten days keep a streak going. */
  const StreakDefaultDays := 10

  /** A gap keeps the streak going when it is within the goal plus three
      days, or within ten days; so a goal never makes the rule stricter. */
  function ContinuesStreak(gap: int, goal: Option<int>): (r: bool)
    ensures gap <= StreakDefaultDays ==> r
    ensures r <==> gap <= if goal.Some? && goal.value + 3 > StreakDefaultDays then goal.value + 3 else StreakDefaultDays
  {
    (goal.Some? && gap <= goal.value + 3) || gap <= StreakDefaultDays
  }

  /** How many leading gaps of `d` keep the streak going. */
  function LeadingRun(d: seq<Day>, goal: Option<int>): (n: nat)
    ensures n <= if |d| < 2 then 0 else |d| - 1
  {
    if |d| < 2 then 0
    else if ContinuesStreak(d[0] - d[1], goal) then 1 + LeadingRun(d[1..], goal)
    else 0
  }

  /** The streak over timestamps listed newest first. */
  function StreakLength(d: seq<Day>, goal: Option<int>): (n: nat)
    ensures d == [] ==> n == 0
    ensures d != [] ==> 1 <= n <= |d|
  {
    if d == [] then 0 else 1 + LeadingRun(d, goal)
  }

  /** `streak`: scanning newest first, count events while the gap to the
      previous one keeps the streak going; stop at the first that does not. */
  method Streak(t: Thing) returns (r: nat)
    ensures r == StreakLength(Descending(Times(t.events)), t.goalFrequency)
  {
    if |t.events| < 2 {
      return if t.events == [] then 0 else 1;
    }
    var sorted := Descending(Times(t.events));
    var currentStreak := 1;
    var i := 1;
    while i < |sorted|
      invariant 1 <= i <= |sorted|
      invariant currentStreak == i
      invariant LeadingRun(sorted, t.goalFrequency) == (i - 1) + LeadingRun(sorted[i - 1..], t.goalFrequency)
    {
      var days := sorted[i - 1] - sorted[i];
      assert sorted[i - 1..][1..] == sorted[i..];
      if t.goalFrequency.Some? && days <= t.goalFrequency.value + 3 {
        currentStreak := currentStreak + 1;
      } else if days <= StreakDefaultDays {
        currentStreak := currentStreak + 1;
      } else {
        break;
      }
      i := i + 1;
    }
    return currentStreak;
  }

  /** The streak is exactly the longest run of newest-first events whose
      gaps all keep it going: every gap inside it does, and the gap just
      past it (if any) does not. */
  lemma {:induction false} StreakCharacterized(d: seq<Day>, goal: Option<int>)
    requires d != []
    ensures forall j :: 0 <= j < StreakLength(d, goal) - 1 ==> ContinuesStreak(d[j] - d[j + 1], goal)
    ensures StreakLength(d, goal) < |d| ==>
      !ContinuesStreak(d[StreakLength(d, goal) - 1] - d[StreakLength(d, goal)], goal)
  {
    if |d| >= 2 && ContinuesStreak(d[0] - d[1], goal) {
      StreakCharacterized(d[1..], goal);
      assert StreakLength(d, goal) == 1 + StreakLength(d[1..], goal);
      forall j | 0 <= j < StreakLength(d, goal) - 1 ensures ContinuesStreak(d[j] - d[j + 1], goal) {
        if j > 0 {
          assert d[1..][j - 1] == d[j] && d[1..][j] == d[j + 1];
        }
      }
    }
  }

  /** Setting a goal never shortens a streak. */
  lemma {:induction false} StreakGoalNeverStricter(d: seq<Day>, goal: int)
    ensures StreakLength(d, Some(goal)) >= StreakLength(d, None)
  {
    if |d| >= 2 && ContinuesStreak(d[0] - d[1], None) {
      StreakGoalNeverStricter(d[1..], goal);
    }
  }

  /** With no goal, events 0, 5, 9 and 25 days ago give gaps 5, 4 and 16:
      the streak is 3. A goal of 14 days accepts the 16-day gap too. */
  lemma StreakExample(e0: Event, e1: Event, e2: Event, e3: Event, now: Day)
    requires e0.timestamp == now && e1.timestamp == now - 5
    requires e2.timestamp == now - 9 && e3.timestamp == now - 25
    ensures StreakLength(Descending(Times([e0, e1, e2, e3])), None) == 3
    ensures StreakLength(Descending(Times([e0, e1, e2, e3])), Some(14)) == 4
  {
    var ts := [now, now - 5, now - 9, now - 25];
    assert Times([e0, e1, e2, e3]) == ts;
    DescendingOfOrdered(ts);
    StreakOfExampleDays(now);
  }

  lemma DescendingOfOrdered(ts: seq<Day>)
    requires forall i, j :: 0 <= i < j < |ts| ==> ts[i] >= ts[j]
    ensures Descending(ts) == ts
  {
    forall i, j | 0 <= i < j < |ts| ensures KeyLe(Down(ts[i]), Down(ts[j])) {
      KeyLeSingle(-ts[i], -ts[j]);
    }
    SortByOfSorted(ts, Down);
  }

  lemma StreakOfExampleDays(now: Day)
    ensures StreakLength([now, now - 5, now - 9, now - 25], None) == 3
    ensures StreakLength([now, now - 5, now - 9, now - 25], Some(14)) == 4
  {
    var d := [now, now - 5, now - 9, now - 25];
    assert d[1..] == [now - 5, now - 9, now - 25];
    assert d[1..][1..] == [now - 9, now - 25];
    assert d[1..][1..][1..] == [now - 25];
    assert LeadingRun([now - 9, now - 25], None) == 0;
    assert LeadingRun([now - 5, now - 9, now - 25], None) == 1;
    assert LeadingRun(d, None) == 2;
    assert LeadingRun([now - 9, now - 25], Some(14)) == 1;
    assert LeadingRun([now - 5, now - 9, now - 25], Some(14)) == 2;
    assert LeadingRun(d, Some(14)) == 3;
  }

  /** `status`: no data without an event or a goal; otherwise needs
      attention from two days past the goal, upcoming from two days before
      it, on track before that. */
  function Status(t: Thing, now: Day): (r: ThingStatus)
    ensures r == NoData <==> t.events == [] || t.goalFrequency.None?
    ensures r != NoData ==>
      var d := DaysSinceLastEvent(t, now).value;
      var g := t.goalFrequency.value;
      && (r == NeedsAttention <==> d >= g + 2)
      && (r == Upcoming <==> g - 2 <= d < g + 2)
      && (r == OnTrack <==> d < g - 2)
  {
    match DaysSinceLastEvent(t, now)
    case None => NoData
    case Some(days) =>
      match t.goalFrequency
      case None => NoData
      case Some(goal) =>
        if days >= goal + 2 then NeedsAttention
        else if days >= goal - 2 then Upcoming
        else OnTrack
  }

  /** How pressing a status is. */
  function Severity(s: ThingStatus): nat
  {
    match s
    case NoData => 0
    case OnTrack => 0
    case Upcoming => 1
    case NeedsAttention => 2
  }

  /** Left alone, a Thing's status only gets more pressing as days pass. */
  lemma StatusWorsensOverTime(t: Thing, now: Day, later: Day)
    requires now <= later
    ensures Severity(Status(t, now)) <= Severity(Status(t, later))
  {
    if t.events != [] && t.goalFrequency.Some? {
      assert DaysSinceLastEvent(t, now).value <= DaysSinceLastEvent(t, later).value;
    }
  }

  /** Goal 10: twelve days since is needs-attention, nine and eight are
      upcoming (eight is exactly goal - 2), seven is on track. */
  lemma StatusExample(t: Thing, e: Event)
    requires t.goalFrequency == Some(10) && t.events == [e]
    ensures Status(t, e.timestamp + 12) == NeedsAttention
    ensures Status(t, e.timestamp + 9) == Upcoming
    ensures Status(t, e.timestamp + 8) == Upcoming
    ensures Status(t, e.timestamp + 7) == OnTrack
  {
    assert LastEvent(t.events) == Some(e);
  }

  /** Logging an event today puts a Thing with a goal above two days on
      track, provided no event is dated in the future. */
  /** A new Thing has nothing to report: no data and no streak. */
  lemma NewThingHasNoData(id: Uuid, name: string, category: Category, goalFrequency: Option<int>,
                          tags: seq<string>, remindersEnabled: bool, emoji: Option<string>, created: Day, now: Day)
    ensures var t := NewThing(id, name, category, goalFrequency, tags, remindersEnabled, emoji, created);
      Status(t, now) == NoData && DaysSinceLastEvent(t, now).None? && StreakLength(Times(t.events), t.goalFrequency) == 0
  {
  }

  lemma StatusAfterLoggingToday(t: Thing, e: Event, now: Day)
    requires e.timestamp == now
    requires forall x :: x in t.events ==> x.timestamp <= now
    requires t.goalFrequency.Some? && t.goalFrequency.value > 2
    ensures Status(t.(events := t.events + [e]), now) == OnTrack
  {
    var u := t.(events := t.events + [e]);
    assert e in u.events;
    assert DaysSinceLastEvent(u, now).value == 0;
  }
}
