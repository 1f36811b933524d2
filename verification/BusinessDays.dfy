/** Business-day loops over day numbers: counting from the start day, counting from the day after,
    rolling forward, and how searching and counting undo each other. */
module BusinessDays {
  import opened Common

  datatype Result = Day(day: int) | ValueError

  /** Day number 1 is a Monday; 0 stands for Monday, 6 for Sunday. */
  function Weekday(d: int): int {
    (d + 6) % 7
  }

  predicate IsOpen(d: int, holidays: set<int>) {
    Weekday(d) < 5 && d !in holidays
  }

  /** Day 1 is the first day of the calendar, a Monday: of the seven days from any Monday on, the first five
      are business days unless they are holidays, and the last two never are. */
  lemma OpenInWeek(week: int, day: int, holidays: set<int>)
    requires 1 <= day <= 7
    ensures IsOpen(7 * week + day, holidays) <==> day <= 5 && 7 * week + day !in holidays
  {}

  /** Business days from `start` to `end`, both included. */
  function CountOpen(start: int, end: int, holidays: set<int>): nat
    decreases end - start + 1
  {
    if end < start then 0 else CountOpen(start, end - 1, holidays) + if IsOpen(end, holidays) then 1 else 0
  }

  /** `d` is the n-th business day from `start` on. */
  predicate IsNth(start: int, n: int, d: int, holidays: set<int>) {
    start <= d && IsOpen(d, holidays) && CountOpen(start, d, holidays) == n
  }

  // ---------------------------------------------------------------- why the loops end

  /** Days from `d` to the next day that is not on a weekend, at least one. */
  function StepsToWeekday(d: int): int {
    if Weekday(d) == 4 then 3 else if Weekday(d) == 5 then 2 else 1
  }

  /** All holidays lie before `horizon`. */
  predicate Before(holidays: set<int>, horizon: int) {
    forall h :: h in holidays ==> h < horizon
  }

  lemma {:induction false} SomeHorizon(holidays: set<int>) returns (horizon: int)
    ensures Before(holidays, horizon)
    decreases holidays
  {
    if holidays == {} {
      horizon := 0;
    } else {
      HasInt(holidays);
      var h :| h in holidays;
      horizon := SomeHorizon(holidays - {h});
      assert forall x :: x in holidays ==> x == h || x in holidays - {h};
      horizon := if h < horizon then horizon else h + 1;
    }
  }

  /** How long a search from `d` may still take: first through the holidays, then over a weekend. */
  function Slack(d: int, horizon: int): nat {
    3 * (if d < horizon then horizon - d else 0) + StepsToWeekday(d)
  }

  lemma SlackShrinks(d: int, horizon: int, holidays: set<int>)
    requires Before(holidays, horizon) && !IsOpen(d + 1, holidays)
    ensures Slack(d + 1, horizon) < Slack(d, horizon)
  {}

  // ---------------------------------------------------------------- the loops

  lemma CountStep(start: int, end: int, holidays: set<int>)
    ensures end < start ==> CountOpen(start, end, holidays) == 0
    ensures start <= end ==> CountOpen(start, end, holidays) == CountOpen(start, end - 1, holidays) + if IsOpen(end, holidays) then 1 else 0
  {}

  /** Counts `start` itself when it is a business day. */
  method AddBusinessDays(start: int, n: int) returns (r: Result)
    ensures n < 0 <==> r == ValueError
    ensures n == 0 ==> r == Day(start)
    ensures n >= 1 ==> r.Day? && IsNth(start, n, r.day, {})
  {
    if n < 0 {
      return ValueError;
    }
    hide CountOpen, IsOpen, StepsToWeekday;
    var day, counted := start, 0;
    CountStep(start, start - 1, {});
    while true
      invariant counted == CountOpen(start, day - 1, {})
      invariant start <= day && 0 <= counted <= n && (n == 0 ==> day == start) && (n > 0 ==> counted < n)
      decreases n - counted, StepsToWeekday(day - 1)
    {
      CountStep(start, day, {});
      if IsOpen(day, {}) {
        counted := counted + 1;
      }
      if counted >= n {
        return Day(day);
      }
      day := day + 1;
    }
  }

  method BusinessDaysBetween(start: int, end: int) returns (count: nat)
    ensures count == CountOpen(start, end, {})
  {
    count := 0;
    var day := start;
    while day <= end
      invariant count == CountOpen(start, day - 1, {})
      invariant start <= day && (day <= end + 1 || day == start)
      decreases end - day
    {
      if IsOpen(day, {}) {
        count := count + 1;
      }
      day := day + 1;
    }
    if day != end + 1 {
      assert end < start;
    }
  }

  /** Counting begins with the day after `start`; holidays do not count. */
  method AddOpenDays(start: int, n: int, holidays: set<int>) returns (d: int)
    ensures n <= 0 ==> d == start
    ensures n >= 1 ==> IsNth(start + 1, n, d, holidays)
  {
    ghost var horizon := SomeHorizon(holidays);
    d := start;
    var remaining := n;
    while remaining > 0
      invariant start <= d && (n <= 0 ==> d == start && remaining == n)
      invariant n >= 1 ==> 0 <= remaining && CountOpen(start + 1, d, holidays) == n - remaining
      invariant n >= 1 && remaining < n ==> start < d
      invariant n >= 1 && remaining == 0 ==> IsOpen(d, holidays)
      decreases remaining, Slack(d, horizon)
    {
      if !IsOpen(d + 1, holidays) {
        SlackShrinks(d, horizon, holidays);
      }
      d := d + 1;
      if IsOpen(d, holidays) {
        remaining := remaining - 1;
      }
    }
  }

  /** The least business day not before `from`. */
  method RollForward(from: int, holidays: set<int>) returns (d: int)
    ensures from <= d && IsOpen(d, holidays)
    ensures forall e :: from <= e && IsOpen(e, holidays) ==> d <= e
  {
    ghost var horizon := SomeHorizon(holidays);
    d := from;
    while !IsOpen(d, holidays)
      invariant from <= d && forall e :: from <= e < d ==> !IsOpen(e, holidays)
      decreases Slack(d - 1, horizon)
    {
      SlackShrinks(d - 1, horizon, holidays);
      d := d + 1;
    }
  }

  // ---------------------------------------------------------------- searching undoes counting

  lemma {:induction false} CountGrows(start: int, d: int, e: int, holidays: set<int>)
    requires d <= e
    ensures CountOpen(start, d, holidays) <= CountOpen(start, e, holidays)
    decreases e - d
  {
    if d < e {
      CountGrows(start, d, e - 1, holidays);
    }
  }

  /** The n-th business day is where the count reaches n. */
  lemma NthIsThreshold(start: int, n: int, d: int, e: int, holidays: set<int>)
    requires n >= 1 && IsNth(start, n, d, holidays)
    ensures CountOpen(start, e, holidays) >= n <==> e >= d
  {
    if e >= d {
      CountGrows(start, d, e, holidays);
    } else {
      CountGrows(start, e, d - 1, holidays);
    }
  }

  /** There is only one n-th business day. */
  lemma NthUnique(start: int, n: int, d: int, d': int, holidays: set<int>)
    requires n >= 1 && IsNth(start, n, d, holidays) && IsNth(start, n, d', holidays)
    ensures d == d'
  {
    NthIsThreshold(start, n, d, d', holidays);
    NthIsThreshold(start, n, d', d, holidays);
  }

  /** Searching is the inverse of counting for at least one day, and only then: for zero days the
      search stays at `start` although the count is never below zero. */
  lemma SearchInvertsCount(start: int, n: nat, d: int)
    requires if n == 0 then d == start else IsNth(start, n, d, {})
    ensures (forall e :: CountOpen(start, e, {}) >= n <==> e >= d) <==> n >= 1
  {
    if n >= 1 {
      forall e
        ensures CountOpen(start, e, {}) >= n <==> e >= d
      {
        NthIsThreshold(start, n, d, e, {});
      }
    } else {
      assert CountOpen(start, start - 1, {}) >= n;
    }
  }

  lemma {:induction false} CountSplit(start: int, d: int, holidays: set<int>)
    requires start <= d
    ensures CountOpen(start, d, holidays) == CountOpen(start + 1, d, holidays) + if IsOpen(start, holidays) then 1 else 0
    decreases d - start
  {
    if start < d {
      CountSplit(start, d - 1, holidays);
    }
  }

  /** Counting the start day gains exactly one day, and only when it is a business day. */
  lemma StartDayCounted(start: int, n: nat, d: int, holidays: set<int>)
    requires n >= 1
    ensures IsNth(start + 1, n, d, holidays) <==>
      start < d && IsNth(start, n + (if IsOpen(start, holidays) then 1 else 0), d, holidays)
  {
    if start <= d {
      CountSplit(start, d, holidays);
    }
  }
}
