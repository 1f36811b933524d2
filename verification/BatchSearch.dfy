/** Rule B3, twice: the engine's subset search in order of size and then of index tuple, and the
    reference matcher's search for a contiguous oldest-first run. */
module BatchSearch {
  import opened Common
  import opened ReconModel

  // ---------------------------------------------------------------- combinations

  /** A strictly increasing tuple of `k` indices from `lo` to below `n`. */
  predicate IsTuple(t: seq<nat>, lo: nat, n: nat, k: nat) {
    && |t| == k
    && (forall i :: 0 <= i < k ==> lo <= t[i] < n)
    && (forall i, j :: 0 <= i < j < k ==> t[i] < t[j])
  }

  predicate LexLess(a: seq<nat>, b: seq<nat>) {
    a != [] && b != [] && (a[0] < b[0] || (a[0] == b[0] && LexLess(a[1..], b[1..])))
  }

  function Prepend(x: nat, tuples: seq<seq<nat>>): seq<seq<nat>> {
    seq(|tuples|, i requires 0 <= i < |tuples| => [x] + tuples[i])
  }

  /** The enumeration of `itertools.combinations` over the indices from `lo` to below `n`. */
  function Combinations(lo: nat, n: nat, k: nat): seq<seq<nat>>
    requires lo <= n
    decreases n - lo
  {
    if k == 0 then [[]]
    else if lo == n then []
    else Prepend(lo, Combinations(lo + 1, n, k - 1)) + Combinations(lo + 1, n, k)
  }

  /** Only increasing index tuples are visited. */
  lemma {:induction false} CombinationsSound(lo: nat, n: nat, k: nat, p: nat)
    requires lo <= n && p < |Combinations(lo, n, k)|
    ensures IsTuple(Combinations(lo, n, k)[p], lo, n, k)
    decreases n - lo
  {
    if k > 0 && lo < n {
      var with := Combinations(lo + 1, n, k - 1);
      if p < |with| {
        CombinationsSound(lo + 1, n, k - 1, p);
      } else {
        CombinationsSound(lo + 1, n, k, p - |with|);
      }
    }
  }

  /** Every increasing index tuple is visited. */
  lemma {:induction false} CombinationsComplete(t: seq<nat>, lo: nat, n: nat, k: nat) returns (p: nat)
    requires lo <= n && IsTuple(t, lo, n, k)
    ensures p < |Combinations(lo, n, k)| && Combinations(lo, n, k)[p] == t
    decreases n - lo
  {
    hide Combinations, IsTuple;
    TupleTail(t, lo, n, k);
    if k == 0 {
      p := 0;
      CombinationsOfNone(lo, n);
    } else {
      if t[0] == lo {
        p := CombinationsComplete(t[1..], lo + 1, n, k - 1);
      } else {
        p := CombinationsComplete(t, lo + 1, n, k);
        p := p + |Combinations(lo + 1, n, k - 1)|;
      }
      CombinationsAt(lo, n, k, p);
    }
  }

  lemma CombinationsOfNone(lo: nat, n: nat)
    requires lo <= n
    ensures Combinations(lo, n, 0) == [[]]
  {}

  lemma CombinationsAt(lo: nat, n: nat, k: nat, p: nat)
    requires lo < n && k > 0
    ensures var with, without := Combinations(lo + 1, n, k - 1), Combinations(lo + 1, n, k);
      && |Combinations(lo, n, k)| == |with| + |without|
      && (p < |with| ==> Combinations(lo, n, k)[p] == [lo] + with[p])
      && (|with| <= p < |with| + |without| ==> Combinations(lo, n, k)[p] == without[p - |with|])
  {}

  lemma TupleTail(t: seq<nat>, lo: nat, n: nat, k: nat)
    requires IsTuple(t, lo, n, k)
    ensures |t| == k && (k == 0 ==> t == [])
    ensures k > 0 ==> lo <= t[0] < n && t == [t[0]] + t[1..]
    ensures k > 0 && t[0] == lo ==> IsTuple(t[1..], lo + 1, n, k - 1)
    ensures k > 0 && t[0] != lo ==> IsTuple(t, lo + 1, n, k)
  {}

  /** Tuples are visited once each, in lexicographic order. */
  lemma {:induction false} CombinationsOrdered(lo: nat, n: nat, k: nat, p: nat, q: nat)
    requires lo <= n && p < q < |Combinations(lo, n, k)|
    ensures LexLess(Combinations(lo, n, k)[p], Combinations(lo, n, k)[q])
    ensures Combinations(lo, n, k)[p] != Combinations(lo, n, k)[q]
    decreases n - lo
  {
    hide LexLess, Combinations, IsTuple;
    LexIrreflexive(Combinations(lo, n, k)[p]);
    FewCombinations(lo, n, k);
    CombinationsAt(lo, n, k, p);
    CombinationsAt(lo, n, k, q);
    var with, without := Combinations(lo + 1, n, k - 1), Combinations(lo + 1, n, k);
    if q < |with| {
      CombinationsOrdered(lo + 1, n, k - 1, p, q);
      LexPrepend(lo, with[p], lo, with[q]);
    } else if |with| <= p {
      CombinationsOrdered(lo + 1, n, k, p - |with|, q - |with|);
    } else {
      CombinationsSound(lo + 1, n, k, q - |with|);
      var u := without[q - |with|];
      TupleTail(u, lo + 1, n, k);
      LexPrepend(lo, with[p], u[0], u[1..]);
    }
  }

  lemma FewCombinations(lo: nat, n: nat, k: nat)
    requires lo <= n
    ensures lo == n || k == 0 ==> |Combinations(lo, n, k)| <= 1
  {}

  lemma LexPrepend(x: nat, a: seq<nat>, y: nat, b: seq<nat>)
    ensures LexLess([x] + a, [y] + b) <==> x < y || (x == y && LexLess(a, b))
  {
    assert ([x] + a)[1..] == a && ([y] + b)[1..] == b;
  }

  lemma {:induction false} LexIrreflexive(a: seq<nat>)
    ensures !LexLess(a, a)
  {
    if a != [] {
      LexIrreflexive(a[1..]);
    }
  }

  // ---------------------------------------------------------------- what a batch is

  function Pick(invs: seq<Invoice>, t: seq<nat>): seq<Invoice>
    requires forall i :: 0 <= i < |t| ==> t[i] < |invs|
  {
    seq(|t|, i requires 0 <= i < |t| => invs[t[i]])
  }

  function Latest(invs: seq<Invoice>): (d: int)
    requires invs != []
    ensures exists inv :: inv in invs && inv.due == d
    ensures forall inv :: inv in invs ==> inv.due <= d
  {
    if |invs| == 1 then invs[0].due
    else
      var d := Latest(invs[1..]);
      assert invs == [invs[0]] + invs[1..];
      if d < invs[0].due then invs[0].due else d
  }

  function Earliest(invs: seq<Invoice>): (d: int)
    requires invs != []
    ensures exists inv :: inv in invs && inv.due == d
    ensures forall inv :: inv in invs ==> d <= inv.due
  {
    if |invs| == 1 then invs[0].due
    else
      var d := Earliest(invs[1..]);
      assert invs == [invs[0]] + invs[1..];
      if invs[0].due < d then invs[0].due else d
  }

  /** Paid together by `amount`: the sum agrees and the due dates lie within the window. */
  predicate IsBatch(combo: seq<Invoice>, amount: int) {
    && combo != []
    && AmountsAgree(Total(combo), amount)
    && Latest(combo) - Earliest(combo) <= BATCH_WINDOW
  }

  /** `t` names a batch among `invs`. */
  predicate NamesBatch(invs: seq<Invoice>, amount: int, t: seq<nat>) {
    && IsTuple(t, 0, |invs|, |t|)
    && BATCH_MIN <= |t| <= BATCH_MAX
    && IsBatch(Pick(invs, t), amount)
  }

  /** Smaller batches come first; among batches of one size, the lexicographically least tuple. */
  predicate ComesBefore(t: seq<nat>, u: seq<nat>) {
    |t| < |u| || (|t| == |u| && LexLess(t, u))
  }

  /** `t` names the first batch. */
  ghost predicate NamesFirstBatch(invs: seq<Invoice>, amount: int, t: seq<nat>) {
    && NamesBatch(invs, amount, t)
    && forall u :: NamesBatch(invs, amount, u) && u != t ==> ComesBefore(t, u)
  }

  // ---------------------------------------------------------------- the subset search

  /** The invoices of the `p`-th combination. */
  function Combo(invs: seq<Invoice>, size: nat, p: nat): (r: seq<Invoice>)
    requires p < |Combinations(0, |invs|, size)|
    ensures |r| == size
  {
    CombinationsSound(0, |invs|, size, p);
    Pick(invs, Combinations(0, |invs|, size)[p])
  }

  /** First position from `p` on whose tuple picks a batch. */
  function FirstHit(invs: seq<Invoice>, amount: int, size: nat, p: nat): (h: nat)
    requires p <= |Combinations(0, |invs|, size)|
    ensures p <= h <= |Combinations(0, |invs|, size)|
    decreases |Combinations(0, |invs|, size)| - p
  {
    if p == |Combinations(0, |invs|, size)| then p
    else if IsBatch(Combo(invs, size, p), amount) then p
    else FirstHit(invs, amount, size, p + 1)
  }

  /** The batch of the smallest size from `size` on, or the empty list. */
  function FromSize(invs: seq<Invoice>, amount: int, size: nat): seq<Invoice>
    decreases BATCH_MAX + 1 - size
  {
    if size > Min(|invs|, BATCH_MAX) then []
    else
      var combos := Combinations(0, |invs|, size);
      var h := FirstHit(invs, amount, size, 0);
      if h == |combos| then FromSize(invs, amount, size + 1) else Combo(invs, size, h)
  }

  /** What the engine's rule B3 pays; the empty list stands for no batch. */
  function BatchFinder(invoices: seq<Invoice>, amount: int): seq<Invoice> {
    var invs := SortByAge(invoices);
    if |invs| < BATCH_MIN || |invs| > BATCH_CAP then [] else FromSize(invs, amount, BATCH_MIN)
  }

  method FindBatch(invoices: seq<Invoice>, amount: int) returns (r: seq<Invoice>)
    ensures r == BatchFinder(invoices, amount)
  {
    hide Combo, Combinations, SortByAge;
    var invs := SortByAge(invoices);
    if |invs| < BATCH_MIN {
      return [];
    }
    if |invs| > BATCH_CAP {
      return [];
    }
    var top := Min(|invs|, BATCH_MAX);
    for size := BATCH_MIN to top + 1
      invariant FromSize(invs, amount, BATCH_MIN) == FromSize(invs, amount, size)
    {
      var combos := Combinations(0, |invs|, size);
      for p := 0 to |combos|
        invariant FirstHit(invs, amount, size, 0) == FirstHit(invs, amount, size, p)
      {
        var combo := Combo(invs, size, p);
        var total := Total(combo);
        if Abs(total - amount) > TOLERANCE {
          continue;
        }
        var span := Latest(combo) - Earliest(combo);
        if span <= BATCH_WINDOW {
          return combo;
        }
      }
    }
    return [];
  }

  lemma {:induction false} FirstHitIsFirst(invs: seq<Invoice>, amount: int, size: nat, p: nat, q: nat)
    requires p <= |Combinations(0, |invs|, size)|
    ensures var combos, h := Combinations(0, |invs|, size), FirstHit(invs, amount, size, p);
      && (h < |combos| ==> IsTuple(combos[h], 0, |invs|, size) && IsBatch(Pick(invs, combos[h]), amount))
      && (p <= q < h ==> IsTuple(combos[q], 0, |invs|, size) && !IsBatch(Pick(invs, combos[q]), amount))
    decreases |Combinations(0, |invs|, size)| - p
  {
    hide IsBatch, Combinations;
    if p < |Combinations(0, |invs|, size)| {
      CombinationsSound(0, |invs|, size, p);
      FirstHitIsFirst(invs, amount, size, p + 1, q);
    }
  }

  /** One size: the hit names the first batch of that size, and without a hit there is none. */
  lemma SizeSearch(invs: seq<Invoice>, amount: int, size: nat, u: seq<nat>)
    requires BATCH_MIN <= size <= BATCH_MAX
    ensures var combos, h := Combinations(0, |invs|, size), FirstHit(invs, amount, size, 0);
      && (h < |combos| ==> |combos[h]| == size && NamesBatch(invs, amount, combos[h]))
      && (|u| == size && NamesBatch(invs, amount, u) ==> h < |combos| && (u == combos[h] || LexLess(combos[h], u)))
  {
    hide IsBatch, Combinations, FirstHit, LexLess;
    var h := FirstHit(invs, amount, size, 0);
    FirstHitIsFirst(invs, amount, size, 0, 0);
    if |u| == size && NamesBatch(invs, amount, u) {
      var q := CombinationsComplete(u, 0, |invs|, size);
      FirstHitIsFirst(invs, amount, size, 0, q);
      if h < q {
        CombinationsOrdered(0, |invs|, size, h, q);
      }
    }
  }

  /** From a size on: the result is the first batch of that size or more, or there is none. */
  lemma {:induction false} FromSizeExact(invs: seq<Invoice>, amount: int, size: nat) returns (t: seq<nat>)
    requires BATCH_MIN <= size
    ensures var r := FromSize(invs, amount, size);
      && (r == [] ==> forall u :: NamesBatch(invs, amount, u) ==> |u| < size)
      && (r != [] ==> size <= |t| && NamesBatch(invs, amount, t) && r == Pick(invs, t))
      && (r != [] ==> forall u :: NamesBatch(invs, amount, u) && size <= |u| && u != t ==> ComesBefore(t, u))
    decreases BATCH_MAX + 1 - size
  {
    hide IsBatch, Combinations, FirstHit, LexLess;
    t := [];
    if size <= Min(|invs|, BATCH_MAX) {
      var combos, h := Combinations(0, |invs|, size), FirstHit(invs, amount, size, 0);
      SizeSearch(invs, amount, size, []);
      forall u | NamesBatch(invs, amount, u) && |u| == size
        ensures h < |combos| && (u == combos[h] || LexLess(combos[h], u))
      {
        SizeSearch(invs, amount, size, u);
      }
      if h < |combos| {
        t := combos[h];
      } else {
        t := FromSizeExact(invs, amount, size + 1);
      }
    } else {
      forall u | NamesBatch(invs, amount, u)
        ensures |u| < size
      {
        TupleFits(u, 0, |invs|, |u|);
      }
    }
  }

  lemma {:induction false} TupleFits(t: seq<nat>, lo: nat, n: nat, k: nat)
    requires lo <= n && IsTuple(t, lo, n, k)
    ensures k <= n - lo
    decreases k
  {
    if k > 0 {
      TupleFits(t[1..], t[0] + 1, n, k - 1);
    }
  }

  /** `find_batch` is sound, complete and first: within the cap it returns the first batch, and
      the empty list exactly when the list is over the cap or holds no batch at all. */
  lemma FindBatchExact(invoices: seq<Invoice>, amount: int)
    ensures var invs, r := SortByAge(invoices), BatchFinder(invoices, amount);
      && (r != [] <==> |invs| <= BATCH_CAP && exists t :: NamesBatch(invs, amount, t))
      && (r != [] ==> exists t :: NamesFirstBatch(invs, amount, t) && r == Pick(invs, t))
  {
    hide IsBatch, FromSize, LexLess;
    var invs := SortByAge(invoices);
    if BATCH_MIN <= |invs| <= BATCH_CAP {
      var t := FromSizeExact(invs, amount, BATCH_MIN);
      if FromSize(invs, amount, BATCH_MIN) != [] {
        assert NamesFirstBatch(invs, amount, t);
      }
    } else {
      forall u | NamesBatch(invs, amount, u)
        ensures BATCH_MIN <= |invs|
      {
        TupleFits(u, 0, |invs|, |u|);
      }
    }
  }

  // ---------------------------------------------------------------- the contiguous run

  /** `s[i..j + 1]` is a run that pays `amount`. */
  predicate IsRun(s: seq<Invoice>, amount: int, i: nat, j: nat) {
    && i + BATCH_MIN - 1 <= j < |s| && j < i + BATCH_MAX
    && s[j].due - s[i].due <= BATCH_WINDOW
    && AmountsAgree(Total(s[i..j + 1]), amount)
  }

  /** First run in the order of the two nested loops, from position (i, j) on. */
  function FirstRun(s: seq<Invoice>, amount: int, i: nat, j: nat): (nat, nat)
    requires i <= |s|
    decreases |s| - i, |s| - j
  {
    if i == |s| then (|s|, |s|)
    else if j >= Min(|s|, i + BATCH_MAX) then FirstRun(s, amount, i + 1, i + BATCH_MIN)
    else if IsRun(s, amount, i, j) then (i, j)
    else FirstRun(s, amount, i, j + 1)
  }

  /** What the reference matcher's rule B3 pays; the empty list stands for no run. */
  function RunFinder(s: seq<Invoice>, amount: int): seq<Invoice> {
    var (i, j) := FirstRun(s, amount, 0, BATCH_MIN - 1);
    if i < |s| && j < |s| && i <= j then s[i..j + 1] else []
  }

  predicate RunBefore(i: nat, j: nat, i': nat, j': nat) {
    i < i' || (i == i' && j < j')
  }

  lemma {:induction false} FirstRunIsFirst(s: seq<Invoice>, amount: int, i: nat, j: nat, i': nat, j': nat)
    requires i <= |s| && i + BATCH_MIN - 1 <= j
    ensures var (x, y) := FirstRun(s, amount, i, j);
      && (x < |s| ==> IsRun(s, amount, x, y) && !RunBefore(x, y, i, j))
      && (x >= |s| ==> x == |s| && y == |s|)
      && (IsRun(s, amount, i', j') && !RunBefore(i', j', i, j) ==> x < |s| && !RunBefore(i', j', x, y))
    decreases |s| - i, |s| - j
  {
    if i < |s| {
      if j >= Min(|s|, i + BATCH_MAX) {
        FirstRunIsFirst(s, amount, i + 1, i + BATCH_MIN, i', j');
      } else if !IsRun(s, amount, i, j) {
        FirstRunIsFirst(s, amount, i, j + 1, i', j');
      }
    }
  }

  /** `s[i..j + 1]` is the run with the earliest start and, from there, the shortest. */
  ghost predicate IsFirstRun(s: seq<Invoice>, amount: int, i: nat, j: nat) {
    && IsRun(s, amount, i, j)
    && forall i': nat, j': nat :: IsRun(s, amount, i', j') ==> !RunBefore(i', j', i, j)
  }

  /** The contiguous search returns the run with the earliest start and then the shortest length,
      and nothing exactly when there is no run. */
  lemma RunFinderExact(s: seq<Invoice>, amount: int)
    ensures RunFinder(s, amount) != [] <==> exists i: nat, j: nat :: IsRun(s, amount, i, j)
    ensures RunFinder(s, amount) != [] ==>
      exists i: nat, j: nat :: IsFirstRun(s, amount, i, j) && RunFinder(s, amount) == s[i..j + 1]
  {
    hide FirstRun;
    var (x, y) := FirstRun(s, amount, 0, BATCH_MIN - 1);
    FirstRunIsFirst(s, amount, 0, BATCH_MIN - 1, 0, 0);
    forall i': nat, j': nat | IsRun(s, amount, i', j')
      ensures x < |s| && !RunBefore(i', j', x, y)
    {
      FirstRunIsFirst(s, amount, 0, BATCH_MIN - 1, i', j');
    }
    if x < |s| {
      assert IsFirstRun(s, amount, x, y);
    }
  }

  /** The loops of the reference matcher, which look at every slice and keep the least key. */
  method FindRun(s: seq<Invoice>, amount: int) returns (r: seq<Invoice>)
    ensures r == RunFinder(s, amount)
  {
    var found, bi, bj := false, 0, 0;
    for i := 0 to |s|
      invariant found ==> IsRun(s, amount, bi, bj)
      invariant forall i': nat, j': nat :: IsRun(s, amount, i', j') && i' < i ==> found && !RunBefore(i', j', bi, bj)
    {
      for j := i + BATCH_MIN - 1 to Bound(i, |s|)
        invariant found ==> IsRun(s, amount, bi, bj)
        invariant forall i': nat, j': nat :: IsRun(s, amount, i', j') && RunBefore(i', j', i, j) ==> found && !RunBefore(i', j', bi, bj)
      {
        if s[j].due - s[i].due > BATCH_WINDOW {
          continue;
        }
        var sum := Total(s[i..j + 1]);
        if Abs(sum - amount) <= TOLERANCE {
          if !found || i < bi || (i == bi && j - i < bj - bi) {
            found, bi, bj := true, i, j;
          }
        }
      }
    }
    r := if found then s[bi..bj + 1] else [];
    RunFinderExact(s, amount);
  }

  /** Upper bound of the inner loop; a Python range that ends before it starts is empty. */
  function Bound(i: nat, n: nat): nat {
    var top := Min(n, i + BATCH_MAX);
    if top < i + BATCH_MIN - 1 then i + BATCH_MIN - 1 else top
  }

  // ---------------------------------------------------------------- the two searches compared

  function Slice(i: nat, n: nat): seq<nat> {
    seq(n, k requires 0 <= k < n => i + k)
  }

  /** A run is in particular a batch. */
  lemma RunIsBatch(s: seq<Invoice>, amount: int, i: nat, j: nat)
    requires OldestFirst(s) && IsRun(s, amount, i, j)
    ensures NamesBatch(s, amount, Slice(i, j + 1 - i))
    ensures Pick(s, Slice(i, j + 1 - i)) == s[i..j + 1]
  {
    hide Total, Latest, Earliest, IsTuple, OldestFirst, Slice, Pick;
    SliceIsTuple(s, i, j + 1);
    RunWindow(s, amount, i, j);
  }

  lemma SliceIsTuple(s: seq<Invoice>, i: nat, k: nat)
    requires i < k <= |s|
    ensures var t := Slice(i, k - i); IsTuple(t, 0, |s|, |t|) && |t| == k - i && Pick(s, t) == s[i..k]
  {}

  lemma RunWindow(s: seq<Invoice>, amount: int, i: nat, j: nat)
    requires OldestFirst(s) && IsRun(s, amount, i, j)
    ensures Latest(s[i..j + 1]) - Earliest(s[i..j + 1]) <= BATCH_WINDOW
  {
    hide Total, Latest, Earliest;
    var run := s[i..j + 1];
    forall inv | inv in run
      ensures s[i].due <= inv.due <= s[j].due
    {
      var k :| 0 <= k < |run| && run[k] == inv;
      assert inv == s[i + k];
    }
  }

  /** Whenever the contiguous search finds a run within the cap, the subset search also finds a
      batch, and one of no greater size. */
  lemma RunImpliesBatch(s: seq<Invoice>, amount: int)
    requires OldestFirst(s) && |s| <= BATCH_CAP
    ensures RunFinder(s, amount) != [] ==>
      BatchFinder(s, amount) != [] && |BatchFinder(s, amount)| <= |RunFinder(s, amount)|
  {
    hide FirstRun, IsBatch, FromSize;
    SortFixesSorted(s);
    RunFinderExact(s, amount);
    FindBatchExact(s, amount);
    if RunFinder(s, amount) != [] {
      var i: nat, j: nat :| IsFirstRun(s, amount, i, j) && RunFinder(s, amount) == s[i..j + 1];
      RunIsBatch(s, amount, i, j);
      assert NamesBatch(s, amount, Slice(i, j + 1 - i));
      var t :| NamesFirstBatch(s, amount, t) && BatchFinder(s, amount) == Pick(s, t);
    }
  }

  lemma FirstBatchOf(s: seq<Invoice>, amount: int) returns (t: seq<nat>)
    requires OldestFirst(s) && |s| <= BATCH_CAP
    ensures BatchFinder(s, amount) == [] <==> forall u :: !NamesBatch(s, amount, u)
    ensures BatchFinder(s, amount) != [] ==> NamesFirstBatch(s, amount, t) && BatchFinder(s, amount) == Pick(s, t)
  {
    hide BatchFinder, IsBatch, OldestFirst, ComesBefore;
    SortFixesSorted(s);
    FindBatchExact(s, amount);
    t := [];
    if BatchFinder(s, amount) != [] {
      t :| NamesFirstBatch(s, amount, t) && BatchFinder(s, amount) == Pick(s, t);
    }
  }

  lemma FirstRunOf(s: seq<Invoice>, amount: int) returns (i: nat, j: nat)
    ensures RunFinder(s, amount) == [] <==> forall i': nat, j': nat :: !IsRun(s, amount, i', j')
    ensures RunFinder(s, amount) != [] ==> IsFirstRun(s, amount, i, j) && RunFinder(s, amount) == s[i..j + 1]
  {
    hide RunFinder;
    RunFinderExact(s, amount);
    i, j := 0, 0;
    if RunFinder(s, amount) != [] {
      i, j :| IsFirstRun(s, amount, i, j) && RunFinder(s, amount) == s[i..j + 1];
    }
  }

  /** The first run is also the first batch: no smaller batch exists, and none of its size before it. */
  ghost predicate RunComesFirst(s: seq<Invoice>, amount: int) {
    exists i: nat, j: nat :: IsFirstRun(s, amount, i, j) && NoneBefore(s, amount, i, j)
  }

  ghost predicate NoneBefore(s: seq<Invoice>, amount: int, i: nat, j: nat) {
    i <= j && forall u :: NamesBatch(s, amount, u) ==> !ComesBefore(u, Slice(i, j + 1 - i))
  }

  /** Within the cap both searches give the same answer exactly when there is no batch at all, or the
      first run is also the first batch. */
  lemma FindersAgree(s: seq<Invoice>, amount: int)
    requires OldestFirst(s) && DistinctIds(s) && |s| <= BATCH_CAP
    ensures RunFinder(s, amount) == BatchFinder(s, amount) <==>
      (forall u :: !NamesBatch(s, amount, u)) || RunComesFirst(s, amount)
  {
    hide RunFinder, BatchFinder, NamesBatch, IsRun, Pick, NoneBefore, OldestFirst, DistinctIds;
    var t := FirstBatchOf(s, amount);
    var i, j := FirstRunOf(s, amount);
    RunImpliesBatch(s, amount);
    if RunFinder(s, amount) != [] {
      RunBounds(s, amount, i, j);
      RunIsBatch(s, amount, i, j);
      FirstOrNot(s, amount, i, j, t);
    }
  }

  lemma RunBounds(s: seq<Invoice>, amount: int, i: nat, j: nat)
    requires IsRun(s, amount, i, j)
    ensures i < j < |s|
  {
    hide Total;
  }

  lemma FirstOrNot(s: seq<Invoice>, amount: int, i: nat, j: nat, t: seq<nat>)
    requires DistinctIds(s) && i < j < |s| && NamesBatch(s, amount, Slice(i, j + 1 - i)) && NamesFirstBatch(s, amount, t)
    ensures Pick(s, t) == s[i..j + 1] <==> NoneBefore(s, amount, i, j)
  {
    hide IsBatch, LexLess, Pick, Slice, IsTuple;
    var run := Slice(i, j + 1 - i);
    SliceIsTuple(s, i, j + 1);
    PickInjective(s, t, run);
    if t == run {
      forall u | NamesBatch(s, amount, u)
        ensures !ComesBefore(u, run)
      {
        BeforeAsymmetric(u, run);
        LexIrreflexive(run);
      }
    }
  }

  lemma PickInjective(s: seq<Invoice>, t: seq<nat>, u: seq<nat>)
    requires DistinctIds(s) && IsTuple(t, 0, |s|, |t|) && IsTuple(u, 0, |s|, |u|)
    ensures Pick(s, t) == Pick(s, u) ==> t == u
  {
    if Pick(s, t) == Pick(s, u) {
      assert |t| == |Pick(s, t)| && |u| == |Pick(s, u)|;
      forall k | 0 <= k < |t|
        ensures t[k] == u[k]
      {
        assert Pick(s, t)[k] == s[t[k]] && Pick(s, u)[k] == s[u[k]];
      }
    }
  }

  lemma {:induction false} LexAsymmetric(a: seq<nat>, b: seq<nat>)
    ensures !(LexLess(a, b) && LexLess(b, a))
  {
    if a != [] && b != [] {
      LexAsymmetric(a[1..], b[1..]);
    }
  }

  lemma BeforeAsymmetric(t: seq<nat>, u: seq<nat>)
    ensures !(ComesBefore(t, u) && ComesBefore(u, t))
  {
    hide LexLess;
    LexAsymmetric(t, u);
  }

  /** The worked example of the rules document. */
  function ExampleInvoices(): seq<Invoice> {
    [Invoice(501, 1, "", 12000, 0, true), Invoice(507, 1, "", 8000, 16, true), Invoice(512, 1, "", 20000, 30, true),
     Invoice(520, 1, "", 8000, 49, true), Invoice(533, 1, "", 12000, 104, true)]
  }

  lemma TotalSlice(s: seq<Invoice>, i: nat, k: nat)
    requires i < k <= |s|
    ensures Total(s[i..k]) == s[i].amount + Total(s[i + 1..k])
  {
    assert s[i..k][1..] == s[i + 1..k];
  }

  /** On that example the searches differ for a payment of 320.00: the subset search pays the first and the
      third invoice, the contiguous search pays nothing. */
  lemma FindersDiffer()
    ensures BatchFinder(ExampleInvoices(), 32000) == Pick(ExampleInvoices(), [0, 2])
    ensures RunFinder(ExampleInvoices(), 32000) == []
  {
    hide BatchFinder, RunFinder, IsRun, NamesBatch;
    var s := ExampleInvoices();
    RunFinderExact(s, 32000);
    forall i: nat, j: nat
      ensures !IsRun(s, 32000, i, j)
    {
      NoExampleRun(i, j);
    }
    ExampleBatch();
    assert OldestFirst(s);
    var t := FirstBatchOf(s, 32000);
    BeforeExample(t);
  }

  lemma ExampleBatch()
    ensures NamesBatch(ExampleInvoices(), 32000, [0, 2]) && !NamesBatch(ExampleInvoices(), 32000, [0, 1])
  {
    hide Total, Latest, Earliest, Pick;
    var s := ExampleInvoices();
    PickTwo(s, 0, 2);
    PickTwo(s, 0, 1);
    TwoInvoices(s[0], s[2]);
    TwoInvoices(s[0], s[1]);
  }

  lemma PickTwo(s: seq<Invoice>, i: nat, j: nat)
    requires i < j < |s|
    ensures IsTuple([i, j], 0, |s|, 2) && Pick(s, [i, j]) == [s[i], s[j]]
  {}

  lemma TwoInvoices(a: Invoice, b: Invoice)
    ensures Total([a, b]) == a.amount + b.amount
    ensures Latest([a, b]) - Earliest([a, b]) == Abs(a.due - b.due)
  {
    assert [a, b][1..] == [b] && [b][1..] == [];
    assert Total([b]) == b.amount + Total([]);
  }

  lemma BeforeExample(t: seq<nat>)
    requires NamesBatch(ExampleInvoices(), 32000, t)
    ensures ComesBefore(t, [0, 2]) ==> t == [0, 1]
  {
    hide IsBatch;
    if ComesBefore(t, [0, 2]) {
      assert t == [t[0], t[1]] && t[0] < t[1];
      LexPrepend(t[0], [t[1]], 0, [2]);
      LexPrepend(t[1], [], 2, []);
      assert [t[0]] + [t[1]] == t && [0] + [2] == [0, 2] && [t[1]] + [] == [t[1]] && [2] + [] == [2];
    }
  }

  lemma NoExampleRun(i: nat, j: nat)
    ensures !IsRun(ExampleInvoices(), 32000, i, j)
  {
    hide Total;
    var s := ExampleInvoices();
    if i < j < 4 {
      TotalSlice(s, j, j + 1);
      TotalSlice(s, j - 1, j + 1);
      if j >= 2 {
        TotalSlice(s, j - 2, j + 1);
      }
      if j >= 3 {
        TotalSlice(s, j - 3, j + 1);
      }
      assert s[j + 1..j + 1] == [];
      NothingTotal();
    }
    if j == 4 && i == 3 {
      TotalSlice(s, 4, 5);
      TotalSlice(s, 3, 5);
      assert s[5..5] == [];
      NothingTotal();
    }
  }

  lemma NothingTotal()
    ensures Total([]) == 0
  {}

  // ---------------------------------------------------------------- what the engine relies on

  /** A B3 finder may be plugged into the pipeline when it pays invoices of the list it is given,
      none of them twice, and the sum agrees with the line. */
  ghost predicate SoundFinder(finder: (seq<Invoice>, int) -> seq<Invoice>) {
    forall s, amount :: SoundChoice(s, amount, finder(s, amount))
  }

  predicate SoundChoice(s: seq<Invoice>, amount: int, r: seq<Invoice>) {
    && (forall inv :: inv in r ==> inv in s)
    && (DistinctIds(s) ==> DistinctIds(r))
    && (r != [] ==> AmountsAgree(Total(r), amount))
  }

  lemma PickSound(s: seq<Invoice>, t: seq<nat>)
    requires IsTuple(t, 0, |s|, |t|)
    ensures forall inv :: inv in Pick(s, t) ==> inv in s
    ensures DistinctIds(s) ==> DistinctIds(Pick(s, t))
  {}

  lemma BatchFinderSound()
    ensures SoundFinder(BatchFinder)
  {
    forall s, amount
      ensures SoundChoice(s, amount, BatchFinder(s, amount))
    {
      hide FromSize, LexLess;
      FindBatchExact(s, amount);
      SortedByAge(s);
      if DistinctIds(s) {
        SortKeepsDistinct(s);
      }
      var r := BatchFinder(s, amount);
      if r != [] {
        var t :| NamesFirstBatch(SortByAge(s), amount, t) && r == Pick(SortByAge(s), t);
        PickSound(SortByAge(s), t);
      }
    }
  }

  lemma RunFinderSound()
    ensures SoundFinder(RunFinder)
  {
    forall s, amount
      ensures SoundChoice(s, amount, RunFinder(s, amount))
    {
      hide FirstRun;
      RunFinderExact(s, amount);
    }
  }
}
