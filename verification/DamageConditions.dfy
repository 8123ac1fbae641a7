/**
 Damage over time: how an amount is spread over a list of hits, and how a running condition works
 that list off against the clock.
 */
module DamageConditions {
  import opened Basics
  import opened ConditionTypes

  // ---------------------------------------------------------------- the damage list

  function Abs(x: int): nat { if x < 0 then -x else x }

  /** x / 2, cut towards zero. */
  function Half(x: int): int { if x < 0 then -(-x / 2) else x / 2 }

  function Sum(xs: seq<int>): int
  {
    if xs == [] then 0 else Sum(xs[..|xs| - 1]) + xs[|xs| - 1]
  }

  lemma SumSnoc(xs: seq<int>, x: int)
    ensures Sum(xs + [x]) == Sum(xs) + x
  {
    assert (xs + [x])[..|xs|] == xs;
  }

  ghost predicate NonIncreasing(xs: seq<int>)
  {
    forall i, j :: 0 <= i <= j < |xs| ==> xs[i] >= xs[j]
  }

  /** How much of the amount should have been dealt once the hits of strength `i` are through. */
  function Target(amount: nat, start: nat, i: int): int
    requires start > 0
  {
    ((start + 1 - i) * amount) / start
  }

  lemma DivBelow(x: nat, d: Step)
    ensures d * (x / d) <= x
  {}

  lemma MulAdd(d: nat, a: int, b: int)
    ensures d * (a + b) == d * a + d * b
  {}

  lemma DivSuperadditive(x: nat, y: nat, d: Step)
    ensures (x + y) / d >= x / d + y / d
  {
    var a, b := x / d, y / d;
    DivBelow(x, d);
    DivBelow(y, d);
    MulAdd(d, a, b);
    DivAtLeast(x + y, a + b, d);
  }

  lemma MulMono(d: nat, a: int, b: int)
    ensures a >= b ==> d * a >= d * b
  {}

  lemma MulCancel(d: nat, a: int, b: int)
    ensures d * a < d * b ==> a < b
  {
    if a >= b {
      MulMono(d, a, b);
    }
  }

  lemma DivAtLeast(x: nat, q: nat, d: Step)
    requires x >= d * q
    ensures x / d >= q
  {
    assert x == d * (x / d) + x % d;
    assert d * (x / d + 1) == d * (x / d) + d;
    MulCancel(d, q, x / d + 1);
  }

  /** If the amount is at least the square of the first hit, each step asks for at least that hit again. */
  lemma TargetGrows(amount: nat, start: nat, i: int)
    requires 1 <= i < start && start * start <= amount
    ensures Target(amount, start, i) >= Target(amount, start, i + 1) + start
  {
    var x := (start - i) * amount;
    assert (start + 1 - i) * amount == x + amount;
    assert x >= 0;
    DivSuperadditive(x, amount, start);
    DivAtLeast(amount, start, start);
  }

  lemma TargetEnds(amount: nat, start: nat)
    requires start > 0
    ensures Target(amount, start, 1) == amount
    ensures start * start <= amount ==> Target(amount, start, start) >= start
  {
    assert (start * amount) / start == amount by {
      DivAtLeast(start * amount, amount, start);
      assert start * amount < start * (amount + 1);
    }
    if start * start <= amount {
      assert (start + 1 - start) * amount == amount;
      DivAtLeast(amount, start, start);
    }
  }

  /** Every strength from `start` down to `i` has been used. */
  ghost predicate UsesDownTo(xs: seq<int>, start: int, i: int)
  {
    forall v :: i <= v <= start ==> v in xs
  }

  ghost predicate Within(xs: seq<int>, lo: int, hi: int)
  {
    forall k :: 0 <= k < |xs| ==> lo <= xs[k] <= hi
  }

  lemma SumNone(start: int)
    ensures Sum([]) == 0 && NonIncreasing([]) && Within([], start + 1, start) && UsesDownTo([], start, start + 1)
  {}

  /** What the hits of a strength and all stronger ones deal. */
  ghost function From(xs: seq<int>, i: int): int
  {
    if xs == [] then 0 else From(xs[..|xs| - 1], i) + if xs[|xs| - 1] >= i then xs[|xs| - 1] else 0
  }

  /**
   After the hits of strength `i` the sum is as close to the target of that strength as they can bring it: another
   one would not bring it closer, and the last one has, unless it is the only one.
   */
  ghost predicate Tracks(xs: seq<int>, total: nat, start: int, i: int)
    requires start > 0
  {
    var missing := Target(total, start, i) - From(xs, i);
    2 * missing <= i && (multiset(xs)[i] > 1 ==> 2 * (missing + i) > i)
  }

  lemma TracksStill(xs: seq<int>, x: int, total: nat, start: int, i: int)
    requires start > 0 && x < i
    ensures Tracks(xs + [x], total, start, i) <==> Tracks(xs, total, start, i)
  {
    assert (xs + [x])[..|xs|] == xs;
  }

  lemma {:induction false} FromAll(xs: seq<int>, i: int, hi: int)
    requires Within(xs, i, hi)
    ensures From(xs, i) == Sum(xs)
  {
    if xs != [] {
      FromAll(xs[..|xs| - 1], i, hi);
    }
  }

  lemma NoneYet(xs: seq<int>, i: int, hi: int)
    ensures Within(xs, i + 1, hi) ==> multiset(xs)[i] == 0
  {
  }

  lemma OnceMore(xs: seq<int>, i: int)
    ensures multiset(xs + [i])[i] == multiset(xs)[i] + 1
  {
  }

  /** All strengths above the one at hand are settled. */
  ghost predicate Settled(xs: seq<int>, total: nat, start: int, i: int)
  {
    forall v :: 0 < v && i < v <= start ==> Tracks(xs, total, start, v)
  }

  lemma SettledStill(xs: seq<int>, total: nat, start: int, i: int)
    requires Settled(xs, total, start, i)
    ensures Settled(xs + [i], total, start, i)
  {
    hide Tracks;
    forall v | 0 < v && i < v <= start ensures Tracks(xs + [i], total, start, v) {
      TracksStill(xs, i, total, start, v);
    }
  }

  lemma SettledNext(xs: seq<int>, total: nat, start: int, i: int)
    requires 0 < i <= start && Settled(xs, total, start, i) && Within(xs, i, start)
    requires 2 * (Target(total, start, i) - Sum(xs)) <= i
    requires multiset(xs)[i] > 1 ==> 2 * (Target(total, start, i) - (Sum(xs) - i)) > i
    ensures Settled(xs, total, start, i - 1)
  {
    hide Target, Sum, From;
    FromAll(xs, i, start);
  }

  /**
   generateDamageList: hits of falling strength, each at least once and repeated while that brings
   the sum closer to its target.  The comparison of distances is made exactly here: one more hit of
   strength i brings the sum closer just if twice what is missing is more than i.
   */
  method GenerateDamageList(amount: int, start: int) returns (list: seq<int>)
    ensures start <= 0 ==> list == []
    ensures Tracking(list, Abs(amount), start)
    ensures start > 0 ==> Sum(list) >= Abs(amount)
    ensures 0 < start && start * start <= Abs(amount) ==> Sum(list) == Abs(amount)
  {
    hide Sum, NonIncreasing, Target, Tracks;
    list := [];
    SumNone(start);
    var sum, total := 0, Abs(amount);
    var i := start;
    while i > 0
      invariant i <= start && (start > 0 ==> i >= 0) && (start <= 0 ==> list == [])
      invariant NonIncreasing(list) && Within(list, i + 1, start) && UsesDownTo(list, start, i + 1)
      invariant Settled(list, total, start, i)
      invariant sum == Sum(list) >= 0 && (i == start ==> sum == 0)
      invariant 0 <= i < start ==> sum >= Target(total, start, i + 1) - (i + 1) / 2
      invariant 0 < start && start * start <= total && i < start ==> 2 * sum <= 2 * Target(total, start, i + 1) + (i + 1)
    {
      var med := Target(total, start, i);
      ghost var before := sum;
      if start * start <= total {
        if i < start {
          TargetGrows(total, start, i);
        }
        TargetEnds(total, start);
      }
      NoneYet(list, i, start);
      ghost var n := 0;
      while true
        invariant NonIncreasing(list) && Within(list, i, start) && UsesDownTo(list, start, i + 1)
        invariant Settled(list, total, start, i) && multiset(list)[i] == n && (n == 0 ==> sum == before)
        invariant sum == Sum(list) >= 0
        invariant n > 0 ==> 2 * (med - sum) > i && i in list
        decreases med - sum, n == 0
      {
        SumSnoc(list, i);
        Snoc(list, i, start);
        SettledStill(list, total, start, i);
        OnceMore(list, i);
        sum, n := sum + i, n + 1;
        list := list + [i];
        if !(2 * (med - sum) > i) { break; }
      }
      SettledNext(list, total, start, i);
      i := i - 1;
    }
    if start > 0 {
      TargetEnds(total, start);
    }
  }

  lemma Snoc(list: seq<int>, i: int, start: int)
    requires NonIncreasing(list) && Within(list, i, start) && UsesDownTo(list, start, i + 1) && i <= start
    ensures NonIncreasing(list + [i]) && Within(list + [i], i, start) && UsesDownTo(list + [i], start, i)
  {
    forall v | i <= v <= start ensures v in list + [i] {
      assert v in list || v == i;
    }
  }

  /** All that generateDamageList says of its list. */
  ghost predicate Tracking(xs: seq<int>, total: nat, start: int)
  {
    && NonIncreasing(xs) && Within(xs, 1, start) && UsesDownTo(xs, start, 1)
    && forall i :: 0 < i <= start ==> Tracks(xs, total, start, i)
  }

  /** How many hits have a strength of at least `i`. */
  ghost function Above(xs: seq<int>, i: int): nat
  {
    if xs == [] then 0 else Above(xs[..|xs| - 1], i) + if xs[|xs| - 1] >= i then 1 else 0
  }

  lemma {:induction false} AboveNext(xs: seq<int>, i: int)
    ensures Above(xs, i) == Above(xs, i + 1) + multiset(xs)[i] && From(xs, i) == From(xs, i + 1) + multiset(xs)[i] * i
  {
    if xs != [] {
      var front, last := xs[..|xs| - 1], xs[|xs| - 1];
      AboveNext(front, i);
      CountSnoc(front, last, i);
      assert xs == front + [last];
    }
  }

  lemma CountSnoc(xs: seq<int>, x: int, i: int)
    ensures multiset(xs + [x])[i] == multiset(xs)[i] + if x == i then 1 else 0
    ensures multiset(xs + [x])[i] * i == multiset(xs)[i] * i + if x == i then i else 0
  {
    var n, m := multiset(xs)[i], multiset(xs + [x])[i];
    if x == i {
      assert m == n + 1;
      assert (n + 1) * i == n * i + i;
    }
  }

  lemma {:induction false} NoneAbove(xs: seq<int>, lo: int, hi: int)
    requires Within(xs, lo, hi)
    ensures Above(xs, hi + 1) == From(xs, hi + 1) == 0 && Above(xs, lo) == |xs|
  {
    if xs != [] {
      NoneAbove(xs[..|xs| - 1], lo, hi);
    }
  }

  /** In a falling list the strong hits come first. */
  lemma {:induction false} AboveFirst(xs: seq<int>, i: int, k: nat)
    requires NonIncreasing(xs) && k < |xs|
    ensures xs[k] >= i <==> k < Above(xs, i)
  {
    var front := xs[..|xs| - 1];
    AboveAtMost(front, i);
    if k < |front| {
      AboveFirst(front, i, k);
    } else if xs[k] >= i && k > 0 {
      AboveFirst(front, i, k - 1);
    }
  }

  lemma {:induction false} AboveAtMost(xs: seq<int>, i: int)
    ensures Above(xs, i) <= |xs|
  {
    if xs != [] {
      AboveAtMost(xs[..|xs| - 1], i);
    }
  }

  lemma MoreHits(i: nat, m: nat, n: nat)
    ensures m < n ==> m * i <= n * i - i
  {
    if m < n {
      MulMono(i, n - 1, m);
      assert (n - 1) * i == n * i - i;
    }
  }

  lemma {:induction false} SameLevels(a: seq<int>, b: seq<int>, total: nat, start: int, i: int)
    requires Tracking(a, total, start) && Tracking(b, total, start) && 0 < i <= start + 1
    ensures Above(a, i) == Above(b, i) && From(a, i) == From(b, i)
    decreases start - i
  {
    hide Target, From, Above, NonIncreasing;
    if i == start + 1 {
      NoneAbove(a, 1, start);
      NoneAbove(b, 1, start);
    } else {
      SameLevels(a, b, total, start, i + 1);
      AboveNext(a, i);
      AboveNext(b, i);
      assert i in a && i in b && Tracks(a, total, start, i) && Tracks(b, total, start, i);
      var missing, m, n := Target(total, start, i) - From(a, i + 1), multiset(a)[i], multiset(b)[i];
      MoreHits(i, m, n);
      MoreHits(i, n, m);
      assert m == n;
    }
  }

  /** There is one such list only: the first hit and the amount fix it. */
  lemma OnlyList(a: seq<int>, b: seq<int>, total: nat, start: int)
    requires 0 < start && Tracking(a, total, start) && Tracking(b, total, start)
    ensures a == b
  {
    hide Tracks, Above, From, NonIncreasing;
    SameLevels(a, b, total, start, 1);
    NoneAbove(a, 1, start);
    NoneAbove(b, 1, start);
    forall k | 0 <= k < |a| ensures a[k] == b[k] {
      SameLevels(a, b, total, start, a[k]);
      SameLevels(a, b, total, start, b[k]);
      AboveFirst(a, a[k], k);
      AboveFirst(b, a[k], k);
      AboveFirst(a, b[k], k);
      AboveFirst(b, b[k], k);
    }
  }

  /** The strengths of hits, which count as negative values. */
  function Strengths(list: seq<IntervalInfo>): (r: seq<int>)
    ensures |r| == |list| && forall k :: 0 <= k < |r| ==> r[k] == -list[k].value
  {
    seq(|list|, k requires 0 <= k < |list| => -list[k].value)
  }

  /** An amount has been spread: all hits wait as long, and they fall and track the targets as generateDamageList says. */
  ghost predicate Spread(list: seq<IntervalInfo>, interval: int, total: nat, start: int)
  {
    && (forall k :: 0 <= k < |list| ==> list[k].timeLeft == list[k].interval == interval)
    && Tracking(Strengths(list), total, start)
  }

  lemma SpreadSo(list: seq<IntervalInfo>, interval: int, total: nat, start: int, hits: seq<int>)
    requires |list| == |hits| && forall k :: 0 <= k < |list| ==> list[k] == IntervalInfo(interval, -hits[k], interval)
    requires Tracking(hits, total, start)
    ensures Spread(list, interval, total, start)
  {
    hide Tracking;
    assert Strengths(list) == hits;
  }

  // ---------------------------------------------------------------- a running condition

  /** The time between two calls. */
  type Step = n: nat | n > 0 witness 1

  /** What the clock changes: remaining ticks, the end time, and the hits still to come. */
  datatype Dot = Dot(ticks: int, endTime: int, list: seq<IntervalInfo>)

  datatype Outcome = Outcome(after: Dot, dealt: seq<int>, alive: bool)

  /**
   executeCondition of a condition that works off a list: `remove` tells whether the front hit is
   used up (a matching field keeps it), and the answer is whether the condition goes on.
   */
  function Execute(s: Dot, interval: int, now: int, remove: bool): Outcome
  {
    if s.list == [] then Tick(s, [], interval, now)
    else
      var front := s.list[0].(timeLeft := s.list[0].timeLeft - interval);
      var due := front.timeLeft <= 0;
      var rest := s.list[1..];
      var list := if !due then [front] + rest
                  else if remove then rest
                  else [front.(timeLeft := front.interval)] + rest;
      var dealt := if due then [front.value] else [];
      if remove then Tick(s.(list := list), dealt, interval, now)
      else Tick(s.(list := list, endTime := if s.ticks > 0 then s.endTime + interval else s.endTime), dealt, 0, now)
  }

  /** Condition::executeCondition. */
  function Tick(s: Dot, dealt: seq<int>, interval: int, now: int): Outcome
  {
    if s.ticks == -1 then Outcome(s, dealt, true)
    else Outcome(s.(ticks := Max(0, s.ticks - interval)), dealt, s.endTime >= now)
  }

  /** All hits dealt from now on, one call every `step`, until the condition reports its end. */
  function RunOut(s: Dot, step: Step, now: int): seq<int>
    requires s.ticks != -1
    decreases if s.endTime >= now then s.endTime - now + 1 else 0
  {
    var r := Execute(s, step, now + step, true);
    r.dealt + if r.alive then RunOut(r.after, step, now + step) else []
  }

  function Values(list: seq<IntervalInfo>): seq<int>
  {
    if list == [] then [] else [list[0].value] + Values(list[1..])
  }

  /** The time until a hit is due, in whole calls. */
  function Rounded(timeLeft: int, step: Step): (r: nat)
    ensures r >= step && r >= timeLeft && (timeLeft > step ==> r < timeLeft + step)
  {
    if timeLeft <= step then step else step + Rounded(timeLeft - step, step)
  }

  /** The time until the last hit of the list is due. */
  function Needed(list: seq<IntervalInfo>, step: Step): nat
  {
    if list == [] then 0 else Rounded(list[0].timeLeft, step) + Needed(list[1..], step)
  }

  lemma ValuesFront(x: IntervalInfo, rest: seq<IntervalInfo>, step: Step)
    ensures Values([x] + rest) == [x.value] + Values(rest)
    ensures Needed([x] + rest, step) == Rounded(x.timeLeft, step) + Needed(rest, step)
  {
    assert ([x] + rest)[1..] == rest;
  }

  lemma RoundedStep(timeLeft: int, step: Step)
    ensures Rounded(timeLeft, step) == if timeLeft <= step then step else step + Rounded(timeLeft - step, step)
  {}

  lemma NeededSome(list: seq<IntervalInfo>, step: Step)
    ensures list != [] ==> Needed(list, step) >= step
    ensures |Values(list)| == |list|
  {
    if list != [] {
      NeededSome(list[1..], step);
    }
  }

  lemma {:induction false} NothingLeft(s: Dot, step: Step, now: int)
    requires s.ticks != -1 && s.list == []
    ensures RunOut(s, step, now) == []
    decreases if s.endTime >= now then s.endTime - now + 1 else 0
  {
    var r := Execute(s, step, now + step, true);
    assert r.dealt == [] && r.after.list == [] && r.after.ticks != -1 && r.after.endTime == s.endTime;
    assert RunOut(s, step, now) == r.dealt + if r.alive then RunOut(r.after, step, now + step) else [];
    hide RunOut;
    if r.alive {
      NothingLeft(r.after, step, now + step);
    }
  }

  /** One call: the front hit comes closer, or is dealt and goes. */
  lemma OneCall(s: Dot, step: Step, now: int, s': Dot)
    requires s.ticks != -1 && s.list != [] && s' == Execute(s, step, now + step, true).after
    ensures s'.ticks != -1 && s'.endTime == s.endTime
    ensures var x := s.list[0]; var rest := s.list[1..];
      && var more := if s.endTime >= now + step then RunOut(s', step, now + step) else [];
      && RunOut(s, step, now) == (if x.timeLeft <= step then [x.value] else []) + more
      && Values(s'.list) == (if x.timeLeft <= step then Values(rest) else Values(s.list))
      && Needed(s'.list, step) == Needed(s.list, step) - step
      && Values(s.list) == [x.value] + Values(rest)
      && (s'.list == [] <==> x.timeLeft <= step && rest == [])
  {
    var x, rest := s.list[0], s.list[1..];
    var x' := x.(timeLeft := x.timeLeft - step);
    var r := Execute(s, step, now + step, true);
    assert r.dealt == (if x.timeLeft <= step then [x.value] else []) && r.alive == (s.endTime >= now + step);
    assert RunOut(s, step, now) == r.dealt + if r.alive then RunOut(r.after, step, now + step) else [];
    assert s'.list == if x.timeLeft <= step then rest else [x'] + rest;
    hide RunOut, Execute;
    ValuesFront(x', rest, step);
    ValuesFront(x, rest, step);
    assert s.list == [x] + rest;
    RoundedStep(x.timeLeft, step);
  }

  /**
   The run deals the hits of the list in their order, none twice, and gets through the whole list
   exactly if the last hit is due no later than one call after the end time.
   */
  lemma {:induction false} RunDealsInOrder(s: Dot, step: Step, now: int)
    requires s.ticks != -1
    ensures RunOut(s, step, now) <= Values(s.list)
    ensures RunOut(s, step, now) == Values(s.list) <==>
              s.list == [] || Needed(s.list, step) - step <= Max(0, s.endTime - now)
    decreases if s.endTime >= now then s.endTime - now + 1 else 0
  {
    hide RunOut, Execute, Values, Needed, Rounded;
    if s.list == [] {
      NothingLeft(s, step, now);
      NeededSome(s.list, step);
    } else {
      var s' := Execute(s, step, now + step, true).after;
      OneCall(s, step, now, s');
      NeededSome(s.list, step);
      NeededSome(s'.list, step);
      NeededNone(s'.list, step);
      if s.endTime >= now + step {
        RunDealsInOrder(s', step, now + step);
      }
    }
  }

  lemma NeededNone(list: seq<IntervalInfo>, step: Step)
    ensures list == [] ==> Needed(list, step) == 0 && Values(list) == []
  {}

  /** Three hits three time units apart, called every two: the condition ends before the last one. */
  lemma CutShort(value: int, now: int)
    ensures var hit := IntervalInfo(3, value, 3);
            RunOut(Dot(9, now + 9, [hit, hit, hit]), 2, now) != Values([hit, hit, hit])
  {
    var hit := IntervalInfo(3, value, 3);
    hide RunOut, Values;
    RunDealsInOrder(Dot(9, now + 9, [hit, hit, hit]), 2, now);
    assert Rounded(3, 2) == 4;
    assert [hit, hit, hit] == [hit] + ([hit] + [hit]);
    ValuesFront(hit, [hit] + [hit], 2);
    ValuesFront(hit, [hit], 2);
    ValuesFront(hit, [], 2);
    assert [hit] + [] == [hit];
  }

  /** Hits that have not been touched yet. */
  predicate Fresh(list: seq<IntervalInfo>)
  {
    forall k :: 0 <= k < |list| ==> list[k].timeLeft == list[k].interval >= 0
  }

  lemma {:induction false} TotalFresh(list: seq<IntervalInfo>)
    requires Fresh(list)
    ensures Total(list) >= 0
  {
    if list != [] {
      TotalFresh(list[1..]);
    }
  }

  lemma {:induction false} TotalConcat(a: seq<IntervalInfo>, b: seq<IntervalInfo>)
    ensures Total(a + b) == Total(a) + Total(b)
    ensures Values(a + b) == Values(a) + Values(b)
  {
    if a == [] {
      assert a + b == b;
    } else {
      assert (a + b)[1..] == a[1..] + b;
      TotalConcat(a[1..], b);
    }
  }

  function Repeated(info: IntervalInfo, n: nat): (r: seq<IntervalInfo>)
    ensures |r| == n
  {
    if n == 0 then [] else Repeated(info, n - 1) + [info]
  }

  /** The step of the clock fits into every interval a whole number of times. */
  predicate Divides(step: Step, list: seq<IntervalInfo>)
  {
    forall k :: 0 <= k < |list| ==> list[k].interval > 0 && list[k].interval % step == 0
  }

  lemma {:induction false} RoundedExact(t: int, step: Step)
    requires t > 0 && t % step == 0
    ensures Rounded(t, step) == t
    decreases t
  {
    if t > step {
      assert (t - step) % step == 0 by { ModMinus(t, step); }
      RoundedExact(t - step, step);
    } else if t < step {
      SmallMod(t, step);
    }
  }

  lemma SmallMod(t: int, step: Step)
    ensures 0 <= t < step ==> t % step == t
  {}

  lemma ModMinus(t: int, step: Step)
    requires t % step == 0
    ensures (t - step) % step == 0
  {
    assert t - step == step * (t / step - 1);
    MulMod(t / step - 1, step);
  }

  lemma MulMod(q: int, step: Step)
    ensures (step * q) % step == 0
  {
    var r := (step * q) % step;
    var k := (step * q) / step;
    assert step * (q - k) == r;
    if q - k >= 1 {
      MulMono(step, q - k, 1);
    } else if q - k <= -1 {
      MulMono(step, -1, q - k);
    }
  }

  lemma {:induction false} NeededExact(list: seq<IntervalInfo>, step: Step)
    requires Fresh(list) && Divides(step, list)
    ensures Needed(list, step) == Total(list)
  {
    if list != [] {
      RoundedExact(list[0].timeLeft, step);
      NeededExact(list[1..], step);
    }
  }

  /** The time left of all hits of a list. */
  function Left(list: seq<IntervalInfo>): int
  {
    if list == [] then 0 else list[0].timeLeft + Left(list[1..])
  }

  predicate InStep(step: Step, list: seq<IntervalInfo>)
  {
    forall k :: 0 <= k < |list| ==> list[k].timeLeft > 0 && list[k].timeLeft % step == 0
  }

  /** While hits are left, the end time stays exactly the time that they have left away. */
  lemma EndTimeTracksHits(s: Dot, step: Step, now: int)
    requires s.ticks != -1 && s.list != [] && InStep(step, s.list) && s.endTime == now + Left(s.list)
    ensures var r := Execute(s, step, now + step, true);
      && r.alive && InStep(step, r.after.list)
      && r.after.endTime == now + step + Left(r.after.list)
  {
    var x, rest := s.list[0], s.list[1..];
    var x' := x.(timeLeft := x.timeLeft - step);
    assert ([x'] + rest)[1..] == rest;
    if x.timeLeft < step {
      SmallMod(x.timeLeft, step);
    } else {
      ModMinus(x.timeLeft, step);
    }
    LeftPositive(rest, step);
  }

  lemma {:induction false} LeftPositive(list: seq<IntervalInfo>, step: Step)
    requires InStep(step, list)
    ensures Left(list) >= 0
  {
    if list != [] {
      LeftPositive(list[1..], step);
    }
  }

  // ---------------------------------------------------------------- started midway

  /** Hits that each still have to wait, and no longer than their interval: fresh ones, and what calls make of them. */
  predicate Midway(list: seq<IntervalInfo>)
  {
    forall k :: 0 <= k < |list| ==> 0 < list[k].timeLeft <= list[k].interval
  }

  /** Every call of executeCondition leaves the hits midway, whatever field the creature is on. */
  lemma MidwayKept(s: Dot, interval: nat, now: int, remove: bool)
    requires Midway(s.list)
    ensures Midway(Execute(s, interval, now, remove).after.list)
  {
    if s.list != [] {
      assert s.list[0].interval > 0;
    }
  }

  lemma FreshMidway(list: seq<IntervalInfo>, step: Step)
    ensures Fresh(list) && Divides(step, list) ==> Midway(list)
  {
  }

  /** The time to the last hit, in whole calls, is no longer than the intervals when the step divides them. */
  lemma {:induction false} NeededMidway(list: seq<IntervalInfo>, step: Step)
    requires Midway(list) && Divides(step, list)
    ensures Needed(list, step) <= Total(list)
  {
    if list != [] {
      RoundedFits(list[0].timeLeft, list[0].interval, step);
      NeededMidway(list[1..], step);
    }
  }

  lemma {:induction false} MidwayTotal(list: seq<IntervalInfo>)
    requires Midway(list)
    ensures Total(list) >= 0 && (list != [] ==> Total(list) > 0)
  {
    if list != [] {
      MidwayTotal(list[1..]);
    }
  }

  /** A whole number of steps is long enough for what is no longer. */
  lemma RoundedFits(timeLeft: int, t: int, step: Step)
    requires t > 0 && t % step == 0
    ensures Rounded(timeLeft, step) <= t <==> timeLeft <= t
  {
    if timeLeft <= t {
      RoundedExact(t, step);
      RoundedGrows(timeLeft, t, step);
    }
  }

  lemma {:induction false} RoundedGrows(a: int, b: int, step: Step)
    requires a <= b
    ensures Rounded(a, step) <= Rounded(b, step)
    decreases if b > 0 then b else 0
  {
    if a > step {
      RoundedGrows(a - step, b - step, step);
    }
  }

  /**
   The hits of a condition that is armed at `now` with these ticks: all by the clock when it is delayed,
   otherwise the first one at once.
   */
  function Resumed(list: seq<IntervalInfo>, ticks: nat, delayed: bool, step: Step, now: int): seq<int>
  {
    if delayed || list == [] then RunOut(Dot(ticks, now + ticks, list), step, now)
    else [list[0].value] + RunOut(Dot(ticks, now + ticks, list[1..]), step, now)
  }

  /** What is left for the clock. */
  function Later(list: seq<IntervalInfo>, delayed: bool): seq<IntervalInfo>
  {
    if delayed || list == [] then list else list[1..]
  }

  /** An armed condition deals a prefix of its list, and all exactly when the last hit is due in time. */
  lemma ResumedInOrder(list: seq<IntervalInfo>, ticks: nat, delayed: bool, step: Step, now: int)
    ensures var dealt, later := Resumed(list, ticks, delayed, step, now), Later(list, delayed);
            && dealt <= Values(list)
            && (dealt == Values(list) <==> later == [] || Needed(later, step) - step <= ticks)
  {
    hide RunOut, Values, Needed;
    if delayed || list == [] {
      RunDealsInOrder(Dot(ticks, now + ticks, list), step, now);
    } else {
      RunDealsInOrder(Dot(ticks, now + ticks, list[1..]), step, now);
      assert list == [list[0]] + list[1..];
      ValuesFront(list[0], list[1..], step);
    }
  }

  /** With the ticks of all intervals, in whole steps, nothing is lost. */
  lemma ResumedWhole(list: seq<IntervalInfo>, delayed: bool, step: Step, now: int)
    requires Midway(list) && Divides(step, list) && Total(list) >= 0
    ensures Resumed(list, Total(list), delayed, step, now) == Values(list)
  {
    hide Resumed, Midway, Divides, Needed, Values, Total;
    ResumedInOrder(list, Total(list), delayed, step, now);
    NeededMidway(list, step);
    if list != [] {
      NeededFront(list, step);
    }
  }

  lemma NeededFront(l: seq<IntervalInfo>, step: Step)
    ensures l != [] ==> 0 <= Needed(l[1..], step) <= Needed(l, step)
  {
  }

  // ---------------------------------------------------------------- merged

  /** addCondition: the first hit of the new list waits for as long as that of the old one would have. */
  function Carried(list: seq<IntervalInfo>, timeLeft: int): (r: seq<IntervalInfo>)
    ensures |r| == |list|
  {
    if list == [] then [] else [list[0].(timeLeft := timeLeft)] + list[1..]
  }

  lemma CarriedSame(list: seq<IntervalInfo>, timeLeft: int)
    ensures Values(Carried(list, timeLeft)) == Values(list) && Total(Carried(list, timeLeft)) == Total(list)
  {
    if list != [] {
      assert Carried(list, timeLeft)[1..] == list[1..];
    }
  }

  /**
   A condition merged with fresh hits, in whole steps, deals them all exactly when it deals the first one at
   once, or the old front hit was due no later than one call after the interval of the new one.
   */
  lemma MergedWhole(list: seq<IntervalInfo>, timeLeft: int, delayed: bool, step: Step, now: int)
    requires list != [] && Fresh(list) && Divides(step, list) && Total(list) >= 0
    ensures var dealt := Resumed(Carried(list, timeLeft), Total(list), delayed, step, now);
            && dealt <= Values(list)
            && (dealt == Values(list) <==> !delayed || timeLeft <= list[0].interval + step)
  {
    hide Resumed, Fresh, Divides, Needed, Values, Total;
    var first, rest := list[0], list[1..];
    CarriedSame(list, timeLeft);
    ResumedInOrder(Carried(list, timeLeft), Total(list), delayed, step, now);
    MergedNeeds(list, timeLeft, step);
    assert Carried(list, timeLeft)[1..] == rest;
  }

  lemma MergedNeeds(list: seq<IntervalInfo>, timeLeft: int, step: Step)
    requires list != [] && Fresh(list) && Divides(step, list)
    ensures Needed(list[1..], step) <= Total(list)
    ensures Needed(Carried(list, timeLeft), step) - step <= Total(list) <==> timeLeft <= list[0].interval + step
  {
    var first, rest := list[0], list[1..];
    hide Needed, Total, Rounded;
    assert Fresh(rest) && Divides(step, rest);
    NeededExact(rest, step);
    ValuesFront(first.(timeLeft := timeLeft), rest, step);
    assert first.interval > 0 && first.interval % step == 0;
    ModPlus(first.interval, step);
    RoundedFits(timeLeft, first.interval + step, step);
    TotalFront(list);
  }

  lemma TotalFront(list: seq<IntervalInfo>)
    ensures list != [] ==> Total(list) == list[0].interval + Total(list[1..])
  {
  }

  lemma ModPlus(t: int, step: Step)
    requires t % step == 0
    ensures (t + step) % step == 0
  {
    assert t + step == step * (t / step + 1);
    MulMod(t / step + 1, step);
  }

  /** Merged while its front hit was nine seconds away, a delayed condition never deals the one hit it was given. */
  lemma MergedAway(value: int, now: int)
    ensures var hit := IntervalInfo(2000, value, 2000);
            Resumed(Carried([hit], 9000), 2000, true, 500, now) != Values([hit])
  {
    var hit := IntervalInfo(2000, value, 2000);
    hide Resumed, Values;
    TotalFront([hit]);
    assert [hit][1..] == [];
    MergedWhole([hit], 9000, true, 500, now);
  }

  /** The field the creature stands on, if it has an element. */
  datatype Field = NoField | Matching | OtherElement

  /** Whether a hit that is dealt is used up: onTickCondition has the last word. */
  function Removes(field: Field, ticks: int): bool
  {
    match field
    case NoField => ticks != -1
    case Matching => false
    case OtherElement => true
  }

  class ConditionDamage {
    var ticks: int
    var endTime: int
    var damageList: seq<IntervalInfo>
    var delayed: bool
    var minDamage: nat
    var maxDamage: nat
    var startDamage: nat
    var periodDamage: int
    var periodDamageTick: int
    var tickInterval: nat
    var forceUpdate: bool

    constructor (delayed: bool)
      ensures Timed() && damageList == [] && this.delayed == delayed && !forceUpdate
      ensures minDamage == maxDamage == startDamage == 0 && tickInterval == 2000
    {
      ticks, endTime, damageList, this.delayed, forceUpdate := 0, 0, [], delayed, false;
      minDamage, maxDamage, startDamage, periodDamage, periodDamageTick, tickInterval := 0, 0, 0, 0, 0, 2000;
    }

    function State(): Dot
      reads this
    {
      Dot(ticks, endTime, damageList)
    }

    /** A condition set up to work off a list and not started: its ticks are the time of all hits. */
    ghost predicate Timed()
      reads this
    {
      periodDamage == 0 && Fresh(damageList) && ticks == Total(damageList)
    }

    method SetTicks(newTicks: int, now: int)
      modifies this`ticks, this`endTime
      ensures ticks == newTicks && endTime == if newTicks > 0 then now + newTicks else old(endTime)
    {
      ticks := newTicks;
      if newTicks > 0 {
        endTime := now + newTicks;
      }
    }

    /** addDamage: a number of equal hits, or damage for as long as the condition lasts. */
    method AddDamage(rounds: int, time: nat, value: int, now: int) returns (ok: bool)
      modifies this`ticks, this`endTime, this`damageList, this`periodDamage, this`tickInterval
      ensures rounds == -1 ==> ok && periodDamage == value && ticks == -1 && tickInterval == time && damageList == old(damageList)
      ensures rounds != -1 ==> periodDamage == old(periodDamage) && tickInterval == old(tickInterval) && ok == (periodDamage <= 0)
      ensures rounds != -1 && !ok ==> damageList == old(damageList) && ticks == old(ticks) && endTime == old(endTime)
      ensures rounds != -1 && ok ==> damageList == old(damageList) + Repeated(IntervalInfo(time, value, time), Max(0, rounds))
      ensures rounds != -1 && old(Timed()) ==> Timed()
      ensures rounds != -1 && ok && old(Timed()) && rounds > 0 && ticks > 0 ==> endTime == now + ticks
    {
      if rounds == -1 {
        tickInterval := time;
        ticks := -1;
        periodDamage := value;
        return true;
      }
      if periodDamage > 0 { return false; }
      var info := IntervalInfo(time, value, time);
      if Fresh(damageList) {
        TotalFresh(damageList);
      }
      var i := 0;
      while i < rounds
        invariant 0 <= i <= Max(0, rounds)
        invariant damageList == old(damageList) + Repeated(info, i)
        invariant periodDamage == old(periodDamage) && tickInterval == old(tickInterval)
        invariant old(Timed()) ==> Fresh(damageList) && ticks == Total(damageList) >= 0
        invariant old(Timed()) && i > 0 && ticks > 0 ==> endTime == now + ticks
      {
        ghost var before := damageList;
        TotalConcat(before, [info]);
        assert [info][1..] == [] && Total([info]) == time;
        damageList := damageList + [info];
        if ticks != -1 {
          SetTicks(ticks + info.interval, now);
        }
        assert old(damageList) + Repeated(info, i) + [info] == old(damageList) + (Repeated(info, i) + [info]);
        i := i + 1;
      }
      return true;
    }

    /**
     init: nothing to do for periodic damage or a list that is there; else a rolled amount is spread
     over a new list.
     */
    method Init(roll: int, now: int) returns (ok: bool)
      requires minDamage <= maxDamage ==> minDamage <= roll <= maxDamage
      requires roll >= 0
      modifies this`ticks, this`endTime, this`damageList, this`startDamage, this`periodDamage, this`tickInterval
      ensures periodDamage == old(periodDamage) && tickInterval == old(tickInterval)
      ensures periodDamage != 0 || old(damageList) != [] ==> ok && damageList == old(damageList) && ticks == old(ticks) && endTime == old(endTime)
      ensures periodDamage == 0 && old(damageList) == [] ==> Timed() && (ok <==> damageList != [])
      ensures periodDamage == 0 && old(damageList) == [] && ticks > 0 ==> endTime == now + ticks
      ensures periodDamage == 0 && old(damageList) == [] ==> roll == 0 ==> !ok
      ensures periodDamage == 0 && old(damageList) == [] && roll > 0 ==>
        && startDamage == (if old(startDamage) > maxDamage then maxDamage
                           else if old(startDamage) == 0 then Max(1, (roll + 19) / 20) else old(startDamage))
        && Spread(damageList, tickInterval, roll, startDamage)
      ensures periodDamage == 0 && old(damageList) == [] && ok ==>
        -Sum(Values(damageList)) >= roll && (startDamage * startDamage <= roll ==> -Sum(Values(damageList)) == roll)
    {
      hide Sum, Fresh, Spread, Tracking;
      if periodDamage != 0 { return true; }
      if damageList != [] { return true; }
      SetTicks(0, now);
      NothingYet();
      if roll == 0 { return false; }
      if startDamage > maxDamage {
        startDamage := maxDamage;
      } else if startDamage == 0 {
        startDamage := Max(1, (roll + 19) / 20);
      }
      var list := GenerateDamageList(roll, startDamage);
      ghost var start := startDamage;
      var i := 0;
      while i < |list|
        invariant 0 <= i <= |list| && |damageList| == i
        invariant periodDamage == 0 && tickInterval == old(tickInterval) && startDamage == start && Timed()
        invariant Sum(Values(damageList)) == -Sum(list[..i])
        invariant ticks > 0 ==> endTime == now + ticks
        invariant forall k :: 0 <= k < i ==> damageList[k] == IntervalInfo(tickInterval, -list[k], tickInterval)
      {
        ghost var before := damageList;
        var added := AddDamage(1, tickInterval, -list[i], now);
        RepeatedOnce(IntervalInfo(tickInterval, -list[i], tickInterval));
        OneMore(before, damageList, IntervalInfo(tickInterval, -list[i], tickInterval), list, i);
        i := i + 1;
      }
      assert list[..i] == list;
      SpreadSo(damageList, tickInterval, roll, startDamage, list);
      return damageList != [];
    }

    lemma NothingYet()
      ensures Fresh([]) && Total([]) == 0 && Sum(Values([])) == 0 && Sum([]) == 0
    {}

    lemma ValuesOne(info: IntervalInfo)
      ensures Values([info]) == [info.value]
    {
      assert [info][1..] == [] && Values([]) == [];
    }

    lemma OneMore(before: seq<IntervalInfo>, after: seq<IntervalInfo>, info: IntervalInfo, list: seq<int>, i: nat)
      requires i < |list| && after == before + [info] && info.value == -list[i]
      requires Sum(Values(before)) == -Sum(list[..i])
      ensures Sum(Values(after)) == -Sum(list[..i + 1])
    {
      hide Sum, Values, Total;
      TotalConcat(before, [info]);
      ValuesOne(info);
      SumSnoc(Values(before), info.value);
      assert list[..i + 1] == list[..i] + [list[i]];
      SumSnoc(list[..i], list[i]);
    }

    lemma RepeatedOnce(info: IntervalInfo)
      ensures Repeated(info, 1) == [info]
    {
      assert Repeated(info, 0) == [];
    }

    /** The front hit comes closer by the interval; when it is due it is dealt, and used up or armed again. */
    method WorkOff(interval: nat, remove: bool) returns (dealt: seq<int>)
      requires damageList != []
      modifies this`damageList
      ensures var front := old(damageList)[0].(timeLeft := old(damageList)[0].timeLeft - interval);
              var rest := old(damageList)[1..];
              && dealt == (if front.timeLeft <= 0 then [front.value] else [])
              && damageList == if front.timeLeft > 0 then [front] + rest
                               else if remove then rest else [front.(timeLeft := front.interval)] + rest
    {
      dealt := [];
      var front := damageList[0];
      front := front.(timeLeft := front.timeLeft - interval);
      damageList := [front] + damageList[1..];
      if front.timeLeft <= 0 {
        if remove {
          damageList := damageList[1..];
        } else {
          damageList := [front.(timeLeft := front.interval)] + damageList[1..];
        }
        dealt := [front.value];
      }
    }

    /** The list is worked off, if there is one; `step` is what is left of the interval for the ticks. */
    method WorkList(interval: nat, field: Field, ghost now: int) returns (dealt: seq<int>, step: nat)
      modifies this`endTime, this`damageList
      ensures Tick(State(), dealt, step, now) == Execute(old(State()), interval, now, Removes(field, ticks))
    {
      hide Tick;
      dealt, step := [], interval;
      if damageList == [] { return; }
      var remove := ticks != -1;
      match field {
        case Matching => remove := false;
        case OtherElement => remove := true;
        case NoField =>
      }
      dealt := WorkOff(interval, remove);
      if !remove {
        if ticks > 0 {
          endTime := endTime + interval;
        }
        step := 0;
      }
    }

    /** Condition::executeCondition */
    method TickTicks(step: nat, now: int, ghost dealt: seq<int>) returns (alive: bool)
      modifies this`ticks
      ensures Outcome(State(), dealt, alive) == Tick(old(State()), dealt, step, now)
    {
      if ticks == -1 { return true; }
      ticks := Max(0, ticks - step);
      return endTime >= now;
    }

    /**
     executeCondition.  On a matching field the front hit is not used up; on a field of another element it
     is, even when the condition lasts for ever.
     */
    method ExecuteCondition(interval: nat, now: int, field: Field) returns (alive: bool, dealt: seq<int>)
      modifies this`ticks, this`endTime, this`damageList, this`periodDamageTick
      ensures periodDamage == 0 ==>
        Outcome(State(), dealt, alive) == Execute(old(State()), interval, now, Removes(field, old(ticks)))
      ensures periodDamage != 0 ==>
        && (dealt == if old(periodDamageTick) + interval >= tickInterval then [periodDamage] else [])
        && Outcome(State(), [], alive) == Tick(old(State()), [], interval, now)
    {
      hide Execute, Tick, Removes;
      dealt := [];
      if periodDamage != 0 {
        periodDamageTick := periodDamageTick + interval;
        if periodDamageTick >= tickInterval {
          periodDamageTick := 0;
          dealt := [periodDamage];
        }
        alive := TickTicks(interval, now, []);
      } else {
        var step;
        dealt, step := WorkList(interval, field, now);
        alive := TickTicks(step, now, dealt);
      }
    }

    /** getNextDamage: periodic damage, or the front hit, which is used up unless the condition lasts for ever. */
    method GetNextDamage() returns (some: bool, damage: int)
      modifies this`damageList
      ensures some <==> periodDamage != 0 || old(damageList) != []
      ensures periodDamage != 0 ==> damage == periodDamage && damageList == old(damageList)
      ensures periodDamage == 0 && some ==>
        damage == old(damageList)[0].value && damageList == if ticks != -1 then old(damageList)[1..] else old(damageList)
      ensures !some ==> damageList == []
    {
      if periodDamage != 0 { return true, periodDamage; }
      if damageList == [] { return false, 0; }
      some, damage := true, damageList[0].value;
      if ticks != -1 {
        damageList := damageList[1..];
      }
    }

    /**
     startCondition: the end time is set, the list is there, and unless the condition is delayed its first
     hit is dealt at once (`hit` is whether that went through).
     */
    method StartCondition(roll: nat, now: int, hit: bool) returns (ok: bool, dealt: seq<int>, ghost all: seq<IntervalInfo>)
      requires minDamage <= maxDamage ==> minDamage <= roll <= maxDamage
      modifies this
      ensures delayed == old(delayed) && periodDamage == old(periodDamage)
      ensures periodDamage != 0 || old(damageList) != [] ==>
        && ok == (delayed || hit) && all == old(damageList) && ticks == old(ticks)
        && endTime == if ticks > 0 then now + ticks else old(endTime)
      ensures periodDamage == 0 && old(damageList) == [] && ok ==>
        && (delayed || hit) && all != [] && Fresh(all) && ticks == Total(all) >= 0 && (ticks > 0 ==> endTime == now + ticks)
      ensures ok && periodDamage == 0 ==>
        dealt == (if delayed then [] else [all[0].value]) && damageList == if delayed || ticks == -1 then all else all[1..]
      ensures ok && periodDamage != 0 ==> dealt == (if delayed then [] else [periodDamage]) && damageList == all
    {
      hide Total, Fresh;
      dealt, all := [], [];
      if ticks > 0 {
        endTime := now + ticks;
      }
      ok := Init(roll, now);
      all := damageList;
      TotalIfFresh(damageList);
      if !ok || delayed { return; }
      var some, damage := GetNextDamage();
      if some {
        dealt := [damage];
        ok := hit;
      }
    }

    lemma TotalIfFresh(list: seq<IntervalInfo>)
      ensures Fresh(list) ==> Total(list) >= 0
    {
      if Fresh(list) {
        TotalFresh(list);
      }
    }

    /**
     A condition with the ticks of all its intervals, fresh or midway, started and then called once every
     `step` away from any field until it reports its end.  Its hits are dealt in order and none twice; all
     of them are dealt exactly if the rounding of the intervals to whole calls costs no more than one call,
     and in particular if the step divides every interval.
     */
    method StartAndRun(roll: nat, now: int, step: Step, hit: bool)
      returns (ok: bool, dealt: seq<int>, ghost all: seq<IntervalInfo>)
      requires periodDamage == 0 && ticks == Total(damageList) >= 0
      requires (minDamage <= maxDamage ==> minDamage <= roll <= maxDamage)
      modifies this
      ensures old(damageList) != [] ==> all == old(damageList) && ok == (old(delayed) || hit)
      ensures ok ==> all != [] && Total(all) >= 0 && dealt <= Values(all) && delayed == old(delayed)
      ensures ok && Total(all) > 0 ==> dealt == Resumed(all, Total(all), delayed, step, now)
      ensures ok && Total(all) > 0 ==>
        (dealt == Values(all) <==> Later(all, delayed) == [] || Needed(Later(all, delayed), step) - step <= Total(all))
      ensures ok && Divides(step, all) && (old(Timed()) || Midway(all)) ==> dealt == Values(all)
    {
      hide *;
      ghost var whole := Timed() || damageList == [];
      TimedIsFresh();
      ok, dealt, all := StartCondition(roll, now, hit);
      if !ok { return; }
      WholeInSteps(all, whole, delayed, step, now);
      ghost var first, s := dealt, State();
      StateIs();
      var more := RunToEnd(now, step);
      dealt := dealt + more;
      Armed(all, s, delayed, step, now, first, more);
    }

    lemma TimedIsFresh()
      ensures Timed() ==> Fresh(damageList)
    {
    }

    lemma StateIs()
      ensures State() == Dot(ticks, endTime, damageList)
    {
    }

    /** What a started condition deals at once and later. */
    lemma Armed(all: seq<IntervalInfo>, s: Dot, later: bool, step: Step, now: int, first: seq<int>, more: seq<int>)
      requires all != [] && s.ticks == Total(all) >= 0 && s.list == (if later then all else all[1..])
      requires first == (if later then [] else [all[0].value]) && more == RunOut(s, step, now)
      requires s.ticks > 0 ==> s.endTime == now + s.ticks
      ensures first + more <= Values(all)
      ensures Total(all) > 0 ==>
        && first + more == Resumed(all, Total(all), later, step, now)
        && (first + more == Values(all) <==> Later(all, later) == [] || Needed(Later(all, later), step) - step <= Total(all))
    {
      hide RunOut, Values, Needed, Total;
      RunDealsInOrder(s, step, now);
      ResumedInOrder(all, Total(all), later, step, now);
      assert all == [all[0]] + all[1..];
      ValuesFront(all[0], all[1..], step);
      if later {
        assert first + more == more;
      }
    }

    lemma WholeInSteps(all: seq<IntervalInfo>, whole: bool, later: bool, step: Step, now: int)
      requires Total(all) >= 0 && (whole ==> Fresh(all)) && all != []
      ensures Divides(step, all) && (whole || Midway(all)) ==>
        Total(all) > 0 && Resumed(all, Total(all), later, step, now) == Values(all)
    {
      hide *;
      if Divides(step, all) && (whole || Midway(all)) {
        if whole {
          FreshMidway(all, step);
        }
        MidwayTotal(all);
        ResumedWhole(all, later, step, now);
      }
    }

    /** getTotalDamage: the sum of the hits, or else one and a half times the draw. */
    function TotalDamage(): nat
      reads this
    {
      Abs(if damageList != [] then Sum(Values(damageList)) else maxDamage + Half(maxDamage - minDamage))
    }

    method GetTotalDamage() returns (total: nat)
      ensures total == TotalDamage()
    {
      hide Values, Sum;
      var result := 0;
      if damageList != [] {
        var i := 0;
        NothingYet();
        while i < |damageList|
          invariant 0 <= i <= |damageList| && result == Sum(Values(damageList[..i]))
        {
          TotalConcat(damageList[..i], [damageList[i]]);
          ValuesOne(damageList[i]);
          SumSnoc(Values(damageList[..i]), damageList[i].value);
          assert damageList[..i + 1] == damageList[..i] + [damageList[i]];
          result := result + damageList[i].value;
          i := i + 1;
        }
        assert damageList[..i] == damageList;
      } else {
        result := maxDamage + Half(maxDamage - minDamage);
      }
      total := Abs(result);
    }

    /** Whether a condition of the same type takes this one over: it is forced to, or lasts longer and does no less harm. */
    predicate Updates(other: ConditionDamage)
      reads this, other
    {
      other.forceUpdate ||
      (!(ticks == -1 && other.ticks > 0) && other.ticks > ticks
       && other.TotalDamage() >= TotalDamage() && other.periodDamage >= periodDamage)
    }

    /** Of two conditions that are not forced, the one that takes over lasts longer and harms as much, so it goes one way only. */
    lemma TakesOverOnce(other: ConditionDamage)
      requires Updates(other) && !other.forceUpdate && !forceUpdate
      ensures !other.Updates(this) && other.ticks > ticks && other.TotalDamage() >= TotalDamage()
      ensures ticks != -1 || other.ticks == 0
    {
    }

    /** While both last for some time, the one that lasts longer and harms no less takes over, and no other one does. */
    lemma TakesOverExactly(other: ConditionDamage)
      requires ticks >= 0 && other.ticks >= 0 && !other.forceUpdate
      ensures Updates(other) <==> other.ticks > ticks && other.TotalDamage() >= TotalDamage() && other.periodDamage >= periodDamage
    {
    }

    method UpdateCondition(other: ConditionDamage) returns (updates: bool)
      ensures updates == Updates(other)
    {
      if other.forceUpdate { return true; }
      if ticks == -1 && other.ticks > 0 { return false; }
      if other.ticks <= ticks { return false; }
      var theirs := other.GetTotalDamage();
      var ours := GetTotalDamage();
      if theirs < ours { return false; }
      return other.periodDamage >= periodDamage;
    }

    /** How long the first hit after a merge has to wait. */
    function NextTimeLeft(other: ConditionDamage): int
      reads this, other
    {
      if damageList != [] then damageList[0].timeLeft else other.tickInterval
    }

    /**
     addCondition: what the other condition brings replaces what is there, but the first hit waits for as long
     as the old one would have; unless the condition is delayed that hit is dealt at once.
     */
    method AddCondition(other: ConditionDamage, roll: nat, now: int)
      returns (updates: bool, dealt: seq<int>, ghost all: seq<IntervalInfo>)
      requires other != this
      requires other.minDamage <= other.maxDamage ==> other.minDamage <= roll <= other.maxDamage
      modifies this
      ensures updates == old(Updates(other)) && delayed == old(delayed)
      ensures !updates ==> State() == old(State()) && periodDamage == old(periodDamage) && dealt == []
      ensures updates ==> periodDamage == other.periodDamage && tickInterval == other.tickInterval
      ensures updates && (periodDamage != 0 || other.damageList != []) ==>
        && all == Carried(other.damageList, old(NextTimeLeft(other)))
        && ticks == other.ticks && endTime == if ticks > 0 then now + ticks else old(endTime)
      ensures updates && periodDamage == 0 && other.damageList == [] ==>
        ticks == Total(all) >= 0 && (ticks > 0 ==> endTime == now + ticks)
      ensures updates && periodDamage == 0 ==>
        && dealt == (if delayed || all == [] then [] else [all[0].value])
        && damageList == if delayed || all == [] || ticks == -1 then all else all[1..]
      ensures updates && periodDamage != 0 ==> dealt == (if delayed then [] else [periodDamage]) && damageList == all
    {
      hide Total, Fresh, Values, Sum;
      dealt, all := [], [];
      updates := UpdateCondition(other);
      if !updates { return; }
      SetTicks(other.ticks, now);
      maxDamage, minDamage, startDamage := other.maxDamage, other.minDamage, other.startDamage;
      tickInterval, periodDamage := other.tickInterval, other.periodDamage;
      var nextTimeLeft := tickInterval;
      if damageList != [] {
        nextTimeLeft := damageList[0].timeLeft;
        damageList := [];
      }
      damageList := other.damageList;
      NothingYet();
      var ok := Init(roll, now);
      TotalIfFresh(damageList);
      if !ok { return; }
      CarriedSame(damageList, nextTimeLeft);
      if damageList != [] {
        damageList := [damageList[0].(timeLeft := nextTimeLeft)] + damageList[1..];
      }
      all := damageList;
      if !delayed {
        var some, damage := GetNextDamage();
        if some {
          dealt := [damage];
        }
      }
    }

    /** Merged with a list of hits and run to its end, a condition deals what a condition armed with the carried list deals. */
    method MergeAndRun(other: ConditionDamage, roll: nat, now: int, step: Step) returns (dealt: seq<int>)
      requires other != this && Updates(other)
      requires other.periodDamage == 0 && other.damageList != [] && other.ticks > 0
      requires other.minDamage <= other.maxDamage ==> other.minDamage <= roll <= other.maxDamage
      modifies this
      ensures dealt == Resumed(Carried(other.damageList, old(NextTimeLeft(other))), other.ticks, old(delayed), step, now)
      ensures other.ticks == Total(other.damageList) && Fresh(other.damageList) && Divides(step, other.damageList) ==>
        (dealt == Values(other.damageList) <==>
         !old(delayed) || old(NextTimeLeft(other)) <= other.damageList[0].interval + step)
    {
      hide Execute, RunOut, Total, Fresh, Values, Needed, Divides, TotalDamage;
      ghost var timeLeft := NextTimeLeft(other);
      var _, first, all := AddCondition(other, roll, now);
      if other.ticks == Total(other.damageList) && Fresh(other.damageList) && Divides(step, other.damageList) {
        MergedWhole(other.damageList, timeLeft, delayed, step, now);
      }
      dealt := RunToEnd(now, step);
      dealt := first + dealt;
    }

    /** Calls once every `step`, away from any field, until the condition reports its end. */
    method RunToEnd(now: int, step: Step) returns (dealt: seq<int>)
      requires periodDamage == 0 && ticks != -1
      modifies this`ticks, this`endTime, this`damageList, this`periodDamageTick
      ensures dealt == RunOut(old(State()), step, now)
    {
      hide Execute, RunOut, Removes;
      ghost var whole := RunOut(State(), step, now);
      dealt := [];
      var t, alive := now, true;
      while alive
        invariant ticks != -1
        invariant if alive then whole == dealt + RunOut(State(), step, t) else whole == dealt
        decreases if !alive then 0 else if endTime >= t then endTime - t + 2 else 1
      {
        ghost var s, before := State(), dealt;
        RunUnfolds(s, step, t);
        var more;
        alive, more := ExecuteCondition(step, t + step, NoField);
        RemovesNow(s.ticks);
        t, dealt := t + step, dealt + more;
        if alive {
          assert before + (more + RunOut(State(), step, t)) == dealt + RunOut(State(), step, t);
        } else {
          assert whole == before + (more + []);
        }
      }
    }

    lemma RemovesNow(ticks: int)
      ensures Removes(NoField, ticks) <==> ticks != -1
    {
    }

    lemma RunUnfolds(s: Dot, step: Step, now: int)
      requires s.ticks != -1
      ensures var r := Execute(s, step, now + step, true);
        && r.after.ticks != -1 && r.after.endTime == s.endTime && r.alive == (s.endTime >= now + step)
        && RunOut(s, step, now) == r.dealt + if r.alive then RunOut(r.after, step, now + step) else []
    {}
  }

  /** A condition of one hit in nine seconds takes over one of one hit in two, and ends without dealing it. */
  method MergedOut(value: int, now: int) returns (dealt: seq<int>)
    ensures dealt != [value]
  {
    var running := new ConditionDamage(true);
    var ok := running.AddDamage(1, 9000, value, now);
    var other := new ConditionDamage(true);
    ok := other.AddDamage(1, 2000, value, now);
    other.forceUpdate := true;
    OneHit(9000, value);
    OneHit(2000, value);
    hide *;
    OnlyForced(running, other);
    dealt := running.MergeAndRun(other, 0, now, 500);
  }

  lemma OneHit(time: nat, value: int)
    ensures var list := Repeated(IntervalInfo(time, value, time), 1);
            && list == [IntervalInfo(time, value, time)] && Total(list) == time && Values(list) == [value] && Fresh(list)
            && (time == 2000 ==> Divides(500, list))
  {
    assert Repeated(IntervalInfo(time, value, time), 0) == [];
    assert [IntervalInfo(time, value, time)][1..] == [];
    assert Values([]) == [] && Total([]) == 0;
  }

  lemma OnlyForced(c: ConditionDamage, other: ConditionDamage)
    ensures other.forceUpdate ==> c.Updates(other)
    ensures c.damageList != [] ==> c.NextTimeLeft(other) == c.damageList[0].timeLeft
  {
  }
}
