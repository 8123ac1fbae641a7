/**
 The walk of the container iterator, on the store: the order in which nested items are visited, and
 why every one of them is visited exactly once.
 */
module ItemWalk {
  import opened Basics
  import opened ItemStore

  /** A container worth queueing. */
  predicate HasItems<T(==)>(st: Store<T>, o: T)
  {
    o in st && Holds(st[o].kind) && st[o].items != []
  }

  /** The containers among `xs` that the walk queues, in order. */
  function Queued<T(==)>(st: Store<T>, xs: seq<T>): seq<T>
  {
    if xs == [] then []
    else Queued(st, xs[..|xs| - 1]) + (if HasItems(st, xs[|xs| - 1]) then [xs[|xs| - 1]] else [])
  }

  /** The items of the containers `cs`, one container after the other. */
  function ItemsOf<T(==)>(st: Store<T>, cs: seq<T>): seq<T>
    requires forall c :: c in cs ==> c in st
  {
    if cs == [] then [] else ItemsOf(st, cs[..|cs| - 1]) + st[cs[|cs| - 1]].items
  }

  lemma {:induction false} QueuedMembers<T>(st: Store<T>, xs: seq<T>)
    ensures forall c :: c in Queued(st, xs) <==> c in xs && HasItems(st, c)
  {
    if xs != [] {
      QueuedMembers(st, xs[..|xs| - 1]);
      assert xs == xs[..|xs| - 1] + [xs[|xs| - 1]];
    }
  }

  lemma {:induction false} QueuedDistinct<T>(st: Store<T>, xs: seq<T>)
    requires NoDuplicates(xs)
    ensures NoDuplicates(Queued(st, xs))
  {
    if xs != [] {
      QueuedDistinct(st, xs[..|xs| - 1]);
      QueuedMembers(st, xs[..|xs| - 1]);
    }
  }

  lemma QueuedSnoc<T>(st: Store<T>, xs: seq<T>, x: T)
    ensures Queued(st, xs + [x]) == Queued(st, xs) + (if HasItems(st, x) then [x] else [])
  {
    assert (xs + [x])[..|xs|] == xs;
  }

  lemma ItemsOfSnoc<T>(st: Store<T>, cs: seq<T>, c: T)
    requires forall d :: d in cs + [c] ==> d in st
    ensures c in cs + [c] && forall d :: d in cs ==> d in cs + [c]
    ensures ItemsOf(st, cs + [c]) == ItemsOf(st, cs) + st[c].items
  {
    assert (cs + [c])[..|cs|] == cs && (cs + [c])[|cs|] == c;
    forall d | d in cs ensures d in cs + [c] {}
  }

  lemma {:induction false} ItemsOfMembers<T>(st: Store<T>, cs: seq<T>)
    requires forall c :: c in cs ==> c in st
    ensures forall x :: x in ItemsOf(st, cs) <==> exists c :: c in cs && x in st[c].items
  {
    if cs != [] {
      var last := cs[|cs| - 1];
      ItemsOfMembers(st, cs[..|cs| - 1]);
      assert cs == cs[..|cs| - 1] + [last];
      forall x ensures x in ItemsOf(st, cs) <==> exists c :: c in cs && x in st[c].items {
        if exists c :: c in cs && x in st[c].items {
          var c :| c in cs && x in st[c].items;
          assert c in cs[..|cs| - 1] || c == last;
        }
      }
    }
  }

  // ---------------------------------------------------------------- levels

  /** How many steps up from `x` to `base`. */
  ghost function Level<T>(st: Store<T>, base: T, x: T): nat
    requires Linked(st) && Ranked(st) && x in st
    decreases st[x].depth
  {
    ParentIsAbove(st, x);
    if x == base || st[x].parent.None? then 0 else 1 + Level(st, base, st[x].parent.value)
  }

  ghost predicate LevelOrder<T>(st: Store<T>, base: T, xs: seq<T>)
    requires Linked(st) && Ranked(st) && forall x :: x in xs ==> x in st
  {
    forall i, j :: 0 <= i < j < |xs| ==> Level(st, base, xs[i]) <= Level(st, base, xs[j])
  }

  lemma {:induction false} QueuedInOrder<T>(st: Store<T>, base: T, xs: seq<T>)
    requires Linked(st) && Ranked(st) && (forall x :: x in xs ==> x in st) && LevelOrder(st, base, xs)
    ensures (forall x :: x in Queued(st, xs) ==> x in st) && LevelOrder(st, base, Queued(st, xs))
  {
    hide Linked, Ranked, Level;
    QueuedMembers(st, xs);
    if xs != [] {
      var init, last := xs[..|xs| - 1], xs[|xs| - 1];
      assert forall x :: x in init ==> x in xs;
      QueuedInOrder(st, base, init);
      QueuedMembers(st, init);
      forall c | c in Queued(st, init) ensures c in st && Level(st, base, c) <= Level(st, base, last) {
        var k :| 0 <= k < |init| && init[k] == c;
        assert xs[k] == c;
      }
    }
  }

  // ---------------------------------------------------------------- the walk

  /**
   `out` has been visited, the containers `done` are finished, those of `over` are queued, and of the
   first of these `cur` items have been visited.
   */
  ghost predicate Walking<T>(st: Store<T>, base: T, out: seq<T>, done: seq<T>, over: seq<T>, cur: nat)
    requires Linked(st) && Ranked(st)
  {
    && base in st && Holds(st[base].kind)
    && (forall x :: x in out ==> x in st && Inside(st, x, base))
    && NoDuplicates(out) && LevelOrder(st, base, out)
    && done + over == Queued(st, [base] + out)
    && Progress(st, out, done, over, cur)
  }

  ghost predicate Progress<T>(st: Store<T>, out: seq<T>, done: seq<T>, over: seq<T>, cur: nat)
  {
    && (forall c :: c in done ==> c in st) && (forall c :: c in over ==> c in st)
    && (if over == [] then out == ItemsOf(st, done) && cur == 0
        else cur < |st[over[0]].items| && out == ItemsOf(st, done) + st[over[0]].items[..cur])
  }

  /** What is in the queue is the base or has been visited. */
  lemma QueueMembers<T>(st: Store<T>, base: T, out: seq<T>, done: seq<T>, over: seq<T>, cur: nat, c: T)
    requires Linked(st) && Ranked(st) && Walking(st, base, out, done, over, cur)
    requires c in done || c in over
    ensures (c == base || (c in out && Inside(st, c, base))) && HasItems(st, c)
  {
    QueuedMembers(st, [base] + out);
    assert c in done + over;
  }

  /** The next item is inside the base and has not been visited. */
  lemma NextIsNew<T>(st: Store<T>, base: T, out: seq<T>, done: seq<T>, over: seq<T>, cur: nat)
    requires Linked(st) && Ranked(st) && Walking(st, base, out, done, over, cur) && over != []
    ensures var x := st[over[0]].items[cur];
      x in st && x !in out && Inside(st, x, base) && st[x].parent == Some(over[0])
  {
    var c := over[0];
    var x := st[c].items[cur];
    QueueMembers(st, base, out, done, over, cur, c);
    assert LinkedDown(st, c) && x in st[c].items;
    InsideByParent(st, x, base);
    NoSelfContainment(st, base);
    assert NoDuplicates([base] + out);
    QueuedDistinct(st, [base] + out);
    ItemsOfMembers(st, done);
    forall d | d in done ensures x !in st[d].items {
      assert LinkedDown(st, d);
      var k :| 0 <= k < |done| && done[k] == d;
      assert (done + over)[k] == d && (done + over)[|done|] == c;
    }
  }

  /** Visited items are never deeper than the next one. */
  lemma NextIsDeepest<T>(st: Store<T>, base: T, out: seq<T>, done: seq<T>, over: seq<T>, cur: nat)
    requires Linked(st) && Ranked(st) && Walking(st, base, out, done, over, cur) && over != []
    ensures forall y :: y in out ==> y in st && Level(st, base, y) <= 1 + Level(st, base, over[0])
  {
    var c := over[0];
    QueuedInOrder'(st, base, out);
    forall y | y in out ensures y in st && Level(st, base, y) <= 1 + Level(st, base, c) {
      NoSelfContainment(st, base);
      if y in ItemsOf(st, done) {
        ItemsOfMembers(st, done);
        var d :| d in done && y in st[d].items;
        assert LinkedDown(st, d);
        var k :| 0 <= k < |done| && done[k] == d;
        assert (done + over)[k] == d && (done + over)[|done|] == c;
        assert Level(st, base, d) <= Level(st, base, c);
      } else {
        assert LinkedDown(st, c) && y in st[c].items;
      }
    }
  }

  lemma QueuedInOrder'<T>(st: Store<T>, base: T, out: seq<T>)
    requires Linked(st) && Ranked(st) && base in st && (forall x :: x in out ==> x in st) && LevelOrder(st, base, out)
    ensures forall x :: x in Queued(st, [base] + out) ==> x in st
    ensures LevelOrder(st, base, Queued(st, [base] + out))
  {
    assert Level(st, base, base) == 0;
    assert LevelOrder(st, base, [base] + out);
    QueuedInOrder(st, base, [base] + out);
  }

  lemma WalkStarts<T>(st: Store<T>, base: T)
    requires Linked(st) && Ranked(st) && base in st && Holds(st[base].kind)
    ensures Walking(st, base, [], [], if st[base].items == [] then [] else [base], 0)
  {
    assert [base] + [] == [base] && [base][..0] == [];
    assert Queued(st, [base]) == if HasItems(st, base) then [base] else [];
    assert ItemsOf(st, []) + st[base].items[..0] == [];
  }

  /** The visited items after one more. */
  lemma OutGrows<T>(st: Store<T>, base: T, out: seq<T>, x: T, level: nat)
    requires Linked(st) && Ranked(st) && x in st && Inside(st, x, base) && x !in out
    requires (forall y :: y in out ==> y in st && Inside(st, y, base) && Level(st, base, y) <= level)
    requires NoDuplicates(out) && LevelOrder(st, base, out) && Level(st, base, x) == level
    ensures forall y :: y in out + [x] ==> y in st && Inside(st, y, base)
    ensures NoDuplicates(out + [x]) && LevelOrder(st, base, out + [x])
  {
    forall i, j | 0 <= i < j < |out + [x]|
      ensures Level(st, base, (out + [x])[i]) <= Level(st, base, (out + [x])[j])
    {
      assert out[i] in out;
    }
  }

  /** One item of the front container further. */
  lemma CursorMoves<T>(st: Store<T>, out: seq<T>, done: seq<T>, over: seq<T>, cur: nat, more: seq<T>)
    requires Progress(st, out, done, over, cur) && over != []
    requires forall c :: c in over || c in more ==> HasItems(st, c)
    ensures var c := over[0]; var x := st[c].items[cur];
      if cur + 1 < |st[c].items| then Progress(st, out + [x], done, over + more, cur + 1)
      else Progress(st, out + [x], done + [c], (over + more)[1..], 0)
  {
    var c := over[0];
    var x := st[c].items[cur];
    assert st[c].items[..cur + 1] == st[c].items[..cur] + [x];
    assert out + [x] == ItemsOf(st, done) + st[c].items[..cur + 1];
    if cur + 1 == |st[c].items| {
      ItemsOfSnoc(st, done, c);
      assert st[c].items[..cur + 1] == st[c].items;
      var rest := (over + more)[1..];
      assert forall d :: d in rest ==> d in over || d in more;
      if rest != [] {
        assert rest[0] in rest && st[rest[0]].items[..0] == [];
      }
    }
  }

  lemma LevelOfItem<T>(st: Store<T>, base: T, c: T, x: T)
    requires Linked(st) && Ranked(st) && base in st && c in st && x in st && st[x].parent == Some(c) && Inside(st, x, base)
    ensures Level(st, base, x) == 1 + Level(st, base, c)
  {
    NoSelfContainment(st, base);
  }

  lemma QueueHasItems<T>(st: Store<T>, base: T, out: seq<T>, done: seq<T>, over: seq<T>, cur: nat)
    requires Linked(st) && Ranked(st) && Walking(st, base, out, done, over, cur) && over != []
    ensures over[0] in st && cur < |st[over[0]].items|
    ensures forall c :: c in over ==> HasItems(st, c)
  {
    forall c | c in over ensures HasItems(st, c) {
      QueueMembers(st, base, out, done, over, cur, c);
    }
  }

  /** One step: the item is visited and, if it is a container with items, queued. */
  lemma WalkSteps<T>(st: Store<T>, base: T, out: seq<T>, done: seq<T>, over: seq<T>, cur: nat)
    requires Linked(st) && Ranked(st) && Walking(st, base, out, done, over, cur) && over != []
    ensures over[0] in st && cur < |st[over[0]].items|
    ensures var c := over[0]; var x := st[c].items[cur];
      var over' := over + (if HasItems(st, x) then [x] else []);
      if cur + 1 < |st[c].items| then Walking(st, base, out + [x], done, over', cur + 1)
      else Walking(st, base, out + [x], done + [c], over'[1..], 0)
  {
    hide Inside, Queued, ItemsOf, Progress, NoDuplicates, LevelOrder, Linked, Ranked;
    QueueHasItems(st, base, out, done, over, cur);
    var c := over[0];
    var x := st[c].items[cur];
    var more := if HasItems(st, x) then [x] else [];
    NextIsNew(st, base, out, done, over, cur);
    NextIsDeepest(st, base, out, done, over, cur);
    LevelOfItem(st, base, c, x);
    OutGrows(st, base, out, x, 1 + Level(st, base, c));
    QueuedSnoc(st, [base] + out, x);
    assert [base] + (out + [x]) == [base] + out + [x];
    assert done + (over + more) == done + over + more;
    assert done + [c] + (over + more)[1..] == done + (over + more);
    CursorMoves(st, out, done, over, cur, more);
  }

  // ---------------------------------------------------------------- the end of the walk

  /** Everything nested in `base`, at any depth. */
  ghost function Nested<T>(st: Store<T>, base: T): (r: set<T>)
  {
    set o | o in st && Inside(st, o, base)
  }

  /** What surrounds an item inside a container, up to that container, are containers. */
  lemma {:induction false} AroundAreContainers<T>(st: Store<T>, o: T, base: T)
    requires Linked(st) && Ranked(st) && base in st && Holds(st[base].kind) && o in st && Inside(st, o, base)
    ensures st[o].parent.Some? && st[o].parent.value in st && Holds(st[st[o].parent.value].kind)
    ensures !st[o].kind.Carrier? && o in st[st[o].parent.value].items
    decreases st[o].depth
  {
    InsideByParent(st, o, base);
    ParentIsAbove(st, o);
    assert LinkedUp(st, o);
    var p := st[o].parent.value;
    if p != base {
      AroundAreContainers(st, p, base);
    }
  }

  /** When the queue is empty, whatever is nested has been visited. */
  lemma {:induction false} EverythingVisited<T>(st: Store<T>, base: T, out: seq<T>, done: seq<T>, o: T)
    requires Linked(st) && Ranked(st) && Walking(st, base, out, done, [], 0) && o in st && Inside(st, o, base)
    ensures o in out
    decreases st[o].depth
  {
    AroundAreContainers(st, o, base);
    InsideByParent(st, o, base);
    ParentIsAbove(st, o);
    var p := st[o].parent.value;
    if p != base {
      EverythingVisited(st, base, out, done, p);
    }
    QueuedMembers(st, [base] + out);
    assert p in [base] + out && HasItems(st, p);
    assert done + [] == done;
    ItemsOfMembers(st, done);
  }

  /** The walk visits what is nested in the base, each item once, level by level, and nothing else. */
  lemma WalkIsComplete<T>(st: Store<T>, base: T, out: seq<T>, done: seq<T>)
    requires Linked(st) && Ranked(st) && Walking(st, base, out, done, [], 0)
    ensures (set o | o in out) == Nested(st, base) && NoDuplicates(out) && |out| == |Nested(st, base)|
    ensures LevelOrder(st, base, out)
  {
    forall o | o in Nested(st, base) ensures o in out {
      EverythingVisited(st, base, out, done, o);
    }
    assert (set o | o in out) == Nested(st, base);
    DistinctSize(out);
  }

  lemma {:induction false} DistinctSize<T>(xs: seq<T>)
    requires NoDuplicates(xs)
    ensures |set x | x in xs| == |xs|
  {
    if xs != [] {
      var init, last := xs[..|xs| - 1], xs[|xs| - 1];
      DistinctSize(init);
      assert (set x | x in xs) == (set x | x in init) + {last};
    }
  }

  /** There is always something left of the store while the walk goes on. */
  lemma WalkIsShort<T>(st: Store<T>, base: T, out: seq<T>, done: seq<T>, over: seq<T>, cur: nat)
    requires Linked(st) && Ranked(st) && Walking(st, base, out, done, over, cur)
    ensures |out| <= |Nested(st, base)|
    ensures over != [] ==> |out| < |Nested(st, base)|
  {
    DistinctSize(out);
    var visited := set x | x in out;
    Subset(visited, Nested(st, base));
    if over != [] {
      NextIsNew(st, base, out, done, over, cur);
      QueueHasItems(st, base, out, done, over, cur);
      Subset(visited + {st[over[0]].items[cur]}, Nested(st, base));
    }
  }

  lemma {:induction false} Subset<T>(a: set<T>, b: set<T>)
    requires a <= b
    ensures |a| <= |b|
  {
    if a != {} {
      var x :| x in a;
      Subset(a - {x}, b - {x});
    }
  }

  // ---------------------------------------------------------------- counting after a change

  /** No item has a parent that it did not have before. */
  ghost predicate FewerLinks<T>(st: Store<T>, st': Store<T>)
  {
    forall p :: p in st' && st'[p].parent.Some? ==> p in st && st[p].parent == st'[p].parent
  }

  lemma NestedFewer<T>(st: Store<T>, st': Store<T>, d: T)
    requires FewerLinks(st, st')
    ensures Nested(st', d) <= Nested(st, d)
  {
    forall o | o in Nested(st', d) ensures o in Nested(st, d) {
      InsideFewer(st, st', o, d);
      var n: nat :| n > 0 && Up(st', o, n) == Some(d);
      UpNone(st', o, n);
      assert Up(st', o, 0) == Some(o) && Up(st', o, 1) == st'[o].parent;
    }
  }

  /** After `x` has entered `c`, a path up either is an old one or has come through `x`. */
  lemma {:induction false} UpThrough<T>(st: Store<T>, st': Store<T>, c: T, x: T, o: T, n: nat, d: T)
    requires c in st && st.Keys == st'.Keys
    requires forall p :: p in st ==> st'[p].parent == if p == x then Some(c) else st[p].parent
    requires Up(st', o, n) == Some(d)
    ensures Up(st, o, n) == Some(d) || o == x || Inside(st, o, x)
    decreases n
  {
    if n > 0 && o != x {
      UpNone(st', o, n);
      assert Up(st', o, 0) == Some(o) && Up(st, o, 0) == Some(o);
      assert Up(st', o, 1) == st'[o].parent == st[o].parent == Up(st, o, 1);
      var p := st[o].parent.value;
      UpAdd(st', o, 1, n - 1);
      UpThrough(st, st', c, x, p, n - 1, d);
      UpAdd(st, o, 1, n - 1);
      InsideByParent(st, o, x);
    }
  }

  lemma NestedAttached<T>(st: Store<T>, st': Store<T>, c: T, x: T, d: T)
    requires c in st && x in st && st.Keys == st'.Keys
    requires forall p :: p in st ==> st'[p].parent == if p == x then Some(c) else st[p].parent
    ensures Nested(st', d) <= Nested(st, d) + {x} + Nested(st, x)
  {
    forall o | o in Nested(st', d) ensures o in Nested(st, d) + {x} + Nested(st, x) {
      var n: nat :| n > 0 && Up(st', o, n) == Some(d);
      UpThrough(st, st', c, x, o, n, d);
    }
  }

  lemma {:induction false} UnionSize<T>(a: set<T>, b: set<T>)
    ensures |a + b| <= |a| + |b|
  {
    assert |a + b| == |a| + |b| - |a * b|;
  }

  /**
   What a depot holds after `x` has been taken out of wherever it was (links of `st1` are links of
   `st`) and put into `c`: at most what it held, plus `x` and its contents if those were elsewhere.
   */
  lemma NestedAfterMove<T>(st: Store<T>, st1: Store<T>, st2: Store<T>, c: T, x: T, d: T)
    requires c in st1 && x in st1 && st1.Keys == st2.Keys && FewerLinks(st, st1)
    requires forall p :: p in st1 ==> st2[p].parent == if p == x then Some(c) else st1[p].parent
    ensures |Nested(st2, d)| <= |Nested(st, d)| + 1 + |Nested(st, x)|
    ensures x in st && Inside(st, x, d) ==> |Nested(st2, d)| <= |Nested(st, d)|
  {
    NestedAttached(st1, st2, c, x, d);
    NestedFewer(st, st1, d);
    NestedFewer(st, st1, x);
    UnionSize(Nested(st, d) + {x}, Nested(st, x));
    UnionSize(Nested(st, d), {x});
    Subset(Nested(st2, d), Nested(st, d) + {x} + Nested(st, x));
    if x in st && Inside(st, x, d) {
      forall o | o in Nested(st, x) ensures o in Nested(st, d) {
        InsideTransitive(st, o, x, d);
      }
      Subset(Nested(st2, d), Nested(st, d));
    }
  }

  /** Nothing is inside a plain item, or inside an item that is not there yet. */
  lemma NothingInside<T>(st: Store<T>, x: T)
    requires Linked(st) && Ranked(st) && (x in st ==> st[x].kind.Plain?)
    ensures Nested(st, x) == {}
  {
    forall o | o in st ensures !Inside(st, o, x) {
      if x in st {
        PlainHoldsNothing(st, o, x);
      } else if Inside(st, o, x) {
        var n: nat :| n > 0 && Up(st, o, n) == Some(x);
        InsideIsDeeper(st, o, n);
      }
    }
  }

  // ---------------------------------------------------------------- the depot rule

  /**
   How many items the depot rule counts for an item: none if its top parent is the depot and it moves
   as a whole, one for what is split off a stack there, else the item with all that is in it.
   */
  ghost function AddCount<T>(st: Store<T>, d: T, x: T, split: bool): nat
    requires Linked(st) && Ranked(st) && x in st
  {
    if TopParent(st, x) != Some(d) then (if Holds(st[x].kind) then |Nested(st, x)| + 1 else 1)
    else if split then 1
    else 0
  }

  /**
   For a depot that stands on a tile, and an item that goes as a whole, the count is exact: nothing if the item is in
   the depot already, and else as many as come in, the item and all that is nested in it.
   */
  lemma CountsExactly<T>(st: Store<T>, d: T, x: T)
    requires Linked(st) && Ranked(st) && OnTile(st, d) && x in st && x != d && !st[x].kind.Carrier?
    ensures AddCount(st, d, x, false) == if Inside(st, x, d) then 0 else |Nested(st, x)| + 1
  {
    hide Linked, Ranked, Nested, Inside, OnTile;
    if st[x].kind.Plain? {
      NothingInside(st, x);
    }
    if Inside(st, x, d) {
      InsideTop(st, x, d);
    } else if TopParent(st, x) == Some(d) {
      TopParentAround(st, x, d);
    }
  }

  lemma InsideTop<T>(st: Store<T>, x: T, d: T)
    requires Linked(st) && Ranked(st) && OnTile(st, d) && x in st && Inside(st, x, d)
    ensures TopParent(st, x) == Some(d)
  {
    hide Linked, Ranked, Inside;
    InsideByParent(st, x, d);
    ParentIsAbove(st, x);
    if st[x].kind != Plain {
      TopOfNested(st, x, d);
    } else if st[x].parent.value != d {
      TopOfNested(st, st[x].parent.value, d);
    }
  }

  /** The depot that watches over a container: the container itself, or its top parent. */
  ghost predicate Watched<T>(st: Store<T>, c: T, d: T)
    requires Linked(st) && Ranked(st) && c in st
  {
    d in st && st[d].kind.DepotBox? && (d == c || d == TopOf(st, c))
  }

  /** `moved` has entered `c`, or nothing has changed since `st1`. */
  ghost predicate Entered<T>(st1: Store<T>, st2: Store<T>, c: T, moved: T)
  {
    && c in st1 && moved in st1 && st1.Keys == st2.Keys
    && (st2 == st1 || forall p :: p in st1 ==> st2[p].parent == if p == moved then Some(c) else st1[p].parent)
  }

  /** What the query has checked is enough for what the move does to the depot. */
  lemma DepotKeepsLimit<T>(st: Store<T>, st1: Store<T>, st2: Store<T>, c: T, x: T, split: bool, moved: T, d: T, limit: nat)
    requires Linked(st) && Ranked(st) && c in st && x in st && x != c && !Inside(st, c, x) && !st[x].kind.Carrier?
    requires Watched(st, c, d) && |Nested(st, d)| + AddCount(st, d, x, split) <= limit
    requires if split then moved !in st else moved == x
    requires FewerLinks(st, st1) && Entered(st1, st2, c, moved)
    ensures |Nested(st2, d)| <= limit
  {
    hide Linked, Ranked, Inside, Nested;
    if st2 == st1 {
      NestedFewer(st, st1, d);
      Subset(Nested(st1, d), Nested(st, d));
      return;
    }
    NestedAfterMove(st, st1, st2, c, moved, d);
    if split {
      NothingInside(st, moved);
    } else if TopParent(st, x) == Some(d) {
      TopParentAround(st, x, d);
    } else if st[x].kind.Plain? {
      NothingInside(st, x);
    }
  }

  /** The same when a new item enters, in place of `x`, which is gone. */
  lemma DepotKeepsLimitAnew<T>(st: Store<T>, st1: Store<T>, st2: Store<T>, c: T, x: T, moved: T, d: T, limit: nat)
    requires Linked(st) && Ranked(st) && c in st && x in st && x != c && !Inside(st, c, x)
    requires Watched(st, c, d) && |Nested(st, d)| + AddCount(st, d, x, false) <= limit
    requires moved !in st && x in st1 && st1[x].parent.None?
    requires FewerLinks(st, st1) && Entered(st1, st2, c, moved)
    ensures |Nested(st2, d)| <= limit
  {
    hide Linked, Ranked, Inside, Nested;
    NestedFewer(st, st1, d);
    var before := Nested(st, d);
    if TopParent(st, x) == Some(d) {
      TopParentAround(st, x, d);
      NestedOf(st, x, d);
      NestedGone(st1, x, d);
      before := before - {x};
      assert |before| == |Nested(st, d)| - 1;
    }
    Subset(Nested(st1, d), before);
    if st2 != st1 {
      NestedAttached(st1, st2, c, moved, d);
      NestedFewer(st, st1, moved);
      NothingInside(st, moved);
      UnionSize(before, {moved});
      Subset(Nested(st2, d), before + {moved});
    }
  }

  lemma NestedOf<T>(st: Store<T>, x: T, d: T)
    ensures x in Nested(st, d) <==> x in st && Inside(st, x, d)
  {
  }

  lemma NestedGone<T>(st: Store<T>, x: T, d: T)
    requires x in st && st[x].parent.None?
    ensures x !in Nested(st, d)
  {
    InsideByParent(st, x, d);
  }

  // ---------------------------------------------------------------- a depot on a tile

  /** A depot directly on a tile. */
  ghost predicate OnTile<T>(st: Store<T>, d: T)
  {
    && d in st && st[d].kind.DepotBox? && st[d].parent.Some? && st[d].parent.value in st
    && st[st[d].parent.value].kind.Carrier? && st[st[d].parent.value].parent.None?
  }

  /** A depot on a tile watches over exactly what is put into it, at whatever depth. */
  lemma OnTileWatches<T>(st: Store<T>, c: T, d: T)
    requires Linked(st) && Ranked(st) && c in st && OnTile(st, d)
    ensures Watched(st, c, d) <==> c == d || Inside(st, c, d)
  {
    if c != d && Inside(st, c, d) {
      TopOfNested(st, c, d);
    }
  }

  /** Where nothing enters, nothing new is inside. */
  lemma {:induction false} UpPast<T>(st: Store<T>, st': Store<T>, c: T, x: T, o: T, n: nat, d: T)
    requires c in st && st.Keys == st'.Keys && c != d && !Inside(st, c, d)
    requires forall p :: p in st ==> st'[p].parent == if p == x then Some(c) else st[p].parent
    requires n > 0 && Up(st', o, n) == Some(d)
    ensures Inside(st, o, d)
    decreases n
  {
    UpNone(st', o, n);
    assert Up(st', o, 0) == Some(o) && Up(st', o, 1) == st'[o].parent;
    var p := st'[o].parent.value;
    UpAdd(st', o, 1, n - 1);
    if n > 1 {
      UpPast(st, st', c, x, p, n - 1, d);
    }
    if o != x {
      InsideByParent(st, o, d);
    }
  }

  lemma NestedElsewhere<T>(st: Store<T>, st1: Store<T>, st2: Store<T>, c: T, moved: T, d: T)
    requires FewerLinks(st, st1) && Entered(st1, st2, c, moved) && c != d && !Inside(st, c, d)
    ensures Nested(st2, d) <= Nested(st, d)
  {
    NestedFewer(st, st1, d);
    InsideFewer(st, st1, c, d);
    if st2 != st1 {
      forall o | o in Nested(st2, d) ensures o in Nested(st1, d) {
        var n: nat :| n > 0 && Up(st2, o, n) == Some(d);
        UpPast(st1, st2, c, moved, o, n, d);
      }
    }
  }

  /** Only the links of `x` and of new items have changed. */
  ghost predicate OthersStay<T>(st: Store<T>, st': Store<T>, x: T)
  {
    forall o :: o in st && o != x ==> o in st' && st'[o].parent == st[o].parent && st'[o].kind == st[o].kind
  }

  lemma StaysOnTile<T>(st: Store<T>, st': Store<T>, x: T, d: T)
    ensures (OnTile(st, d) && OthersStay(st, st', x) && x != d && (x in st ==> !st[x].kind.Carrier?)) ==>
      OnTile(st', d)
  {
  }
}
