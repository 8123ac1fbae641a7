/**
 Items, containers and tiles as a store of records linked by parent pointers and item lists: what it
 means for the store to be consistent, acyclic and correctly weighed, and what is nested in what.
 */
module ItemStore {
  import opened Basics

  /** What a cylinder or item is: a plain item, a container, a depot, or a carrier (tile or player). */
  datatype Kind = Plain | Bag | DepotBox | Carrier

  predicate Holds(k: Kind) { k.Bag? || k.DepotBox? }

  /**
   One item with its links, its own weight, and the cached weight of what it contains.  The depth is
   not kept by the program: it is the witness that parent links never run in a circle.
   */
  datatype Rec<T> = Rec(kind: Kind, parent: Option<T>, items: seq<T>, own: int, total: int, depth: nat)

  type Store<!T> = map<T, Rec<T>>

  predicate NoDuplicates<T(==)>(xs: seq<T>)
  {
    forall i, j :: 0 <= i < j < |xs| ==> xs[i] != xs[j]
  }

  /** Links go both ways: the items of a container are those whose parent it is. */
  ghost predicate Linked<T>(st: Store<T>)
  {
    && (forall o :: o in st ==> LinkedUp(st, o))
    && (forall c :: c in st ==> LinkedDown(st, c))
  }

  predicate LinkedUp<T(==)>(st: Store<T>, o: T)
    requires o in st
  {
    st[o].parent.Some? ==>
      && var p := st[o].parent.value;
      && p in st && st[p].kind != Plain
      && (Holds(st[p].kind) ==> o in st[p].items)
      && (st[o].kind.Carrier? ==> st[p].kind.Carrier?)
  }

  ghost predicate LinkedDown<T>(st: Store<T>, c: T)
    requires c in st
  {
    && NoDuplicates(st[c].items)
    && (forall x :: x in st[c].items ==> x in st && st[x].parent == Some(c))
    && (!Holds(st[c].kind) ==> st[c].items == [] && st[c].total == 0)
  }

  /** Every item lies deeper than its parent, so no item contains itself. */
  ghost predicate Ranked<T>(st: Store<T>)
  {
    forall o :: o in st ==> DeeperThanParent(st, o)
  }

  predicate DeeperThanParent<T(==)>(st: Store<T>, o: T)
    requires o in st
  {
    st[o].parent.Some? && st[o].parent.value in st ==> st[st[o].parent.value].depth < st[o].depth
  }

  lemma ParentIsAbove<T>(st: Store<T>, o: T)
    requires Linked(st) && Ranked(st) && o in st
    ensures st[o].parent.Some? ==> st[o].parent.value in st && st[st[o].parent.value].depth < st[o].depth
  {
    assert LinkedUp(st, o) && DeeperThanParent(st, o);
  }

  // ---------------------------------------------------------------- nesting

  /** The `n`-th ancestor. */
  ghost function Up<T>(st: Store<T>, o: T, n: nat): Option<T>
  {
    if n == 0 then Some(o)
    else
      var below := Up(st, o, n - 1);
      if below.Some? && below.value in st then st[below.value].parent else None
  }

  /** `o` lies inside `c`, at whatever depth. */
  ghost predicate Inside<T>(st: Store<T>, o: T, c: T)
  {
    exists n: nat :: n > 0 && Up(st, o, n) == Some(c)
  }

  lemma {:induction false} UpAdd<T>(st: Store<T>, o: T, n: nat, m: nat)
    requires Up(st, o, n).Some?
    ensures Up(st, o, n + m) == Up(st, Up(st, o, n).value, m)
  {
    if m > 0 {
      UpAdd(st, o, n, m - 1);
    }
  }

  /** Inside means: inside the parent, or the parent itself. */
  lemma InsideByParent<T>(st: Store<T>, o: T, c: T)
    requires o in st
    ensures Inside(st, o, c) <==> st[o].parent.Some? && (st[o].parent.value == c || Inside(st, st[o].parent.value, c))
  {
    var p := st[o].parent;
    assert Up(st, o, 0) == Some(o) && Up(st, o, 1) == p;
    if Inside(st, o, c) {
      var n: nat :| n > 0 && Up(st, o, n) == Some(c);
      UpNone(st, o, n);
      UpAdd(st, o, 1, n - 1);
      assert n > 1 ==> Inside(st, p.value, c);
    }
    if p.Some? && p.value == c {
      assert Inside(st, o, c);
    }
    if p.Some? && Inside(st, p.value, c) {
      var n: nat :| n > 0 && Up(st, p.value, n) == Some(c);
      UpAdd(st, o, 1, n);
      assert Up(st, o, 1 + n) == Some(c);
    }
  }

  lemma {:induction false} UpNone<T>(st: Store<T>, o: T, n: nat)
    requires n > 0 && Up(st, o, n).Some?
    ensures Up(st, o, 1).Some?
  {
    if n > 1 {
      UpNone(st, o, n - 1);
    }
  }

  lemma InsideTransitive<T>(st: Store<T>, a: T, b: T, c: T)
    requires Inside(st, a, b) && Inside(st, b, c)
    ensures Inside(st, a, c)
  {
    var n: nat :| n > 0 && Up(st, a, n) == Some(b);
    var m: nat :| m > 0 && Up(st, b, m) == Some(c);
    UpAdd(st, a, n, m);
    assert Up(st, a, n + m) == Some(c);
  }

  lemma {:induction false} InsideIsDeeper<T>(st: Store<T>, o: T, n: nat)
    requires Linked(st) && Ranked(st) && o in st && Up(st, o, n).Some?
    ensures Up(st, o, n).value in st && st[Up(st, o, n).value].depth + n <= st[o].depth
  {
    if n > 0 {
      InsideIsDeeper(st, o, n - 1);
      assert LinkedUp(st, Up(st, o, n - 1).value) && DeeperThanParent(st, Up(st, o, n - 1).value);
    }
  }

  /** In an acyclic store nothing is inside itself, and only cylinders have something inside. */
  lemma NoSelfContainment<T>(st: Store<T>, o: T)
    requires Linked(st) && Ranked(st) && o in st
    ensures !Inside(st, o, o)
  {
    if Inside(st, o, o) {
      var n: nat :| n > 0 && Up(st, o, n) == Some(o);
      InsideIsDeeper(st, o, n);
    }
  }

  // ---------------------------------------------------------------- weights

  function Weight<T(==)>(st: Store<T>, o: T): int
    requires o in st
  {
    st[o].own + st[o].total
  }

  function SumWeights<T(==)>(st: Store<T>, xs: seq<T>): int
    requires forall x :: x in xs ==> x in st
  {
    if xs == [] then 0 else Weight(st, xs[0]) + SumWeights(st, xs[1..])
  }

  /** The cached weight of a container is the weight of its items, all of them nested further included. */
  predicate Balanced<T(==)>(st: Store<T>, c: T)
    requires c in st && forall x :: x in st[c].items ==> x in st
  {
    Holds(st[c].kind) ==> st[c].total == SumWeights(st, st[c].items)
  }

  ghost predicate AllBalanced<T>(st: Store<T>)
    requires Linked(st)
  {
    forall c :: c in st ==> (assert LinkedDown(st, c); Balanced(st, c))
  }

  /** Only `c` is off: its cached weight still lacks `diff`. */
  ghost predicate BalancedBut<T>(st: Store<T>, c: T, diff: int)
    requires Linked(st) && c in st
  {
    && (assert LinkedDown(st, c); Holds(st[c].kind) && st[c].total + diff == SumWeights(st, st[c].items))
    && forall o :: o in st && o != c ==> (assert LinkedDown(st, o); Balanced(st, o))
  }

  /** The store that the container code keeps at all times. */
  ghost predicate Good<T>(st: Store<T>)
  {
    Linked(st) && Ranked(st) && AllBalanced(st)
  }

  lemma {:induction false} SumConcat<T>(st: Store<T>, a: seq<T>, b: seq<T>)
    requires forall x :: x in a + b ==> x in st
    ensures forall x :: x in a || x in b ==> x in a + b
    ensures SumWeights(st, a + b) == SumWeights(st, a) + SumWeights(st, b)
  {
    forall x | x in a || x in b ensures x in a + b {}
    if a == [] {
      assert a + b == b;
    } else {
      assert (a + b)[1..] == a[1..] + b;
      SumConcat(st, a[1..], b);
    }
  }

  lemma {:induction false} SumSame<T>(st: Store<T>, st': Store<T>, xs: seq<T>)
    requires forall x :: x in xs ==> x in st && x in st' && Weight(st, x) == Weight(st', x)
    ensures SumWeights(st, xs) == SumWeights(st', xs)
  {
    if xs != [] {
      SumSame(st, st', xs[1..]);
    }
  }

  /** One item of a list changes its weight by `diff`. */
  lemma {:induction false} SumChanged<T>(st: Store<T>, st': Store<T>, xs: seq<T>, x: T, diff: int)
    requires NoDuplicates(xs) && x in xs
    requires forall y :: y in xs ==> y in st && y in st' && Weight(st', y) == Weight(st, y) + (if y == x then diff else 0)
    ensures SumWeights(st', xs) == SumWeights(st, xs) + diff
  {
    if xs[0] == x {
      forall y | y in xs[1..] ensures y != x {
        var k :| 0 <= k < |xs[1..]| && xs[1..][k] == y;
        assert xs[k + 1] != xs[0];
      }
      SumSame(st, st', xs[1..]);
    } else {
      SumChanged(st, st', xs[1..], x, diff);
    }
  }

  lemma SumInserted<T>(st: Store<T>, a: seq<T>, x: T, b: seq<T>)
    requires x in st && forall y :: y in a + b ==> y in st
    ensures forall y :: y in a + [x] + b ==> y in st
    ensures SumWeights(st, a + [x] + b) == SumWeights(st, a + b) + Weight(st, x)
  {
    forall y | y in a + [x] + b ensures y in st {
      assert y in a || y == x || y in b;
    }
    SumConcat(st, a + [x], b);
    SumConcat(st, a, [x]);
    SumConcat(st, a, b);
    assert [x][1..] == [] && SumWeights(st, [x]) == Weight(st, x);
  }

  lemma InsertedList<T>(a: seq<T>, x: T, b: seq<T>)
    ensures forall y :: y in a + [x] + b <==> y in a + b || y == x
    ensures NoDuplicates(a + [x] + b) <==> NoDuplicates(a + b) && x !in a + b
  {
    var xs, xs' := a + b, a + [x] + b;
    assert xs'[|a|] == x;
    assert forall k :: 0 <= k < |xs| ==> xs'[if k < |a| then k else k + 1] == xs[k];
    assert forall k :: 0 <= k < |xs'| && k != |a| ==> xs[if k < |a| then k else k - 1] == xs'[k];
  }

  // ---------------------------------------------------------------- operations on the store

  /** What setting `total` of one container does. */
  ghost function Bump<T>(st: Store<T>, c: T, diff: int): Store<T>
    requires c in st
  {
    st[c := st[c].(total := st[c].total + diff)]
  }

  /**
   Correcting the cached weight of the container that is off puts it right, and makes the container
   around it, if there is one, off by as much.
   */
  lemma BumpRepairs<T>(st: Store<T>, c: T, diff: int)
    requires Linked(st) && Ranked(st) && c in st && BalancedBut(st, c, diff)
    ensures var st' := Bump(st, c, diff);
      && Linked(st') && Ranked(st')
      && (if st[c].parent.Some? && Holds(st[st[c].parent.value].kind) then BalancedBut(st', st[c].parent.value, diff)
          else AllBalanced(st'))
  {
    var st' := Bump(st, c, diff);
    BumpLinked(st, c, diff);
    forall o | o in st
      ensures LinkedDown(st', o)
      ensures c !in st[o].items ==> SumWeights(st', st'[o].items) == SumWeights(st, st[o].items)
      ensures c in st[o].items ==> SumWeights(st', st'[o].items) == SumWeights(st, st[o].items) + diff
    {
      assert LinkedDown(st, o) && LinkedDown(st', o);
      if c in st[o].items {
        SumChanged(st, st', st[o].items, c, diff);
      } else {
        SumSame(st, st', st[o].items);
      }
    }
    assert LinkedUp(st, c) && DeeperThanParent(st, c) && LinkedDown(st, c);
    forall o | o in st && o != c ensures c in st[o].items <==> st[c].parent == Some(o) && Holds(st[o].kind) {
      assert LinkedDown(st, o);
    }
  }

  lemma BumpLinked<T>(st: Store<T>, c: T, diff: int)
    requires Linked(st) && Ranked(st) && c in st && Holds(st[c].kind)
    ensures Linked(Bump(st, c, diff)) && Ranked(Bump(st, c, diff))
  {
    var st' := Bump(st, c, diff);
    forall o | o in st' ensures LinkedUp(st', o) && LinkedDown(st', o) && DeeperThanParent(st', o) {
      assert LinkedUp(st, o) && LinkedDown(st, o) && DeeperThanParent(st, o);
    }
  }

  /** An item changes its own weight; the container around it is off by the difference. */
  ghost function Reweigh<T>(st: Store<T>, x: T, own: int): Store<T>
    requires x in st
  {
    st[x := st[x].(own := own)]
  }

  lemma ReweighUnbalances<T>(st: Store<T>, c: T, x: T, own: int)
    requires Good(st) && c in st && x in st[c].items && x in st
    ensures Linked(Reweigh(st, x, own)) && Ranked(Reweigh(st, x, own))
    ensures BalancedBut(Reweigh(st, x, own), c, own - st[x].own)
  {
    var st' := Reweigh(st, x, own);
    forall o | o in st' ensures LinkedUp(st', o) && LinkedDown(st', o) && DeeperThanParent(st', o) {
      assert LinkedUp(st, o) && LinkedDown(st, o) && DeeperThanParent(st, o);
    }
    assert LinkedDown(st, c);
    forall o | o in st
      ensures o != c ==> SumWeights(st', st'[o].items) == SumWeights(st, st[o].items)
    {
      assert LinkedDown(st, o);
      if o != c {
        SumSame(st, st', st[o].items);
      }
    }
    SumChanged(st, st', st[c].items, x, own - st[x].own);
  }

  lemma GoodItem<T>(st: Store<T>, c: T, x: T)
    requires Good(st) && c in st && x in st[c].items
    ensures x in st && x != c && st[x].parent == Some(c)
  {
    assert LinkedDown(st, c) && DeeperThanParent(st, x);
  }

  /** Item `x` leaves container `c`, where it stood between `a` and `b`. */
  ghost function Detach<T>(st: Store<T>, c: T, x: T, a: seq<T>, b: seq<T>): Store<T>
    requires c in st && x in st && c != x
  {
    st[c := st[c].(items := a + b)][x := st[x].(parent := None)]
  }

  lemma DetachLinked<T>(st: Store<T>, c: T, x: T, a: seq<T>, b: seq<T>)
    requires Linked(st) && Ranked(st) && c in st && x in st && Holds(st[c].kind) && st[c].items == a + [x] + b
    ensures c != x && Linked(Detach(st, c, x, a, b)) && Ranked(Detach(st, c, x, a, b))
  {
    InsertedList(a, x, b);
    assert LinkedDown(st, c) && x in st[c].items && DeeperThanParent(st, x);
    var st' := Detach(st, c, x, a, b);
    forall o | o in st' ensures LinkedUp(st', o) && LinkedDown(st', o) && DeeperThanParent(st', o) {
      assert LinkedUp(st, o) && LinkedDown(st, o) && DeeperThanParent(st, o);
    }
  }

  lemma DetachUnbalances<T>(st: Store<T>, c: T, x: T, a: seq<T>, b: seq<T>)
    requires Good(st) && c in st && x in st && Holds(st[c].kind) && st[c].items == a + [x] + b
    ensures c != x && Linked(Detach(st, c, x, a, b)) && Ranked(Detach(st, c, x, a, b))
    ensures BalancedBut(Detach(st, c, x, a, b), c, -Weight(st, x))
  {
    DetachLinked(st, c, x, a, b);
    var st' := Detach(st, c, x, a, b);
    forall o | o in st
      ensures o != c ==> SumWeights(st', st'[o].items) == SumWeights(st, st[o].items)
    {
      assert LinkedDown(st, o);
      if o != c {
        SumSame(st, st', st[o].items);
      }
    }
    assert LinkedDown(st, c) && LinkedDown(st', c);
    InsertedList(a, x, b);
    SumInserted(st, a, x, b);
    SumSame(st, st', a + b);
  }

  /** Item `x` enters container `c` between `a` and `b`; what is inside it moves down with it. */
  ghost function Attach<T>(st: Store<T>, c: T, x: T, a: seq<T>, b: seq<T>): Store<T>
    requires c in st
  {
    map o | o in st ::
      st[o].(parent := if o == x then Some(c) else st[o].parent,
             items := if o == c then a + [x] + b else st[o].items,
             depth := if o == x || Inside(st, o, x) then st[o].depth + st[c].depth + 1 else st[o].depth)
  }

  lemma AttachRanked<T>(st: Store<T>, c: T, x: T, a: seq<T>, b: seq<T>)
    requires Linked(st) && Ranked(st) && c in st && x in st && c != x && !Inside(st, c, x)
    ensures Ranked(Attach(st, c, x, a, b))
  {
    var st' := Attach(st, c, x, a, b);
    forall o | o in st' ensures DeeperThanParent(st', o) {
      assert LinkedUp(st, o) && DeeperThanParent(st, o);
      InsideByParent(st, o, x);
      NoSelfContainment(st, x);
    }
  }

  lemma AttachLinked<T>(st: Store<T>, c: T, x: T, a: seq<T>, b: seq<T>)
    requires Linked(st) && c in st && x in st && c != x && Holds(st[c].kind) && !st[x].kind.Carrier?
    requires st[x].parent.None? && st[c].items == a + b
    ensures Linked(Attach(st, c, x, a, b))
  {
    var st' := Attach(st, c, x, a, b);
    assert LinkedDown(st, c);
    InsertedList(a, x, b);
    forall o | o in st' ensures LinkedUp(st', o) && LinkedDown(st', o) {
      assert LinkedUp(st, o) && LinkedDown(st, o);
    }
  }

  /** An item may enter a container that is neither the item itself nor inside it. */
  lemma AttachUnbalances<T>(st: Store<T>, c: T, x: T, a: seq<T>, b: seq<T>)
    requires Good(st) && c in st && x in st && c != x && Holds(st[c].kind) && !st[x].kind.Carrier?
    requires st[x].parent.None? && st[c].items == a + b && !Inside(st, c, x)
    ensures Linked(Attach(st, c, x, a, b)) && Ranked(Attach(st, c, x, a, b))
    ensures BalancedBut(Attach(st, c, x, a, b), c, Weight(st, x))
  {
    AttachLinked(st, c, x, a, b);
    AttachRanked(st, c, x, a, b);
    var st' := Attach(st, c, x, a, b);
    forall o | o in st
      ensures o != c ==> SumWeights(st', st'[o].items) == SumWeights(st, st[o].items)
    {
      assert LinkedDown(st, o);
      if o != c {
        SumSame(st, st', st[o].items);
      }
    }
    assert LinkedDown(st, c);
    SumSame(st, st', a + b);
    SumInserted(st', a, x, b);
  }

  /** Two stores that differ in cached weights at most. */
  ghost predicate SameButTotals<T>(st: Store<T>, st': Store<T>)
  {
    st.Keys == st'.Keys && forall o :: o in st ==> st'[o] == st[o].(total := st'[o].total)
  }

  // ---------------------------------------------------------------- what the cached weights mean

  ghost predicate DepthsBelow<T>(st: Store<T>, bound: nat)
  {
    Linked(st) && Ranked(st) && forall o :: o in st ==> st[o].depth < bound
  }

  /** A store is finite, so its depths have a bound. */
  lemma {:induction false} DepthBound<T>(st: Store<T>) returns (bound: nat)
    ensures forall o :: o in st ==> st[o].depth < bound
    decreases |st|
  {
    if st == map[] {
      bound := 0;
    } else {
      var o :| o in st;
      var rest := st - {o};
      assert rest.Keys == st.Keys - {o} && |rest| == |rest.Keys| && |st| == |st.Keys|;
      var below := DepthBound(rest);
      bound := Max(below, st[o].depth + 1);
      assert forall p :: p in st && p != o ==> p in rest && rest[p] == st[p];
    }
  }

  /** The weight of everything nested in `c`, by recursion into the items. */
  ghost function NestedWeight<T>(st: Store<T>, bound: nat, c: T): int
    requires DepthsBelow(st, bound) && c in st
    decreases bound - st[c].depth, 1, 0
  {
    assert LinkedDown(st, c);
    NestedSum(st, bound, c, st[c].items)
  }

  ghost function NestedSum<T>(st: Store<T>, bound: nat, c: T, xs: seq<T>): int
    requires DepthsBelow(st, bound) && c in st
    requires forall x :: x in xs ==> x in st[c].items && x in st
    decreases bound - st[c].depth, 0, |xs|
  {
    if xs == [] then 0
    else
      assert LinkedDown(st, c) && DeeperThanParent(st, xs[0]);
      st[xs[0]].own + NestedWeight(st, bound, xs[0]) + NestedSum(st, bound, c, xs[1..])
  }

  lemma {:induction false} SumIsNested<T>(st: Store<T>, bound: nat, c: T, xs: seq<T>)
    requires DepthsBelow(st, bound) && AllBalanced(st) && c in st
    requires forall x :: x in xs ==> x in st[c].items && x in st
    ensures SumWeights(st, xs) == NestedSum(st, bound, c, xs)
    decreases bound - st[c].depth, 0, |xs|
  {
    if xs != [] {
      assert LinkedDown(st, c) && DeeperThanParent(st, xs[0]);
      TotalIsNestedWeight(st, bound, xs[0]);
      SumIsNested(st, bound, c, xs[1..]);
    }
  }

  /** In a good store the cached weight of every container is the recursive sum over its contents. */
  lemma {:induction false} TotalIsNestedWeight<T>(st: Store<T>, bound: nat, c: T)
    requires DepthsBelow(st, bound) && AllBalanced(st) && c in st
    ensures st[c].total == NestedWeight(st, bound, c)
    decreases bound - st[c].depth, 1, 0
  {
    assert LinkedDown(st, c) && Balanced(st, c);
    SumIsNested(st, bound, c, st[c].items);
  }

  // ---------------------------------------------------------------- nesting after a change

  /** Fewer parent links mean less nesting. */
  lemma {:induction false} UpFewer<T>(st: Store<T>, st': Store<T>, o: T, n: nat)
    requires forall p :: p in st' && st'[p].parent.Some? ==> p in st && st[p].parent == st'[p].parent
    requires Up(st', o, n).Some?
    ensures Up(st, o, n) == Up(st', o, n)
  {
    if n > 0 {
      UpFewer(st, st', o, n - 1);
    }
  }

  lemma InsideFewer<T>(st: Store<T>, st': Store<T>, o: T, c: T)
    requires forall p :: p in st' && st'[p].parent.Some? ==> p in st && st[p].parent == st'[p].parent
    ensures Inside(st', o, c) ==> Inside(st, o, c)
  {
    if Inside(st', o, c) {
      var n: nat :| n > 0 && Up(st', o, n) == Some(c);
      UpFewer(st, st', o, n);
    }
  }

  /** Taking an item out puts nothing into anything. */
  lemma DetachInside<T>(st: Store<T>, st': Store<T>, c: T, x: T, a: seq<T>, b: seq<T>, o: T, y: T)
    requires c in st && x in st && c != x && SameButTotals(Detach(st, c, x, a, b), st')
    ensures Inside(st', o, y) ==> Inside(st, o, y)
  {
    InsideFewer(st, st', o, y);
  }

  // ---------------------------------------------------------------- top parents

  /** getTopParent of a cylinder: the outermost one that still has a parent, or itself if it has none. */
  ghost function TopOf<T>(st: Store<T>, o: T): (top: T)
    requires Linked(st) && Ranked(st) && o in st
    ensures top in st && (top == o || Inside(st, o, top))
    ensures st[o].kind != Plain ==> st[top].kind != Plain
    decreases st[o].depth
  {
    match st[o].parent
    case None => o
    case Some(p) =>
      assert LinkedUp(st, o);
      ParentIsAbove(st, o);
      InsideByParent(st, o, p);
      if st[p].parent.None? then o
      else
        var top := TopOf(st, p);
        InsideByParent(st, o, top);
        top
  }

  /** The same for any item; a plain item is no cylinder and does not count itself. */
  ghost function TopParent<T>(st: Store<T>, o: T): Option<T>
    requires Linked(st) && Ranked(st) && o in st
  {
    if st[o].kind != Plain then Some(TopOf(st, o))
    else
      match st[o].parent
      case None => None
      case Some(p) => ParentIsAbove(st, o); Some(TopOf(st, p))
  }

  /** An item whose top parent is `d` is `d` itself or lies inside it. */
  lemma TopParentAround<T>(st: Store<T>, o: T, d: T)
    requires Linked(st) && Ranked(st) && o in st && TopParent(st, o) == Some(d)
    ensures o == d || Inside(st, o, d)
  {
    ParentIsAbove(st, o);
    InsideByParent(st, o, d);
  }

  /**
   A cylinder inside `d` has `d` as its top parent exactly when `d` has a parent that has none itself,
   that is when `d` stands directly on a tile.
   */
  lemma {:induction false} TopOfNested<T>(st: Store<T>, o: T, d: T)
    requires Linked(st) && Ranked(st) && o in st && d in st && Inside(st, o, d)
    ensures TopOf(st, o) == d <==> st[d].parent.Some? && st[st[d].parent.value].parent.None?
    decreases st[o].depth
  {
    InsideByParent(st, o, d);
    ParentIsAbove(st, o);
    ParentIsAbove(st, d);
    NoSelfContainment(st, o);
    var p := st[o].parent.value;
    if p != d {
      TopOfNested(st, p, d);
      InsideByParent(st, p, d);
    } else if st[d].parent.Some? {
      var q := st[d].parent.value;
      NoSelfContainment(st, d);
      InsideByParent(st, d, d);
      assert TopOf(st, q) != d;
    }
  }

  lemma PlainHoldsNothing<T>(st: Store<T>, o: T, x: T)
    requires Linked(st) && Ranked(st) && o in st && x in st && st[x].kind.Plain?
    ensures !Inside(st, o, x)
    decreases st[o].depth
  {
    InsideByParent(st, o, x);
    ParentIsAbove(st, o);
    assert LinkedUp(st, o);
    if st[o].parent.Some? {
      PlainHoldsNothing(st, st[o].parent.value, x);
    }
  }

  // ---------------------------------------------------------------- loose items

  /** An item that lies in no container. */
  predicate Loose<T(==)>(st: Store<T>, x: T)
    requires x in st
  {
    st[x].parent.None? || (st[x].parent.value in st && !Holds(st[st[x].parent.value].kind))
  }

  lemma GoodParent<T>(st: Store<T>, x: T)
    requires Good(st) && x in st && st[x].parent.Some?
    ensures var p := st[x].parent.value;
      p in st && p != x && (if Holds(st[p].kind) then x in st[p].items else Loose(st, x))
  {
    assert LinkedUp(st, x) && DeeperThanParent(st, x);
  }

  /** A loose item may change its weight, or leave the tile it lies on, or be new. */
  lemma LooseChange<T>(st: Store<T>, x: T, r: Rec<T>)
    requires Good(st) && (x in st ==> Loose(st, x) && r == st[x].(own := r.own, parent := r.parent))
    requires x !in st ==> r.items == [] && r.total == 0
    requires r.parent == (if x in st && r.parent.Some? then st[x].parent else None)
    ensures Good(st[x := r])
  {
    var st' := st[x := r];
    forall o | o in st' ensures LinkedUp(st', o) && LinkedDown(st', o) && DeeperThanParent(st', o) && Balanced(st', o) {
      if o in st {
        assert LinkedUp(st, o) && LinkedDown(st, o) && DeeperThanParent(st, o) && Balanced(st, o);
        SumSame(st, st', st[o].items);
      }
    }
  }
}
