/**
 Adding items that lie nowhere, and internalMoveItem, which adds them too: when the answer is yes, how many come
 in, and where they end.
 */
module ItemAdds {
  import opened Basics
  import opened ItemStore
  import opened ItemWalk
  import opened Containers
  import opened ItemMoves

  // ---------------------------------------------------------------- when the answer is yes

  /** The first questions of internalAddItem: the destination lets the item in, and there is room for all of it. */
  ghost predicate Fits(c: Item, a: Aim, item: Item, noLimit: bool, outer: ReturnValue, world: set<Item>)
    requires Linked(Snap(world)) && Ranked(Snap(world)) && item in world && c in world
    reads world
  {
    && a.to in world && a.to.Accepts(a.index, item, item.count, noLimit, outer, world)
    && c.Enough(item, item.count, noLimit, c.Most(INDEX_WHEREEVER, item, item.count, noLimit, outer, world))
  }

  function SlackOf(x: Facts, id: nat): nat
  {
    if x.typ.id == id && x.count < 100 then 100 - x.count else 0
  }

  /** What the stacks in a list have left for a type. */
  ghost function Slack(f: map<Item, Facts>, list: seq<Item>, id: nat): nat
    requires forall x :: x in list ==> x in f
  {
    if list == [] then 0
    else Slack(f, list[..|list| - 1], id) + SlackOf(f[list[|list| - 1]], id)
  }

  ghost function SlackIn(c: Item, id: nat, world: set<Item>): nat
    requires Linked(Snap(world)) && c in world
    reads world
  {
    c.NeighboursKnown(world);
    Slack(FactsOf(world), c.itemlist, id)
  }

  /**
   Whether `n` more items of a type all come in, once one stack has been filled: they do if limits are waived; when
   stacks are not looked for, if the container is not full; and else if it has a size, or its stacks have room.
   */
  ghost predicate RestFits(c: Item, id: nat, n: nat, noLimit: bool, ignoreAutoStack: bool, world: set<Item>)
    requires Linked(Snap(world)) && c in world
    reads world
  {
    noLimit || if ignoreAutoStack then !c.Full() else c.maxSize != 0 || n <= SlackIn(c, id, world)
  }

  /** internalAddItem answers yes. */
  ghost predicate AllFits(c: Item, index: int, item: Item, noLimit: bool, ignoreAutoStack: bool, outer: ReturnValue,
                          world: set<Item>)
    requires Linked(Snap(world)) && Ranked(Snap(world)) && item in world && c in world
    reads world
  {
    c.NeighboursKnown(world);
    var a := c.Headed(index, item, ignoreAutoStack);
    var joined := Joining(a.toItem, item, item.count);
    && Fits(c, a, item, noLimit, outer, world)
    && (joined == 0 || joined == item.count || RestFits(c, item.typ.id, item.count, noLimit, ignoreAutoStack, world))
  }

  /** How many items come in: all, none, or as many as the stacks have room for that are looked at. */
  ghost function Arriving(c: Item, index: int, item: Item, noLimit: bool, ignoreAutoStack: bool, outer: ReturnValue,
                          world: set<Item>): nat
    requires Linked(Snap(world)) && Ranked(Snap(world)) && item in world && c in world
    reads world
  {
    c.NeighboursKnown(world);
    var a := c.Headed(index, item, ignoreAutoStack);
    if AllFits(c, index, item, noLimit, ignoreAutoStack, outer, world) then item.count
    else if !Fits(c, a, item, noLimit, outer, world) then 0
    else if ignoreAutoStack then Joining(a.toItem, item, item.count)
    else SlackIn(c, item.typ.id, world)
  }

  /** What a container asks of a loose item, whatever the index: no way into itself, and room in the depots that watch. */
  ghost predicate Admits(st: Store<Item>, c: Item, x: Item, noLimit: bool, outer: ReturnValue)
    requires Linked(st) && Ranked(st) && c in st && x in st
    reads st.Keys`depotLimit
  {
    && x != c && !Inside(st, c, x) && (st[TopOf(st, c)].kind.Carrier? ==> outer == NoError)
    && (noLimit || forall d :: d in st && Watched(st, c, d) ==>
          |Nested(st, d)| + (if Holds(st[x].kind) then |Nested(st, x)| + 1 else 1) <= d.depotLimit)
  }

  lemma TopOfLoose(st: Store<Item>, x: Item)
    ensures Linked(st) && Ranked(st) && x in st && st[x].parent.None? ==>
      TopParent(st, x) == if st[x].kind.Plain? then None else Some(x)
  {
  }

  lemma RoomForLoose(d: Item, item: Item, n: nat, world: set<Item>)
    requires Linked(Snap(world)) && Ranked(Snap(world)) && d in world && item in world && item.parent == null && d != item
    ensures d.HasRoom(item, n, world) <==> var st := Snap(world);
      |Nested(st, d)| + (if Holds(st[item].kind) then |Nested(st, item)| + 1 else 1) <= d.depotLimit
  {
    hide Linked, Ranked, Nested, TopParent;
    TopOfLoose(Snap(world), item);
  }

  /** The query for a loose item. */
  lemma AcceptsLoose(c: Item, index: int, item: Item, n: nat, noLimit: bool, outer: ReturnValue, world: set<Item>)
    requires Linked(Snap(world)) && Ranked(Snap(world)) && c in world && item in world && item.parent == null && Holds(c.kind)
    ensures c.Accepts(index, item, n, noLimit, outer, world) <==>
      && item.typ.pickupable && Admits(Snap(world), c, item, noLimit, outer)
      && !(index == INDEX_WHEREEVER && !noLimit && c.Full())
  {
    hide Linked, Ranked, Nested, Inside, TopOf, Item.HasRoom, Item.Full;
    var top := TopOf(Snap(world), c);
    if item != c && !Inside(Snap(world), c, item) {
      RoomForLoose(c, item, n, world);
      RoomForLoose(top, item, n, world);
    }
  }

  /** What is new and lies nowhere changes no top parents. */
  lemma {:induction false} TopSame(st: Store<Item>, st2: Store<Item>, c: Item)
    requires Linked(st) && Ranked(st) && Linked(st2) && Ranked(st2) && c in st
    requires forall o :: o in st ==> o in st2 && st2[o].parent == st[o].parent
    ensures TopOf(st2, c) == TopOf(st, c)
    decreases st[c].depth
  {
    ParentIsAbove(st, c);
    if st[c].parent.Some? {
      TopSame(st, st2, st[c].parent.value);
    }
  }

  lemma NestedSame(st: Store<Item>, st2: Store<Item>, d: Item)
    requires FewerLinks(st, st2) && FewerLinks(st2, st)
    ensures Nested(st2, d) == Nested(st, d)
  {
    NestedFewer(st, st2, d);
    NestedFewer(st2, st, d);
  }

  /** Where an item is admitted, a new plain one is. */
  lemma RestAdmitted(st: Store<Item>, st2: Store<Item>, c: Item, x: Item, rest: Item, noLimit: bool, outer: ReturnValue)
    requires Linked(st) && Ranked(st) && Linked(st2) && Ranked(st2) && c in st && x in st && rest !in st
    requires st2.Keys == st.Keys + {rest} && st2[rest].parent.None? && st2[rest].kind.Plain?
    requires forall o :: o in st ==> st2[o].parent == st[o].parent && st2[o].kind == st[o].kind
    requires Admits(st, c, x, noLimit, outer)
    ensures Admits(st2, c, rest, noLimit, outer)
  {
    hide Linked, Ranked, Nested, Inside, TopOf;
    TopSame(st, st2, c);
    MayEnter(c, rest, rest, st, st2);
    forall d | d in st2 && Watched(st2, c, d) ensures d in st && Watched(st, c, d) && Nested(st2, d) == Nested(st, d) {
      NestedSame(st, st2, d);
    }
  }

  // ---------------------------------------------------------------- room in stacks

  lemma {:induction false} SlackAtLeast(f: map<Item, Facts>, list: seq<Item>, id: nat, k: nat)
    requires (forall x :: x in list ==> x in f) && k < |list|
    ensures Slack(f, list, id) >= SlackOf(f[list[k]], id)
  {
    if k < |list| - 1 {
      SlackAtLeast(f, list[..|list| - 1], id, k);
    }
  }

  lemma {:induction false} SlackNone(f: map<Item, Facts>, list: seq<Item>, id: nat)
    requires forall x :: x in list ==> x in f && SlackOf(f[x], id) == 0
    ensures Slack(f, list, id) == 0
  {
    if list != [] {
      SlackNone(f, list[..|list| - 1], id);
    }
  }

  lemma {:induction false} SlackSame(f: map<Item, Facts>, f2: map<Item, Facts>, list: seq<Item>, id: nat)
    requires forall x :: x in list ==> x in f && x in f2 && SlackOf(f2[x], id) == SlackOf(f[x], id)
    ensures Slack(f2, list, id) == Slack(f, list, id)
  {
    if list != [] {
      SlackSame(f, f2, list[..|list| - 1], id);
    }
  }

  /** One stack is filled. */
  lemma {:induction false} SlackFilled(f: map<Item, Facts>, f2: map<Item, Facts>, list: seq<Item>, id: nat, x: Item)
    requires NoDuplicates(list) && x in list && forall y :: y in list ==> y in f && y in f2
    requires (forall y :: y in list && y != x ==> f2[y] == f[y]) && SlackOf(f2[x], id) == 0
    ensures Slack(f2, list, id) == Slack(f, list, id) - SlackOf(f[x], id)
  {
    var front, last := list[..|list| - 1], list[|list| - 1];
    if last == x {
      SlackSame(f, f2, front, id);
    } else {
      SlackFilled(f, f2, front, id, x);
    }
  }

  /** For a loose item that is admitted every stack with room counts. */
  lemma {:induction false} SpareIsSlack(c: Item, k: nat, item: Item, outer: ReturnValue, world: set<Item>)
    requires Linked(Snap(world)) && Ranked(Snap(world)) && c in world && item in world && item.parent == null && Holds(c.kind)
    requires item.typ.pickupable && Admits(Snap(world), c, item, false, outer) && k <= |c.itemlist|
    requires forall x :: x in c.itemlist ==> x in world && x.parent == c
    ensures c.SpareBefore(k, item, false, outer, world) == Slack(FactsOf(world), c.itemlist[..k], item.typ.id)
  {
    hide Linked, Ranked, Admits, Item.Accepts;
    if k > 0 {
      SpareIsSlack(c, k - 1, item, outer, world);
      var x := c.itemlist[k - 1];
      AcceptsLoose(c, k - 1, item, 100 - Min(100, x.count), false, outer, world);
      assert c.itemlist[..k][..k - 1] == c.itemlist[..k - 1];
    }
  }

  /** How much of a loose stack a container takes. */
  lemma MostForLoose(c: Item, item: Item, outer: ReturnValue, world: set<Item>)
    requires Linked(Snap(world)) && Ranked(Snap(world)) && c in world && item in world && item.parent == null && Holds(c.kind)
    requires item.typ.pickupable && Admits(Snap(world), c, item, false, outer) && item.typ.stackable
    ensures c.Most(INDEX_WHEREEVER, item, item.count, false, outer, world) ==
            c.FreeSlots() * 100 + SlackIn(c, item.typ.id, world)
  {
    hide Linked, Ranked, Admits, Slack, Item.SpareBefore;
    c.NeighboursKnown(world);
    SpareIsSlack(c, |c.itemlist|, item, outer, world);
    assert c.itemlist[..|c.itemlist|] == c.itemlist;
  }

  /** A stack with room is found. */
  lemma {:induction false} SomeLast(c: Item, k: nat, item: Item)
    requires k < |c.itemlist| && c.itemlist[k].StacksWith(item)
    ensures exists j: nat :: c.LastStack(j, item)
    decreases |c.itemlist| - k
  {
    if j :| k < j < |c.itemlist| && c.itemlist[j].StacksWith(item) {
      SomeLast(c, j, item);
    } else {
      assert c.LastStack(k, item);
    }
  }

  /** Either a stack with room is found, or no stack has any. */
  lemma FoundOrFull(c: Item, item: Item, world: set<Item>)
    requires Linked(Snap(world)) && c in world
    ensures (exists k: nat :: c.LastStack(k, item)) || SlackIn(c, item.typ.id, world) == 0
  {
    hide Linked, Slack;
    c.NeighboursKnown(world);
    if k: nat :| k < |c.itemlist| && c.itemlist[k].StacksWith(item) {
      SomeLast(c, k, item);
    } else {
      SlackNone(FactsOf(world), c.itemlist, item.typ.id);
    }
  }

  /** The query for what is left of a stack, which lies nowhere, at any index. */
  lemma RestHeaded(c: Item, rest: Item, ignoreAutoStack: bool, world: set<Item>)
    requires Linked(Snap(world)) && c in world && rest in world && rest.parent == null && rest.typ.stackable
    ensures var a := c.Headed(INDEX_WHEREEVER, rest, ignoreAutoStack); var s := SlackIn(c, rest.typ.id, world);
      && a.to == c
      && (a.toItem == null ==> a.index == INDEX_WHEREEVER && (ignoreAutoStack || s == 0))
      && (a.toItem != null ==> a.index != INDEX_WHEREEVER && !ignoreAutoStack && a.toItem.typ.id == rest.typ.id
                               && a.toItem.count < 100 && 100 - a.toItem.count <= s)
  {
    hide Linked, Slack;
    c.NeighboursKnown(world);
    FoundOrFull(c, rest, world);
    var a := c.Headed(INDEX_WHEREEVER, rest, ignoreAutoStack);
    if a.toItem != null {
      SlackAtLeast(FactsOf(world), c.itemlist, rest.typ.id, a.index - 1);
    }
  }

  /** Asked again for what is left of a stack, the answer is as foreseen. */
  lemma RestAsked(c: Item, rest: Item, noLimit: bool, ignoreAutoStack: bool, outer: ReturnValue, world: set<Item>)
    requires Linked(Snap(world)) && Ranked(Snap(world)) && c in world && rest in world && rest.parent == null && Holds(c.kind)
    requires rest.typ.stackable && rest.typ.pickupable && rest.count > 0 && Admits(Snap(world), c, rest, noLimit, outer)
    requires noLimit || c.FreeSlots() * 100 + SlackIn(c, rest.typ.id, world) >= rest.count
    ensures AllFits(c, INDEX_WHEREEVER, rest, noLimit, ignoreAutoStack, outer, world) <==>
            RestFits(c, rest.typ.id, rest.count, noLimit, ignoreAutoStack, world)
    ensures Arriving(c, INDEX_WHEREEVER, rest, noLimit, ignoreAutoStack, outer, world) ==
            if RestFits(c, rest.typ.id, rest.count, noLimit, ignoreAutoStack, world) then rest.count
            else if ignoreAutoStack then 0 else SlackIn(c, rest.typ.id, world)
  {
    hide Linked, Ranked, Admits, SlackIn, Item.Headed, Item.Accepts, Item.Most;
    var a := c.Headed(INDEX_WHEREEVER, rest, ignoreAutoStack);
    RestHeaded(c, rest, ignoreAutoStack, world);
    AcceptsLoose(c, a.index, rest, rest.count, noLimit, outer, world);
    if !noLimit {
      MostForLoose(c, rest, outer, world);
    }
  }

  // ---------------------------------------------------------------- adding

  /** What adding a loose item keeps: the places of all others, and, under limits, every depot on a tile. */
  ghost predicate AddKeeps(st: Store<Item>, st2: Store<Item>, item: Item, limits: bool)
    reads st.Keys
  {
    OthersStay(st, st2, item) &&
    (!limits || forall d :: d in st && OnTile(st, d) ==> Within(st, st2, d, d.depotLimit))
  }

  /** Nothing is added, but stacks may have grown. */
  lemma AddSame(st: Store<Item>, st2: Store<Item>, item: Item, limits: bool)
    requires st.Keys == st2.Keys && forall o :: o in st ==> st2[o].parent == st[o].parent && st2[o].kind == st[o].kind
    ensures AddKeeps(st, st2, item, limits)
  {
    hide Within, OnTile;
    forall d | d in st && OnTile(st, d) ensures Within(st, st2, d, d.depotLimit) {
      WithinSame(st, st2, d, d.depotLimit);
    }
  }

  /** A new loose item takes over. */
  lemma AddThen(st: Store<Item>, st1: Store<Item>, st2: Store<Item>, item: Item, rest: Item, limits: bool)
    requires item in st && st[item].parent.None? && !st[item].kind.Carrier? && rest !in st
    requires FewerLinks(st, st1) && OthersStay(st, st1, item) && item in st1 && st1[item].parent.None? && AddKeeps(st1, st2, rest, limits)
    ensures AddKeeps(st, st2, item, limits)
  {
    hide Within, FewerLinks, Nested;
    forall d | limits && d in st && OnTile(st, d) ensures Within(st, st2, d, d.depotLimit) {
      WithinFewer(st, st1, item, d, d.depotLimit);
      WithinOnTile(st, st1, d, d.depotLimit);
      WithinThen(st, st1, st2, d, d.depotLimit);
    }
  }

  /** The item itself comes in. */
  lemma AddPlaced(st: Store<Item>, st1: Store<Item>, st2: Store<Item>, to: Item, item: Item, limits: bool)
    requires Linked(st) && Ranked(st) && to in st && item in st && item != to && !Inside(st, to, item)
    requires st[item].parent.None? && !st[item].kind.Carrier?
    requires FewerLinks(st, st1) && OthersStay(st, st2, item) && Entered(st1, st2, to, item)
    requires limits ==> forall d :: d in st && Watched(st, to, d) ==> |Nested(st, d)| + AddCount(st, d, item, false) <= d.depotLimit
    ensures AddKeeps(st, st2, item, limits)
  {
    hide Linked, Ranked, Inside, Nested, Within, FewerLinks, Entered, Watched, AddCount, LimitsKept;
    DepotsAfter(st, st1, st2, to, item, false, Some(item), limits);
    forall d | limits && d in st && OnTile(st, d) ensures Within(st, st2, d, d.depotLimit) {
      WithinMove(st, st2, to, item, d, 1);
    }
  }

  /** There are `n` items more of a type, and as many as before of all others. */
  ghost predicate MoreOf(f: map<Item, Facts>, f2: map<Item, Facts>, id0: nat, n: nat)
  {
    forall id :: Amount(f2, id) == Amount(f, id) + (if id == id0 then n else 0)
  }

  /** Only the item and the one that is aimed at are touched: the one may come in, the other may grow. */
  ghost predicate Added(f: map<Item, Facts>, f2: map<Item, Facts>, item: Item, toItem: Item?, joined: nat)
  {
    && item in f && f2.Keys == f.Keys && f[item].parent.None? && f2[item] == f[item].(parent := f2[item].parent)
    && (forall o :: o in f && o != item ==> f2[o].typ == f[o].typ && f2[o].parent == f[o].parent)
    && (forall o :: o in f && o != item && o != toItem ==> f2[o].count == f[o].count)
    && (if toItem == null then joined == 0
        else toItem != item && toItem in f && f[toItem].parent.Some? && f2[toItem].count == f[toItem].count + joined)
    && (joined > 0 ==> f[toItem].typ.id == f[item].typ.id)
  }

  function Coming(f: Facts, f2: Facts, joined: nat, id: nat): nat
  {
    if id != f.typ.id then 0 else joined + if f2.parent.Some? then f2.count else 0
  }

  lemma SumAdded(t: map<Item, nat>, t2: map<Item, nat>, item: Item, other: Item?, came: nat, joined: nat)
    requires item in t && t2.Keys == t.Keys && t2[item] == t[item] + came
    requires if other == null then joined == 0 else other in t && other != item && t2[other] == t[other] + joined
    requires forall o :: o in t && o != item && o != other ==> t2[o] == t[o]
    ensures SumOf(t2) == SumOf(t) + came + joined
  {
    hide SumOf;
    var t1 := t[item := t2[item]];
    SumSet(t, item, t2[item]);
    if other == null {
      assert t2 == t1;
    } else {
      SumSet(t1, other, t2[other]);
      assert t2 == t1[other := t2[other]];
    }
  }

  lemma AmountAdded(f: map<Item, Facts>, f2: map<Item, Facts>, item: Item, toItem: Item?, joined: nat, id: nat)
    requires Added(f, f2, item, toItem, joined)
    ensures Amount(f2, id) == Amount(f, id) + Coming(f[item], f2[item], joined, id)
  {
    hide SumOf;
    var other := if toItem != null && f[toItem].typ.id != id then null else toItem;
    var more := if f[item].typ.id == id then joined else 0;
    SumAdded(Tally(f, id), Tally(f2, id), item, other, Held(f2[item], id), more);
  }

  /** What joins a stack, and what comes in itself, adds to the amount of its type. */
  lemma AmountsAdded(f: map<Item, Facts>, f2: map<Item, Facts>, item: Item, toItem: Item?, joined: nat)
    requires Added(f, f2, item, toItem, joined)
    ensures forall id :: Amount(f2, id) == Amount(f, id) + Coming(f[item], f2[item], joined, id)
  {
    forall id ensures Amount(f2, id) == Amount(f, id) + Coming(f[item], f2[item], joined, id) {
      AmountAdded(f, f2, item, toItem, joined, id);
    }
  }

  /** A new item that lies nowhere counts for nothing. */
  lemma AmountsLoose(f: map<Item, Facts>, f2: map<Item, Facts>, rest: Item)
    requires rest !in f && f2.Keys == f.Keys + {rest} && f2[rest].parent.None?
    requires forall o :: o in f ==> f2[o] == f[o]
    ensures forall id :: Amount(f2, id) == Amount(f, id)
  {
    hide SumOf;
    forall id ensures Amount(f2, id) == Amount(f, id) {
      SumSet(Tally(f, id), rest, 0);
      assert Tally(f2, id) == Tally(f, id)[rest := 0];
    }
  }

  /** What internalAddItem asks before it adds: where to, and whether there is room for all of it. */
  method MayAdd(toCylinder: Item, index: int, item: Item, noLimit: bool, ignoreAutoStack: bool, outer: ReturnValue,
                ghost world: set<Item>)
    returns (r: ReturnValue, to: Item, at: int, toItem: Item?)
    requires Linked(Snap(world)) && Ranked(Snap(world)) && toCylinder in world && item in world && Holds(toCylinder.kind)
    requires !item.kind.Carrier? && item.parent == null
    ensures Aim(to, at, toItem) == toCylinder.Headed(index, item, ignoreAutoStack)
    ensures r == NoError <==> Fits(toCylinder, Aim(to, at, toItem), item, noLimit, outer, world)
    ensures to in world && Holds(to.kind) && (toItem != null ==> toItem in to.itemlist && to == toCylinder)
    ensures at < to.Capacity() || (item.typ.stackable && toItem != null && toItem.StacksWith(item))
  {
    hide Linked, Ranked, Inside, Nested, TopOf, Item.Accepts, Item.Most, Item.Enough, Item.Aimed, Item.Capacity, Item.Headed;
    to, at, toItem := toCylinder.QueryDestination(index, item, ignoreAutoStack, world);
    AimedListed(to, at, item, toItem);
    AimedHere(toCylinder, index, item, ignoreAutoStack);
    r := Ask(to, at, item, item.count, noLimit, outer, world);
    if r != NoError { return; }
    var ok, most := toCylinder.QueryMaxCount(INDEX_WHEREEVER, item, item.count, noLimit, outer, world);
    if !ok { r := ContainerNotEnoughRoom; }
  }

  lemma AimedHere(c: Item, index: int, item: Item, ignoreAutoStack: bool)
    ensures var a := c.Headed(index, item, ignoreAutoStack); a.toItem != null ==> a.to == c
  {
  }

  lemma JoiningSome(toItem: Item?, item: Item, m: nat)
    ensures item.typ.stackable && toItem != null && toItem.StacksWith(item) && m > 0 ==> Joining(toItem, item, m) > 0
    ensures !item.typ.stackable || toItem == null ==> Joining(toItem, item, m) == 0
    ensures 0 < Joining(toItem, item, m) < m ==>
      toItem.typ.id == item.typ.id && toItem.count < 100 && Joining(toItem, item, m) == 100 - toItem.count
  {
  }

  /** What there is after a stack has grown: `joined` more of the type, and all links as they were. */
  ghost predicate Grew(st: Store<Item>, st1: Store<Item>, f: map<Item, Facts>, f1: map<Item, Facts>, item: Item,
                       toItem: Item?, joined: nat)
  {
    && FewerLinks(st, st1) && OthersStay(st, st1, item)
    && (forall o :: o in st ==> o in st1 && st1[o].parent == st[o].parent && st1[o].kind == st[o].kind)
    && st1.Keys == st.Keys == f.Keys && Added(f, f1, item, toItem, joined) && f1[item] == f[item]
  }

  /** As many items of a loose stack as fit join the one that is aimed at. */
  method JoinLoose(to: Item, item: Item, toItem: Item?, ghost world: set<Item>, ghost types: map<nat, ItemType>)
    returns (joined: nat)
    requires Good(Snap(world)) && to in world && item in world && item.parent == null && ByType(FactsOf(world), types)
    requires toItem != null ==> toItem in world && toItem in to.itemlist && toItem.parent == to
    modifies world`typ, world`count, world`totalWeight
    ensures Good(Snap(world)) && ByType(FactsOf(world), types) && joined == old(Joining(toItem, item, item.count))
    ensures Grew(old(Snap(world)), Snap(world), old(FactsOf(world)), FactsOf(world), item, toItem, joined)
    ensures item.typ == old(item.typ) && item.count == old(item.count) && forall o :: o in world ==> o.typ == old(o.typ)
    ensures forall o :: o in world && o != toItem ==> o.count == old(o.count)
    ensures toItem != null ==> toItem.count == old(toItem.count) + joined
  {
    hide *;
    ghost var st, f := Snap(world), FactsOf(world);
    FactsInStore(world);
    SnapKeys(world);
    joined := Joining(toItem, item, item.count);
    JoiningIsCounted(f, types, item, toItem, item.count);
    JoiningOther(toItem, item, item.count);
    if toItem != null && item.typ.stackable && toItem.typ.id == item.typ.id {
      Join(to, toItem, joined, world);
    }
    FactsInStore(world);
    SnapKeys(world);
    ByTypeMore(f, FactsOf(world), types, item);
    GrewSo(st, Snap(world), f, FactsOf(world), item, toItem, joined);
  }

  lemma JoiningOther(toItem: Item?, item: Item, m: nat)
    ensures !(toItem != null && item.typ.stackable && toItem.typ.id == item.typ.id) ==> Joining(toItem, item, m) == 0
  {
  }

  lemma GrewSo(st: Store<Item>, st1: Store<Item>, f: map<Item, Facts>, f1: map<Item, Facts>, item: Item, toItem: Item?, joined: nat)
    requires st1.Keys == st.Keys && f.Keys == f1.Keys == st.Keys && item in f && f1[item] == f[item] && f[item].parent.None?
    requires forall o :: o in st ==> st1[o].parent == st[o].parent && st1[o].kind == st[o].kind
    requires forall o :: o in f ==> f1[o].typ == f[o].typ && f1[o].parent == f[o].parent && (o != toItem ==> f1[o].count == f[o].count)
    requires if toItem == null then joined == 0
             else toItem != item && toItem in f && f[toItem].parent.Some? && f1[toItem].count == f[toItem].count + joined
    requires joined > 0 ==> f[toItem].typ.id == f[item].typ.id
    ensures Grew(st, st1, f, f1, item, toItem, joined)
  {
    SameLinks(st, st1);
    AllStay(st, st1, item);
  }

  lemma AllStay(st: Store<Item>, st1: Store<Item>, x: Item)
    ensures (forall o :: o in st ==> o in st1 && st1[o].parent == st[o].parent && st1[o].kind == st[o].kind) ==>
      OthersStay(st, st1, x)
  {
  }

  lemma GrewIs(st: Store<Item>, st1: Store<Item>, f: map<Item, Facts>, f1: map<Item, Facts>, item: Item, toItem: Item?, joined: nat)
    requires Grew(st, st1, f, f1, item, toItem, joined)
    ensures FewerLinks(st, st1) && OthersStay(st, st1, item) && st1.Keys == st.Keys && item in st && st1[item].parent == st[item].parent
    ensures forall limits :: AddKeeps(st, st1, item, limits)
    ensures MoreOf(f, f1, f[item].typ.id, joined)
  {
    AddSame(st, st1, item, true);
    AddSame(st, st1, item, false);
    AmountsAdded(f, f1, item, toItem, joined);
  }

  /** The item itself, after all: no stack has taken any of it. */
  method AddWhole(to: Item, at: int, item: Item, ghost world: set<Item>, ghost st: Store<Item>, ghost types: map<nat, ItemType>,
                  ghost limits: bool)
    requires Good(Snap(world)) && to in world && item in world && Holds(to.kind) && !item.kind.Carrier? && item.parent == null
    requires at < to.Capacity() && ByType(FactsOf(world), types)
    requires Linked(st) && Ranked(st) && st.Keys == world && item != to && !Inside(st, to, item)
    requires FewerLinks(st, Snap(world)) && OthersStay(st, Snap(world), item)
    requires st[item].parent.None? && !st[item].kind.Carrier?
    requires limits ==> forall d :: d in st && Watched(st, to, d) ==> |Nested(st, d)| + AddCount(st, d, item, false) <= d.depotLimit
    modifies to`itemlist, item`parent, world`depth, world`totalWeight
    ensures Good(Snap(world)) && ByType(FactsOf(world), types) && AddKeeps(st, Snap(world), item, limits)
    ensures MoreOf(old(FactsOf(world)), FactsOf(world), item.typ.id, item.count)
    ensures item.parent == to && to.itemlist == [item] + old(to.itemlist)
  {
    hide *;
    ghost var st1, f := Snap(world), FactsOf(world);
    FactsInStore(world);
    SnapKeys(world);
    MayEnter(to, item, item, st, st1);
    OnItsOwn(to, item, world);
    Place(to, at, item, world);
    FactsInStore(world);
    SnapKeys(world);
    ByTypeMore(f, FactsOf(world), types, item);
    OthersStayToo(st, st1, Snap(world), item);
    AddPlaced(st, st1, Snap(world), to, item, limits);
    AddedSo(f, FactsOf(world), item);
  }

  lemma AddedSo(f: map<Item, Facts>, f2: map<Item, Facts>, item: Item)
    requires item in f && f2.Keys == f.Keys && f[item].parent.None? && f2[item] == f[item].(parent := f2[item].parent)
    requires f2[item].parent.Some? && forall o :: o in f && o != item ==> f2[o] == f[o]
    ensures MoreOf(f, f2, f[item].typ.id, f[item].count)
  {
    AmountsAdded(f, f2, item, null, 0);
  }

  lemma AddWatched(to: Item, at: int, item: Item, outer: ReturnValue, world: set<Item>)
    requires Linked(Snap(world)) && Ranked(Snap(world)) && item in world && to in world
    requires to.Accepts(at, item, item.count, false, outer, world)
    ensures forall d :: d in Snap(world) && Watched(Snap(world), to, d) ==>
      |Nested(Snap(world), d)| + AddCount(Snap(world), d, item, false) <= d.depotLimit
  {
    hide Linked, Ranked, Inside, Nested, TopOf, Watched, AddCount, Item.Accepts;
    forall d | d in Snap(world) && Watched(Snap(world), to, d)
      ensures |Nested(Snap(world), d)| + AddCount(Snap(world), d, item, false) <= d.depotLimit
    {
      AcceptsWatched(to, at, item, item.count, outer, world, d);
    }
  }

  /** The links of `st` are still those of `world`. */
  ghost predicate SamePlaces(st: Store<Item>, world: set<Item>)
    reads world
  {
    && Linked(st) && Ranked(st) && st.Keys == world
    && forall o :: o in world ==> st[o].parent == o.Owner() && st[o].kind == o.kind
  }

  lemma PlacesKept(st: Store<Item>, world: set<Item>, x: Item)
    requires SamePlaces(st, world)
    ensures st.Keys == world && Linked(st) && Ranked(st) && FewerLinks(st, Snap(world)) && OthersStay(st, Snap(world), x)
    ensures x in world ==> (st[x].parent.None? <==> x.parent == null) && st[x].kind == x.kind
    ensures forall limits :: AddKeeps(st, Snap(world), x, limits)
  {
    SnapKeys(world);
    FactsInStore(world);
    AddSame(st, Snap(world), x, true);
    AddSame(st, Snap(world), x, false);
  }

  /** In front of one list there may be one more item. */
  ghost predicate InFront(l: map<Item, seq<Item>>, l2: map<Item, seq<Item>>, to: Item, front: seq<Item>)
  {
    |front| <= 1 && l.Keys <= l2.Keys && forall o :: o in l ==> l2[o] == (if o == to then front else []) + l[o]
  }

  /** What is left of a stack is added as a new item. */
  method AddRest(to: Item, item: Item, joined: nat, noLimit: bool, ignoreAutoStack: bool, outer: ReturnValue,
                 ghost world: set<Item>, ghost types: map<nat, ItemType>, ghost st: Store<Item>)
    returns (r: ReturnValue, ghost front: seq<Item>, ghost world': set<Item>)
    requires Good(Snap(world)) && to in world && item in world && Holds(to.kind) && ByType(FactsOf(world), types)
    requires item.parent == null && item.typ.stackable && 0 < joined < item.count && !item.kind.Carrier?
    requires SamePlaces(st, world) && item.typ.pickupable && Admits(st, to, item, noLimit, outer)
    requires noLimit || to.FreeSlots() * 100 + SlackIn(to, item.typ.id, world) >= item.count - joined
    modifies world`parent, world`itemlist, world`totalWeight, world`depth, world`count, world`typ
    ensures world <= world' && fresh(world' - world) && OnlyPlain(world' - world)
    ensures Good(Snap(world')) && ByType(FactsOf(world'), types) && AddKeeps(st, Snap(world'), item, !noLimit)
    ensures r == NoError <==> old(RestFits(to, item.typ.id, item.count - joined, noLimit, ignoreAutoStack, world))
    ensures MoreOf(old(FactsOf(world)), FactsOf(world'), old(item.typ.id),
                   if r == NoError then old(item.count) - joined
                   else if ignoreAutoStack then 0 else old(SlackIn(to, item.typ.id, world)))
    ensures InFront(old(ListsOf(world)), ListsOf(world'), to, front)
    ensures forall o :: o in world && old(o.count) >= 100 ==> o.count == old(o.count)
    decreases item.count, 0
  {
    hide *;
    ghost var f, l, id0 := FactsOf(world), ListsOf(world), item.typ.id;
    GoodStore(Snap(world));
    var rest := NewRest(to, item, joined, noLimit, ignoreAutoStack, outer, world, types, st);
    ghost var more := world + {rest};
    ghost var st1, f1, l1 := Snap(more), FactsOf(more), ListsOf(more);
    GoodStore(st1);
    ghost var came := Arriving(to, INDEX_WHEREEVER, rest, noLimit, ignoreAutoStack, outer, more);
    r, front, world' := InternalAddItem(to, INDEX_WHEREEVER, rest, noLimit, ignoreAutoStack, outer, more, types);
    OnlyPlainMore(world, more, world', rest);
    InFrontToo(l, l1, ListsOf(world'), to, front);
    AddThen(st, st1, Snap(world'), item, rest, !noLimit);
    MoreSame(f, f1, FactsOf(world'), id0, came);
  }

  /** The new item for what is left of a stack, and what is foreseen of it. */
  method NewRest(to: Item, item: Item, joined: nat, noLimit: bool, ignoreAutoStack: bool, outer: ReturnValue,
                 ghost world: set<Item>, ghost types: map<nat, ItemType>, ghost st: Store<Item>)
    returns (rest: Item)
    requires Good(Snap(world)) && to in world && item in world && Holds(to.kind) && ByType(FactsOf(world), types)
    requires item.parent == null && item.typ.stackable && 0 < joined < item.count && !item.kind.Carrier?
    requires SamePlaces(st, world) && item.typ.pickupable && Admits(st, to, item, noLimit, outer)
    requires noLimit || to.FreeSlots() * 100 + SlackIn(to, item.typ.id, world) >= item.count - joined
    ensures fresh(rest) && rest.parent == null && rest.kind.Plain? && rest.count == item.count - joined && rest.typ == item.typ
    ensures Linked(Snap(world + {rest})) && Ranked(Snap(world + {rest})) && Good(Snap(world + {rest}))
    ensures var st1 := Snap(world + {rest});
      && FewerLinks(st, st1) && OthersStay(st, st1, item) && st.Keys == world && rest !in st
      && item in st && st[item].parent.None? && !st[item].kind.Carrier? && item in st1 && st1[item].parent.None?
    ensures var l, l1 := old(ListsOf(world)), ListsOf(world + {rest});
      l.Keys <= l1.Keys && forall o :: o in l ==> l1[o] == l[o]
    ensures ByType(FactsOf(world + {rest}), types)
    ensures forall id :: Amount(FactsOf(world + {rest}), id) == Amount(old(FactsOf(world)), id)
    ensures var fits := old(RestFits(to, item.typ.id, item.count - joined, noLimit, ignoreAutoStack, world));
      && (AllFits(to, INDEX_WHEREEVER, rest, noLimit, ignoreAutoStack, outer, world + {rest}) <==> fits)
      && Arriving(to, INDEX_WHEREEVER, rest, noLimit, ignoreAutoStack, outer, world + {rest}) ==
         if fits then item.count - joined else if ignoreAutoStack then 0 else old(SlackIn(to, item.typ.id, world))
    ensures to.Headed(INDEX_WHEREEVER, rest, ignoreAutoStack).to == to
  {
    hide *;
    ghost var f := FactsOf(world);
    PlacesKept(st, world, item);
    FactsInStore(world);
    SnapKeys(world);
    GoodStore(Snap(world));
    rest := CreateItem(item.typ, item.count - joined, world);
    ghost var more, f1 := world + {rest}, FactsOf(world + {rest});
    ghost var st1 := Snap(more);
    FactsInStore(more);
    SnapKeys(more);
    FrontFewer(world, rest);
    ByTypeMore(f, f1, types, item);
    PlacesMore(st, world, rest);
    OthersStayMore(st, st1, item);
    AmountsLoose(f, f1, rest);
    GoodStore(st1);
    RestAdmitted(st, st1, to, item, rest, noLimit, outer);
    SlackMore(to, item.typ.id, world, rest);
    RestAsked(to, rest, noLimit, ignoreAutoStack, outer, more);
    StaysThere(to, rest, ignoreAutoStack);
  }

  lemma PlacesMore(st: Store<Item>, world: set<Item>, rest: Item)
    requires SamePlaces(st, world) && rest !in world
    ensures forall o :: o in st ==> o in Snap(world + {rest}) && Snap(world + {rest})[o].parent == st[o].parent
                                    && Snap(world + {rest})[o].kind == st[o].kind
  {
    SnapKeys(world + {rest});
    FactsInStore(world + {rest});
  }

  lemma FrontFewer(world: set<Item>, rest: Item)
    ensures ListsOf(world).Keys <= ListsOf(world + {rest}).Keys
    ensures forall o :: o in ListsOf(world) ==> ListsOf(world + {rest})[o] == ListsOf(world)[o]
  {
  }

  lemma InFrontToo(l: map<Item, seq<Item>>, l1: map<Item, seq<Item>>, l2: map<Item, seq<Item>>, to: Item, front: seq<Item>)
    ensures (l.Keys <= l1.Keys && (forall o :: o in l ==> l1[o] == l[o]) && InFront(l1, l2, to, front)) ==>
      InFront(l, l2, to, front)
  {
  }

  /** A new item that lies nowhere makes no room. */
  lemma SlackMore(c: Item, id: nat, world: set<Item>, rest: Item)
    requires Linked(Snap(world)) && Linked(Snap(world + {rest})) && c in world && rest !in world
    ensures SlackIn(c, id, world + {rest}) == SlackIn(c, id, world)
    ensures forall n, noLimit, ignoreAutoStack :: RestFits(c, id, n, noLimit, ignoreAutoStack, world + {rest})
                                                  == RestFits(c, id, n, noLimit, ignoreAutoStack, world)
  {
    hide Linked, Slack;
    c.NeighboursKnown(world);
    SlackSame(FactsOf(world), FactsOf(world + {rest}), c.itemlist, id);
  }

  lemma OthersStayMore(st: Store<Item>, st1: Store<Item>, x: Item)
    requires forall o :: o in st ==> o in st1 && st1[o].parent == st[o].parent && st1[o].kind == st[o].kind
    requires forall o :: o in st1 && st1[o].parent.Some? ==> o in st
    ensures FewerLinks(st, st1) && OthersStay(st, st1, x)
  {
  }

  /** What has not joined a stack: nothing, a part of the stack, or the item itself. */
  method AddRemainder(to: Item, at: int, item: Item, joined: nat, aimed: bool, noLimit: bool, ignoreAutoStack: bool,
                      outer: ReturnValue, ghost world: set<Item>, ghost types: map<nat, ItemType>, ghost st: Store<Item>)
    returns (r: ReturnValue, ghost front: seq<Item>, ghost world': set<Item>)
    requires Good(Snap(world)) && to in world && item in world && Holds(to.kind) && ByType(FactsOf(world), types)
    requires item.parent == null && !item.kind.Carrier? && joined <= item.count && (joined > 0 ==> item.typ.stackable && aimed)
    requires SamePlaces(st, world) && item.typ.pickupable && Admits(st, to, item, noLimit, outer)
    requires joined == 0 ==> at < to.Capacity() || (item.typ.stackable && aimed && item.count == 0)
    requires 0 < joined < item.count && !noLimit ==>
      to.FreeSlots() * 100 + SlackIn(to, item.typ.id, world) >= item.count - joined
    modifies world`parent, world`itemlist, world`totalWeight, world`depth, world`count, world`typ
    ensures world <= world' && fresh(world' - world) && OnlyPlain(world' - world)
    ensures Good(Snap(world')) && ByType(FactsOf(world'), types) && AddKeeps(st, Snap(world'), item, !noLimit)
    ensures var fits := old(RestFits(to, item.typ.id, item.count - joined, noLimit, ignoreAutoStack, world));
            && (r == NoError <==> joined == 0 || joined == old(item.count) || fits)
            && MoreOf(old(FactsOf(world)), FactsOf(world'), old(item.typ.id),
                      if r == NoError then old(item.count) - joined
                      else if ignoreAutoStack then 0 else old(SlackIn(to, item.typ.id, world)))
    ensures InFront(old(ListsOf(world)), ListsOf(world'), to, front)
    ensures joined == 0 && !(old(item.typ.stackable) && aimed && old(item.count) == 0) ==>
      item.parent == to && front == [item] && world' == world
    ensures joined == old(item.count) && old(item.typ.stackable) && aimed ==> item.parent == null && front == [] && world' == world
    ensures forall o :: o in world && (old(o.count) >= 100 || joined == 0 || joined == old(item.count)) ==> o.count == old(o.count)
    decreases item.count, 1
  {
    hide *;
    world', r, front := world, NoError, [];
    ghost var l := ListsOf(world);
    ListsAre(world);
    assert world - world == {};
    PlainOnes({});
    PlacesKept(st, world, item);
    if item.typ.stackable && aimed && joined == item.count {
      MoreNone(FactsOf(world), item.typ.id);
      InFrontSo(l, world, to, front);
    } else if joined > 0 {
      r, front, world' := AddRest(to, item, joined, noLimit, ignoreAutoStack, outer, world, types, st);
    } else {
      AdmitsWatched(st, to, item, noLimit, outer);
      AddWhole(to, at, item, world, st, types, !noLimit);
      front := [item];
      InFrontSo(l, world, to, front);
    }
  }

  lemma InFrontSo(l: map<Item, seq<Item>>, world: set<Item>, to: Item, front: seq<Item>)
    requires l.Keys == world && |front| <= 1 && forall o :: o in world ==> o.itemlist == (if o == to then front else []) + l[o]
    ensures InFront(l, ListsOf(world), to, front)
  {
  }

  /** What is admitted may come in, as far as depots go. */
  lemma AdmitsWatched(st: Store<Item>, c: Item, x: Item, noLimit: bool, outer: ReturnValue)
    requires Linked(st) && Ranked(st) && c in st && x in st && st[x].parent.None? && Admits(st, c, x, noLimit, outer)
    ensures x != c && !Inside(st, c, x)
    ensures !noLimit ==> forall d :: d in st && Watched(st, c, d) ==> |Nested(st, d)| + AddCount(st, d, x, false) <= d.depotLimit
  {
    hide Linked, Ranked, Nested, Inside, TopParent, TopOf;
    TopOfLoose(st, x);
    forall d | !noLimit && d in st && Watched(st, c, d) ensures |Nested(st, d)| + AddCount(st, d, x, false) <= d.depotLimit {
      assert TopOf(st, c) == c || Inside(st, c, TopOf(st, c));
    }
  }

  lemma MoreNone(f: map<Item, Facts>, id0: nat)
    ensures MoreOf(f, f, id0, 0)
  {
  }

  lemma OnlyPlainMore(world: set<Item>, more: set<Item>, world': set<Item>, x: Item)
    requires more == world + {x} && more <= world' && OnlyPlain(world' - more) && x.kind.Plain?
    ensures OnlyPlain(world' - world) && world' - world <= (world' - more) + {x}
  {
    assert forall o :: o in world' - world ==> o in world' - more || o == x;
  }

  lemma MoreSame(f: map<Item, Facts>, f1: map<Item, Facts>, f2: map<Item, Facts>, id0: nat, n: nat)
    ensures ((forall id :: Amount(f1, id) == Amount(f, id)) && MoreOf(f1, f2, id0, n)) ==> MoreOf(f, f2, id0, n)
  {
  }

  /** What is known of a loose item that fits. */
  lemma FitsSo(c: Item, index: int, item: Item, noLimit: bool, ignoreAutoStack: bool, outer: ReturnValue, world: set<Item>)
    requires Linked(Snap(world)) && Ranked(Snap(world)) && c in world && item in world && item.parent == null && Holds(c.kind)
    requires var a := c.Headed(index, item, ignoreAutoStack);
      a.to in world && Holds(a.to.kind) && Fits(c, a, item, noLimit, outer, world)
    ensures var a := c.Headed(index, item, ignoreAutoStack);
      && item.typ.pickupable && Admits(Snap(world), a.to, item, noLimit, outer)
      && (a.to == c && item.typ.stackable && !noLimit ==> c.FreeSlots() * 100 + SlackIn(c, item.typ.id, world) >= item.count)
  {
    hide Linked, Ranked, Admits, SlackIn, Item.Headed, Item.Accepts, Item.Most;
    var a := c.Headed(index, item, ignoreAutoStack);
    AcceptsLoose(a.to, a.index, item, item.count, noLimit, outer, world);
    if a.to == c && item.typ.stackable && !noLimit {
      MostForLoose(c, item, outer, world);
    }
  }

  /** A stack that takes only a part is full then, and the slack is less by as much. */
  lemma SlackLess(c: Item, id: nat, f: map<Item, Facts>, world: set<Item>, x: Item, slack: nat)
    requires Good(Snap(world)) && c in world && x in c.itemlist && f.Keys == world
    requires (forall y :: y in c.itemlist ==> y in f) && slack == Slack(f, c.itemlist, id)
    requires forall o :: o in world && o != x ==> f[o] == Facts(o.typ, o.Owner(), o.count)
    requires x in f && f[x].typ.id == id && f[x].count < 100 && x.count == 100
    ensures SlackIn(c, id, world) == slack - (100 - f[x].count)
  {
    hide Ranked, AllBalanced, Slack;
    c.NeighboursKnown(world);
    assert LinkedDown(Snap(world), c);
    SlackFilled(f, FactsOf(world), c.itemlist, id, x);
  }

  lemma SlackIs(c: Item, id: nat, world: set<Item>)
    requires Linked(Snap(world)) && c in world
    ensures (forall y :: y in c.itemlist ==> y in FactsOf(world)) && SlackIn(c, id, world) == Slack(FactsOf(world), c.itemlist, id)
  {
    hide Linked, Slack;
    c.NeighboursKnown(world);
  }

  lemma PlacesSo(st: Store<Item>, f: map<Item, Facts>, world: set<Item>, item: Item, toItem: Item?, joined: nat)
    requires Linked(st) && Ranked(st) && Grew(st, Snap(world), f, FactsOf(world), item, toItem, joined)
    ensures SamePlaces(st, world)
    ensures forall o :: o in world && o != toItem ==> f[o] == Facts(o.typ, o.Owner(), o.count)
  {
    hide Linked, Ranked, FewerLinks, OthersStay;
    FactsInStore(world);
    SnapKeys(world);
  }

  /** The first half of adding: the questions, and what joins the stack that was found. */
  method AddFirst(toCylinder: Item, index: int, item: Item, noLimit: bool, ignoreAutoStack: bool, outer: ReturnValue,
                  ghost world: set<Item>, ghost types: map<nat, ItemType>)
    returns (r: ReturnValue, to: Item, at: int, toItem: Item?, joined: nat)
    requires Good(Snap(world)) && toCylinder in world && item in world && Holds(toCylinder.kind) && !item.kind.Carrier?
    requires item.parent == null && ByType(FactsOf(world), types)
    modifies world`typ, world`count, world`totalWeight
    ensures Good(Snap(world)) && ByType(FactsOf(world), types) && item.typ == old(item.typ) && item.count == old(item.count)
    ensures Aim(to, at, toItem) == old(toCylinder.Headed(index, item, ignoreAutoStack))
    ensures r == NoError <==> old(Fits(toCylinder, toCylinder.Headed(index, item, ignoreAutoStack), item, noLimit, outer, world))
    ensures r != NoError ==> unchanged(world)
    ensures to in world && Holds(to.kind)
    ensures r == NoError ==>
      && joined == old(Joining(toItem, item, item.count)) && MoreOf(old(FactsOf(world)), FactsOf(world), item.typ.id, joined)
      && (joined > 0 ==> item.typ.stackable && toItem != null && to == toCylinder)
      && (toItem != null ==> toItem.count == old(toItem.count) + joined)
      && (joined == 0 ==> at < to.Capacity() || (item.typ.stackable && toItem != null && item.count == 0))
      && SamePlaces(old(Snap(world)), world) && item.typ.pickupable && Admits(old(Snap(world)), to, item, noLimit, outer)
    ensures r == NoError && 0 < joined < item.count ==>
      && SlackIn(to, item.typ.id, world) == old(SlackIn(to, item.typ.id, world)) - joined
      && (noLimit || to.FreeSlots() * 100 + SlackIn(to, item.typ.id, world) >= item.count - joined) && toItem.count == 100
    ensures forall o :: o in world && o != toItem ==> o.count == old(o.count)
  {
    hide *;
    ghost var st, f := Snap(world), FactsOf(world);
    GoodStore(st);
    ghost var slack := SlackIn(toCylinder, item.typ.id, world);
    FactsInStore(world);
    SnapKeys(world);
    SlackIs(toCylinder, item.typ.id, world);
    r, to, at, toItem := MayAdd(toCylinder, index, item, noLimit, ignoreAutoStack, outer, world);
    joined := 0;
    if r != NoError { return; }
    FitsSo(toCylinder, index, item, noLimit, ignoreAutoStack, outer, world);
    if toItem != null {
      ListedHere(to, toItem, world);
    }
    JoiningSome(toItem, item, item.count);
    joined := JoinLoose(to, item, toItem, world, types);
    GrewIs(st, Snap(world), f, FactsOf(world), item, toItem, joined);
    PlacesSo(st, f, world, item, toItem, joined);
    if 0 < joined < item.count {
      SlackLess(to, item.typ.id, f, world, toItem, slack);
    }
  }

  /**
   internalAddItem, for an item that lies nowhere: what fits joins the stack that is found, and the rest, or the
   item itself, comes in past the query.  The answer is yes exactly when all fits, and what comes in is as foreseen;
   an item that does not join comes to lie at the front.  Unless limits are waived every depot on a tile stays
   within its limit.
   */
  method InternalAddItem(toCylinder: Item, index: int, item: Item, noLimit: bool, ignoreAutoStack: bool, outer: ReturnValue,
                         ghost world: set<Item>, ghost types: map<nat, ItemType>)
    returns (r: ReturnValue, ghost front: seq<Item>, ghost world': set<Item>)
    requires Good(Snap(world)) && toCylinder in world && item in world && Holds(toCylinder.kind) && !item.kind.Carrier?
    requires item.parent == null && ByType(FactsOf(world), types)
    modifies world`parent, world`itemlist, world`totalWeight, world`depth, world`count, world`typ
    ensures world <= world' && fresh(world' - world) && OnlyPlain(world' - world)
    ensures Good(Snap(world')) && ByType(FactsOf(world'), types)
    ensures AddKeeps(old(Snap(world)), Snap(world'), item, !noLimit)
    ensures r == NoError <==> old(AllFits(toCylinder, index, item, noLimit, ignoreAutoStack, outer, world))
    ensures MoreOf(old(FactsOf(world)), FactsOf(world'), old(item.typ.id),
                   old(Arriving(toCylinder, index, item, noLimit, ignoreAutoStack, outer, world)))
    ensures var a := old(toCylinder.Headed(index, item, ignoreAutoStack)); var joined := old(Joining(a.toItem, item, item.count));
      InFront(old(ListsOf(world)), ListsOf(world'), a.to, front) &&
      if !old(Fits(toCylinder, a, item, noLimit, outer, world)) then world' == world && unchanged(world)
      else
        && (a.toItem != null ==> a.toItem.count == old(a.toItem.count) + joined)
        && (joined == 0 && !(old(item.typ.stackable) && a.toItem != null && old(item.count) == 0) ==>
              item.parent == a.to && front == [item] && world' == world)
        && (joined == old(item.count) && old(item.typ.stackable) && a.toItem != null ==>
              item.parent == null && front == [] && world' == world)
    ensures index == INDEX_WHEREEVER ==> forall o :: o in world && old(o.count) >= 100 ==> o.count == old(o.count)
    decreases item.count, 2
  {
    hide *;
    ghost var st, f, l, id0, n := Snap(world), FactsOf(world), ListsOf(world), item.typ.id, item.count;
    GoodStore(st);
    ListsAre(world);
    AddIs(toCylinder, index, item, noLimit, ignoreAutoStack, outer, world);
    RestIs(toCylinder, id0, n, noLimit, ignoreAutoStack, world);
    FoundHasRoom(toCylinder, item, ignoreAutoStack);
    var to, at, toItem, joined;
    r, to, at, toItem, joined := AddFirst(toCylinder, index, item, noLimit, ignoreAutoStack, outer, world, types);
    world', front := world, [];
    assert world - world == {};
    PlainOnes({});
    if r != NoError {
      MoreNone(f, id0);
      SameKeeps(st, item, !noLimit);
      InFrontSo(l, world, to, front);
    } else {
      GoodStore(Snap(world));
      ghost var f1 := FactsOf(world);
      ListsAre(world);
      assert ListsOf(world) == l;
      ghost var more := if joined < n && !RestFits(to, id0, n - joined, noLimit, ignoreAutoStack, world) && joined > 0
        then if ignoreAutoStack then 0 else SlackIn(to, id0, world) else n - joined;
      RestIs(to, id0, n - joined, noLimit, ignoreAutoStack, world);
      r, front, world' := AddRemainder(to, at, item, joined, toItem != null, noLimit, ignoreAutoStack, outer, world, types, st);
      MoreThen(f, f1, FactsOf(world'), id0, joined, more);
    }
  }

  lemma AddIs(c: Item, index: int, item: Item, noLimit: bool, ignoreAutoStack: bool, outer: ReturnValue, world: set<Item>)
    requires Linked(Snap(world)) && Ranked(Snap(world)) && item in world && c in world
    ensures var a := c.Headed(index, item, ignoreAutoStack);
      var joined, fits := Joining(a.toItem, item, item.count), Fits(c, a, item, noLimit, outer, world);
      var all := joined == 0 || joined == item.count || RestFits(c, item.typ.id, item.count, noLimit, ignoreAutoStack, world);
      && (AllFits(c, index, item, noLimit, ignoreAutoStack, outer, world) <==> fits && all)
      && Arriving(c, index, item, noLimit, ignoreAutoStack, outer, world) ==
         if fits && all then item.count else if !fits then 0 else if ignoreAutoStack then joined
         else SlackIn(c, item.typ.id, world)
  {
    hide Linked, Ranked, Fits, RestFits, SlackIn, Joining, Item.Headed;
  }

  lemma RestIs(c: Item, id: nat, n: nat, noLimit: bool, ignoreAutoStack: bool, world: set<Item>)
    requires Linked(Snap(world)) && c in world
    ensures RestFits(c, id, n, noLimit, ignoreAutoStack, world) <==>
            noLimit || if ignoreAutoStack then !c.Full() else c.maxSize != 0 || n <= SlackIn(c, id, world)
  {
  }

  lemma FoundHasRoom(c: Item, item: Item, ignoreAutoStack: bool)
    ensures var a := c.Headed(INDEX_WHEREEVER, item, ignoreAutoStack); a.toItem != null ==> a.toItem.count < 100
  {
  }

  lemma SameKeeps(st: Store<Item>, item: Item, limits: bool)
    ensures AddKeeps(st, st, item, limits)
  {
    AddSame(st, st, item, limits);
  }

  lemma MoreThen(f: map<Item, Facts>, f1: map<Item, Facts>, f2: map<Item, Facts>, id: nat, n: nat, m: nat)
    ensures MoreOf(f, f1, id, n) && MoreOf(f1, f2, id, m) ==> MoreOf(f, f2, id, n + m)
  {
  }

  // ---------------------------------------------------------------- moving, or adding what lies nowhere

  /**
   internalMoveItem.  An item that lies somewhere is moved: the questions are asked at its destination, and what
   goes is there afterwards.  Depots keep their limits, unless limits are waived, and where containers have a size
   no item is lost, of every type there are as many as before.  An item that lies nowhere is added, whatever the
   limits, and when the answer is yes all of it is there.
   */
  method InternalMoveItem(toCylinder: Item, index: int, item: Item, n: nat, noLimit: bool, ignoreAutoStack: bool,
                          outer: ReturnValue, ghost world: set<Item>, ghost types: map<nat, ItemType>)
    returns (r: ReturnValue, to: Item, m: nat, moved: Item?, ghost world': set<Item>)
    requires Good(Snap(world)) && toCylinder in world && item in world && Holds(toCylinder.kind) && !item.kind.Carrier?
    requires ByType(FactsOf(world), types)
    modifies world`parent, world`itemlist, world`totalWeight, world`depth, world`count, world`typ
    ensures world <= world' && fresh(world' - world) && OnlyPlain(world' - world) && Good(Snap(world'))
    ensures to in world && Holds(to.kind)
    ensures OthersStay(old(Snap(world)), Snap(world'), item) && ByType(FactsOf(world'), types)
    ensures old(item.parent) != null ==>
      && old(item.parent) in world
      && var a := old(Destination(toCylinder, index, item, ignoreAutoStack, world));
      && var waived := noLimit && to == toCylinder;
      && to == a.to && (r == NoError, m) == old(Plan(a.to, a.index, item, n, a.toItem, waived, outer, world))
      && (m > 0 ==> Done(old(FactsOf(world)), FactsOf(world'), old(ListsOf(world)), ListsOf(world), a, item, moved, m,
                         old(Joining(a.toItem, item, m)), a.index < old(CapacityThen(a.to, item, m))))
    ensures old(item.parent) != null && m == 0 ==> world' == world && unchanged(world)
    ensures old(item.parent) != null && m > 0 && !noLimit && n <= 100 ==> LimitsKept(old(Snap(world)), Snap(world'), to, item)
    ensures old(item.parent) != null && !noLimit && to.maxSize != 0 ==>
      forall id :: Amount(FactsOf(world'), id) == Amount(old(FactsOf(world)), id)
    ensures old(item.parent) == null ==>
      && (r == NoError <==> old(AllFits(toCylinder, INDEX_WHEREEVER, item, true, false, outer, world)))
      && MoreOf(old(FactsOf(world)), FactsOf(world'), old(item.typ.id),
                old(Arriving(toCylinder, INDEX_WHEREEVER, item, true, false, outer, world)))
  {
    hide *;
    GoodStore(Snap(world));
    if item.parent == null {
      ghost var front;
      r, front, world' := InternalAddItem(toCylinder, INDEX_WHEREEVER, item, true, false, outer, world, types);
      KeepsStay(old(Snap(world)), Snap(world'), item, false);
      to, m, moved := toCylinder, 0, null;
    } else {
      ParentKnown(item, world);
      r, to, m, moved, world' := MoveHeld(toCylinder, index, item, n, noLimit, ignoreAutoStack, outer, world, types);
    }
  }

  lemma ParentKnown(item: Item, world: set<Item>)
    requires Good(Snap(world)) && item in world && item.parent != null
    ensures item.parent in world
  {
    GoodParent(Snap(world), item);
  }

  lemma KeepsStay(st: Store<Item>, st2: Store<Item>, item: Item, limits: bool)
    ensures AddKeeps(st, st2, item, limits) ==> OthersStay(st, st2, item)
  {
  }

  // ---------------------------------------------------------------- the plain case

  /** A container has a free slot and no depot or carrier around it minds: what is no stack may come in. */
  ghost predicate Open(bag: Item, item: Item, n: nat, outer: ReturnValue, world: set<Item>)
    requires Linked(Snap(world)) && Ranked(Snap(world)) && bag in world && item in world
    reads world
  {
    && item != bag && !Inside(Snap(world), bag, item) && !bag.Full()
    && bag.OwnRule(item, n, false, outer, world) && TopOf(Snap(world), bag).OwnRule(item, n, false, outer, world)
  }

  /** An item that is no stack and may be taken goes wherever it may come in, to the front, and the answer is yes. */
  lemma PlainGoes(bag: Item, item: Item, n: nat, noLimit: bool, ignoreAutoStack: bool, outer: ReturnValue, world: set<Item>)
    requires Good(Snap(world)) && bag in world && item in world && item.parent != null && Holds(bag.kind)
    requires !item.typ.stackable && item.typ.pickupable && item.typ.moveable && Open(bag, item, n, outer, world)
    ensures Destination(bag, ADD_WHEREVER, item, ignoreAutoStack, world) == Aim(bag, INDEX_WHEREEVER, null)
    ensures item.parent in world && var (ok, m) := Plan(bag, INDEX_WHEREEVER, item, n, null, noLimit, outer, world);
      ok && m > 0 && INDEX_WHEREEVER < CapacityThen(bag, item, m) && Joining(null, item, m) == 0
  {
    hide Inside, TopOf, AllBalanced, Nested;
    GoodParent(Snap(world), item);
    PlanIs(bag, INDEX_WHEREEVER, item, n, null, noLimit, outer, world);
  }

  /** Up to a hundred of a stack that lies elsewhere go together where no stack takes them, into one slot. */
  lemma StackGoes(bag: Item, item: Item, n: nat, noLimit: bool, ignoreAutoStack: bool, outer: ReturnValue, world: set<Item>)
    requires Good(Snap(world)) && bag in world && item in world && item.parent != null && Holds(bag.kind) && item.parent != bag
    requires item.typ.stackable && item.typ.pickupable && item.typ.moveable && 0 < n <= item.count && n <= 100
    requires Open(bag, item, n, outer, world) && forall x :: x in bag.itemlist ==> !x.StacksWith(item)
    ensures Destination(bag, ADD_WHEREVER, item, ignoreAutoStack, world) == Aim(bag, INDEX_WHEREEVER, null)
    ensures item.parent in world && Plan(bag, INDEX_WHEREEVER, item, n, null, noLimit, outer, world) == (true, n)
    ensures INDEX_WHEREEVER < CapacityThen(bag, item, n) && Joining(null, item, n) == 0
  {
    hide Inside, TopOf, AllBalanced, Nested, Item.SpareBefore;
    GoodParent(Snap(world), item);
    PlanIs(bag, INDEX_WHEREEVER, item, n, null, noLimit, outer, world);
  }

  method MoveIntoBag(bag: Item, item: Item, n: nat, noLimit: bool, ignoreAutoStack: bool, outer: ReturnValue,
                     ghost world: set<Item>, ghost types: map<nat, ItemType>)
    returns (r: ReturnValue)
    requires Good(Snap(world)) && bag in world && item in world && item.parent != null && Holds(bag.kind)
    requires !item.kind.Carrier? && ByType(FactsOf(world), types)
    requires !item.typ.stackable && item.typ.pickupable && item.typ.moveable && Open(bag, item, n, outer, world)
    modifies world`parent, world`itemlist, world`totalWeight, world`depth, world`count, world`typ
    ensures r == NoError && item.parent == bag
    ensures bag.itemlist == [item] + old(if item.parent == bag then Without(bag.itemlist, item) else bag.itemlist)
  {
    hide *;
    PlainGoes(bag, item, n, noLimit, ignoreAutoStack, outer, world);
    GoodStore(Snap(world));
    ListsAre(world);
    FactsInStore(world);
    var to, m, moved;
    ghost var world', f, l := world, FactsOf(world), ListsOf(world);
    OwnerIs(item, bag);
    ghost var a := Destination(bag, ADD_WHEREVER, item, ignoreAutoStack, world);
    r, to, m, moved, world' := InternalMoveItem(bag, ADD_WHEREVER, item, n, noLimit, ignoreAutoStack, outer, world, types);
    assert Done(f, FactsOf(world'), l, ListsOf(world), a, item, moved, m, old(Joining(a.toItem, item, m)),
                a.index < old(CapacityThen(a.to, item, m)));
    MovedWhole(f, l, world, world', bag, item, moved, m);
  }

  lemma MovedWhole(f: map<Item, Facts>, l: map<Item, seq<Item>>, world: set<Item>, world': set<Item>, bag: Item, item: Item,
                   moved: Item?, m: nat)
    requires Done(f, FactsOf(world'), l, ListsOf(world), Aim(bag, INDEX_WHEREEVER, null), item, moved, m, 0, true)
    requires item in f && !f[item].typ.stackable && bag in l && Holds(bag.kind) && f.Keys <= world'
    ensures item.parent == bag && bag.itemlist == [item] + if f[item].parent == Some(bag) then Without(l[bag], item) else l[bag]
  {
    FactsInStore(world');
    ListsAre(world);
  }

  /** The same for an item that lies nowhere. */
  lemma PlainFits(bag: Item, item: Item, ignoreAutoStack: bool, outer: ReturnValue, world: set<Item>)
    requires Good(Snap(world)) && bag in world && item in world && item.parent == null && Holds(bag.kind)
    requires !item.typ.stackable && item.typ.pickupable && Open(bag, item, item.count, outer, world)
    ensures bag.Headed(ADD_WHEREVER, item, ignoreAutoStack) == Aim(bag, INDEX_WHEREEVER, null)
    ensures Joining(null, item, item.count) == 0 && Fits(bag, Aim(bag, INDEX_WHEREEVER, null), item, false, outer, world)
    ensures AllFits(bag, ADD_WHEREVER, item, false, ignoreAutoStack, outer, world)
  {
    hide Inside, TopOf, AllBalanced, Nested;
  }

  method AddIntoBag(bag: Item, item: Item, ignoreAutoStack: bool, outer: ReturnValue, ghost world: set<Item>,
                    ghost types: map<nat, ItemType>)
    returns (r: ReturnValue)
    requires Good(Snap(world)) && bag in world && item in world && item.parent == null && Holds(bag.kind)
    requires !item.kind.Carrier? && ByType(FactsOf(world), types)
    requires !item.typ.stackable && item.typ.pickupable && Open(bag, item, item.count, outer, world)
    modifies world`parent, world`itemlist, world`totalWeight, world`depth, world`count, world`typ
    ensures r == NoError && item.parent == bag && bag.itemlist == [item] + old(bag.itemlist)
  {
    hide *;
    PlainFits(bag, item, ignoreAutoStack, outer, world);
    ListsAre(world);
    ghost var world', l, front := world, ListsOf(world), [];
    r, front, world' := InternalAddItem(bag, ADD_WHEREVER, item, false, ignoreAutoStack, outer, world, types);
    ListsAre(world);
    InFrontIs(l, ListsOf(world'), bag, front);
  }

  lemma InFrontIs(l: map<Item, seq<Item>>, l2: map<Item, seq<Item>>, to: Item, front: seq<Item>)
    ensures InFront(l, l2, to, front) && to in l ==> to in l2 && l2[to] == front + l[to]
  {
  }
}
