/**
 Runs of changes to containers: what every one of them keeps, and what moves under limits keep besides.
 */
module ItemRuns {
  import opened Basics
  import opened ItemStore
  import opened ItemWalk
  import opened Containers
  import opened ItemMoves
  import opened ItemAdds

  /** What happens to containers: moves and adds by way of the query, and changes by way of the container. */
  datatype Action =
    | Move(to: Item, index: int, item: Item, n: nat, noLimit: bool, ignoreAutoStack: bool, outer: ReturnValue)
    | Add(to: Item, index: int, item: Item, noLimit: bool, ignoreAutoStack: bool, outer: ReturnValue)
    | Update(container: Item, item: Item, newType: ItemType, newCount: nat)
    | Replace(container: Item, at: nat, item: Item)
    | Remove(container: Item, item: Item, n: nat)
    | InternalAdd(container: Item, item: Item)
    | Load(container: Item, item: Item)

  /** The container of an action is one, what it moves is an item, and types are those of the server. */
  predicate Sensible(a: Action, world: set<Item>, types: map<nat, ItemType>)
  {
    match a
    case Move(to, _, item, _, _, _, _) => to in world && Holds(to.kind) && item in world && !item.kind.Carrier?
    case Add(to, _, item, _, _, _) => to in world && Holds(to.kind) && item in world && !item.kind.Carrier?
    case Update(c, item, newType, _) => c in world && item in world && newType.id in types && types[newType.id] == newType
    case Replace(c, _, item) => c in world && Holds(c.kind) && item in world && !item.kind.Carrier?
    case Remove(c, item, _) => c in world && Holds(c.kind) && item in world
    case InternalAdd(c, item) => c in world && Holds(c.kind) && item in world && !item.kind.Carrier?
    case Load(c, item) => c in world && Holds(c.kind) && item in world && !item.kind.Carrier?
  }

  ghost predicate Lies(st: Store<Item>, item: Item)
  {
    item in st && st[item].parent.Some?
  }

  /**
   What may happen to a store with an eye on the limit of a depot: it is not moved itself, and what comes into it
   comes by way of the query, under limits.
   */
  ghost predicate Guarded(a: Action, d: Item, st: Store<Item>)
  {
    || (a.Move? && !a.noLimit && a.n <= 100 && a.item != d && Lies(st, a.item))
    || (a.Add? && !a.noLimit)
    || a.Update? || a.Remove?
    || ((a.Replace? || a.InternalAdd? || a.Load?) && Elsewhere(a.container, d, st))
  }

  /** A container that is neither the depot nor nested in it. */
  ghost predicate Elsewhere(c: Item, d: Item, st: Store<Item>)
  {
    c != d && !Inside(st, c, d)
  }

  /** Containers have a size. */
  ghost predicate Sized(world: set<Item>)
  {
    forall o :: o in world && Holds(o.kind) ==> o.maxSize != 0
  }

  /** A move, under the limits of containers, of an item that lies somewhere. */
  ghost predicate LimitedMove(a: Action, st: Store<Item>)
  {
    a.Move? && !a.noLimit && Lies(st, a.item)
  }

  /** Adds without a query are made with items that are on their own and do not hold the container. */
  method MayTake(c: Item, item: Item, ghost world: set<Item>) returns (may: bool)
    requires Good(Snap(world)) && c in world && item in world && Holds(c.kind) && !item.kind.Carrier?
    ensures may <==> c.CanTake(item, world)
  {
    hide Linked, Ranked, AllBalanced, Inside;
    if item.parent != null || item == c { return false; }
    var around := c.IsAround(item, world);
    return !around;
  }

  /** A move as an action. */
  method PerformMove(a: Action, ghost world: set<Item>, ghost types: map<nat, ItemType>) returns (ghost world': set<Item>)
    requires Good(Snap(world)) && a.Move? && Sensible(a, world, types) && ByType(FactsOf(world), types)
    modifies world`parent, world`itemlist, world`totalWeight, world`depth, world`count, world`typ
    ensures world <= world' && fresh(world' - world) && OnlyPlain(world' - world)
    ensures Good(Snap(world')) && ByType(FactsOf(world'), types)
    ensures forall d :: d in world && OnTile(old(Snap(world)), d) && Guarded(a, d, old(Snap(world))) ==>
      Within(old(Snap(world)), Snap(world'), d, d.depotLimit)
    ensures LimitedMove(a, old(Snap(world))) && Sized(world) ==>
      forall id :: Amount(FactsOf(world'), id) == Amount(old(FactsOf(world)), id)
  {
    hide Linked, Ranked, Inside, Nested, Good, ByType, Amount, OthersStay, LimitsKept, OnTile, Within, Item.OwnWeight,
      Destination, Plan, Done, AllFits, Arriving, MoreOf;
    ghost var st := Snap(world);
    GoodStore(st);
    var r, to, m, moved;
    r, to, m, moved, world' := InternalMoveItem(a.to, a.index, a.item, a.n, a.noLimit, a.ignoreAutoStack, a.outer, world, types);
    forall d | d in world && OnTile(st, d) && Guarded(a, d, st) ensures Within(st, Snap(world'), d, d.depotLimit) {
      WithinMove(st, Snap(world'), to, a.item, d, m);
    }
  }

  /** An add as an action, for items that lie nowhere. */
  method PerformAdd(a: Action, ghost world: set<Item>, ghost types: map<nat, ItemType>) returns (ghost world': set<Item>)
    requires Good(Snap(world)) && a.Add? && Sensible(a, world, types) && ByType(FactsOf(world), types)
    modifies world`parent, world`itemlist, world`totalWeight, world`depth, world`count, world`typ
    ensures world <= world' && fresh(world' - world) && OnlyPlain(world' - world)
    ensures Good(Snap(world')) && ByType(FactsOf(world'), types)
    ensures forall d :: d in world && OnTile(old(Snap(world)), d) && Guarded(a, d, old(Snap(world))) ==>
      Within(old(Snap(world)), Snap(world'), d, d.depotLimit)
  {
    hide Linked, Ranked, Inside, Nested, Good, ByType, Amount, OthersStay, OnTile, Within, Item.OwnWeight, Fits, AllFits,
      Arriving, InFront, Item.Headed, Joining;
    world' := world;
    ghost var st := Snap(world);
    if a.item.parent == null {
      var r;
      ghost var front;
      r, front, world' := InternalAddItem(a.to, a.index, a.item, a.noLimit, a.ignoreAutoStack, a.outer, world, types);
    } else {
      AddSame(st, st, a.item, true);
    }
  }

  lemma ByTypeSame(f: map<Item, Facts>, f2: map<Item, Facts>, types: map<nat, ItemType>, x: Item, typ: ItemType)
    requires ByType(f, types) && f2.Keys == f.Keys
    requires forall o :: o in f && o != x ==> f2[o].typ == f[o].typ
    requires x in f ==> f2[x].typ == f[x].typ || (f2[x].typ == typ && typ.id in types && types[typ.id] == typ)
    ensures ByType(f2, types)
  {
  }

  /** A new type or count for an item of a container. */
  method PerformUpdate(a: Action, ghost world: set<Item>, ghost types: map<nat, ItemType>)
    requires Good(Snap(world)) && a.Update? && Sensible(a, world, types) && ByType(FactsOf(world), types)
    modifies world`typ, world`count, world`totalWeight
    ensures Good(Snap(world)) && ByType(FactsOf(world), types)
    ensures forall d :: d in world && OnTile(old(Snap(world)), d) ==> Within(old(Snap(world)), Snap(world), d, d.depotLimit)
  {
    hide Linked, Ranked, Inside, Nested, Good, ByType, OnTile, Within, Item.OwnWeight;
    ghost var st, f := Snap(world), FactsOf(world);
    a.container.UpdateThing(a.item, a.newType, a.newCount, world);
    ByTypeSame(f, FactsOf(world), types, a.item, a.newType);
    forall d | d in world && OnTile(st, d) ensures Within(st, Snap(world), d, d.depotLimit) {
      WithinSame(st, Snap(world), d, d.depotLimit);
    }
  }

  lemma WithinDetached(st: Store<Item>, st2: Store<Item>, c: Item, x: Item, a: seq<Item>, b: seq<Item>, d: Item, limit: nat)
    requires Good(st) && c in st && x in st && c != x && Holds(st[c].kind) && x in st[c].items && OnTile(st, d)
    requires SameButTotals(Detach(st, c, x, a, b), st2)
    ensures Within(st, st2, d, limit)
  {
    hide *;
    DetachedLinks(st, st2, c, x, a, b, d);
    WithinFewer(st, st2, x, d, limit);
  }

  lemma DetachedLinks(st: Store<Item>, st2: Store<Item>, c: Item, x: Item, a: seq<Item>, b: seq<Item>, d: Item)
    requires Good(st) && c in st && x in st && c != x && Holds(st[c].kind) && x in st[c].items && OnTile(st, d)
    requires SameButTotals(Detach(st, c, x, a, b), st2)
    ensures FewerLinks(st, st2) && OthersStay(st, st2, x) && x != d && !st[x].kind.Carrier?
  {
    hide *;
    GoodStore(st);
    ItemOfContainer(st, c, x, d);
    DetachedParents(st, st2, c, x, a, b);
  }

  /** What lies in a container is neither a tile nor a depot on one. */
  lemma ItemOfContainer(st: Store<Item>, c: Item, x: Item, d: Item)
    requires Linked(st) && c in st && x in st && Holds(st[c].kind) && x in st[c].items && OnTile(st, d)
    ensures x != d && !st[x].kind.Carrier?
  {
    assert LinkedDown(st, c) && LinkedUp(st, x);
  }

  lemma DetachedParents(st: Store<Item>, st2: Store<Item>, c: Item, x: Item, a: seq<Item>, b: seq<Item>)
    ensures c in st && x in st && c != x && SameButTotals(Detach(st, c, x, a, b), st2) ==>
      FewerLinks(st, st2) && OthersStay(st, st2, x)
  {
  }

  /** What is put into a container elsewhere adds nothing to a depot. */
  lemma WithinAttached(st: Store<Item>, st2: Store<Item>, c: Item, x: Item, a: seq<Item>, b: seq<Item>, d: Item, limit: nat)
    requires c in st && x in st && st[x].parent.None? && !st[x].kind.Carrier? && OnTile(st, d) && Elsewhere(c, d, st)
    requires SameButTotals(Attach(st, c, x, a, b), st2)
    ensures Within(st, st2, d, limit)
  {
    hide *;
    AttachedLinks(st, st2, c, x, a, b, d);
    StaysOnTile(st, st2, x, d);
    NestedElsewhere(st, st, st2, c, x, d);
    Subset(Nested(st2, d), Nested(st, d));
    WithinSo(st, st2, d, limit);
  }

  lemma AttachedLinks(st: Store<Item>, st2: Store<Item>, c: Item, x: Item, a: seq<Item>, b: seq<Item>, d: Item)
    requires c in st && x in st && st[x].parent.None? && OnTile(st, d) && Elsewhere(c, d, st)
    requires SameButTotals(Attach(st, c, x, a, b), st2)
    ensures FewerLinks(st, st) && OthersStay(st, st2, x) && x != d && Entered(st, st2, c, x)
    ensures c != d && !Inside(st, c, d)
  {
    hide Inside;
  }

  lemma WithinSo(st: Store<Item>, st2: Store<Item>, d: Item, limit: nat)
    ensures OnTile(st2, d) && |Nested(st2, d)| <= |Nested(st, d)| ==> Within(st, st2, d, limit)
  {
  }

  lemma ElsewhereStill(st: Store<Item>, mid: Store<Item>, c: Item, d: Item)
    requires Elsewhere(c, d, st) && FewerLinks(st, mid)
    ensures Elsewhere(c, d, mid)
  {
    InsideFewer(st, mid, c, d);
  }

  /** Part of a stack, or an item, out of a container. */
  method PerformRemove(a: Action, ghost world: set<Item>, ghost types: map<nat, ItemType>)
    requires Good(Snap(world)) && a.Remove? && Sensible(a, world, types) && ByType(FactsOf(world), types)
    modifies world`parent, world`itemlist, world`totalWeight, world`count
    ensures Good(Snap(world)) && ByType(FactsOf(world), types)
    ensures forall d :: d in world && OnTile(old(Snap(world)), d) ==> Within(old(Snap(world)), Snap(world), d, d.depotLimit)
  {
    hide Linked, Ranked, Inside, Nested, Good, ByType, OnTile, Within, Detach, Item.OwnWeight;
    ghost var st, f := Snap(world), FactsOf(world);
    var c, item := a.container, a.item;
    ghost var whole, here := !item.Splits(item, a.n), item in c.itemlist;
    c.RemoveThing(item, a.n, world);
    ByTypeSame(f, FactsOf(world), types, item, item.typ);
    forall d | d in world && OnTile(st, d) ensures Within(st, Snap(world), d, d.depotLimit) {
      if whole && here {
        var at: nat :| at < |st[c].items| && st[c].items[at] == item
          && SameButTotals(Detach(st, c, item, st[c].items[..at], st[c].items[at + 1..]), Snap(world));
        WithinDetached(st, Snap(world), c, item, st[c].items[..at], st[c].items[at + 1..], d, d.depotLimit);
      } else {
        WithinSame(st, Snap(world), d, d.depotLimit);
      }
    }
  }

  /** Into a container, with no query. */
  method PutIn(a: Action, ghost world: set<Item>)
    requires Good(Snap(world)) && (a.InternalAdd? || a.Load?) && a.container.CanTake(a.item, world)
    modifies world`parent, world`itemlist, world`totalWeight, world`depth
    ensures Good(Snap(world))
    ensures forall d :: d in world && OnTile(old(Snap(world)), d) && Elsewhere(a.container, d, old(Snap(world))) ==>
      Within(old(Snap(world)), Snap(world), d, d.depotLimit)
  {
    hide Linked, Ranked, Inside, Nested, Good, OnTile, Within, Elsewhere, Attach, SameButTotals, Item.OwnWeight;
    ghost var st := Snap(world);
    var c, item := a.container, a.item;
    ghost var a1, b1 := if a.Load? then c.itemlist else [], if a.Load? then [] else c.itemlist;
    if a.Load? {
      c.LoadItem(item, world);
    } else {
      c.InternalAddThing(item, world);
    }
    forall d | d in world && OnTile(st, d) && Elsewhere(c, d, st) ensures Within(st, Snap(world), d, d.depotLimit) {
      WithinAttached(st, Snap(world), c, item, a1, b1, d, d.depotLimit);
    }
  }

  /** In place of another item, with no query. */
  method PutInPlace(a: Action, ghost world: set<Item>)
    requires Good(Snap(world)) && a.Replace? && a.container.CanTake(a.item, world)
    modifies world`parent, world`itemlist, world`totalWeight, world`depth
    ensures Good(Snap(world))
    ensures forall d :: d in world && OnTile(old(Snap(world)), d) && Elsewhere(a.container, d, old(Snap(world))) ==>
      Within(old(Snap(world)), Snap(world), d, d.depotLimit)
  {
    hide Linked, Ranked, Inside, Nested, Good, OnTile, Within, Elsewhere, Attach, Detach, SameButTotals, Item.OwnWeight;
    ghost var st := Snap(world);
    var c, item := a.container, a.item;
    ghost var list := c.itemlist;
    var mid := c.ReplaceThing(a.at, item, world);
    forall d | d in world && OnTile(st, d) && Elsewhere(c, d, st) ensures Within(st, Snap(world), d, d.depotLimit) {
      if a.at < |list| {
        WithinReplaced(st, mid, Snap(world), c, list[a.at], item, list[..a.at], list[a.at + 1..], d, d.depotLimit);
      } else {
        WithinSame(st, Snap(world), d, d.depotLimit);
      }
    }
  }

  lemma WithinReplaced(st: Store<Item>, mid: Store<Item>, st2: Store<Item>, c: Item, x: Item, y: Item, a: seq<Item>,
                       b: seq<Item>, d: Item, limit: nat)
    requires Good(st) && c in st && x in st && y in st && c != x && y != x && Holds(st[c].kind) && x in st[c].items
    requires st[y].parent.None? && !st[y].kind.Carrier? && OnTile(st, d) && Elsewhere(c, d, st)
    requires SameButTotals(Detach(st, c, x, a, b), mid) && c in mid && SameButTotals(Attach(mid, c, y, a, b), st2)
    ensures Within(st, st2, d, limit)
  {
    hide *;
    DetachedLinks(st, mid, c, x, a, b, d);
    WithinDetached(st, mid, c, x, a, b, d, limit);
    ElsewhereStill(st, mid, c, d);
    WithinOnTile(st, mid, d, limit);
    StillLoose(st, mid, x, y);
    WithinAttached(mid, st2, c, y, a, b, d, limit);
    WithinThen(st, mid, st2, d, limit);
  }

  lemma StillLoose(st: Store<Item>, mid: Store<Item>, x: Item, y: Item)
    ensures OthersStay(st, mid, x) && y in st && y != x && st[y].parent.None? && !st[y].kind.Carrier? ==>
      y in mid && mid[y].parent.None? && !mid[y].kind.Carrier?
  {
  }

  /** The ways of adding that do not query. */
  method PerformPut(a: Action, ghost world: set<Item>, ghost types: map<nat, ItemType>)
    requires Good(Snap(world)) && Sensible(a, world, types) && (a.Replace? || a.InternalAdd? || a.Load?)
    requires ByType(FactsOf(world), types)
    modifies world`parent, world`itemlist, world`totalWeight, world`depth
    ensures Good(Snap(world)) && ByType(FactsOf(world), types)
    ensures forall d :: d in world && OnTile(old(Snap(world)), d) && Guarded(a, d, old(Snap(world))) ==>
      Within(old(Snap(world)), Snap(world), d, d.depotLimit)
  {
    hide Linked, Ranked, Inside, Nested, Good, ByType, OnTile, Within, Elsewhere, Item.CanTake, Item.OwnWeight;
    ghost var st, f := Snap(world), FactsOf(world);
    var may := MayTake(a.container, a.item, world);
    if may {
      if a.Replace? {
        PutInPlace(a, world);
      } else {
        PutIn(a, world);
      }
    } else {
      forall d | d in world && OnTile(st, d) ensures Within(st, st, d, d.depotLimit) {
        WithinSame(st, st, d, d.depotLimit);
      }
    }
    ByTypeSame(f, FactsOf(world), types, a.item, a.item.typ);
  }

  method Perform(a: Action, ghost world: set<Item>, ghost types: map<nat, ItemType>) returns (ghost world': set<Item>)
    requires Good(Snap(world)) && Sensible(a, world, types) && ByType(FactsOf(world), types)
    modifies world`parent, world`itemlist, world`totalWeight, world`depth, world`count, world`typ
    ensures world <= world' && fresh(world' - world) && OnlyPlain(world' - world)
    ensures Good(Snap(world')) && ByType(FactsOf(world'), types)
    ensures forall d :: d in world && OnTile(old(Snap(world)), d) && Guarded(a, d, old(Snap(world))) ==>
      Within(old(Snap(world)), Snap(world'), d, d.depotLimit)
    ensures LimitedMove(a, old(Snap(world))) && Sized(world) ==>
      forall id :: Amount(FactsOf(world'), id) == Amount(old(FactsOf(world)), id)
  {
    hide Good, Inside, ByType, Amount, Within, OnTile, Sensible, Sized, Guarded;
    world' := world;
    PlainOnes({});
    assert world - world == {};
    match a
    case Move(_, _, _, _, _, _, _) =>
      world' := PerformMove(a, world, types);
    case Add(_, _, _, _, _, _) =>
      world' := PerformAdd(a, world, types);
    case Update(_, _, _, _) =>
      PerformUpdate(a, world, types);
    case Remove(_, _, _) =>
      PerformRemove(a, world, types);
    case _ =>
      PerformPut(a, world, types);
  }

  /** All actions of a run, each on the store that it meets, leave a depot alone or ask it. */
  ghost predicate AllGuarded(actions: seq<Action>, stores: seq<Store<Item>>, d: Item)
    requires |stores| >= |actions|
  {
    forall k :: 0 <= k < |actions| ==> Guarded(actions[k], d, stores[k])
  }

  ghost predicate AllLimited(actions: seq<Action>, stores: seq<Store<Item>>)
    requires |stores| >= |actions|
  {
    actions == [] ||
    (AllLimited(actions[..|actions| - 1], stores) && LimitedMove(actions[|actions| - 1], stores[|actions| - 1]))
  }

  /**
   After any run of moves, adds, updates, replacements, removals and loads, no item lies inside itself and every
   cached weight is the weight of all that is nested in the container.  A depot on a tile holds no more than its
   limit, or than it did at the start, as long as it is not moved and what comes into it comes by way of the
   query.  And moves alone, into containers that have a size, leave as many items of every type as there were.
   `stores` are the stores that the actions met, and the last one.
   */
  method Run(actions: seq<Action>, ghost world: set<Item>, ghost types: map<nat, ItemType>)
    returns (ghost world': set<Item>, ghost depths: nat, ghost stores: seq<Store<Item>>)
    requires Good(Snap(world)) && ByType(FactsOf(world), types) && forall a :: a in actions ==> Sensible(a, world, types)
    modifies world`parent, world`itemlist, world`totalWeight, world`depth, world`count, world`typ
    ensures world <= world' && fresh(world' - world) && Good(Snap(world'))
    ensures |stores| == |actions| + 1 && stores[0] == old(Snap(world)) && stores[|actions|] == Snap(world')
    ensures forall o :: o in world' ==> !Inside(Snap(world'), o, o)
    ensures DepthsBelow(Snap(world'), depths)
    ensures forall o, bound: nat :: o in world' && DepthsBelow(Snap(world'), bound) ==>
      o.totalWeight == NestedWeight(Snap(world'), bound, o)
    ensures forall d :: d in world && OnTile(old(Snap(world)), d) && AllGuarded(actions, stores, d) ==>
      && OnTile(Snap(world'), d)
      && |Nested(Snap(world'), d)| <= Max(|Nested(old(Snap(world)), d)|, d.depotLimit)
    ensures Sized(world) && AllLimited(actions, stores) ==>
      forall id :: Amount(FactsOf(world'), id) == Amount(old(FactsOf(world)), id)
  {
    hide *;
    ghost var st, f := Snap(world), FactsOf(world);
    world', stores := world, [st];
    var i := 0;
    StartOfRun(st, world);
    assert actions[..0] == [];
    while i < |actions|
      invariant 0 <= i <= |actions| && world <= world' && fresh(world' - world) && OnlyPlain(world' - world)
      invariant Good(Snap(world')) && ByType(FactsOf(world'), types)
      invariant |stores| == i + 1 && stores[0] == st && stores[i] == Snap(world')
      invariant DepotsWithin(actions[..i], stores, world)
      invariant Sized(world) && AllLimited(actions[..i], stores) ==> forall id :: Amount(FactsOf(world'), id) == Amount(f, id)
    {
      ghost var met := stores;
      SensibleMore(actions[i], world, world', types);
      StillSized(world, world');
      ghost var before := world';
      world' := Perform(actions[i], world', types);
      OnlyPlainThen(world, before, world');
      stores := stores + [Snap(world')];
      assert actions[..i + 1] == actions[..i] + [actions[i]];
      DepotsNext(actions[..i], actions[i], met, Snap(world'), world);
      LimitedAt(actions[..i], actions[i], met, Snap(world'));
      i := i + 1;
    }
    assert actions[..i] == actions;
    depths := DepthBound(Snap(world'));
    EndOfRun(actions, stores, world, world', depths);
  }

  /** Every depot on a tile that is guarded is within its limit, or as it was. */
  ghost predicate DepotsWithin(actions: seq<Action>, stores: seq<Store<Item>>, world: set<Item>)
    requires |stores| == |actions| + 1
    reads world`depotLimit
  {
    forall d :: d in world && OnTile(stores[0], d) && AllGuarded(actions, stores, d) ==>
      Within(stores[0], stores[|actions|], d, d.depotLimit)
  }

  lemma DepotsNext(actions: seq<Action>, a: Action, stores: seq<Store<Item>>, last: Store<Item>, world: set<Item>)
    requires |stores| == |actions| + 1 && DepotsWithin(actions, stores, world)
    requires forall d :: d in world && OnTile(stores[|actions|], d) && Guarded(a, d, stores[|actions|]) ==>
      Within(stores[|actions|], last, d, d.depotLimit)
    ensures DepotsWithin(actions + [a], stores + [last], world)
  {
    hide AllGuarded, Guarded, OnTile, Within;
    forall d | d in world && OnTile((stores + [last])[0], d) && AllGuarded(actions + [a], stores + [last], d)
      ensures Within((stores + [last])[0], (stores + [last])[|actions + [a]|], d, d.depotLimit)
    {
      GuardedAt(actions, a, stores, last, d);
      WithinOnTile(stores[0], stores[|actions|], d, d.depotLimit);
      WithinThen(stores[0], stores[|actions|], last, d, d.depotLimit);
    }
  }

  lemma OnlyPlainThen(a: set<Item>, b: set<Item>, c: set<Item>)
    requires a <= b <= c && OnlyPlain(b - a) && OnlyPlain(c - b)
    ensures OnlyPlain(c - a)
  {
    forall o | o in c - a ensures o.kind.Plain? {
      assert o in b - a || o in c - b;
    }
  }

  lemma EndOfRun(actions: seq<Action>, stores: seq<Store<Item>>, world: set<Item>, world': set<Item>, depths: nat)
    requires |stores| == |actions| + 1 && stores[|actions|] == Snap(world') && Good(Snap(world'))
    requires DepotsWithin(actions, stores, world) && forall o :: o in Snap(world') ==> Snap(world')[o].depth < depths
    ensures DepthsBelow(Snap(world'), depths)
    ensures forall o :: o in world' ==> !Inside(Snap(world'), o, o)
    ensures forall o, bound: nat :: o in world' && DepthsBelow(Snap(world'), bound) ==>
      o.totalWeight == NestedWeight(Snap(world'), bound, o)
    ensures forall d :: d in world && OnTile(stores[0], d) && AllGuarded(actions, stores, d) ==>
      && OnTile(Snap(world'), d)
      && |Nested(Snap(world'), d)| <= Max(|Nested(stores[0], d)|, d.depotLimit)
  {
    hide Inside, Nested, NestedWeight, OnTile, Within, AllGuarded;
    forall o | o in world' ensures !Inside(Snap(world'), o, o) {
      NoSelfContainment(Snap(world'), o);
    }
    forall o, bound: nat | o in world' && DepthsBelow(Snap(world'), bound)
      ensures o.totalWeight == NestedWeight(Snap(world'), bound, o)
    {
      TotalIsNestedWeight(Snap(world'), bound, o);
    }
    forall d | d in world && OnTile(stores[0], d) && AllGuarded(actions, stores, d)
      ensures OnTile(Snap(world'), d) && |Nested(Snap(world'), d)| <= Max(|Nested(stores[0], d)|, d.depotLimit)
    {
      WithinOnTile(stores[0], Snap(world'), d, d.depotLimit);
    }
  }

  lemma StartOfRun(st: Store<Item>, world: set<Item>)
    ensures DepotsWithin([], [st], world) && world - world == {} && OnlyPlain(world - world)
  {
    hide Within, OnTile;
    assert world - world == {};
    forall d | OnTile(st, d) ensures Within(st, st, d, d.depotLimit) {
      WithinSame(st, st, d, d.depotLimit);
    }
  }

  lemma GuardedAt(actions: seq<Action>, a: Action, stores: seq<Store<Item>>, last: Store<Item>, d: Item)
    requires |stores| == |actions| + 1 && AllGuarded(actions + [a], stores + [last], d)
    ensures AllGuarded(actions, stores, d) && Guarded(a, d, stores[|actions|])
  {
    hide Guarded;
    forall k | 0 <= k < |actions| ensures Guarded(actions[k], d, stores[k]) {
      assert (actions + [a])[k] == actions[k] && (stores + [last])[k] == stores[k];
    }
    assert (actions + [a])[|actions|] == a && (stores + [last])[|actions|] == stores[|actions|];
  }

  lemma {:induction false} SameMet(actions: seq<Action>, stores: seq<Store<Item>>, last: Store<Item>)
    requires |stores| >= |actions|
    ensures AllLimited(actions, stores + [last]) <==> AllLimited(actions, stores)
  {
    if actions != [] {
      SameMet(actions[..|actions| - 1], stores, last);
    }
  }

  lemma LimitedAt(actions: seq<Action>, a: Action, stores: seq<Store<Item>>, last: Store<Item>)
    requires |stores| == |actions| + 1
    ensures AllLimited(actions + [a], stores + [last]) <==> AllLimited(actions, stores) && LimitedMove(a, stores[|actions|])
  {
    SameMet(actions, stores, last);
    assert (actions + [a])[..|actions|] == actions && (stores + [last])[|actions|] == stores[|actions|];
  }

  lemma StillSized(world: set<Item>, more: set<Item>)
    requires world <= more && OnlyPlain(more - world)
    ensures Sized(world) ==> Sized(more)
  {
    forall o | Sized(world) && o in more && Holds(o.kind) ensures o.maxSize != 0 {
      assert o in world || o in more - world;
    }
  }

  lemma SensibleMore(a: Action, world: set<Item>, more: set<Item>, types: map<nat, ItemType>)
    ensures Sensible(a, world, types) && world <= more ==> Sensible(a, more, types)
  {
  }
}
