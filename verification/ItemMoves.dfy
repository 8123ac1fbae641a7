/**
 Moving items between containers: where a move ends, how much of it goes, stacks that join, and what every
 run of moves keeps.
 */
module ItemMoves {
  import opened Basics
  import opened ItemStore
  import opened ItemWalk
  import opened Containers

  const MAP_MAX_LAYERS: nat := 16

  // ---------------------------------------------------------------- where to

  /**
   Where internalMoveItem ends: where the first query leads, or, when that is another container, where the query
   of that one leads for any index.  A third query would lead nowhere else.
   */
  ghost function Destination(toCylinder: Item, index: int, item: Item, ignoreAutoStack: bool, world: set<Item>): Aim
    requires toCylinder in world && item in world && Linked(Snap(world))
    reads world
  {
    toCylinder.NeighboursKnown(world);
    var first := toCylinder.Headed(index, item, ignoreAutoStack);
    if first.to == toCylinder then first
    else
      first.to.NeighboursKnown(world);
      first.to.Headed(INDEX_WHEREEVER, item, false)
  }

  /** At any index a container never leads elsewhere. */
  lemma StaysThere(to: Item, item: Item, ignoreAutoStack: bool)
    ensures to.Headed(INDEX_WHEREEVER, item, ignoreAutoStack).to == to
  {
  }

  lemma DestinationIs(toCylinder: Item, index: int, item: Item, ignoreAutoStack: bool, world: set<Item>)
    requires toCylinder in world && item in world && Linked(Snap(world))
    ensures var first := toCylinder.Headed(index, item, ignoreAutoStack);
      first.to in world && Destination(toCylinder, index, item, ignoreAutoStack, world) ==
      if first.to == toCylinder then first else first.to.Headed(INDEX_WHEREEVER, item, false)
    ensures var first := toCylinder.Headed(index, item, ignoreAutoStack);
      first.to != toCylinder ==> first.index == INDEX_WHEREEVER
  {
    toCylinder.NeighboursKnown(world);
  }

  /**
   The loop of internalMoveItem over __queryDestination, which ends after one turn at most; the flags are only
   good for the first cylinder.
   */
  method FindDestination(toCylinder: Item, index: int, item: Item, noLimit: bool, ignoreAutoStack: bool,
                         ghost world: set<Item>)
    returns (to: Item, index': int, toItem: Item?, noLimit': bool)
    requires Linked(Snap(world)) && toCylinder in world && item in world && Holds(toCylinder.kind)
    ensures Aim(to, index', toItem) == Destination(toCylinder, index, item, ignoreAutoStack, world)
    ensures noLimit' <==> noLimit && to == toCylinder
    ensures to in world && Holds(to.kind) && to.Aimed(index', item, toItem)
  {
    hide Linked, Item.Aimed, Item.Headed, Destination;
    DestinationIs(toCylinder, index, item, ignoreAutoStack, world);
    var ignore, floor := ignoreAutoStack, 0;
    to, noLimit' := toCylinder, noLimit;
    var sub;
    sub, index', toItem := to.QueryDestination(index, item, ignore, world);
    ghost var found := Destination(toCylinder, index, item, ignoreAutoStack, world);
    while sub != to
      invariant to in world && Holds(to.kind) && sub in world && Holds(sub.kind) && sub.Aimed(index', item, toItem)
      invariant floor <= 1 && (noLimit' <==> noLimit && to == toCylinder) && (floor == 1 ==> sub == to != toCylinder)
      invariant if sub == to then Aim(to, index', toItem) == found
                else to == toCylinder && index' == INDEX_WHEREEVER && found == sub.Headed(INDEX_WHEREEVER, item, false)
      decreases MAP_MAX_LAYERS - floor
    {
      noLimit', ignore := false, false;
      to, floor := sub, floor + 1;
      if floor >= MAP_MAX_LAYERS { break; }
      StaysThere(to, item, ignore);
      sub, index', toItem := to.QueryDestination(index', item, ignore, world);
    }
  }

  // ---------------------------------------------------------------- how much

  /** How many items are asked for, of those that there is room for. */
  ghost function Taken(to: Item, index: int, item: Item, n: nat, noLimit: bool, outer: ReturnValue, world: set<Item>): nat
    requires Linked(Snap(world)) && Ranked(Snap(world)) && item in world && to in world
    reads world
  {
    var most := to.Most(index, item, n, noLimit, outer, world);
    if item.typ.stackable then Min(n, most) else most
  }

  /** Whether there is room for anything. */
  ghost predicate Roomy(to: Item, index: int, item: Item, n: nat, noLimit: bool, outer: ReturnValue, world: set<Item>)
    requires Linked(Snap(world)) && Ranked(Snap(world)) && item in world && to in world
    reads world
  {
    var most := to.Most(index, item, n, noLimit, outer, world);
    most > 0 || to.Enough(item, n, noLimit, most)
  }

  /** Whether a move changes anything. */
  ghost predicate Goes(to: Item, index: int, item: Item, n: nat, toItem: Item?, noLimit: bool, outer: ReturnValue,
                       world: set<Item>)
    requires Linked(Snap(world)) && Ranked(Snap(world)) && item in world && to in world && item.parent in world
    reads world
  {
    && item != toItem
    && to.Accepts(index, item, n, noLimit, outer, world)
    && Roomy(to, index, item, n, noLimit, outer, world)
    && item.parent.Releases(item, Taken(to, index, item, n, noLimit, outer, world))
  }

  /** How many of `m` items join the stack they are aimed at. */
  function Joining(toItem: Item?, item: Item, m: nat): (r: nat)
    reads toItem, item
    ensures r <= m
  {
    if item.typ.stackable && toItem != null && toItem.typ.id == item.typ.id then
      if toItem.count <= 100 then Min(100 - toItem.count, m) else m
    else 0
  }

  /** A stack that was found is joined only if there is a free slot, which it does not need: a full container refuses. */
  lemma FoundStackNeedsSlot(to: Item, k: nat, item: Item, n: nat, outer: ReturnValue, world: set<Item>)
    requires Linked(Snap(world)) && Ranked(Snap(world)) && to in world && item in world
    requires item.typ.stackable && 0 < n && to.LastStack(k, item)
    ensures Roomy(to, k + 1, item, n, false, outer, world) <==> to.FreeSlots() > 0
  {
    hide Linked, Ranked, Item.Most, Item.LastStack, Item.FreeSlots;
    to.FoundStackHasNoSpare(k, item, n, outer, world);
  }

  // ---------------------------------------------------------------- what a move leaves

  /** What counts of an item: its type, where it lies, and how many it is. */
  datatype Facts = Facts(typ: ItemType, parent: Option<Item>, count: nat)

  ghost function FactsOf(world: set<Item>): map<Item, Facts>
    reads world
  {
    map o | o in world :: Facts(o.typ, o.Owner(), o.count)
  }

  ghost function ListsOf(world: set<Item>): map<Item, seq<Item>>
    reads world
  {
    map o | o in world :: o.itemlist
  }

  /**
   What a move of `m` items leaves, of which `joined` join `toItem`: the item less by as many or gone, or, if it
   is no stack, at the front of `to`; what does not join is a new item at the front; and all else stays.
   */
  ghost predicate Carried(f: map<Item, Facts>, f2: map<Item, Facts>, to: Item, item: Item, toItem: Item?, moved: Item?,
                          m: nat, joined: nat, room: bool)
  {
    && item in f && f2.Keys == f.Keys + (if moved == null then {} else {moved})
    && (forall o :: o in f && o != item ==>
          f2[o] == f[o].(count := f[o].count + if o == toItem && f[o].typ.subTypeIsCount then joined else 0))
    && var place := if room then Some(to) else None;
       if f[item].typ.stackable then
         && joined <= m <= f[item].count
         && f2[item] == (if m == f[item].count then f[item].(parent := None) else f[item].(count := f[item].count - m))
         && (if joined == m then moved == null else moved != null && moved !in f && f2[moved] == Facts(f[item].typ, place, m - joined))
       else moved == item && f2[item] == f[item].(parent := place)
  }

  /** The lists after such a move: the item has left its own if it is gone, and what is new stands in front. */
  ghost predicate Listed(f: map<Item, Facts>, l: map<Item, seq<Item>>, l2: map<Item, seq<Item>>, to: Item, item: Item,
                         moved: Item?, m: nat, room: bool)
    requires item in f
  {
    l.Keys <= l2.Keys &&
    forall o :: o in l ==>
      var left := f[item].parent == Some(o) && Holds(o.kind) && (!f[item].typ.stackable || m == f[item].count);
      l2[o] == (if o == to && moved != null && room then [moved] else []) + if left then Without(l[o], item) else l[o]
  }

  /** A move to where `a` says, in full. */
  ghost predicate Done(f: map<Item, Facts>, f2: map<Item, Facts>, l: map<Item, seq<Item>>, l2: map<Item, seq<Item>>, a: Aim,
                       item: Item, moved: Item?, m: nat, joined: nat, room: bool)
  {
    Carried(f, f2, a.to, item, a.toItem, moved, m, joined, room) && Listed(f, l, l2, a.to, item, moved, m, room)
  }

  lemma ListedSo(f: map<Item, Facts>, l: map<Item, seq<Item>>, world: set<Item>, to: Item, item: Item, moved: Item?, m: nat,
                 room: bool, thinned: map<Item, seq<Item>>)
    requires item in f && l.Keys == world == thinned.Keys && (moved != null ==> moved.parent == if room then to else null)
    requires forall o :: o in world ==> o.itemlist == Fronted(o, to, moved) + thinned[o]
    requires forall o :: o in world ==>
      thinned[o] == if f[item].parent == Some(o) && Holds(o.kind) && (!f[item].typ.stackable || m == f[item].count)
                  then Without(l[o], item) else l[o]
    ensures Listed(f, l, ListsOf(world), to, item, moved, m, room)
  {
  }

  /** The lists of all when the item has gone. */
  ghost function ListsThen(world: set<Item>, item: Item, m: nat): map<Item, seq<Item>>
    reads world, item
  {
    map o | o in world :: ListThen(o, item, m)
  }

  lemma ListsThenIs(world: set<Item>, item: Item, m: nat)
    ensures ListsThen(world, item, m).Keys == world
    ensures forall o :: o in world ==>
      && ListsThen(world, item, m)[o] == ListThen(o, item, m)
      && ListThen(o, item, m) == if item.Owner() == Some(o) && Holds(o.kind) && (!item.typ.stackable || m == item.count)
                                 then Without(o.itemlist, item) else o.itemlist
  {
  }

  /** The same links, seen from the items and in the store. */
  lemma FactsInStore(world: set<Item>)
    ensures FactsOf(world).Keys == world == Snap(world).Keys
    ensures forall o :: o in world ==>
      && FactsOf(world)[o] == Facts(o.typ, o.Owner(), o.count) && Snap(world)[o].parent == o.Owner()
      && (o.Owner().None? <==> o.parent == null)
  {
  }

  /** One item in front of one list. */
  lemma FrontedSo(to: Item, moved: Item?, world: set<Item>, lists: map<Item, seq<Item>>)
    requires lists.Keys == world && to in world && (moved != null ==> moved.parent == to || moved.parent == null)
    requires forall o :: o in world && o != to ==> o.itemlist == lists[o]
    requires to.itemlist == (if moved != null && moved.parent != null then [moved] else []) + lists[to]
    ensures forall o :: o in world ==> o.itemlist == Fronted(o, to, moved) + lists[o]
  {
  }

  lemma ListsAre(world: set<Item>)
    ensures ListsOf(world).Keys == world && forall o :: o in world ==> ListsOf(world)[o] == o.itemlist
  {
  }

  lemma ParentsStay(st: Store<Item>, st2: Store<Item>, f: map<Item, Facts>, f2: map<Item, Facts>, item: Item)
    requires st.Keys == f.Keys && st2.Keys == f2.Keys && OthersStay(st, st2, item)
    requires (forall o :: o in f ==> f[o].parent == st[o].parent) && (forall o :: o in f2 ==> f2[o].parent == st2[o].parent)
    ensures forall o :: o in f && o != item ==> o in f2 && f2[o].parent == f[o].parent
  {
  }

  /** What is said of the items and what is said of their facts. */
  lemma CarriedSo(st: Store<Item>, f: map<Item, Facts>, world: set<Item>, world': set<Item>,
                  to: Item, item: Item, toItem: Item?, moved: Item?, m: nat, joined: nat, room: bool)
    requires f.Keys == st.Keys == world && item in world
    requires forall o :: o in world ==> f[o].parent == st[o].parent
    requires world' == if moved == null || moved == item then world else world + {moved}
    requires OthersStay(st, Snap(world'), item)
    requires forall o :: o in world ==> o.typ == f[o].typ && (o != item && o != toItem ==> o.count == f[o].count)
    requires toItem != item
    requires toItem != null ==> toItem in world && toItem.count == f[toItem].count + if toItem.typ.subTypeIsCount then joined else 0
    requires f[item].parent.Some? && joined <= m
    requires moved != null ==> moved.parent == if room then to else null
    requires if item.typ.stackable then
               && m <= f[item].count && (m == f[item].count <==> item.parent == null) && moved != item
               && (item.parent != null ==> item.Owner() == f[item].parent)
               && item.count == f[item].count - (if m == f[item].count then 0 else m)
               && (moved == null <==> joined == m)
               && (moved != null ==> moved !in world && moved.typ == item.typ && moved.count == m - joined)
             else joined == 0 && moved == item && item.count == f[item].count
    ensures Carried(f, FactsOf(world'), to, item, toItem, moved, m, joined, room)
  {
    hide OthersStay;
    FactsInStore(world');
    ParentsStay(st, Snap(world'), f, FactsOf(world'), item);
  }

  lemma DoneSo(f: map<Item, Facts>, f2: map<Item, Facts>, l: map<Item, seq<Item>>, l2: map<Item, seq<Item>>, a: Aim, item: Item,
               moved: Item?, m: nat, joined: nat, room: bool)
    ensures Carried(f, f2, a.to, item, a.toItem, moved, m, joined, room) && Listed(f, l, l2, a.to, item, moved, m, room) ==>
      Done(f, f2, l, l2, a, item, moved, m, joined, room)
  {
  }

  // ---------------------------------------------------------------- the steps of a move

  /** By how much the list of `o` becomes shorter. */
  function Leaving(o: Item, item: Item, m: nat): nat
    reads item
  {
    if !item.Splits(item, m) && o == item.parent && Holds(o.kind) then 1 else 0
  }

  /** The list of `o` when the item has gone. */
  ghost function ListThen(o: Item, item: Item, m: nat): seq<Item>
    reads o, item
  {
    if Leaving(o, item, m) == 1 then Without(o.itemlist, item) else o.itemlist
  }

  /** What stands in front of the list of `o`, when `moved` has come to lie in `to`. */
  function Fronted(o: Item, to: Item, moved: Item?): seq<Item>
    reads moved
  {
    if o == to && moved != null && moved.parent == to then [moved] else []
  }

  /** The capacity of a container when the item has gone. */
  function CapacityThen(to: Item, item: Item, m: nat): int
    reads to, item
  {
    if to.maxSize != 0 then to.maxSize else Min(255, |to.itemlist| - Leaving(to, item, m) + 1)
  }

  /** __removeThing of the cylinder around the item. */
  method Release(item: Item, m: nat, ghost world: set<Item>)
    requires Good(Snap(world)) && item in world && !item.kind.Carrier?
    modifies world`parent, world`itemlist, world`totalWeight, item`count
    ensures Good(Snap(world)) && FewerLinks(old(Snap(world)), Snap(world)) && OthersStay(old(Snap(world)), Snap(world), item)
    ensures if old(item.Splits(item, m)) then item.count == Max(0, old(item.count) - m) && item.parent == old(item.parent)
            else item.count == old(item.count) && item.parent == null
    ensures forall o :: o in world ==>
      && (o != item ==> o.parent == old(o.parent))
      && o.itemlist == old(ListThen(o, item, m))
      && |o.itemlist| == |old(o.itemlist)| - old(Leaving(o, item, m))
  {
    hide Linked, Ranked, Inside, Good;
    if item.typ.stackable && m != item.count {
      item.Lessen(m, world);
    } else {
      item.TakeOut(world);
    }
  }

  /** Item::CreateItem */
  method CreateItem(typ: ItemType, n: nat, ghost world: set<Item>) returns (item: Item)
    requires Good(Snap(world))
    ensures fresh(item) && item.parent == null && item.kind.Plain? && item.count == n && item.typ == typ
    ensures Good(Snap(world + {item})) && FewerLinks(Snap(world), Snap(world + {item}))
  {
    hide Linked, Ranked, Good;
    item := new Item(Plain, typ, n, 0);
    LooseChange(Snap(world), item, item.Record());
    assert Snap(world + {item}) == Snap(world)[item := item.Record()];
  }

  /** __addThing, as far as the links go. */
  method Place(to: Item, index: int, moved: Item, ghost world: set<Item>)
    requires Good(Snap(world)) && to.CanTake(moved, world)
    modifies to`itemlist, moved`parent, world`depth, world`totalWeight
    ensures Good(Snap(world)) && Entered(old(Snap(world)), Snap(world), to, moved)
    ensures moved.parent == if index < old(to.Capacity()) then to else null
    ensures to.itemlist == (if index < old(to.Capacity()) then [moved] else []) + old(to.itemlist)
  {
    hide Linked, Ranked, Inside, AllBalanced, Attach, Good;
    ghost var st := Snap(world);
    to.AddThing(index, moved, world);
    AttachParents(st, to, moved, to.itemlist);
    assert Snap(world)[to].items == to.itemlist;
  }

  lemma AttachParents(st: Store<Item>, c: Item, x: Item, items: seq<Item>)
    ensures c in st ==>
      forall p :: p in st ==>
      p in Attach(st, c, x, [], st[c].items) &&
      Attach(st, c, x, [], st[c].items)[p].parent == (if p == x then Some(c) else st[p].parent) &&
      Attach(st, c, x, [], st[c].items)[c].items == [x] + st[c].items
  {
  }

  lemma StillListed(to: Item, x: Item, world: set<Item>)
    requires Good(Snap(world)) && x in world && x.parent == to && Holds(to.kind)
    ensures x in to.itemlist
  {
    assert LinkedUp(Snap(world), x);
  }

  lemma ListedHere(to: Item, x: Item, world: set<Item>)
    requires Good(Snap(world)) && to in world && x in to.itemlist
    ensures x in world && x.parent == to
  {
    to.NeighboursKnown(world);
  }

  /** The way into the container is still open for what is to be moved. */
  lemma MayEnter(to: Item, item: Item, moved: Item, st: Store<Item>, st1: Store<Item>)
    requires Linked(st) && Ranked(st) && to in st && FewerLinks(st, st1)
    requires if moved in st then moved == item && !Inside(st, to, item) else true
    ensures !Inside(st1, to, moved)
  {
    InsideFewer(st, st1, to, moved);
    if moved !in st {
      NothingInside(st, moved);
      NestedOf(st, to, moved);
    }
  }

  lemma GoodStore(st: Store<Item>)
    ensures Good(st) ==> Linked(st) && Ranked(st)
  {
  }

  lemma StillFewer(st: Store<Item>, st1: Store<Item>, st2: Store<Item>)
    ensures FewerLinks(st, st1) && FewerLinks(st1, st2) ==> FewerLinks(st, st2)
  {
  }

  lemma SameLinks(st: Store<Item>, st1: Store<Item>)
    ensures (st.Keys == st1.Keys && forall o :: o in st ==> st1[o].parent == st[o].parent) ==> FewerLinks(st, st1)
  {
  }

  /** __updateThing of the stack that is joined. */
  method Join(to: Item, toItem: Item, joined: nat, ghost world: set<Item>)
    requires Good(Snap(world)) && to in world && toItem in world && toItem in to.itemlist
    modifies toItem`typ, toItem`count, world`totalWeight
    ensures Good(Snap(world)) && FewerLinks(old(Snap(world)), Snap(world))
    ensures toItem.typ == old(toItem.typ)
    ensures toItem.count == old(toItem.count) + if toItem.typ.subTypeIsCount then joined else 0
  {
    hide Linked, Ranked, Inside, AllBalanced, Good, FewerLinks, Item.OwnWeight;
    ghost var st := Snap(world);
    to.UpdateThing(toItem, toItem.typ, toItem.count + joined, world);
    SameLinks(st, Snap(world));
  }

  /** What does not join is a new item. */
  method PlaceRest(to: Item, index: int, typ: ItemType, n: nat, ghost world: set<Item>, ghost st: Store<Item>)
    returns (rest: Item, ghost st1: Store<Item>)
    requires Good(Snap(world)) && to in world && Holds(to.kind)
    requires Linked(st) && Ranked(st) && st.Keys == world && FewerLinks(st, Snap(world))
    modifies to`itemlist, world`depth, world`totalWeight
    ensures fresh(rest) && Good(Snap(world + {rest})) && rest.kind.Plain? && rest.count == n && rest.typ == typ
    ensures rest.parent == if index < old(to.Capacity()) then to else null
    ensures to.itemlist == (if index < old(to.Capacity()) then [rest] else []) + old(to.itemlist)
    ensures FewerLinks(st, st1) && Entered(st1, Snap(world + {rest}), to, rest)
    ensures forall o :: o in world ==> o in st1 && st1[o].parent == o.Owner()
  {
    hide Linked, Ranked, Inside, AllBalanced, Good, FewerLinks, Entered, Item.OwnWeight;
    ghost var was := Snap(world);
    rest := CreateItem(typ, n, world);
    st1 := Snap(world + {rest});
    StillFewer(st, was, st1);
    MayEnter(to, rest, rest, st, st1);
    Place(to, index, rest, world + {rest});
  }

  /** Nothing, when everything has joined. */
  method PlaceAnyRest(to: Item, index: int, typ: ItemType, n: nat, ghost world: set<Item>,
                      ghost st: Store<Item>, ghost gone: Item)
    returns (rest: Item?, ghost world': set<Item>, ghost st1: Store<Item>)
    requires Good(Snap(world)) && to in world && Holds(to.kind)
    requires Linked(st) && Ranked(st) && st.Keys == world && FewerLinks(st, Snap(world)) && OthersStay(st, Snap(world), gone)
    modifies to`itemlist, world`depth, world`totalWeight
    ensures (rest == null <==> n == 0) && (rest != null ==> fresh(rest) && rest.kind.Plain? && rest.count == n && rest.typ == typ)
    ensures world' == (if rest == null then world else world + {rest}) && Good(Snap(world'))
    ensures rest != null ==> rest.parent == if index < old(to.Capacity()) then to else null
    ensures to.itemlist == (if rest != null && index < old(to.Capacity()) then [rest] else []) + old(to.itemlist)
    ensures FewerLinks(st, st1) && OthersStay(st, Snap(world'), gone)
    ensures gone in world ==> gone in st1 && (gone.parent == null ==> st1[gone].parent.None?)
    ensures if rest == null then st1 == Snap(world') else Entered(st1, Snap(world'), to, rest)
  {
    hide Linked, Ranked, Inside, AllBalanced, Good, FewerLinks, Entered, OthersStay, Item.OwnWeight, Item.Capacity;
    ghost var was := Snap(world);
    if n == 0 {
      rest, world', st1 := null, world, Snap(world);
    } else {
      rest, st1 := PlaceRest(to, index, typ, n, world, st);
      world' := world + {rest};
      OthersStayToo(st, was, Snap(world'), gone);
    }
  }

  lemma SnapKeys(world: set<Item>)
    ensures Snap(world).Keys == world && forall o :: o in world ==> Snap(world)[o].kind == o.kind
  {
  }

  /** The first half: out of the stack, and as many as fit to the stack that is aimed at. */
  method TakeAndJoin(to: Item, item: Item, m: nat, toItem: Item?, ghost world: set<Item>) returns (joined: nat)
    requires Good(Snap(world)) && to in world && item in world && Holds(to.kind) && !item.kind.Carrier?
    requires item.typ.stackable && 0 < m <= item.count && item.parent != null
    requires toItem != null ==> toItem in to.itemlist && toItem != item
    modifies world`parent, world`itemlist, world`totalWeight, world`count, world`typ
    ensures Good(Snap(world)) && FewerLinks(old(Snap(world)), Snap(world)) && OthersStay(old(Snap(world)), Snap(world), item)
    ensures joined == old(Joining(toItem, item, m))
    ensures item.count == old(item.count) - (if m == old(item.count) then 0 else m)
    ensures item.parent == if m == old(item.count) then null else old(item.parent)
    ensures toItem != null ==> toItem.count == old(toItem.count) + if toItem.typ.subTypeIsCount then joined else 0
    ensures forall o :: o in world ==> o.typ == old(o.typ) && (o != item && o != toItem ==> o.count == old(o.count))
    ensures to.Capacity() == old(CapacityThen(to, item, m))
    ensures forall o :: o in world ==> o.itemlist == old(ListThen(o, item, m))
  {
    hide Linked, Ranked, Inside, AllBalanced, Good, FewerLinks, OthersStay, Item.OwnWeight;
    ghost var st := Snap(world);
    if toItem != null {
      ListedHere(to, toItem, world);
    }
    joined := Joining(toItem, item, m);
    Release(item, m, world);
    if toItem != null && toItem.typ.id == item.typ.id {
      ghost var st1 := Snap(world);
      StillListed(to, toItem, world);
      Join(to, toItem, joined, world);
      StillFewer(st, st1, Snap(world));
      OthersStayToo(st, st1, Snap(world), item);
    }
  }

  lemma OthersStayToo(st: Store<Item>, st1: Store<Item>, st2: Store<Item>, x: Item)
    requires OthersStay(st, st1, x)
    requires forall o :: o in st1 ==> o in st2 && (o != x ==> st2[o].parent == st1[o].parent && st2[o].kind == st1[o].kind)
    ensures OthersStay(st, st2, x)
  {
  }

  /**
   `m` items of a stack: out of it, as many as fit to the stack they are aimed at, and the rest as a new item.
   `st1` is the store before that item is put in.
   */
  method MoveStack(to: Item, index: int, item: Item, m: nat, toItem: Item?, ghost world: set<Item>)
    returns (moved: Item?, ghost world': set<Item>, ghost st1: Store<Item>)
    requires Good(Snap(world)) && to in world && item in world && Holds(to.kind) && !item.kind.Carrier?
    requires item.typ.stackable && 0 < m <= item.count && item.parent != null
    requires toItem != null ==> toItem in to.itemlist && toItem != item
    requires item != to && !Inside(Snap(world), to, item)
    modifies world`parent, world`itemlist, world`totalWeight, world`depth, world`count, world`typ
    ensures world <= world' && fresh(world' - world) && Good(Snap(world'))
    ensures var joined := old(Joining(toItem, item, m));
            && item.count == old(item.count) - (if m == old(item.count) then 0 else m)
            && item.parent == (if m == old(item.count) then null else old(item.parent))
            && (toItem != null ==> toItem.count == old(toItem.count) + if toItem.typ.subTypeIsCount then joined else 0)
            && (moved == null <==> joined == m)
            && (moved != null ==> fresh(moved) && moved.kind.Plain? && moved.count == m - joined && moved.typ == item.typ)
    ensures moved != null ==> moved in world' && moved.parent == if index < old(CapacityThen(to, item, m)) then to else null
    ensures forall o :: o in world ==> o.itemlist == Fronted(o, to, moved) + old(ListThen(o, item, m))
    ensures forall o :: o in world ==> o.typ == old(o.typ) && (o != item && o != toItem ==> o.count == old(o.count))
    ensures FewerLinks(old(Snap(world)), st1) && OthersStay(old(Snap(world)), Snap(world'), item)
    ensures if moved == null then st1 == Snap(world') else Entered(st1, Snap(world'), to, moved)
    ensures m == old(item.count) ==> item in st1 && st1[item].parent.None?
    ensures world' == if moved == null then world else world + {moved}
  {
    hide *;
    ghost var st := Snap(world);
    GoodStore(st);
    SnapKeys(world);
    var joined := TakeAndJoin(to, item, m, toItem, world);
    ghost var lists := ListsOf(world);
    ListsAre(world);
    moved, world', st1 := PlaceAnyRest(to, index, item.typ, m - joined, world, st, item);
    FrontedSo(to, moved, world, lists);
  }

  /** An item that is no stack goes as it is. */
  method MoveWhole(to: Item, index: int, item: Item, m: nat, ghost world: set<Item>) returns (ghost st1: Store<Item>)
    requires Good(Snap(world)) && to in world && item in world && Holds(to.kind) && !item.kind.Carrier?
    requires !item.typ.stackable && item != to && !Inside(Snap(world), to, item)
    modifies world`parent, world`itemlist, world`totalWeight, world`depth, item`count
    ensures Good(Snap(world)) && item.count == old(item.count)
    ensures item.parent == if index < old(CapacityThen(to, item, m)) then to else null
    ensures forall o :: o in world ==> o.itemlist == Fronted(o, to, item) + old(ListThen(o, item, m))
    ensures FewerLinks(old(Snap(world)), st1) && Entered(st1, Snap(world), to, item)
    ensures OthersStay(old(Snap(world)), Snap(world), item)
  {
    hide *;
    ghost var st := Snap(world);
    GoodStore(st);
    SnapKeys(world);
    Freed(to, item, m, world);
    SnapKeys(world);
    st1 := Snap(world);
    ghost var lists := ListsOf(world);
    ListsAre(world);
    MayEnter(to, item, item, st, st1);
    OnItsOwn(to, item, world);
    Place(to, index, item, world);
    FrontedSo(to, item, world, lists);
    SnapKeys(world);
    EnteredStays(st, st1, Snap(world), to, item);
  }

  /** Release of an item that is no stack. */
  method Freed(to: Item, item: Item, m: nat, ghost world: set<Item>)
    requires Good(Snap(world)) && to in world && item in world && !item.kind.Carrier? && !item.typ.stackable
    modifies world`parent, world`itemlist, world`totalWeight, item`count
    ensures Good(Snap(world)) && FewerLinks(old(Snap(world)), Snap(world)) && OthersStay(old(Snap(world)), Snap(world), item)
    ensures item.parent == null && item.count == old(item.count) && to.Capacity() == old(CapacityThen(to, item, m))
    ensures forall o :: o in world ==> o.itemlist == old(ListThen(o, item, m))
  {
    hide Linked, Ranked, Inside, Good, FewerLinks, OthersStay, ListThen, Leaving;
    Release(item, m, world);
  }

  lemma OnItsOwn(to: Item, item: Item, world: set<Item>)
    ensures to.CanTake(item, world) <==>
      to in world && item in world && Holds(to.kind) && !item.kind.Carrier? && item.parent == null && item != to
      && !Inside(Snap(world), to, item)
  {
  }

  lemma EnteredStays(st: Store<Item>, st1: Store<Item>, st2: Store<Item>, to: Item, item: Item)
    requires OthersStay(st, st1, item) && Entered(st1, st2, to, item) && forall o :: o in st1 ==> o in st2 && st2[o].kind == st1[o].kind
    ensures OthersStay(st, st2, item)
  {
  }

  method CarryStack(to: Item, index: int, item: Item, m: nat, toItem: Item?, ghost world: set<Item>)
    returns (moved: Item?, ghost world': set<Item>, ghost st1: Store<Item>)
    requires Good(Snap(world)) && to in world && item in world && Holds(to.kind) && !item.kind.Carrier?
    requires item.typ.stackable && 0 < m <= item.count && item.parent != null
    requires toItem != null ==> toItem in world && toItem in to.itemlist && toItem != item
    requires item != to && !Inside(Snap(world), to, item)
    modifies world`parent, world`itemlist, world`totalWeight, world`depth, world`count, world`typ
    ensures world <= world' && fresh(world' - world) && Good(Snap(world'))
    ensures Done(old(FactsOf(world)), FactsOf(world'), old(ListsOf(world)), ListsOf(world), Aim(to, index, toItem), item, moved, m,
                 old(Joining(toItem, item, m)), index < old(CapacityThen(to, item, m)))
    ensures FewerLinks(old(Snap(world)), st1) && OthersStay(old(Snap(world)), Snap(world'), item)
    ensures if moved == null then st1 == Snap(world') else Entered(st1, Snap(world'), to, moved) && fresh(moved) && moved.kind.Plain?
    ensures m == old(item.count) ==> item in st1 && st1[item].parent.None?
    ensures moved == null <==> old(Joining(toItem, item, m)) == m
    ensures world' == if moved == null then world else world + {moved}
  {
    hide *;
    ghost var st, f, l, thinned := Snap(world), FactsOf(world), ListsOf(world), ListsThen(world, item, m);
    ghost var joined, room := Joining(toItem, item, m), index < CapacityThen(to, item, m);
    FactsInStore(world);
    ListsAre(world);
    ListsThenIs(world, item, m);
    moved, world', st1 := MoveStack(to, index, item, m, toItem, world);
    CarriedSo(st, f, world, world', to, item, toItem, moved, m, joined, room);
    ListedSo(f, l, world, to, item, moved, m, room, thinned);
    DoneSo(f, FactsOf(world'), l, ListsOf(world), Aim(to, index, toItem), item, moved, m, joined, room);
  }

  method CarryWhole(to: Item, index: int, item: Item, m: nat, toItem: Item?, ghost world: set<Item>)
    returns (ghost st1: Store<Item>)
    requires Good(Snap(world)) && to in world && item in world && Holds(to.kind) && !item.kind.Carrier?
    requires !item.typ.stackable && item != to && !Inside(Snap(world), to, item) && item.parent != null
    requires toItem != null ==> toItem in world && toItem != item
    modifies world`parent, world`itemlist, world`totalWeight, world`depth, item`count
    ensures Good(Snap(world))
    ensures Done(old(FactsOf(world)), FactsOf(world), old(ListsOf(world)), ListsOf(world), Aim(to, index, toItem), item, item, m,
                 0, index < old(CapacityThen(to, item, m)))
    ensures FewerLinks(old(Snap(world)), st1) && Entered(st1, Snap(world), to, item)
    ensures OthersStay(old(Snap(world)), Snap(world), item)
  {
    hide *;
    ghost var st, f, l, thinned := Snap(world), FactsOf(world), ListsOf(world), ListsThen(world, item, m);
    ghost var room := index < CapacityThen(to, item, m);
    FactsInStore(world);
    ListsAre(world);
    ListsThenIs(world, item, m);
    st1 := MoveWhole(to, index, item, m, world);
    CarriedSo(st, f, world, world, to, item, toItem, item, m, 0, room);
    ListedSo(f, l, world, to, item, item, m, room, thinned);
    DoneSo(f, FactsOf(world), l, ListsOf(world), Aim(to, index, toItem), item, item, m, 0, room);
  }

  /**
   With limits waived, a stack found at the last place of a full container takes what it can, and the rest is
   aimed behind the last slot, where MoveItem puts nothing.
   */
  lemma WaivedRestIsLost(to: Item, k: nat, item: Item, n: nat, outer: ReturnValue, world: set<Item>)
    requires Linked(Snap(world)) && Ranked(Snap(world)) && to in world && item in world
    requires item.typ.stackable && item.parent != to && to.LastStack(k, item)
    requires to.maxSize == |to.itemlist| == k + 1 && n > 100 - to.itemlist[k].count
    ensures Taken(to, k + 1, item, n, true, outer, world) == n
    ensures Joining(to.itemlist[k], item, n) < n && k + 1 >= CapacityThen(to, item, n)
  {
  }

  // ---------------------------------------------------------------- what a move does to depots

  /** Of a stack of no more than a hundred either all that is asked for goes, or all that goes joins another stack. */
  lemma WholeOrJoined(to: Item, index: int, item: Item, n: nat, toItem: Item?, outer: ReturnValue, world: set<Item>)
    requires Linked(Snap(world)) && Ranked(Snap(world)) && item in world && to in world
    requires item.typ.stackable && n <= 100 && to.Aimed(index, item, toItem)
    requires to.Accepts(index, item, n, false, outer, world)
    ensures var m := Taken(to, index, item, n, false, outer, world); m == n || Joining(toItem, item, m) == m
  {
    hide Linked, Ranked, Inside, Nested, TopOf, Item.OwnRule, Item.SpareBefore;
  }

  /** What the query has checked is enough for what the move does to a depot that watches. */
  lemma LimitKept<T>(st: Store<T>, st1: Store<T>, st2: Store<T>, c: T, x: T, split: bool, moved: Option<T>, d: T, limit: nat)
    requires Linked(st) && Ranked(st) && c in st && x in st && x != c && !Inside(st, c, x) && !st[x].kind.Carrier?
    requires Watched(st, c, d) && |Nested(st, d)| + AddCount(st, d, x, split) <= limit && FewerLinks(st, st1)
    requires moved.None? ==> st2 == st1
    requires moved.Some? ==> Entered(st1, st2, c, moved.value)
    requires moved.Some? && moved.value in st ==> moved.value == x && !split
    requires moved.Some? && moved.value !in st && !split ==> x in st1 && st1[x].parent.None?
    ensures |Nested(st2, d)| <= limit
  {
    hide Linked, Ranked, Inside, Nested, AddCount, Watched, FewerLinks, Entered;
    if moved.None? {
      NestedFewer(st, st1, d);
      Subset(Nested(st1, d), Nested(st, d));
    } else if split || moved.value == x {
      DepotKeepsLimit(st, st1, st2, c, x, split, moved.value, d, limit);
    } else {
      DepotKeepsLimitAnew(st, st1, st2, c, x, moved.value, d, limit);
    }
  }

  /** A depot on a tile that does not watch is not entered at all. */
  lemma TileKept<T>(st: Store<T>, st1: Store<T>, st2: Store<T>, c: T, moved: Option<T>, d: T)
    requires Linked(st) && Ranked(st) && c in st && OnTile(st, d) && !Watched(st, c, d) && FewerLinks(st, st1)
    requires moved.None? ==> st2 == st1
    requires moved.Some? ==> Entered(st1, st2, c, moved.value)
    ensures |Nested(st2, d)| <= |Nested(st, d)|
  {
    hide Linked, Ranked, Inside, Nested, Watched, FewerLinks, Entered;
    OnTileWatches(st, c, d);
    if moved.None? {
      NestedFewer(st, st1, d);
    } else {
      NestedElsewhere(st, st1, st2, c, moved.value, d);
    }
    Subset(Nested(st2, d), Nested(st, d));
  }

  lemma AcceptsWatched(to: Item, index: int, item: Item, n: nat, outer: ReturnValue, world: set<Item>, d: Item)
    requires Linked(Snap(world)) && Ranked(Snap(world)) && item in world && to in world
    requires to.Accepts(index, item, n, false, outer, world) && Watched(Snap(world), to, d)
    ensures d in world && |Nested(Snap(world), d)| + AddCount(Snap(world), d, item, item.Splits(item, n)) <= d.depotLimit
  {
    hide Linked, Ranked, Inside, Nested, TopOf, AddCount;
  }

  /** The rules that a move has to meet keep it out of itself. */
  lemma AcceptsOutside(to: Item, index: int, item: Item, n: nat, noLimit: bool, outer: ReturnValue, world: set<Item>)
    requires Linked(Snap(world)) && Ranked(Snap(world)) && item in world && to in world
    requires to.Accepts(index, item, n, noLimit, outer, world)
    ensures item != to && !Inside(Snap(world), to, item)
  {
    hide Linked, Ranked, Inside, Nested, TopOf, Item.OwnRule;
  }

  /** Depots within their limits after a move into `to`: those that watch, and those on a tile as far as they were. */
  ghost predicate LimitsKept(st: Store<Item>, st2: Store<Item>, to: Item, item: Item)
    requires Linked(st) && Ranked(st) && to in st
    reads st.Keys
  {
    && (forall d :: d in st && Watched(st, to, d) ==> |Nested(st2, d)| <= d.depotLimit)
    && (forall d :: d in st && d != item && OnTile(st, d) ==> |Nested(st2, d)| <= Max(|Nested(st, d)|, d.depotLimit))
  }

  lemma DepotsAfter(st: Store<Item>, st1: Store<Item>, st2: Store<Item>, to: Item, item: Item, split: bool,
                    moved: Option<Item>, limits: bool)
    requires Linked(st) && Ranked(st) && to in st && item in st && item != to && !Inside(st, to, item)
    requires !st[item].kind.Carrier? && FewerLinks(st, st1)
    requires moved.None? ==> st2 == st1
    requires moved.Some? ==> Entered(st1, st2, to, moved.value)
    requires limits && moved.Some? && moved.value in st ==> moved.value == item && !split
    requires limits && moved.Some? && moved.value !in st && !split ==> item in st1 && st1[item].parent.None?
    requires limits ==> forall d :: d in st && Watched(st, to, d) ==> |Nested(st, d)| + AddCount(st, d, item, split) <= d.depotLimit
    ensures limits ==> LimitsKept(st, st2, to, item)
  {
    hide Linked, Ranked, Inside, Nested, AddCount, Watched, FewerLinks, Entered, OnTile, OthersStay;
    forall d | limits && d in st && Watched(st, to, d) ensures |Nested(st2, d)| <= d.depotLimit {
      LimitKept(st, st1, st2, to, item, split, moved, d, d.depotLimit);
    }
    forall d | limits && d in st && d != item && OnTile(st, d)
      ensures |Nested(st2, d)| <= Max(|Nested(st, d)|, d.depotLimit)
    {
      if !Watched(st, to, d) {
        TileKept(st, st1, st2, to, moved, d);
      }
    }
  }

  /** The query of a container or depot. */
  method Ask(to: Item, index: int, item: Item, n: nat, noLimit: bool, outer: ReturnValue, ghost world: set<Item>)
    returns (r: ReturnValue)
    requires Linked(Snap(world)) && Ranked(Snap(world)) && to in world && item in world && Holds(to.kind)
    requires !item.kind.Carrier?
    ensures r == NoError <==> to.Accepts(index, item, n, noLimit, outer, world)
  {
    hide Linked, Ranked, Item.OwnRule, Item.ContainerRule;
    r := to.QueryAdd(index, item, n, noLimit, false, outer, world);
  }

  /** The answer, and how much is to go. */
  ghost function Plan(to: Item, index: int, item: Item, n: nat, toItem: Item?, noLimit: bool, outer: ReturnValue,
                      world: set<Item>): (bool, nat)
    requires Linked(Snap(world)) && Ranked(Snap(world)) && item in world && to in world && item.parent in world
    reads world
  {
    var m := Taken(to, index, item, n, noLimit, outer, world);
    if item == toItem then (true, 0)
    else if !to.Accepts(index, item, n, noLimit, outer, world) then (false, 0)
    else if !Roomy(to, index, item, n, noLimit, outer, world) then (false, 0)
    else if !item.parent.Releases(item, m) then (true, 0)
    else (!item.typ.stackable || m == n, m)
  }

  lemma PlanIs(to: Item, index: int, item: Item, n: nat, toItem: Item?, noLimit: bool, outer: ReturnValue, world: set<Item>)
    requires Linked(Snap(world)) && Ranked(Snap(world)) && item in world && to in world && item.parent in world
    ensures var (ok, m) := Plan(to, index, item, n, toItem, noLimit, outer, world);
            && (m > 0 <==> Goes(to, index, item, n, toItem, noLimit, outer, world))
            && (m > 0 ==> m == Taken(to, index, item, n, noLimit, outer, world) && (ok <==> !item.typ.stackable || m == n))
            && (m == 0 ==> (ok <==> item == toItem || (to.Accepts(index, item, n, noLimit, outer, world)
                                                       && Roomy(to, index, item, n, noLimit, outer, world))))
  {
    hide Linked, Ranked, Taken, Roomy, Item.Accepts, Item.Releases;
    NothingIsRefused(item.parent, item);
  }

  lemma PlanAs(to: Item, index: int, item: Item, n: nat, toItem: Item?, noLimit: bool, outer: ReturnValue, world: set<Item>)
    requires Linked(Snap(world)) && Ranked(Snap(world)) && item in world && to in world && item.parent in world
    ensures var most := to.Most(index, item, n, noLimit, outer, world);
            var m := if !item.typ.stackable then most else if n < most then n else most;
            Plan(to, index, item, n, toItem, noLimit, outer, world) ==
            if item == toItem then (true, 0)
            else if !to.Accepts(index, item, n, noLimit, outer, world) then (false, 0)
            else if most == 0 && !to.Enough(item, n, noLimit, most) then (false, 0)
            else if !item.parent.Releases(item, m) then (true, 0)
            else (!item.typ.stackable || n <= most, m)
  {
    hide Linked, Ranked, Item.Most, Item.Enough, Item.Accepts, Item.Releases;
  }

  lemma NothingIsRefused(from: Item, item: Item)
    ensures !from.Releases(item, 0)
  {
  }

  /** What internalMoveItem asks before it moves anything: the answer, and how much is to go. */
  method MayMove(to: Item, index: int, item: Item, n: nat, toItem: Item?, noLimit: bool, outer: ReturnValue,
                 ghost world: set<Item>)
    returns (r: ReturnValue, m: nat)
    requires Linked(Snap(world)) && Ranked(Snap(world)) && to in world && item in world && Holds(to.kind)
    requires !item.kind.Carrier? && item.parent in world
    ensures (r == NoError, m) == Plan(to, index, item, n, toItem, noLimit, outer, world)
  {
    hide *;
    PlanAs(to, index, item, n, toItem, noLimit, outer, world);
    r, m := NoError, 0;
    if item != toItem {
      r := Ask(to, index, item, n, noLimit, outer, world);
      if r == NoError {
        var ok, most := to.QueryMaxCount(index, item, n, noLimit, outer, world);
        if !ok && most == 0 {
          r := ContainerNotEnoughRoom;
        } else {
          var much := if !item.typ.stackable then most else if n < most then n else most;
          var ready := item.parent.QueryRemove(item, much);
          if ready {
            r, m := if item.typ.stackable && most < n then ContainerNotEnoughRoom else NoError, much;
          }
        }
      }
    }
  }

  /**
   internalMoveItem, once the destination has been found.  It goes through exactly by the rules of the
   destination, the room that is left, and what the old place lets go.  Then the items of a stack are all
   accounted for, the store stays consistent, acyclic and correctly weighed, and no depot that watches ends up
   with more nested items than its limit, unless limits are waived.
   */
  method MoveItem(to: Item, index: int, item: Item, n: nat, toItem: Item?, noLimit: bool, outer: ReturnValue,
                  ghost world: set<Item>)
    returns (r: ReturnValue, m: nat, moved: Item?, ghost world': set<Item>)
    requires Good(Snap(world)) && to in world && item in world && Holds(to.kind) && !item.kind.Carrier?
    requires item.parent in world && (toItem != null ==> toItem in to.itemlist)
    modifies world`parent, world`itemlist, world`totalWeight, world`depth, world`count, world`typ
    ensures world <= world' && fresh(world' - world) && OnlyPlain(world' - world) && Good(Snap(world'))
    ensures (r == NoError, m) == old(Plan(to, index, item, n, toItem, noLimit, outer, world))
    ensures m > 0 <==> old(Goes(to, index, item, n, toItem, noLimit, outer, world))
    ensures m == 0 ==> world' == world && unchanged(world) && moved == null
    ensures m > 0 ==> Done(old(FactsOf(world)), FactsOf(world'), old(ListsOf(world)), ListsOf(world), Aim(to, index, toItem),
                           item, moved, m, old(Joining(toItem, item, m)), index < old(CapacityThen(to, item, m)))
    ensures OthersStay(old(Snap(world)), Snap(world'), item)
    ensures m > 0 && !noLimit && n <= 100 && old(to.Aimed(index, item, toItem)) ==>
      LimitsKept(old(Snap(world)), Snap(world'), to, item)
  {
    hide *;
    world', moved := world, null;
    ghost var st := Snap(world);
    GoodStore(st);
    SnapKeys(world);
    PlanIs(to, index, item, n, toItem, noLimit, outer, world);
    r, m := MayMove(to, index, item, n, toItem, noLimit, outer, world);
    if m == 0 {
      NothingMoved(st, item);
      NothingNew(world);
      return;
    }
    if toItem != null {
      ListedHere(to, toItem, world);
    }
    ghost var split, limits := item.typ.stackable && item.count != n, !noLimit && n <= 100 && to.Aimed(index, item, toItem);
    Checked(to, index, item, n, toItem, noLimit, outer, world, m);
    ghost var st1;
    if item.typ.stackable {
      moved, world', st1 := CarryStack(to, index, item, m, toItem, world);
    } else {
      st1 := CarryWhole(to, index, item, m, toItem, world);
      moved := item;
    }
    OneNew(world, world', item, moved);
    DepotsAfter(st, st1, Snap(world'), to, item, split, if moved == null then None else Some(moved), limits);
  }

  lemma NothingNew(world: set<Item>)
    ensures OnlyPlain(world - world) && world - world == {}
  {
  }

  lemma OneNew(world: set<Item>, world': set<Item>, item: Item, moved: Item?)
    requires item in world && world' == if moved == null || moved == item then world else world + {moved}
    requires moved != null && moved != item ==> moved.kind.Plain?
    ensures OnlyPlain(world' - world)
  {
  }

  /** What is known of a move that goes through. */
  lemma Checked(to: Item, index: int, item: Item, n: nat, toItem: Item?, noLimit: bool, outer: ReturnValue,
                world: set<Item>, m: nat)
    requires Linked(Snap(world)) && Ranked(Snap(world)) && to in world && item in world && item.parent in world
    requires Goes(to, index, item, n, toItem, noLimit, outer, world) && m == Taken(to, index, item, n, noLimit, outer, world)
    ensures item != to && !Inside(Snap(world), to, item) && item != toItem
    ensures !item.typ.stackable ==> Joining(toItem, item, m) == 0
    ensures item.typ.stackable ==> 0 < m <= item.count
    ensures !noLimit && n <= 100 && to.Aimed(index, item, toItem) && item.typ.stackable ==>
      m == n || Joining(toItem, item, m) == m
    ensures !noLimit ==> forall d :: d in Snap(world) && Watched(Snap(world), to, d) ==>
      |Nested(Snap(world), d)| + AddCount(Snap(world), d, item, item.typ.stackable && item.count != n) <= d.depotLimit
    ensures !Snap(world)[item].kind.Carrier? <==> !item.kind.Carrier?
  {
    hide Linked, Ranked, Inside, Nested, TopOf, Watched, AddCount, Taken, Roomy, Item.Accepts, Item.Aimed;
    AcceptsOutside(to, index, item, n, noLimit, outer, world);
    if !noLimit {
      forall d | d in Snap(world) && Watched(Snap(world), to, d)
        ensures |Nested(Snap(world), d)| + AddCount(Snap(world), d, item, item.typ.stackable && item.count != n) <= d.depotLimit
      {
        AcceptsWatched(to, index, item, n, outer, world, d);
      }
      if n <= 100 && to.Aimed(index, item, toItem) && item.typ.stackable {
        WholeOrJoined(to, index, item, n, toItem, outer, world);
      }
    }
  }

  lemma NothingMoved(st: Store<Item>, item: Item)
    ensures OthersStay(st, st, item)
  {
  }

  // ---------------------------------------------------------------- nothing is lost

  /** How many items of a type there are; what lies nowhere does not count. */
  ghost function Amount(f: map<Item, Facts>, id: nat): nat
  {
    SumOf(Tally(f, id))
  }

  ghost function Tally(f: map<Item, Facts>, id: nat): map<Item, nat>
  {
    map o | o in f :: Held(f[o], id)
  }

  function Held(f: Facts, id: nat): nat
  {
    if f.parent.Some? && f.typ.id == id then f.count else 0
  }

  ghost function SumOf(t: map<Item, nat>): nat
    decreases |t|
  {
    if t == map[] then 0
    else
      var o :| o in t;
      t[o] + SumOf(t - {o})
  }

  lemma {:induction false} SumPick(t: map<Item, nat>, k: Item)
    requires k in t
    ensures SumOf(t) == t[k] + SumOf(t - {k})
    decreases |t|
  {
    var o :| o in t && SumOf(t) == t[o] + SumOf(t - {o});
    if o != k {
      SumPick(t - {o}, k);
      SumPick(t - {k}, o);
      assert t - {o} - {k} == t - {k} - {o};
    }
  }

  lemma SumSet(t: map<Item, nat>, k: Item, v: nat)
    ensures SumOf(t[k := v]) == SumOf(t) + v - if k in t then t[k] else 0
  {
    SumPick(t[k := v], k);
    if k in t {
      SumPick(t, k);
      assert t[k := v] - {k} == t - {k};
    } else {
      assert t[k := v] - {k} == t;
    }
  }

  /** Items are what their type says, and whatever is stacked is counted. */
  ghost predicate ByType(f: map<Item, Facts>, types: map<nat, ItemType>)
  {
    && (forall o :: o in f ==> f[o].typ.id in types && types[f[o].typ.id] == f[o].typ)
    && (forall id :: id in types && types[id].stackable ==> types[id].subTypeIsCount)
  }

  lemma ByTypeMore(f: map<Item, Facts>, f2: map<Item, Facts>, types: map<nat, ItemType>, item: Item)
    requires ByType(f, types) && item in f
    requires forall o :: o in f2 ==> f2[o].typ == if o in f then f[o].typ else f[item].typ
    ensures ByType(f2, types)
  {
  }

  lemma JoiningIsCounted(f: map<Item, Facts>, types: map<nat, ItemType>, item: Item, toItem: Item?, m: nat)
    requires ByType(f, types) && item in f && f[item].typ == item.typ
    requires toItem != null ==> toItem in f && f[toItem].typ == toItem.typ
    ensures Joining(toItem, item, m) > 0 ==> toItem != null && toItem.typ == item.typ && toItem.typ.subTypeIsCount
  {
  }

  /** Whether what is left over of a move comes to lie in its destination. */
  lemma NothingLost(to: Item, index: int, item: Item, n: nat, toItem: Item?, outer: ReturnValue, world: set<Item>)
    requires Linked(Snap(world)) && Ranked(Snap(world)) && to in world && item in world && item.parent in world
    requires Goes(to, index, item, n, toItem, false, outer, world) && to.Aimed(index, item, toItem) && to.maxSize != 0
    ensures var m := Taken(to, index, item, n, false, outer, world);
            index < CapacityThen(to, item, m) || (item.typ.stackable && Joining(toItem, item, m) == m)
  {
    hide Linked, Ranked, Inside, Nested, TopOf, Item.Accepts, Item.SpareBefore;
  }

  /** What leaves one stack is in another one and in a new one. */
  lemma SumKept(t: map<Item, nat>, t': map<Item, nat>, item: Item, toItem: Item?, moved: Item?, joined: nat, rest: nat)
    requires item in t && item in t' && t'[item] == t[item] - joined - rest
    requires if toItem == null then joined == 0 else toItem in t && toItem in t' && toItem != item && t'[toItem] == t[toItem] + joined
    requires if moved == null then rest == 0 && t'.Keys == t.Keys
             else moved !in t && t'.Keys == t.Keys + {moved} && t'[moved] == rest
    requires forall o :: o in t && o != item && o != toItem ==> t'[o] == t[o]
    ensures SumOf(t') == SumOf(t)
  {
    hide SumOf;
    var t1 := t[item := t'[item]];
    SumSet(t, item, t'[item]);
    if toItem == null {
      SumGrown(t1, t', moved, rest);
    } else {
      SumSet(t1, toItem, t'[toItem]);
      SumGrown(t1[toItem := t'[toItem]], t', moved, rest);
    }
  }

  lemma SumGrown(t: map<Item, nat>, t': map<Item, nat>, moved: Item?, rest: nat)
    requires if moved == null then rest == 0 && t' == t
             else moved !in t && t'.Keys == t.Keys + {moved} && t'[moved] == rest && forall o :: o in t ==> t'[o] == t[o]
    ensures SumOf(t') == SumOf(t) + rest
  {
    hide SumOf;
    if moved != null {
      SumSet(t, moved, rest);
      assert t' == t[moved := rest];
    }
  }

  lemma AimedListed(to: Item, index: int, item: Item, toItem: Item?)
    ensures to.Aimed(index, item, toItem) ==> (toItem != null ==> toItem in to.itemlist)
  {
  }

  /** What a move does to counts and places leaves the amounts alone. */
  lemma AmountsKept(f: map<Item, Facts>, f2: map<Item, Facts>, item: Item, toItem: Item?, moved: Item?, joined: nat, rest: nat)
    requires item in f && item in f2 && toItem != item && f[item].parent.Some? && f2[item].typ == f[item].typ
    requires forall o :: o in f && o != item ==> o in f2 && f2[o].typ == f[o].typ && f2[o].parent == f[o].parent
    requires forall o :: o in f && o != item && o != toItem ==> f2[o].count == f[o].count
    requires toItem == null ==> joined == 0
    requires toItem != null ==> toItem in f && f[toItem].parent.Some? && f2[toItem].count == f[toItem].count + joined
    requires joined > 0 ==> f[toItem].typ.id == f[item].typ.id
    requires if moved == item then joined == rest == 0 && f2[item].parent.Some? && f2[item].count == f[item].count
             else Held(f2[item], f[item].typ.id) == f[item].count - joined - rest
    requires if moved == null || moved == item then rest == 0 && f2.Keys == f.Keys
             else moved !in f && f2.Keys == f.Keys + {moved} && f2[moved] == Facts(f[item].typ, f2[moved].parent, rest)
                  && f2[moved].parent.Some?
    ensures forall id :: Amount(f2, id) == Amount(f, id)
  {
    hide SumOf;
    forall id ensures Amount(f2, id) == Amount(f, id) {
      var new_ := if moved == item then null else moved;
      var one, two := if f[item].typ.id == id then joined else 0, if f[item].typ.id == id then rest else 0;
      var other := if toItem != null && f[toItem].typ.id != id then null else toItem;
      SumKept(Tally(f, id), Tally(f2, id), item, other, new_, one, two);
    }
  }

  /** Such a move keeps the types, and loses nothing if what does not join comes to lie in `to`. */
  lemma AmountsDone(f: map<Item, Facts>, f2: map<Item, Facts>, l: map<Item, seq<Item>>, l2: map<Item, seq<Item>>, a: Aim,
                    types: map<nat, ItemType>, item: Item, moved: Item?, m: nat, joined: nat, room: bool)
    requires Done(f, f2, l, l2, a, item, moved, m, joined, room) && ByType(f, types) && f[item].parent.Some? && joined <= m
    requires if a.toItem == null then joined == 0 else a.toItem != item && a.toItem in f && f[a.toItem].parent.Some?
    requires joined > 0 ==> f[a.toItem].typ == f[item].typ && f[item].typ.subTypeIsCount && f[item].typ.stackable
    ensures ByType(f2, types)
    ensures room || (f[item].typ.stackable && joined == m) ==> forall id :: Amount(f2, id) == Amount(f, id)
  {
    hide Amount, Listed;
    if room || (f[item].typ.stackable && joined == m) {
      AmountsKept(f, f2, item, a.toItem, moved, joined, if f[item].typ.stackable then m - joined else 0);
    }
  }

  /** New items are no containers. */
  ghost predicate OnlyPlain(items: set<Item>)
  {
    forall o :: o in items ==> o.kind.Plain?
  }

  lemma PlainOnes(items: set<Item>)
    ensures (forall o :: o in items ==> o.kind.Plain?) ==> OnlyPlain(items)
  {
  }

  /** A move to a destination that was found, with all items counted. */
  method MoveCounted(to: Item, index: int, item: Item, n: nat, toItem: Item?, noLimit: bool, outer: ReturnValue,
                     ghost world: set<Item>, ghost types: map<nat, ItemType>)
    returns (r: ReturnValue, m: nat, moved: Item?, ghost world': set<Item>)
    requires Good(Snap(world)) && to in world && item in world && Holds(to.kind) && !item.kind.Carrier?
    requires item.parent in world && to.Aimed(index, item, toItem) && ByType(FactsOf(world), types)
    modifies world`parent, world`itemlist, world`totalWeight, world`depth, world`count, world`typ
    ensures world <= world' && fresh(world' - world) && OnlyPlain(world' - world) && Good(Snap(world'))
    ensures (r == NoError, m) == old(Plan(to, index, item, n, toItem, noLimit, outer, world))
    ensures m == 0 ==> world' == world && unchanged(world) && moved == null
    ensures m > 0 ==> Done(old(FactsOf(world)), FactsOf(world'), old(ListsOf(world)), ListsOf(world), Aim(to, index, toItem),
                           item, moved, m, old(Joining(toItem, item, m)), index < old(CapacityThen(to, item, m)))
    ensures OthersStay(old(Snap(world)), Snap(world'), item) && ByType(FactsOf(world'), types)
    ensures m > 0 && !noLimit && n <= 100 ==> LimitsKept(old(Snap(world)), Snap(world'), to, item)
    ensures !noLimit && to.maxSize != 0 ==> forall id :: Amount(FactsOf(world'), id) == Amount(old(FactsOf(world)), id)
  {
    hide *;
    ghost var f, l := FactsOf(world), ListsOf(world);
    GoodStore(Snap(world));
    FactsInStore(world);
    AimedListed(to, index, item, toItem);
    if toItem != null {
      ListedHere(to, toItem, world);
    }
    ghost var much := Taken(to, index, item, n, noLimit, outer, world);
    ghost var joined, room := Joining(toItem, item, much), index < CapacityThen(to, item, much);
    JoiningIsCounted(f, types, item, toItem, much);
    PlanIs(to, index, item, n, toItem, noLimit, outer, world);
    if Goes(to, index, item, n, toItem, noLimit, outer, world) {
      Checked(to, index, item, n, toItem, noLimit, outer, world, much);
      if !noLimit && to.maxSize != 0 {
        NothingLost(to, index, item, n, toItem, outer, world);
      }
    }
    r, m, moved, world' := MoveItem(to, index, item, n, toItem, noLimit, outer, world);
    if m > 0 {
      AmountsDone(f, FactsOf(world'), l, ListsOf(world), Aim(to, index, toItem), types, item, moved, m, joined, room);
    }
  }

  /**
   internalMoveItem, for an item that lies somewhere: the questions are asked at the destination, and what goes is
   there afterwards.  Depots keep their limits, unless limits are waived, and where containers have a size no item
   is lost, of every type there are as many as before.
   */
  method MoveHeld(toCylinder: Item, index: int, item: Item, n: nat, noLimit: bool, ignoreAutoStack: bool,
                  outer: ReturnValue, ghost world: set<Item>, ghost types: map<nat, ItemType>)
    returns (r: ReturnValue, to: Item, m: nat, moved: Item?, ghost world': set<Item>)
    requires Good(Snap(world)) && toCylinder in world && item in world && Holds(toCylinder.kind) && !item.kind.Carrier?
    requires item.parent in world && ByType(FactsOf(world), types)
    modifies world`parent, world`itemlist, world`totalWeight, world`depth, world`count, world`typ
    ensures world <= world' && fresh(world' - world) && OnlyPlain(world' - world) && Good(Snap(world'))
    ensures to in world && Holds(to.kind) && to == old(Destination(toCylinder, index, item, ignoreAutoStack, world).to)
    ensures var a := old(Destination(toCylinder, index, item, ignoreAutoStack, world));
            var waived := noLimit && to == toCylinder;
            && (r == NoError, m) == old(Plan(a.to, a.index, item, n, a.toItem, waived, outer, world))
            && (m > 0 ==> Done(old(FactsOf(world)), FactsOf(world'), old(ListsOf(world)), ListsOf(world), a, item, moved, m,
                               old(Joining(a.toItem, item, m)), a.index < old(CapacityThen(a.to, item, m))))
    ensures m == 0 ==> world' == world && unchanged(world) && moved == null
    ensures OthersStay(old(Snap(world)), Snap(world'), item) && ByType(FactsOf(world'), types)
    ensures m > 0 && !noLimit && n <= 100 ==> LimitsKept(old(Snap(world)), Snap(world'), to, item)
    ensures !noLimit && to.maxSize != 0 ==> forall id :: Amount(FactsOf(world'), id) == Amount(old(FactsOf(world)), id)
  {
    hide *;
    GoodStore(Snap(world));
    var at, toItem, waived;
    to, at, toItem, waived := FindDestination(toCylinder, index, item, noLimit, ignoreAutoStack, world);
    assert Destination(toCylinder, index, item, ignoreAutoStack, world) == Aim(to, at, toItem);
    ghost var f, l, a := FactsOf(world), ListsOf(world), Destination(toCylinder, index, item, ignoreAutoStack, world);
    r, m, moved, world' := MoveCounted(to, at, item, n, toItem, waived, outer, world, types);
    assert m > 0 ==> Done(f, FactsOf(world'), l, ListsOf(world), a, item, moved, m,
                          old(Joining(a.toItem, item, m)), a.index < old(CapacityThen(a.to, item, m)));
  }

  // ---------------------------------------------------------------- depots on tiles

  /** A depot stays on its tile, and holds no more than its limit or than it did. */
  ghost predicate Within(st: Store<Item>, st2: Store<Item>, d: Item, limit: nat)
  {
    OnTile(st2, d) && |Nested(st2, d)| <= Max(|Nested(st, d)|, limit)
  }

  lemma WithinOnTile(st: Store<Item>, st2: Store<Item>, d: Item, limit: nat)
    ensures Within(st, st2, d, limit) ==> OnTile(st2, d) && |Nested(st2, d)| <= Max(|Nested(st, d)|, limit)
  {
  }

  lemma WithinSame(st: Store<Item>, st2: Store<Item>, d: Item, limit: nat)
    requires OnTile(st, d) && st.Keys == st2.Keys
    requires forall o :: o in st ==> st2[o].parent == st[o].parent && st2[o].kind == st[o].kind
    ensures Within(st, st2, d, limit)
  {
    NestedFewer(st, st2, d);
    Subset(Nested(st2, d), Nested(st, d));
  }

  lemma WithinFewer(st: Store<Item>, st2: Store<Item>, x: Item, d: Item, limit: nat)
    requires OnTile(st, d) && FewerLinks(st, st2) && OthersStay(st, st2, x) && x != d && (x in st ==> !st[x].kind.Carrier?)
    ensures Within(st, st2, d, limit)
  {
    StaysOnTile(st, st2, x, d);
    NestedFewer(st, st2, d);
    Subset(Nested(st2, d), Nested(st, d));
  }

  lemma WithinThen(st: Store<Item>, st1: Store<Item>, st2: Store<Item>, d: Item, limit: nat)
    ensures Within(st, st1, d, limit) && Within(st1, st2, d, limit) ==> Within(st, st2, d, limit)
  {
  }

  lemma WithinMove(st: Store<Item>, st2: Store<Item>, to: Item, item: Item, d: Item, m: nat)
    requires Linked(st) && Ranked(st) && to in st && OnTile(st, d) && d != item && item in st && !st[item].kind.Carrier?
    requires OthersStay(st, st2, item) && (if m == 0 then st2 == st else LimitsKept(st, st2, to, item))
    ensures Within(st, st2, d, d.depotLimit)
  {
    hide Linked, Ranked, Nested;
    StaysOnTile(st, st2, item, d);
    if m == 0 {
      WithinSame(st, st2, d, d.depotLimit);
    }
  }

  // ---------------------------------------------------------------- a full container

  lemma LooseIsGood(world: set<Item>)
    requires forall o :: o in world ==> o.parent == null && o.itemlist == [] && o.totalWeight == 0
    ensures Good(Snap(world))
  {
    var st := Snap(world);
    forall o | o in st ensures LinkedUp(st, o) && LinkedDown(st, o) && DeeperThanParent(st, o) && Balanced(st, o) {
      assert st[o].items == [] && st[o].parent == None && st[o].total == 0;
    }
  }

  lemma OutsideOfAll(o: Item, world: set<Item>)
    requires o in world && o.parent == null
    ensures forall x :: !Inside(Snap(world), o, x)
  {
    assert Snap(world)[o].parent == None;
    forall x ensures !Inside(Snap(world), o, x) {
      InsideByParent(Snap(world), o, x);
    }
  }

  /** One more item at the end of the list of a loose container. */
  method Fill(c: Item, item: Item, ghost world: set<Item>)
    requires Good(Snap(world)) && c in world && item in world && Holds(c.kind) && item.kind.Plain? && item.parent == null
    requires c.parent == null && item != c
    modifies c`itemlist, item`parent, world`depth, world`totalWeight
    ensures Good(Snap(world)) && c.itemlist == old(c.itemlist) + [item] && item.parent == c
  {
    OutsideOfAll(c, world);
    hide Linked, Ranked, AllBalanced, Inside, Good;
    ghost var st, list := Snap(world), c.itemlist;
    c.LoadItem(item, world);
    assert Snap(world)[c].items == list + [item] + [] && Snap(world)[item].parent == Some(c);
  }

  /** A bag for one stack that holds sixty coins, and a pouch with some more. */
  method OneSlot(coins: nat) returns (bag: Item, pouch: Item, stack: Item, more: Item, ghost world: set<Item>)
    ensures fresh(world) && world == {bag, pouch, stack, more} && Good(Snap(world))
    ensures bag.kind.Bag? && Holds(bag.kind) && bag.maxSize == 1 && bag.itemlist == [stack] && bag.parent == null && bag != more
    ensures stack.count == 60 && pouch.kind.Bag? && pouch.itemlist == [more] && more.parent == pouch && more.count == coins
    ensures stack != more && !more.kind.Carrier? && pouch != bag && stack.typ == more.typ == ItemType(1, 1, true, true, true, true)
  {
    var coin := ItemType(1, 1, true, true, true, true);
    bag := new Item(Bag, ItemType(2, 0, false, true, true, false), 1, 1);
    pouch := new Item(Bag, ItemType(2, 0, false, true, true, false), 1, 8);
    stack := new Item(Plain, coin, 60, 0);
    more := new Item(Plain, coin, coins, 0);
    world := {bag, pouch, stack, more};
    LooseIsGood(world);
    hide Good;
    Fill(bag, stack, world);
    Fill(pouch, more, world);
  }

  /** Thirty coins do not go to the stack of sixty, because the bag has no free slot. */
  method Crowded() returns (bag: Item, stack: Item, more: Item, r: ReturnValue)
    ensures fresh({bag, stack, more}) && bag.itemlist == [stack] && stack.StacksWith(more) && stack.count + more.count <= 100
    ensures r != NoError && stack.count == 60 && more.count == 30 && more.parent != null && more.parent != bag
  {
    var pouch;
    ghost var world;
    bag, pouch, stack, more, world := OneSlot(30);
    hide Linked, Ranked, AllBalanced, Inside, Good, Roomy, Taken, Item.Most, Item.Accepts, Item.OwnWeight;
    GoodStore(Snap(world));
    var to, at, toItem := bag.QueryDestination(ADD_WHEREVER, more, false, world);
    assert bag.LastStack(0, more);
    FoundStackNeedsSlot(bag, 0, more, 30, NoError, world);
    var m, moved;
    ghost var world';
    r, m, moved, world' := MoveItem(bag, at, more, 30, toItem, false, NoError, world);
  }

  lemma Spills(bag: Item, stack: Item, more: Item, world: set<Item>)
    requires Linked(Snap(world)) && Ranked(Snap(world)) && bag in world && more in world && more.parent in world && more != bag
    requires bag.kind.Bag? && bag.maxSize == 1 && bag.itemlist == [stack] && bag.parent == null && stack != more
    requires more.count == 80 && stack.count == 60 && stack.typ == more.typ == ItemType(1, 1, true, true, true, true)
    requires more.parent.kind.Bag? && more.parent != bag && more in more.parent.itemlist
    ensures Goes(bag, 1, more, 80, stack, true, NoError, world)
    ensures Taken(bag, 1, more, 80, true, NoError, world) == 80 && Joining(stack, more, 80) == 40
    ensures CapacityThen(bag, more, 80) == 1
  {
    OutsideOfAll(bag, world);
    assert TopOf(Snap(world), bag) == bag;
    hide Linked, Ranked, Inside, TopOf;
  }

  /** With limits waived eighty coins go, forty join the stack, and the other forty are nowhere. */
  method Spilled() returns (bag: Item, stack: Item, more: Item, moved: Item?)
    ensures fresh({bag, stack, more}) && stack.parent == bag && stack.count == 100 && more.parent == null
    ensures moved != null && moved.count == 40 && moved.parent == null
  {
    hide *;
    var pouch;
    ghost var world;
    bag, pouch, stack, more, world := OneSlot(80);
    GoodStore(Snap(world));
    Spills(bag, stack, more, world);
    var at, toItem := FindIn(bag, stack, more, world);
    ListedHere(bag, stack, world);
    FactsInStore(world);
    ghost var world', st := {}, Snap(world);
    assert st[stack].parent == Some(bag) by {
      OwnerIs(stack, bag);
    }
    var r, m;
    ghost var f, l := FactsOf(world), ListsOf(world);
    PlanIs(bag, 1, more, 80, stack, true, NoError, world);
    r, m, moved, world' := MoveItem(bag, at, more, 80, toItem, true, NoError, world);
    Split(f, world', l, ListsOf(world), bag, more, stack, moved);
  }

  lemma Split(f: map<Item, Facts>, world': set<Item>, l: map<Item, seq<Item>>, l2: map<Item, seq<Item>>, bag: Item, more: Item,
              stack: Item, moved: Item?)
    requires Done(f, FactsOf(world'), l, l2, Aim(bag, 1, stack), more, moved, 80, 40, false)
    requires more in f && f[more].count == 80 && f[more].typ.stackable && more != stack
    requires stack in f && f[stack].count == 60 && f[stack].typ.subTypeIsCount && f[stack].parent == Some(bag)
    ensures stack.parent == bag && stack.count == 100 && more.parent == null
    ensures moved != null && moved.count == 40 && moved.parent == null
  {
    hide Listed;
    FactsInStore(world');
    assert FactsOf(world')[stack].parent == stack.Owner();
  }

  lemma OwnerIs(x: Item, c: Item)
    ensures x.parent == c <==> x.Owner() == Some(c)
  {
  }

  /** The destination in a bag that holds one stack with room. */
  method FindIn(bag: Item, stack: Item, more: Item, ghost world: set<Item>) returns (at: int, toItem: Item?)
    requires Linked(Snap(world)) && bag in world && more in world && Holds(bag.kind) && bag.itemlist == [stack]
    requires stack.typ == more.typ && stack.count < 100 && more.typ.stackable && more.parent != bag
    ensures at == 1 && toItem == stack
  {
    hide Linked;
    var to;
    to, at, toItem := bag.QueryDestination(ADD_WHEREVER, more, false, world);
    FirstFound(bag, stack, more);
    assert bag.LastStack(0, more) && bag.LooksForStack(ADD_WHEREVER, more, false);
  }

  lemma FirstFound(bag: Item, stack: Item, more: Item)
    ensures bag.itemlist == [stack] && stack.StacksWith(more) ==>
      (bag.LastStack(0, more) && forall k: nat :: bag.LastStack(k, more) ==> k == 0)
  {
  }
}
