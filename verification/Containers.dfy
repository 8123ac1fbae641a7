/**
 Containers: adding, updating, replacing and removing items, with the cached weights pushed up the
 parent links, and the query that keeps a container out of itself.
 */
module Containers {
  import opened Basics
  import opened ItemStore
  import opened ItemWalk

  datatype ItemType = ItemType(id: nat, weight: int, stackable: bool, pickupable: bool, moveable: bool, subTypeIsCount: bool)

  datatype ReturnValue = NoError | CannotPickup | ThisIsImpossible | ContainerNotEnoughRoom | DepotIsFull | Refused

  /** Where something is headed: a container, an index there, and the item at which it is aimed. */
  datatype Aim = Aim(to: Item, index: int, toItem: Item?)

  const INDEX_WHEREEVER: int := -1
  const MOVE_UP: int := 254
  const ADD_WHEREVER: int := 255

  /** The links, weights and depths of a set of items. */
  ghost function Snap(world: set<Item>): Store<Item>
    reads world
  {
    map o | o in world :: o.Record()
  }

  /** A list without the first occurrence of an item. */
  ghost function Without(s: seq<Item>, x: Item): seq<Item>
  {
    if s == [] then [] else if s[0] == x then s[1..] else [s[0]] + Without(s[1..], x)
  }

  lemma {:induction false} WithoutAt(s: seq<Item>, at: nat)
    requires at < |s| && s[at] !in s[..at]
    ensures Without(s, s[at]) == s[..at] + s[at + 1..]
  {
    if at > 0 {
      assert s[0] in s[..at] && s[1..][..at - 1] == s[..at][1..];
      WithoutAt(s[1..], at - 1);
      assert [s[0]] + (s[1..][..at - 1] + s[1..][at..]) == s[..at] + s[at + 1..];
    }
  }

  class Item {
    const kind: Kind
    var typ: ItemType
    var count: nat
    var parent: Item?
    var itemlist: seq<Item>
    var totalWeight: int
    const maxSize: nat
    var depotLimit: nat
    ghost var depth: nat

    constructor (kind: Kind, typ: ItemType, count: nat, maxSize: nat)
      ensures this.kind == kind && this.typ == typ && this.count == count && this.maxSize == maxSize
      ensures parent == null && itemlist == [] && totalWeight == 0
    {
      this.kind, this.typ, this.count, this.maxSize := kind, typ, count, maxSize;
      parent, itemlist, totalWeight, depotLimit, depth := null, [], 0, 1000, 0;
    }

    ghost function Owner(): Option<Item>
      reads this`parent
    {
      if parent == null then None else var p: Item := parent; Some(p)
    }

    ghost function Record(): Rec<Item>
      reads this
    {
      Rec(kind, Owner(), itemlist, OwnWeight(), totalWeight, depth)
    }

    /** Item::getWeight: a stack weighs as much as its items, at least one. */
    function OwnWeight(): int
      reads this`typ, this`count
    {
      if typ.stackable then typ.weight * Max(1, count) else typ.weight
    }

    /** Container::getWeight; a plain item has nothing cached. */
    function GetWeight(): int
      reads this`typ, this`count, this`totalWeight
    {
      OwnWeight() + totalWeight
    }

    function GetParentContainer(): Item?
      reads this`parent
    {
      if parent != null && Holds(parent.kind) then parent else null
    }

    function Capacity(): int
      reads this`itemlist
    {
      if maxSize != 0 then maxSize else Min(255, |itemlist| + 1)
    }

    /** Without a size limit the answer is still yes: the code returns 255 where a bool is meant. */
    predicate Full()
      reads this`itemlist
    {
      if maxSize != 0 then |itemlist| >= maxSize else true
    }

    // -------------------------------------------------------------- weights

    /** Adds to the cached weight of this container and of every container around it. */
    method UpdateItemWeight(diff: int, ghost world: set<Item>)
      requires this in world && Linked(Snap(world)) && Ranked(Snap(world)) && BalancedBut(Snap(world), this, diff)
      modifies world`totalWeight
      ensures Good(Snap(world)) && SameButTotals(old(Snap(world)), Snap(world))
      decreases depth
    {
      hide Linked, Ranked, BalancedBut, AllBalanced;
      ghost var st := Snap(world);
      totalWeight := totalWeight + diff;
      assert Snap(world) == Bump(st, this, diff);
      BumpRepairs(st, this, diff);
      ParentIsAbove(st, this);
      var container := GetParentContainer();
      if container != null {
        container.UpdateItemWeight(diff, world);
      }
    }

    // -------------------------------------------------------------- adding and removing

    /** Whether `item` may be put here: it is on its own, and this is neither the item nor inside it. */
    ghost predicate CanTake(item: Item, world: set<Item>)
      reads world
    {
      && this in world && item in world && Holds(kind) && !item.kind.Carrier?
      && item.parent == null && item != this && !Inside(Snap(world), this, item)
    }

    lemma AttachIs(st: Store<Item>, st2: Store<Item>, c: Item, x: Item, a: seq<Item>, b: seq<Item>)
      requires c in st && st2.Keys == st.Keys
      requires forall o :: o in st ==>
        && st2[o].kind == st[o].kind && st2[o].own == st[o].own && st2[o].total == st[o].total
        && st2[o].parent == (if o == x then Some(c) else st[o].parent)
        && st2[o].items == (if o == c then a + [x] + b else st[o].items)
        && st2[o].depth == if o == x || Inside(st, o, x) then st[o].depth + st[c].depth + 1 else st[o].depth
      ensures st2 == Attach(st, c, x, a, b)
    {
      hide Inside;
    }

    /** Puts `item` between the first `at` items and the rest; the weights are not touched. */
    method Link(item: Item, at: nat, ghost world: set<Item>)
      requires Good(Snap(world)) && CanTake(item, world) && at <= |itemlist|
      modifies this`itemlist, item`parent, world`depth
      ensures Snap(world) == Attach(old(Snap(world)), this, item, old(itemlist[..at]), old(itemlist[at..]))
    {
      hide Good, Inside, Linked, Ranked, AllBalanced, OwnWeight, Attach;
      ghost var st := Snap(world);
      ghost var down := depth + 1;
      item.parent := this;
      itemlist := itemlist[..at] + [item] + itemlist[at..];
      forall o | o in world && (o == item || Inside(st, o, item)) {
        o.depth := o.depth + down;
      }
      AttachIs(st, Snap(world), this, item, old(itemlist[..at]), old(itemlist[at..]));
    }

    /** Puts `item` in and pushes its weight up: what every way of adding comes to. */
    method Insert(item: Item, at: nat, ghost world: set<Item>)
      requires Good(Snap(world)) && CanTake(item, world) && at <= |itemlist|
      modifies this`itemlist, item`parent, world`depth, world`totalWeight
      ensures Good(Snap(world))
      ensures SameButTotals(Attach(old(Snap(world)), this, item, old(itemlist[..at]), old(itemlist[at..])), Snap(world))
    {
      hide Linked, Ranked, BalancedBut, AllBalanced, Attach;
      assert itemlist == itemlist[..at] + itemlist[at..];
      AttachUnbalances(Snap(world), this, item, itemlist[..at], itemlist[at..]);
      Link(item, at, world);
      UpdateItemWeight(item.GetWeight(), world);
    }

    /** __addThing: to the front, unless the index is beyond the capacity. */
    method AddThing(index: int, item: Item, ghost world: set<Item>)
      requires Good(Snap(world)) && CanTake(item, world)
      modifies this`itemlist, item`parent, world`depth, world`totalWeight
      ensures Good(Snap(world))
      ensures index >= old(Capacity()) ==> Snap(world) == old(Snap(world))
      ensures index < old(Capacity()) ==>
        SameButTotals(Attach(old(Snap(world)), this, item, [], old(itemlist)), Snap(world))
    {
      hide Linked, Ranked, BalancedBut, AllBalanced, Attach;
      if index >= Capacity() { return; }
      assert itemlist[..0] == [] && itemlist[0..] == itemlist;
      Insert(item, 0, world);
    }

    /** __internalAddThing: to the front, with no look at the capacity. */
    method InternalAddThing(item: Item, ghost world: set<Item>)
      requires Good(Snap(world)) && CanTake(item, world)
      modifies this`itemlist, item`parent, world`depth, world`totalWeight
      ensures Good(Snap(world))
      ensures SameButTotals(Attach(old(Snap(world)), this, item, [], old(itemlist)), Snap(world))
    {
      hide Linked, Ranked, BalancedBut, AllBalanced, Attach;
      assert itemlist[..0] == [] && itemlist[0..] == itemlist;
      Insert(item, 0, world);
    }

    /** One turn of the loading loop: addItem at the back, then updateItemWeight. */
    method LoadItem(item: Item, ghost world: set<Item>)
      requires Good(Snap(world)) && CanTake(item, world)
      modifies this`itemlist, item`parent, world`depth, world`totalWeight
      ensures Good(Snap(world))
      ensures SameButTotals(Attach(old(Snap(world)), this, item, old(itemlist), []), Snap(world))
    {
      hide Linked, Ranked, BalancedBut, AllBalanced, Attach;
      assert itemlist[..|itemlist|] == itemlist && itemlist[|itemlist|..] == [];
      Insert(item, |itemlist|, world);
    }

    /** The index of an item in this container, or -1. */
    method GetIndexOfThing(item: Item) returns (index: int)
      ensures
        || (index == -1 && item !in itemlist)
        || (0 <= index < |itemlist| && itemlist[index] == item && item !in itemlist[..index])
    {
      index := 0;
      while index < |itemlist|
        invariant 0 <= index <= |itemlist| && item !in itemlist[..index]
      {
        if itemlist[index] == item { return; }
        index := index + 1;
      }
      index := -1;
    }

    /** The container around an item of this container is the one to tell about a change of weight. */
    method Reweighed(item: Item, oldWeight: int, ghost before: Store<Item>, ghost world: set<Item>)
      requires Good(before) && this in world && item in world && this in before && item in before
      requires item in before[this].items && Snap(world) == Reweigh(before, item, item.OwnWeight())
      requires oldWeight == before[item].own + before[item].total
      modifies world`totalWeight
      ensures Good(Snap(world)) && SameButTotals(old(Snap(world)), Snap(world))
    {
      hide Linked, Ranked, BalancedBut, AllBalanced, Good;
      ReweighUnbalances(before, this, item, item.OwnWeight());
      assert Snap(world)[item].total == before[item].total;
      var diffWeight := -oldWeight + item.GetWeight();
      UpdateItemWeight(diffWeight, world);
    }

    /** __updateThing: another type and sub type for an item of this container. */
    method UpdateThing(item: Item, newType: ItemType, newCount: nat, ghost world: set<Item>)
      requires Good(Snap(world)) && this in world && item in world
      modifies item`typ, item`count, world`totalWeight
      ensures Good(Snap(world))
      ensures item !in itemlist ==> Snap(world) == old(Snap(world)) && item.typ == old(item.typ) && item.count == old(item.count)
      ensures item in itemlist ==>
        && item.typ == newType && item.count == (if newType.subTypeIsCount then newCount else old(item.count))
        && SameButTotals(Reweigh(old(Snap(world)), item, item.OwnWeight()), Snap(world))
    {
      hide Linked, Ranked, BalancedBut, AllBalanced, Good, OwnWeight, Owner;
      var index := GetIndexOfThing(item);
      if index == -1 { return; }
      var oldWeight := item.GetWeight();
      ghost var before := Snap(world);
      item.typ := newType;
      if newType.subTypeIsCount {
        item.count := newCount;
      }
      assert Snap(world) == Reweigh(before, item, item.OwnWeight());
      Reweighed(item, oldWeight, before, world);
    }

    /** Takes the item at `at` out; the weights are not touched. */
    method Unlink(item: Item, at: nat, ghost world: set<Item>)
      requires Good(Snap(world)) && this in world && item in world && at < |itemlist| && itemlist[at] == item
      modifies this`itemlist, item`parent
      ensures item != this
      ensures Snap(world) == Detach(old(Snap(world)), this, item, old(itemlist[..at]), old(itemlist[at + 1..]))
    {
      hide Good;
      GoodItem(Snap(world), this, item);
      item.parent := null;
      itemlist := itemlist[..at] + itemlist[at + 1..];
    }

    /** Takes the item at `at` out and corrects the weights. */
    method Extract(item: Item, at: nat, ghost world: set<Item>)
      requires Good(Snap(world)) && this in world && item in world && at < |itemlist| && itemlist[at] == item
      requires Holds(kind)
      modifies this`itemlist, item`parent, world`totalWeight
      ensures Good(Snap(world)) && item != this
      ensures SameButTotals(Detach(old(Snap(world)), this, item, old(itemlist[..at]), old(itemlist[at + 1..])), Snap(world))
    {
      hide Linked, Ranked, BalancedBut, AllBalanced, Good;
      assert itemlist == itemlist[..at] + [item] + itemlist[at + 1..];
      DetachUnbalances(Snap(world), this, item, itemlist[..at], itemlist[at + 1..]);
      var weight := item.GetWeight();
      Unlink(item, at, world);
      UpdateItemWeight(-weight, world);
    }

    /**
     __removeThing: part of a stack, or the whole item.  The cached weights of this container and of
     those around it are corrected in either case.
     */
    method RemoveThing(item: Item, n: nat, ghost world: set<Item>)
      requires Good(Snap(world)) && this in world && item in world && Holds(kind)
      modifies this`itemlist, item`parent, item`count, world`totalWeight
      ensures Good(Snap(world))
      ensures item !in old(itemlist) ==> Snap(world) == old(Snap(world))
      ensures item in old(itemlist) && old(item.typ.stackable && n != item.count) ==>
        && item.count == Max(0, old(item.count) - n)
        && SameButTotals(Reweigh(old(Snap(world)), item, item.OwnWeight()), Snap(world))
      ensures item in old(itemlist) && old(!item.typ.stackable || n == item.count) ==>
        && item != this && item.count == old(item.count)
        && exists at: nat :: at < |old(itemlist)| && old(itemlist)[at] == item
             && SameButTotals(Detach(old(Snap(world)), this, item, old(itemlist)[..at], old(itemlist)[at + 1..]), Snap(world))
    {
      hide Linked, Ranked, BalancedBut, AllBalanced, Good, Detach;
      var index := GetIndexOfThing(item);
      if index == -1 { return; }
      if item.typ.stackable && n != item.count {
        var oldWeight := item.GetWeight();
        ghost var before := Snap(world);
        item.count := Max(0, item.count - n);
        assert Snap(world) == Reweigh(before, item, item.OwnWeight());
        Reweighed(item, oldWeight, before, world);
      } else {
        Extract(item, index, world);
      }
    }

    /**
     The old item out of its place, and the new one in there.  The difference of the weights is pushed up
     here in two parts, minus the old and plus the new.
     */
    method Exchange(index: nat, item: Item, ghost world: set<Item>) returns (ghost mid: Store<Item>)
      requires Good(Snap(world)) && CanTake(item, world) && index < |itemlist|
      modifies this`itemlist, item`parent, world`parent, world`depth, world`totalWeight
      ensures Good(Snap(world))
      ensures this in mid && old(itemlist)[index] != this && old(itemlist)[index] != item && old(itemlist)[index] in world
      ensures SameButTotals(Detach(old(Snap(world)), this, old(itemlist)[index], old(itemlist)[..index], old(itemlist)[index + 1..]), mid)
      ensures SameButTotals(Attach(mid, this, item, old(itemlist)[..index], old(itemlist)[index + 1..]), Snap(world))
    {
      hide Linked, Ranked, BalancedBut, AllBalanced, Good, Inside, Attach;
      ghost var st := Snap(world);
      ghost var a, b := itemlist[..index], itemlist[index + 1..];
      var before := itemlist[index];
      GoodItem(st, this, before);
      Extract(before, index, world);
      mid := Snap(world);
      DetachInside(st, mid, this, before, a, b, this, item);
      assert mid[this].items == a + b && mid[item].parent == None;
      assert itemlist[..index] == a && itemlist[index..] == b;
      Insert(item, index, world);
    }

    /** __replaceThing: the new item stands where the old one stood, and the old one is on its own. */
    method ReplaceThing(index: nat, item: Item, ghost world: set<Item>) returns (ghost mid: Store<Item>)
      requires Good(Snap(world)) && CanTake(item, world)
      modifies this`itemlist, item`parent, world`parent, world`depth, world`totalWeight
      ensures Good(Snap(world))
      ensures index >= |old(itemlist)| ==> Snap(world) == old(Snap(world))
      ensures index < |old(itemlist)| ==>
        && itemlist == old(itemlist)[index := item] && item.parent == this
        && old(itemlist)[index] != item && old(itemlist)[index] in world && old(itemlist)[index].parent == null
      ensures index < |old(itemlist)| ==> this in mid && old(itemlist)[index] != this
      ensures index < |old(itemlist)| ==>
        SameButTotals(Detach(old(Snap(world)), this, old(itemlist)[index], old(itemlist)[..index], old(itemlist)[index + 1..]), mid)
      ensures index < |old(itemlist)| ==>
        SameButTotals(Attach(mid, this, item, old(itemlist)[..index], old(itemlist)[index + 1..]), Snap(world))
    {
      hide Linked, Ranked, BalancedBut, AllBalanced, Good, Inside, Attach, Detach, SameButTotals, OwnWeight;
      mid := Snap(world);
      if index >= |itemlist| { return; }
      ghost var st := Snap(world);
      ghost var a, b := itemlist[..index], itemlist[index + 1..];
      var before := itemlist[index];
      assert itemlist == a + [before] + b;
      mid := Exchange(index, item, world);
      Replaced(st, mid, Snap(world), before, item, a, b);
    }

    /** Replacing leaves the list as it was but for the one place, and the old item on its own. */
    lemma Replaced(st: Store<Item>, mid: Store<Item>, st': Store<Item>, before: Item, item: Item, a: seq<Item>, b: seq<Item>)
      requires this in st && before in st && before != this && item in st && item != this && item != before
      requires st[this].items == a + [before] + b
      requires SameButTotals(Detach(st, this, before, a, b), mid) && SameButTotals(Attach(mid, this, item, a, b), st')
      ensures this in st' && st'[this].items == st[this].items[|a| := item]
      ensures before in st' && st'[before].parent == None && item in st' && st'[item].parent == Some(this)
    {
      assert (a + [before] + b)[|a| := item] == a + [item] + b;
    }

    // -------------------------------------------------------------- what is inside

    /** All nested items in the order of the iterator: level by level, each item once. */
    method AllItems(ghost world: set<Item>) returns (out: seq<Item>)
      requires Linked(Snap(world)) && Ranked(Snap(world)) && this in world && Holds(kind)
      ensures (set o | o in out) == Nested(Snap(world), this) && NoDuplicates(out)
      ensures forall x :: x in out ==> x in Snap(world)
      ensures LevelOrder(Snap(world), this, out)
    {
      hide Linked, Ranked, Walking, LevelOrder, Inside;
      out := [];
      var it := new ContainerIterator(this, world);
      while !it.AtEnd()
        invariant fresh(it) && it.Valid(world) && it.base == this && out == it.out
        decreases |Nested(Snap(world), this)| - |it.out|
      {
        var item := it.Current(world);
        out := out + [item];
        it.Next(world);
      }
      it.Finished(world);
    }

    /** The number of items nested in this container, at any depth. */
    method GetItemHoldingCount(ghost world: set<Item>) returns (counter: nat)
      requires Linked(Snap(world)) && Ranked(Snap(world)) && this in world && Holds(kind)
      ensures counter == |Nested(Snap(world), this)|
    {
      hide Linked, Ranked, Walking, LevelOrder, Inside;
      counter := 0;
      var it := new ContainerIterator(this, world);
      while !it.AtEnd()
        invariant fresh(it) && it.Valid(world) && it.base == this && counter == |it.out|
        decreases |Nested(Snap(world), this)| - |it.out|
      {
        var item := it.Current(world);
        counter := counter + 1;
        it.Next(world);
      }
      it.Finished(world);
    }

    /** Whether an item is nested in this container, at any depth. */
    method IsHoldingItem(item: Item, ghost world: set<Item>) returns (found: bool)
      requires Linked(Snap(world)) && Ranked(Snap(world)) && this in world && Holds(kind)
      ensures found <==> item in Nested(Snap(world), this)
    {
      hide Linked, Ranked, Walking, LevelOrder, Inside;
      var it := new ContainerIterator(this, world);
      while !it.AtEnd()
        invariant fresh(it) && it.Valid(world) && it.base == this && item !in it.out
        decreases |Nested(Snap(world), this)| - |it.out|
      {
        var current := it.Current(world);
        if current == item { return true; }
        it.Next(world);
      }
      it.Finished(world);
      assert item !in (set o | o in it.out);
      return false;
    }

    // -------------------------------------------------------------- queries

    /** getTopParent: climbs while the parent has a parent. */
    method GetTopParent(ghost world: set<Item>) returns (top: Item?)
      requires Linked(Snap(world)) && Ranked(Snap(world)) && this in world
      ensures TopParent(Snap(world), this) == (if top == null then None else var t: Item := top; Some(t))
      ensures top != null ==> top in world
    {
      hide Linked, Ranked, Inside;
      ParentIsAbove(Snap(world), this);
      if parent == null { return if kind.Plain? then null else this; }
      var aux: Item := parent;
      var prev: Item? := if kind.Plain? then null else this;
      ParentIsAbove(Snap(world), aux);
      while aux.parent != null
        invariant aux in world && (prev != null ==> prev in world && prev.parent == aux)
        invariant aux.parent != null ==> aux.parent in world && aux.parent.depth < aux.depth
        invariant TopParent(Snap(world), this) == Some(TopOf(Snap(world), if prev == null then aux else prev))
        decreases aux.depth
      {
        prev := aux;
        aux := aux.parent;
        ParentIsAbove(Snap(world), aux);
      }
      return if prev != null then prev else aux;
    }

    /** Whether `item` is this container or one of the cylinders around it. */
    method IsAround(item: Item, ghost world: set<Item>) returns (around: bool)
      requires Linked(Snap(world)) && Ranked(Snap(world)) && this in world
      ensures around <==> Inside(Snap(world), this, item)
    {
      hide Linked, Ranked, Inside;
      var cylinder: Item? := parent;
      InsideByParent(Snap(world), this, item);
      ParentIsAbove(Snap(world), this);
      while cylinder != null
        invariant cylinder != null ==> cylinder in world
        invariant Inside(Snap(world), this, item) <==>
          cylinder != null && (cylinder == item || Inside(Snap(world), cylinder, item))
        decreases cylinder != null, if cylinder != null then cylinder.depth else 0
      {
        if cylinder == item { return true; }
        InsideByParent(Snap(world), cylinder, item);
        ParentIsAbove(Snap(world), cylinder);
        cylinder := cylinder.parent;
      }
      return false;
    }

    /** Only part of a stack is meant. */
    predicate Splits(item: Item, n: nat)
      reads item`typ, item`count
    {
      item.typ.stackable && item.count != n
    }

    ghost predicate HasRoom(item: Item, n: nat, world: set<Item>)
      requires Linked(Snap(world)) && Ranked(Snap(world)) && item in world && this in world
      reads world
    {
      |Nested(Snap(world), this)| + AddCount(Snap(world), this, item, Splits(item, n)) <= depotLimit
    }

    /** What this cylinder asks for on its own account; for a carrier somebody else answers. */
    ghost predicate OwnRule(item: Item, n: nat, noLimit: bool, outer: ReturnValue, world: set<Item>)
      requires Linked(Snap(world)) && Ranked(Snap(world)) && item in world && this in world
      reads world
    {
      match kind
      case Carrier => outer == NoError
      case DepotBox => noLimit || HasRoom(item, n, world)
      case _ => true
    }

    /** The rule of a container: no way into itself, a free slot, and the top parent does not mind. */
    ghost predicate ContainerRule(index: int, item: Item, n: nat, noLimit: bool, outer: ReturnValue, world: set<Item>)
      requires Linked(Snap(world)) && Ranked(Snap(world)) && item in world && this in world
      reads world
    {
      && item.typ.pickupable && item != this && !Inside(Snap(world), this, item)
      && !(index == INDEX_WHEREEVER && !noLimit && Full())
      && var top := TopOf(Snap(world), this);
         top == this || top.OwnRule(item, n, noLimit, outer, world)
    }

    /** Container::__queryAdd. */
    method ContainerQueryAdd(index: int, item: Item, n: nat, noLimit: bool, childIsOwner: bool, outer: ReturnValue,
                             ghost world: set<Item>)
      returns (r: ReturnValue)
      requires Linked(Snap(world)) && Ranked(Snap(world)) && this in world && item in world && Holds(kind)
      requires !item.kind.Carrier?
      ensures r == NoError <==> childIsOwner || ContainerRule(index, item, n, noLimit, outer, world)
      decreases if childIsOwner then 0 else 1, 0
    {
      hide Linked, Ranked, Inside, Nested;
      if childIsOwner { return NoError; }
      if !item.typ.pickupable { return CannotPickup; }
      if item == this { return ThisIsImpossible; }
      if Holds(item.kind) {
        var around := IsAround(item, world);
        if around { return ThisIsImpossible; }
      } else {
        PlainHoldsNothing(Snap(world), this, item);
      }
      if index == INDEX_WHEREEVER && !noLimit && Full() { return ContainerNotEnoughRoom; }
      var topParent := GetTopParent(world);
      if topParent != this {
        r := topParent.QueryAdd(INDEX_WHEREEVER, item, n, noLimit, true, outer, world);
        return;
      }
      return NoError;
    }

    /** Depot::__queryAdd. */
    method DepotQueryAdd(index: int, item: Item, n: nat, noLimit: bool, childIsOwner: bool, outer: ReturnValue,
                         ghost world: set<Item>)
      returns (r: ReturnValue)
      requires Linked(Snap(world)) && Ranked(Snap(world)) && this in world && item in world && kind.DepotBox?
      requires !item.kind.Carrier?
      ensures r == NoError <==> OwnRule(item, n, noLimit, outer, world)
                                && (childIsOwner || ContainerRule(index, item, n, noLimit, outer, world))
      decreases if childIsOwner then 0 else 1, 1
    {
      hide Linked, Ranked, Inside, Nested, ContainerRule, TopParent, OwnWeight, Owner;
      if noLimit {
        r := ContainerQueryAdd(index, item, n, noLimit, childIsOwner, outer, world);
        return;
      }
      var addCount := 0;
      if item.typ.stackable && item.count != n {
        addCount := 1;
      }
      var top := item.GetTopParent(world);
      if top != this {
        if Holds(item.kind) {
          var nested := item.GetItemHoldingCount(world);
          addCount := nested + 1;
        } else {
          addCount := 1;
        }
      }
      var holding := GetItemHoldingCount(world);
      if holding + addCount > depotLimit { return DepotIsFull; }
      r := ContainerQueryAdd(index, item, n, noLimit, childIsOwner, outer, world);
    }

    /** __queryAdd of whatever this cylinder is; `outer` is the answer of cylinders that are no containers. */
    method QueryAdd(index: int, item: Item, n: nat, noLimit: bool, childIsOwner: bool, outer: ReturnValue,
                    ghost world: set<Item>)
      returns (r: ReturnValue)
      requires Linked(Snap(world)) && Ranked(Snap(world)) && this in world && item in world && !kind.Plain?
      requires !item.kind.Carrier?
      ensures Holds(kind) ==>
        (r == NoError <==> OwnRule(item, n, noLimit, outer, world)
                           && (childIsOwner || ContainerRule(index, item, n, noLimit, outer, world)))
      ensures kind.Carrier? ==> r == outer
      decreases if childIsOwner then 0 else 1, 2
    {
      match kind
      case Bag => r := ContainerQueryAdd(index, item, n, noLimit, childIsOwner, outer, world);
      case DepotBox => r := DepotQueryAdd(index, item, n, noLimit, childIsOwner, outer, world);
      case Carrier => r := outer;
    }

    // -------------------------------------------------------------- how much, and where

    /** __queryAdd of a container or depot says yes. */
    ghost predicate Accepts(index: int, item: Item, n: nat, noLimit: bool, outer: ReturnValue, world: set<Item>)
      requires Linked(Snap(world)) && Ranked(Snap(world)) && item in world && this in world
      reads world
    {
      OwnRule(item, n, noLimit, outer, world) && ContainerRule(index, item, n, noLimit, outer, world)
    }

    /** A stack of the same kind of item that is not full. */
    predicate StacksWith(item: Item)
      reads this`typ, this`count, item`typ
    {
      typ.id == item.typ.id && count < 100
    }

    /** What the stack at an index has left, if the query lets that much in. */
    ghost function Spare(k: int, item: Item, noLimit: bool, outer: ReturnValue, world: set<Item>): nat
      requires Linked(Snap(world)) && Ranked(Snap(world)) && item in world && this in world
      reads world
    {
      if 0 <= k < |itemlist| && itemlist[k] in world && itemlist[k].StacksWith(item)
         && Accepts(k, item, 100 - itemlist[k].count, noLimit, outer, world)
      then 100 - itemlist[k].count else 0
    }

    /** What the first stacks have left for others than themselves. */
    ghost function SpareBefore(k: nat, item: Item, noLimit: bool, outer: ReturnValue, world: set<Item>): nat
      requires Linked(Snap(world)) && Ranked(Snap(world)) && item in world && this in world && k <= |itemlist|
      reads world
    {
      if k == 0 then 0
      else SpareBefore(k - 1, item, noLimit, outer, world)
           + if itemlist[k - 1] != item then Spare(k - 1, item, noLimit, outer, world) else 0
    }

    function FreeSlots(): nat
      reads this`itemlist
    {
      Max(Capacity() - |itemlist|, 0)
    }

    /** How much of an item a container takes: stacks of a hundred in free slots, and what other stacks have left. */
    ghost function Most(index: int, item: Item, n: nat, noLimit: bool, outer: ReturnValue, world: set<Item>): nat
      requires Linked(Snap(world)) && Ranked(Snap(world)) && item in world && this in world
      reads world
    {
      if noLimit then Max(1, n)
      else if !item.typ.stackable then FreeSlots()
      else FreeSlots() * 100 + if index == INDEX_WHEREEVER then SpareBefore(|itemlist|, item, noLimit, outer, world)
                               else Spare(index, item, noLimit, outer, world)
    }

    /** Whether that is enough. */
    predicate Enough(item: Item, n: nat, noLimit: bool, most: nat)
      reads item`typ
    {
      noLimit || if item.typ.stackable then most >= n else most > 0
    }

    lemma NeighboursKnown(world: set<Item>)
      requires Linked(Snap(world)) && this in world
      ensures (parent != null ==> parent in world) && forall x :: x in itemlist ==> x in world && x.parent == this
    {
      assert LinkedUp(Snap(world), this) && LinkedDown(Snap(world), this);
      forall x | x in itemlist ensures x in world && x.parent == this {
        assert x in Snap(world) && Snap(world)[x].parent == x.Owner();
      }
    }

    /** What one place adds to the answer of __queryMaxCount. */
    method SpareAt(k: nat, item: Item, noLimit: bool, outer: ReturnValue, ghost world: set<Item>) returns (spare: nat)
      requires Linked(Snap(world)) && Ranked(Snap(world)) && this in world && item in world && Holds(kind)
      requires !item.kind.Carrier? && k < |itemlist|
      ensures spare == Spare(k, item, noLimit, outer, world)
    {
      hide Linked, Ranked, Inside, Nested, OwnRule, ContainerRule;
      NeighboursKnown(world);
      var other := itemlist[k];
      if !other.StacksWith(item) { return 0; }
      var r := QueryAdd(k, item, 100 - other.count, noLimit, false, outer, world);
      return if r == NoError then 100 - other.count else 0;
    }

    /** The loop of __queryMaxCount over all places. */
    method SpareAnywhere(item: Item, noLimit: bool, outer: ReturnValue, ghost world: set<Item>) returns (more: nat)
      requires Linked(Snap(world)) && Ranked(Snap(world)) && this in world && item in world && Holds(kind)
      requires !item.kind.Carrier?
      ensures more == SpareBefore(|itemlist|, item, noLimit, outer, world)
    {
      hide Linked, Ranked, Inside, Nested, Spare, OwnWeight, Owner;
      more := 0;
      var k := 0;
      while k < |itemlist|
        invariant k <= |itemlist| && more == SpareBefore(k, item, noLimit, outer, world)
      {
        if itemlist[k] != item {
          var spare := SpareAt(k, item, noLimit, outer, world);
          more := more + spare;
        }
        k := k + 1;
      }
    }

    /** Container::__queryMaxCount. */
    method QueryMaxCount(index: int, item: Item, n: nat, noLimit: bool, outer: ReturnValue, ghost world: set<Item>)
      returns (ok: bool, most: nat)
      requires Linked(Snap(world)) && Ranked(Snap(world)) && this in world && item in world && Holds(kind)
      requires !item.kind.Carrier?
      ensures most == Most(index, item, n, noLimit, outer, world) && ok == Enough(item, n, noLimit, most)
    {
      hide Linked, Ranked, Inside, Nested, Spare, SpareBefore, OwnWeight, Owner;
      if noLimit { return true, Max(1, n); }
      var freeSlots := Max(Capacity() - |itemlist|, 0);
      if !item.typ.stackable { return freeSlots > 0, freeSlots; }
      var more := 0;
      if index == INDEX_WHEREEVER {
        more := SpareAnywhere(item, noLimit, outer, world);
      } else if 0 <= index < |itemlist| {
        more := SpareAt(index, item, noLimit, outer, world);
      } else {
        NoSpare(index, item, noLimit, outer, world);
      }
      most := freeSlots * 100 + more;
      ok := most >= n;
    }

    lemma NoSpare(index: int, item: Item, noLimit: bool, outer: ReturnValue, world: set<Item>)
      requires Linked(Snap(world)) && Ranked(Snap(world)) && this in world && item in world && !(0 <= index < |itemlist|)
      ensures Spare(index, item, noLimit, outer, world) == 0
    {
    }

    /** Whether this cylinder, which holds the item, lets go of so much. */
    predicate Releases(item: Item, m: nat)
      reads this, item
    {
      (Holds(kind) ==> item in itemlist) && m != 0 && (item.typ.stackable ==> m <= item.count) && item.typ.moveable
    }

    /** __queryRemove, which is the same for containers, tiles and players. */
    method QueryRemove(item: Item, m: nat) returns (ok: bool)
      ensures ok == Releases(item, m)
    {
      if Holds(kind) {
        var index := GetIndexOfThing(item);
        if index == -1 { return false; }
      }
      if m == 0 || (item.typ.stackable && m > item.count) { return false; }
      return item.typ.moveable;
    }

    /** The item that a move is aimed at is in the list, and a stack at the index that has room is the one aimed at. */
    ghost predicate Aimed(index: int, item: Item, toItem: Item?)
      reads this, itemlist, item
    {
      && (toItem != null ==> toItem in itemlist) && (index <= |itemlist| || index < Capacity())
      && (0 <= index < |itemlist| && itemlist[index].StacksWith(item) ==> toItem == itemlist[index])
    }

    /** Stacks look for a stack to join when they come from elsewhere. */
    predicate LooksForStack(index: int, item: Item, ignoreAutoStack: bool)
      reads item`typ, item`parent
    {
      index != MOVE_UP && !ignoreAutoStack && item.typ.stackable && item.parent != this
    }

    /** The last stack with room. */
    predicate LastStack(k: nat, item: Item)
      reads this, itemlist, item
    {
      k < |itemlist| && itemlist[k].StacksWith(item) && forall j :: k < j < |itemlist| ==> !itemlist[j].StacksWith(item)
    }

    /** The last stack with room, searched from the back. */
    method FindStack(item: Item) returns (n: nat)
      ensures
        || (n == 0 && forall j :: 0 <= j < |itemlist| ==> !itemlist[j].StacksWith(item))
        || (0 < n <= |itemlist| && LastStack(n - 1, item))
    {
      n := |itemlist|;
      while n > 0
        invariant n <= |itemlist| && forall j :: n <= j < |itemlist| ==> !itemlist[j].StacksWith(item)
      {
        if itemlist[n - 1].StacksWith(item) { return; }
        n := n - 1;
      }
    }

    /** Where a query leads. */
    ghost function Headed(index: int, item: Item, ignoreAutoStack: bool): Aim
      reads this, itemlist, item
    {
      if index == MOVE_UP then Aim(if parent != null && Holds(parent.kind) then parent else this, INDEX_WHEREEVER, null)
      else if LooksForStack(index, item, ignoreAutoStack) && exists k: nat :: LastStack(k, item) then
        var k: nat :| LastStack(k, item);
        Aim(this, k + 1, itemlist[k])
      else
        var at := if index == ADD_WHEREVER || index >= Capacity() then INDEX_WHEREEVER else index;
        if !(0 <= at < |itemlist|) then Aim(this, at, null)
        else if Holds(itemlist[at].kind) then Aim(itemlist[at], INDEX_WHEREEVER, null)
        else Aim(this, at, itemlist[at])
    }

    /**
     Container::__queryDestination.  A stack that is found is aimed at with the index behind it; the container
     above, or one at the index, is entered at any index.
     */
    method QueryDestination(index: int, item: Item, ignoreAutoStack: bool, ghost world: set<Item>)
      returns (to: Item, index': int, toItem: Item?)
      requires Linked(Snap(world)) && this in world && item in world && Holds(kind)
      ensures Aim(to, index', toItem) == Headed(index, item, ignoreAutoStack)
      ensures to in world && Holds(to.kind) && to.Aimed(index', item, toItem)
      ensures index' < to.Capacity() || (item.typ.stackable && toItem != null && toItem.StacksWith(item))
      ensures index == MOVE_UP ==>
        (index', toItem, to) == (INDEX_WHEREEVER, null, if parent != null && Holds(parent.kind) then parent else this)
      ensures index != MOVE_UP ==> to == this || (to in itemlist && index' == INDEX_WHEREEVER && toItem == null)
      ensures !(LooksForStack(index, item, ignoreAutoStack) && exists k: nat :: LastStack(k, item))
        || (to == this && index' > 0 && LastStack(index' - 1, item) && toItem == itemlist[index' - 1])
      ensures index != MOVE_UP && !(LooksForStack(index, item, ignoreAutoStack) && exists k: nat :: LastStack(k, item)) ==>
        var at := if index == ADD_WHEREVER || index >= Capacity() then INDEX_WHEREEVER else index;
        if 0 <= at < |itemlist| && Holds(itemlist[at].kind) then to == itemlist[at]
        else (to, index', toItem) == (this, at, if 0 <= at < |itemlist| then itemlist[at] else null)
    {
      hide Linked;
      NeighboursKnown(world);
      index', toItem := index, null;
      if index == MOVE_UP {
        index' := INDEX_WHEREEVER;
        if parent != null && Holds(parent.kind) { return parent, index', toItem; }
        return this, index', toItem;
      }
      if index == ADD_WHEREVER || index >= Capacity() {
        index' := INDEX_WHEREEVER;
      }
      if !ignoreAutoStack && item.typ.stackable && item.parent != this {
        var n := FindStack(item);
        if n > 0 {
          assert LastStack(n - 1, item);
          return this, n, itemlist[n - 1];
        }
      }
      to := this;
      if 0 <= index' < |itemlist| {
        toItem := itemlist[index'];
        if Holds(toItem.kind) {
          to, index', toItem := toItem, INDEX_WHEREEVER, null;
        }
      }
    }

    /** For a stack that was found, only free slots count: what it has left itself is not seen. */
    lemma FoundStackHasNoSpare(k: nat, item: Item, n: nat, outer: ReturnValue, world: set<Item>)
      requires Linked(Snap(world)) && Ranked(Snap(world)) && this in world && item in world
      requires item.typ.stackable && LastStack(k, item)
      ensures Most(k + 1, item, n, false, outer, world) == FreeSlots() * 100
    {
    }

    // -------------------------------------------------------------- taking out

    /** Takes this item out of its container, or off its tile. */
    method TakeOut(ghost world: set<Item>)
      requires Good(Snap(world)) && this in world && !kind.Carrier?
      modifies this`parent, world`itemlist, world`totalWeight
      ensures Good(Snap(world)) && parent == null
      ensures forall o :: o in world && o != this ==> o.parent == old(o.parent)
      ensures forall o :: o in world ==>
        o.itemlist == if o == old(parent) && Holds(o.kind) then Without(old(o.itemlist), this) else old(o.itemlist)
      ensures forall o :: o in world ==> |o.itemlist| == |old(o.itemlist)| - if o == old(parent) && Holds(o.kind) then 1 else 0
    {
      hide Linked, Ranked, Good, Inside;
      ghost var st := Snap(world);
      if parent == null { return; }
      GoodParent(st, this);
      if Holds(parent.kind) {
        var container: Item := parent;
        var index := container.GetIndexOfThing(this);
        WithoutAt(container.itemlist, index);
        container.Extract(this, index, world);
        assert forall o :: o in world ==> Snap(world)[o].parent == o.Owner() && Snap(world)[o].items == o.itemlist;
      } else {
        parent := null;
        LooseChange(st, this, st[this].(parent := None));
        assert Snap(world) == st[this := st[this].(parent := None)];
      }
    }

    /** Takes `n` items off this stack, wherever it lies. */
    method Lessen(n: nat, ghost world: set<Item>)
      requires Good(Snap(world)) && this in world && typ.stackable && n != count
      modifies this`count, this`parent, world`itemlist, world`totalWeight
      ensures count == Max(0, old(count) - n) && Good(Snap(world))
      ensures forall o :: o in world ==> o.parent == old(o.parent) && o.itemlist == old(o.itemlist)
    {
      hide Linked, Ranked, Good, Inside;
      ghost var st := Snap(world);
      if parent != null {
        GoodParent(st, this);
      }
      if parent != null && Holds(parent.kind) {
        parent.RemoveThing(this, n, world);
        assert forall o :: o in world ==> Snap(world)[o].parent == o.Owner() && Snap(world)[o].items == o.itemlist;
      } else {
        count := Max(0, count - n);
        LooseChange(st, this, st[this].(own := OwnWeight()));
        assert Snap(world) == st[this := st[this].(own := OwnWeight())];
      }
    }
  }

  /** The iterator: a queue of containers and a place in the first of them. */
  class ContainerIterator {
    const base: Item
    var over: seq<Item>
    var current: nat
    ghost var out: seq<Item>
    ghost var done: seq<Item>

    ghost predicate Valid(world: set<Item>)
      reads this, world
    {
      && Linked(Snap(world)) && Ranked(Snap(world))
      && Walking(Snap(world), base, out, done, over, current)
    }

    /** begin() */
    constructor (base: Item, ghost world: set<Item>)
      requires Linked(Snap(world)) && Ranked(Snap(world)) && base in world && Holds(base.kind)
      ensures this.base == base && Valid(world) && out == []
    {
      this.base := base;
      over := if base.itemlist == [] then [] else [base];
      current, out, done := 0, [], [];
      new;
      hide *;
      Starts(world);
    }

    lemma Starts(world: set<Item>)
      requires Linked(Snap(world)) && Ranked(Snap(world)) && base in world && Holds(base.kind)
      requires over == (if base.itemlist == [] then [] else [base]) && current == 0 && out == done == []
      ensures Valid(world)
    {
      hide Linked, Ranked, Walking, Item.OwnWeight, Item.Owner;
      WalkStarts(Snap(world), base);
    }

    /** Comparison with end(). */
    predicate AtEnd()
      reads this
    {
      over == []
    }

    /** The item the iterator stands on: nested in the base and not seen before. */
    method Current(ghost world: set<Item>) returns (item: Item)
      requires Valid(world) && !AtEnd()
      ensures current < |over[0].itemlist| && item == over[0].itemlist[current]
      ensures item in Nested(Snap(world), base) && item !in out && |out| < |Nested(Snap(world), base)|
    {
      hide Linked, Ranked, Walking, Inside;
      WalkIsShort(Snap(world), base, out, done, over, current);
      QueueHasItems(Snap(world), base, out, done, over, current);
      NextIsNew(Snap(world), base, out, done, over, current);
      item := over[0].itemlist[current];
    }

    /** Looks at the current item, queues it if it is a container with items, and moves on. */
    method Next(ghost world: set<Item>)
      requires Valid(world) && !AtEnd() && current < |over[0].itemlist|
      modifies this
      ensures Valid(world) && out == old(out) + [old(over[0].itemlist[current])]
    {
      hide Linked, Ranked, Walking, Progress, Inside, Queued, Item.OwnWeight, Item.Owner;
      ghost var st := Snap(world);
      QueueHasItems(st, base, out, done, over, current);
      WalkSteps(st, base, out, done, over, current);
      NextIsNew(st, base, out, done, over, current);
      var item := over[0].itemlist[current];
      assert HasItems(st, item) <==> Holds(item.kind) && item.itemlist != [];
      out := out + [item];
      if Holds(item.kind) && item.itemlist != [] {
        over := over + [item];
      } else {
        assert over + [] == over;
      }
      current := current + 1;
      if current == |over[0].itemlist| {
        done := done + [over[0]];
        over := over[1..];
        current := 0;
      }
    }

    lemma Finished(world: set<Item>)
      requires Valid(world) && over == []
      ensures (set o | o in out) == Nested(Snap(world), base) && NoDuplicates(out) && |out| == |Nested(Snap(world), base)|
      ensures (forall x :: x in out ==> x in Snap(world)) && LevelOrder(Snap(world), base, out)
    {
      WalkIsComplete(Snap(world), base, out, done);
    }
  }
}
