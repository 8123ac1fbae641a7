/**
 Damage across a logout: which damage conditions are written at all, and what those deal that are written
 midway, loaded, started again, and run to their end.
 */
module StoredDamage {
  import opened Basics
  import opened ConditionTypes
  import opened DamageConditions
  import Codec = ConditionCodec
  import Storage = ConditionStorage

  /** isPersistent: there is time left, and the condition does not belong to a combat. */
  predicate Lasts(c: Codec.Value)
  {
    c.base.ticks > 0 && c.base.id != CONDITIONID_COMBAT
  }

  /** The stream to which a player's conditions are saved. */
  function Saved(cs: seq<Codec.Value>): seq<Byte>
  {
    Codec.SaveAll(Storage.Kept(cs))
  }

  lemma KeptIfLasting(c: Codec.Value)
    requires Codec.Typed(c)
    ensures Storage.Kept([c]) == if Lasts(c) || c.base.typ == CONDITION_GAMEMASTER then [c] else []
    ensures c.body.Damage? ==> c.base.typ != CONDITION_GAMEMASTER
  {
    assert [c][..0] == [] && Storage.Kept([]) == [];
    assert Storage.Kept([c]) == Storage.Kept([c][..0]) + if Storage.IsKept(c) then [c] else [];
  }

  /** A condition of any class comes back exactly when it lasts, or is a game master's; one of damage when it lasts. */
  lemma LogoutExactly(c: Codec.Value)
    requires Codec.Typed(c)
    ensures Codec.LoadAll(Saved([c])) ==
            if Lasts(c) || (c.base.typ == CONDITION_GAMEMASTER && !c.body.Damage?) then [Codec.Restored(c)] else []
  {
    hide Codec.LoadAll, Codec.SaveAll, Codec.Typed, Storage.Kept, Codec.Restored;
    KeptIfLasting(c);
    Storage.WrittenBack([c]);
  }

  /** Of all that the code makes, damage comes back exactly when some damage condition lasts. */
  lemma DamageComesBack(vs: seq<Codec.Value>)
    requires forall v :: v in vs ==> Storage.Made(v)
    ensures (exists r :: r in Codec.LoadAll(Saved(vs)) && r.body.Damage?) <==>
            (exists v :: v in vs && v.body.Damage? && Lasts(v))
  {
    hide Codec.LoadAll, Codec.SaveAll, Codec.Typed, Storage.Kept, Lasts, Storage.Made;
    var kept, back := Storage.Kept(vs), Codec.LoadAll(Saved(vs));
    Storage.WrittenBack(vs);
    forall v ensures v in kept && v.body.Damage? <==> v in vs && v.body.Damage? && Lasts(v) {
      DamageKept(vs, v);
    }
    if r :| r in back && r.body.Damage? {
      var i :| 0 <= i < |back| && back[i] == r;
      assert kept[i] in kept && kept[i].body.Damage?;
    }
    if v :| v in vs && v.body.Damage? && Lasts(v) {
      var i :| 0 <= i < |kept| && kept[i] == v;
      assert back[i] in back && back[i].body.Damage?;
    }
  }

  lemma {:induction false} DamageKept(vs: seq<Codec.Value>, v: Codec.Value)
    requires forall w :: w in vs ==> Storage.Made(w)
    ensures v in Storage.Kept(vs) && v.body.Damage? <==> v in vs && v.body.Damage? && Lasts(v)
  {
    if vs != [] {
      var last := |vs| - 1;
      DamageKept(vs[..last], v);
      assert Storage.Made(vs[last]);
      assert vs == vs[..last] + [vs[last]];
    }
  }

  /** Every damage condition of the code belongs to a combat, so no damage goes on after a logout. */
  lemma CombatDamageEnds(vs: seq<Codec.Value>)
    requires forall v :: v in vs ==> Storage.Made(v) && (v.body.Damage? ==> v.base.id == CONDITIONID_COMBAT)
    ensures forall r :: r in Codec.LoadAll(Saved(vs)) ==> !r.body.Damage?
  {
    hide Codec.LoadAll, Saved, Storage.Made;
    DamageComesBack(vs);
  }

  /** Intervals that have not been made negative, and are short enough together for 31 bits. */
  predicate Measured(list: seq<Codec.Interval>)
  {
    (forall k :: 0 <= k < |list| ==> list[k].interval >= 0) && Total(list) < 0x8000_0000
  }

  /** One that lasts comes back with all its hits, and as many ticks as they wait for. */
  lemma StoredMidway(c: Codec.Value)
    requires c.body.Damage? && Codec.Typed(c) && Lasts(c) && Measured(c.body.damageList)
    ensures Codec.LoadAll(Saved([c])) == [Codec.Restored(c)]
    ensures var r := Codec.Restored(c);
            r.body == c.body && r.base.ticks == Total(c.body.damageList) >= 0
  {
    hide Codec.LoadAll, Saved, Codec.Typed, Codec.GrownTicks;
    LogoutExactly(c);
    Codec.TicksAreTotal(c.body.damageList);
  }

  /** unserialize, as far as the clock and the hits go. */
  method LoadDamage(v: Codec.Value, now: int) returns (d: ConditionDamage)
    requires v.body.Damage?
    ensures fresh(d) && d.ticks == v.base.ticks && d.damageList == v.body.damageList
    ensures d.periodDamage == v.body.periodDamage && d.delayed == v.body.delayed
    ensures d.minDamage == d.maxDamage == 0
  {
    d := new ConditionDamage(v.body.delayed);
    d.SetTicks(v.base.ticks, now);
    d.damageList, d.periodDamage := v.body.damageList, v.body.periodDamage;
  }

  /**
   A damage condition, saved at any moment, loaded later and started again at `now`, and then called once
   every `step`.  It does nothing any more unless it lasts; then it deals its remaining hits in their order, and
   all of them exactly when the last one is due no later than one call after the end time, and in particular
   when it was midway and the step divides the intervals.
   */
  method LogoutAndRun(c: Codec.Value, loaded: int, now: int, step: Step, hit: bool) returns (ok: bool, dealt: seq<int>)
    requires c.body.Damage? && Codec.Typed(c) && Measured(c.body.damageList)
    requires c.body.periodDamage == 0 && Total(c.body.damageList) > 0
    ensures ok <==> Lasts(c) && (c.body.delayed || hit)
    ensures !Lasts(c) ==> dealt == []
    ensures ok ==> var l := c.body.damageList;
            && dealt == Resumed(l, Total(l), c.body.delayed, step, now) && dealt <= Values(l)
            && (dealt == Values(l) <==>
                Later(l, c.body.delayed) == [] || Needed(Later(l, c.body.delayed), step) - step <= Total(l))
            && (Midway(l) && Divides(step, l) ==> dealt == Values(l))
  {
    hide *;
    var stored := new Storage.Condition(c);
    ghost var l := c.body.damageList;
    OnlyOne(stored);
    MadeSo(c);
    Storage.WrittenBack([c]);
    var back := Storage.SaveAndLoad([stored]);
    SavedKept([c]);
    LogoutExactly(c);
    if |back| == 0 { return false, []; }
    StoredMidway(c);
    var d := LoadDamage(back[0].Get(), loaded);
    TotalSome(l);
    ghost var all;
    ok, dealt, all := d.StartAndRun(0, now, step, hit);
  }

  lemma OnlyOne(c: Storage.Condition)
    ensures Storage.ValuesOf([c]) == [c.Get()]
  {
  }

  lemma MadeSo(c: Codec.Value)
    ensures Codec.Typed(c) ==> (forall v :: v in [c] ==> Storage.Made(v))
  {
  }

  lemma SavedKept(cs: seq<Codec.Value>)
    ensures Saved(cs) == Codec.SaveAll(Storage.Kept(cs))
  {
  }

  lemma TotalSome(l: seq<IntervalInfo>)
    ensures Total(l) > 0 ==> l != []
  {
  }
}
