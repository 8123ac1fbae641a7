/**
 The conditions of a creature and what they lend it: speed from haste and paralysis, skill and stat
 bonuses from attribute conditions.  What is lent is taken back, however a condition ends.
 */
module ConditionBonuses {

  import opened ConditionTypes

  const BONUSES: nat := SKILLS + STATS

  datatype Kind = Speed | Attributes | Other

  /** The class that createCondition picks for a type. */
  function KindOf(typ: int): Kind
  {
    if typ == CONDITION_HASTE || typ == CONDITION_PARALYZE then Speed
    else if typ == CONDITION_ATTRIBUTES then Attributes
    else Other
  }

  /** What one condition lends: speed, and skills followed by stats. */
  datatype Loan = Loan(speed: int, bonus: seq<int>)

  function Zeros(): (z: seq<int>)
    ensures |z| == BONUSES && forall k :: 0 <= k < BONUSES ==> z[k] == 0
  {
    seq(BONUSES, _ => 0)
  }

  function SpeedTotal(loans: seq<Loan>): int
  {
    if loans == [] then 0 else SpeedTotal(loans[..|loans| - 1]) + loans[|loans| - 1].speed
  }

  function BonusTotal(loans: seq<Loan>, k: nat): int
    requires k < BONUSES && forall l :: l in loans ==> |l.bonus| == BONUSES
  {
    if loans == [] then 0 else BonusTotal(loans[..|loans| - 1], k) + loans[|loans| - 1].bonus[k]
  }

  ghost predicate WellSized(loans: seq<Loan>)
  {
    forall l :: l in loans ==> |l.bonus| == BONUSES
  }

  lemma TotalSnoc(loans: seq<Loan>, l: Loan)
    requires WellSized(loans + [l])
    ensures SpeedTotal(loans + [l]) == SpeedTotal(loans) + l.speed
    ensures WellSized(loans) && |l.bonus| == BONUSES
    ensures forall k: nat :: k < BONUSES ==> BonusTotal(loans + [l], k) == BonusTotal(loans, k) + l.bonus[k]
  {
    assert (loans + [l])[..|loans|] == loans && (loans + [l])[|loans|] == l;
    assert l in loans + [l];
    forall m | m in loans ensures |m.bonus| == BONUSES { assert m in loans + [l]; }
  }

  /** Taking one loan out of the middle. */
  lemma {:induction false} TotalWithout(loans: seq<Loan>, i: nat)
    requires i < |loans| && WellSized(loans)
    ensures WellSized(loans[..i] + loans[i + 1..])
    ensures SpeedTotal(loans) == SpeedTotal(loans[..i] + loans[i + 1..]) + loans[i].speed
    ensures forall k: nat :: k < BONUSES ==>
      BonusTotal(loans, k) == BonusTotal(loans[..i] + loans[i + 1..], k) + loans[i].bonus[k]
    decreases |loans|
  {
    var init, last := loans[..|loans| - 1], loans[|loans| - 1];
    assert loans == init + [last];
    TotalSnoc(init, last);
    if i == |loans| - 1 {
      assert loans[..i] + loans[i + 1..] == init;
    } else {
      TotalWithout(init, i);
      assert loans[..i] + loans[i + 1..] == (init[..i] + init[i + 1..]) + [last];
      TotalSnoc(init[..i] + init[i + 1..], last);
    }
  }

  /** Changing one loan in the middle. */
  lemma TotalChanged(loans: seq<Loan>, i: nat, l: Loan)
    requires i < |loans| && WellSized(loans) && |l.bonus| == BONUSES
    ensures WellSized(loans[i := l])
    ensures SpeedTotal(loans[i := l]) == SpeedTotal(loans) - loans[i].speed + l.speed
    ensures forall k: nat :: k < BONUSES ==>
      BonusTotal(loans[i := l], k) == BonusTotal(loans, k) - loans[i].bonus[k] + l.bonus[k]
  {
    var loans' := loans[i := l];
    forall m | m in loans' ensures |m.bonus| == BONUSES {
      var j :| 0 <= j < |loans'| && loans'[j] == m;
      assert j != i ==> loans[j] in loans;
    }
    TotalWithout(loans, i);
    TotalWithout(loans', i);
    assert loans'[..i] + loans'[i + 1..] == loans[..i] + loans[i + 1..];
  }

  /** What a step of the clock leaves of the ticks; -1 is for ever. */
  function Ticked(ticks: int, interval: int): int
  {
    if ticks == -1 then -1 else if ticks > interval then ticks - interval else 0
  }

  class Condition {
    const typ: nat
    const id: int
    const subId: nat
    var ticks: int
    var endTime: int
    var speedDelta: int
    var bonus: seq<int>
    var percent: seq<int>

    constructor (typ: nat, id: int, subId: nat, ticks: int, speedDelta: int, bonus: seq<int>, percent: seq<int>)
      requires |bonus| == |percent| == BONUSES
      ensures Valid() && this.typ == typ && this.id == id && this.subId == subId
      ensures this.ticks == ticks && this.speedDelta == speedDelta && this.bonus == bonus && this.percent == percent
    {
      this.typ, this.id, this.subId, this.ticks := typ, id, subId, ticks;
      this.speedDelta, this.bonus, this.percent, endTime := speedDelta, bonus, percent, 0;
    }

    ghost predicate Valid()
      reads this
    {
      |bonus| == |percent| == BONUSES
    }

    /** What the condition lends to a creature while it is active. */
    ghost function Lends(toPlayer: bool): (l: Loan)
      requires Valid()
      reads this
      ensures |l.bonus| == BONUSES
    {
      Loan(if KindOf(typ).Speed? then speedDelta else 0, if KindOf(typ).Attributes? && toPlayer then bonus else Zeros())
    }

    method SetTicks(newTicks: int, now: int)
      modifies this`ticks, this`endTime
      ensures ticks == newTicks && endTime == if newTicks > 0 then now + newTicks else old(endTime)
    {
      ticks := newTicks;
      if newTicks > 0 {
        endTime := now + newTicks;
      }
    }

    /** isPersistent. */
    predicate Persistent()
      reads this
    {
      ticks > 0 && (id == CONDITIONID_DEFAULT || id != CONDITIONID_COMBAT)
    }

    /** What executeCondition answers. */
    predicate AliveAt(now: int)
      reads this
    {
      ticks == -1 || endTime >= now
    }

    /** Condition::updateCondition. */
    predicate AcceptsUpdate(add: Condition, now: int)
      reads this, add
    {
      typ == add.typ && (ticks != -1 || add.ticks < 1) && (add.ticks < 0 || endTime <= now + add.ticks)
    }

    /** When addCondition of the class takes the new condition in. */
    predicate TakesIn(add: Condition, now: int)
      reads this, add
    {
      if KindOf(typ).Speed? then !RefusesSpeed(this, add) else AcceptsUpdate(add, now)
    }

    /** isPersistent, in short. */
    lemma PersistentExactly()
      ensures Persistent() <==> ticks > 0 && id != CONDITIONID_COMBAT
    {
    }

    /**
     Of two conditions of a type that both last for some time, speed takes the new one in always, and the others do
     exactly when it does not end earlier than the old one.
     */
    lemma TakesInExactly(add: Condition, now: int)
      requires typ == add.typ && ticks != -1 && add.ticks > 0
      ensures TakesIn(add, now) <==> KindOf(typ).Speed? || now + add.ticks >= endTime
    {
    }

    /** updatePercentSkills and updatePercentStats; `gain` is what the percentages of a player come to. */
    method UpdatePercents(gain: seq<int>)
      requires Valid() && |gain| == BONUSES
      modifies this`bonus
      ensures Valid() && forall k :: 0 <= k < BONUSES ==>
        bonus[k] == old(bonus[k]) + if percent[k] != 0 then gain[k] else 0
    {
      var i := 0;
      while i < BONUSES
        invariant 0 <= i <= BONUSES && Valid()
        invariant forall k :: 0 <= k < BONUSES ==>
          bonus[k] == old(bonus[k]) + if k < i && percent[k] != 0 then gain[k] else 0
      {
        if percent[i] != 0 {
          bonus := bonus[i := bonus[i] + gain[i]];
        }
        i := i + 1;
      }
    }
  }

  /** What the conditions of a list lend, one by one. */
  ghost function LoansOf(cs: seq<Condition>, toPlayer: bool): (l: seq<Loan>)
    requires forall c :: c in cs ==> c.Valid()
    reads cs
    ensures |l| == |cs| && WellSized(l)
    ensures forall i :: 0 <= i < |l| ==> cs[i].Valid() && l[i] == cs[i].Lends(toPlayer)
  {
    if cs == [] then [] else LoansOf(cs[..|cs| - 1], toPlayer) + [cs[|cs| - 1].Lends(toPlayer)]
  }

  /** The list without the conditions that are gone. */
  ghost function Without(cs: seq<Condition>, gone: set<Condition>): seq<Condition>
  {
    if cs == [] then []
    else Without(cs[..|cs| - 1], gone) + if cs[|cs| - 1] in gone then [] else [cs[|cs| - 1]]
  }

  lemma {:induction false} WithoutMembers(cs: seq<Condition>, gone: set<Condition>)
    ensures forall c :: c in Without(cs, gone) <==> c in cs && c !in gone
  {
    if cs != [] {
      WithoutMembers(cs[..|cs| - 1], gone);
      assert cs == cs[..|cs| - 1] + [cs[|cs| - 1]];
    }
  }

  lemma WithoutNext(cs: seq<Condition>, gone: set<Condition>, k: nat)
    requires k < |cs|
    ensures Without(cs[..k + 1], gone) == Without(cs[..k], gone) + if cs[k] in gone then [] else [cs[k]]
  {
    assert cs[..k + 1][..k] == cs[..k];
  }

  lemma {:induction false} WithoutNone(cs: seq<Condition>, gone: set<Condition>)
    requires forall c :: c in cs ==> c !in gone
    ensures Without(cs, gone) == cs
  {
    if cs != [] {
      WithoutNone(cs[..|cs| - 1], gone);
      assert cs == cs[..|cs| - 1] + [cs[|cs| - 1]];
    }
  }

  ghost function OfType(cs: seq<Condition>, typ: int): set<Condition>
  {
    set c | c in cs && c.typ == typ
  }

  ghost function Leaving(cs: seq<Condition>, onlyPersistent: bool): set<Condition>
    reads cs
  {
    set c | c in cs && (onlyPersistent ==> c.Persistent())
  }

  ghost function Expired(cs: seq<Condition>, now: int): set<Condition>
    reads cs
  {
    set c | c in cs && !c.AliveAt(now)
  }

  datatype Clock = Clock(ticks: int, endTime: int)

  ghost function ClocksOf(cs: seq<Condition>): (t: seq<Clock>)
    reads cs
    ensures |t| == |cs|
  {
    if cs == [] then [] else ClocksOf(cs[..|cs| - 1]) + [Clock(cs[|cs| - 1].ticks, cs[|cs| - 1].endTime)]
  }

  /** The clocks of distinct conditions, the first `k` of them one step on. */
  ghost predicate ClocksAt(cs: seq<Condition>, clocks: seq<Clock>, interval: int, k: nat)
    reads cs
  {
    && |cs| == |clocks|
    && (forall i, j :: 0 <= i < j < |cs| ==> cs[i] != cs[j])
    && (forall m :: 0 <= m < |cs| ==> cs[m].endTime == clocks[m].endTime)
    && forall m :: 0 <= m < |cs| ==> cs[m].ticks == if m < k then Ticked(clocks[m].ticks, interval) else clocks[m].ticks
  }

  lemma {:induction false} ClocksAre(cs: seq<Condition>)
    ensures forall i :: 0 <= i < |cs| ==> ClocksOf(cs)[i] == Clock(cs[i].ticks, cs[i].endTime)
  {
    if cs != [] {
      ClocksAre(cs[..|cs| - 1]);
    }
  }

  predicate Runs(c: Clock, now: int)
  {
    c.ticks == -1 || c.endTime >= now
  }

  /** Which conditions end, told from the clocks alone. */
  ghost predicate Ending(cs: seq<Condition>, clocks: seq<Clock>, gone: set<Condition>, now: int)
  {
    |cs| == |clocks| && forall m :: 0 <= m < |cs| ==> (Runs(clocks[m], now) <==> cs[m] !in gone)
  }

  lemma EndingAt(cs: seq<Condition>, clocks: seq<Clock>, gone: set<Condition>, now: int, k: nat)
    ensures Ending(cs, clocks, gone, now) && k < |cs| ==> (|clocks| == |cs| && (Runs(clocks[k], now) <==> cs[k] !in gone))
  {
  }

  lemma ExpiredByClock(cs: seq<Condition>, now: int)
    ensures Ending(cs, ClocksOf(cs), Expired(cs, now), now)
  {
    ClocksAre(cs);
    hide ClocksOf;
  }

  /** Midway through a removing loop: up to `i` it is settled what stays, from there on nothing was looked at. */
  ghost predicate Pending(now: seq<Condition>, cs: seq<Condition>, gone: set<Condition>, i: nat, k: nat)
  {
    k <= |cs| && i == |Without(cs[..k], gone)| && now == Without(cs[..k], gone) + cs[k..]
  }

  lemma SweepStep(now: seq<Condition>, cs: seq<Condition>, gone: set<Condition>, i: nat, k: nat)
    requires Pending(now, cs, gone, i, k) && i < |now|
    ensures k < |cs| && now[i] == cs[k]
    ensures cs[k] !in gone || Pending(now[..i] + now[i + 1..], cs, gone, i, k + 1)
    ensures cs[k] in gone || Pending(now, cs, gone, i + 1, k + 1)
  {
    hide Without;
    WithoutNext(cs, gone, k);
    var kept := Without(cs[..k], gone);
    assert cs[k..] == [cs[k]] + cs[k + 1..];
    if cs[k] in gone {
      assert now[..i] + now[i + 1..] == kept + cs[k + 1..];
    } else {
      assert now == (kept + [cs[k]]) + cs[k + 1..];
    }
  }

  lemma SweepDone(now: seq<Condition>, cs: seq<Condition>, gone: set<Condition>, i: nat, k: nat)
    requires Pending(now, cs, gone, i, k) && i == |now|
    ensures k == |cs| && now == Without(cs, gone)
    ensures forall c :: c in now ==> c in cs
  {
    hide Without;
    assert cs[..k] == cs;
    WithoutMembers(cs, gone);
  }

  lemma SweepStart(cs: seq<Condition>, gone: set<Condition>)
    ensures Pending(cs, cs, gone, 0, 0)
  {
    assert cs[..0] == [];
  }

  /** What getCondition asks for. */
  predicate Same(c: Condition, typ: int, id: int, subId: nat)
  {
    c.typ == typ && c.id == id && c.subId == subId
  }

  /** What hasCondition asks for; a condition that lasts for ever has no end time. */
  predicate Answers(c: Condition, typ: int, subId: nat, now: int)
    reads c
  {
    c.typ == typ && c.subId == subId && (c.ticks == -1 || c.endTime == 0 || c.endTime >= now)
  }

  ghost predicate Known(cs: seq<Condition>, typ: int, id: int, subId: nat)
  {
    exists i :: 0 <= i < |cs| && Same(cs[i], typ, id, subId)
  }

  ghost function First(cs: seq<Condition>, typ: int, id: int, subId: nat): (i: nat)
    requires Known(cs, typ, id, subId)
    ensures i < |cs| && Same(cs[i], typ, id, subId) && forall k :: 0 <= k < i ==> !Same(cs[k], typ, id, subId)
  {
    if Same(cs[0], typ, id, subId) then 0
    else
      assert exists k :: 0 <= k < |cs[1..]| && Same(cs[1..][k], typ, id, subId) by {
        var k :| 0 <= k < |cs| && Same(cs[k], typ, id, subId);
        assert cs[1..][k - 1] == cs[k];
      }
      First(cs[1..], typ, id, subId) + 1
  }

  ghost predicate Answered(cs: seq<Condition>, typ: int, subId: nat, now: int)
    reads cs
  {
    exists i :: 0 <= i < |cs| && Answers(cs[i], typ, subId, now)
  }

  lemma AnsweredByOthers(cs: seq<Condition>, c: Condition, typ: int, subId: nat, now: int)
    requires c.typ != typ
    ensures Answered(cs + [c], typ, subId, now) <==> Answered(cs, typ, subId, now)
  {
    if Answered(cs, typ, subId, now) {
      var i :| 0 <= i < |cs| && Answers(cs[i], typ, subId, now);
      assert (cs + [c])[i] == cs[i];
    }
  }

  /** When ConditionSpeed::addCondition leaves the running condition alone. */
  predicate RefusesSpeed(c: Condition, add: Condition)
    reads c, add
  {
    c.typ != add.typ || (c.ticks == -1 && add.ticks > 0)
  }

  /** Haste ends paralysis and paralysis ends haste. */
  function Opposite(typ: nat): int
  {
    if typ == CONDITION_HASTE then CONDITION_PARALYZE else if typ == CONDITION_PARALYZE then CONDITION_HASTE else -1
  }

  lemma {:induction false} WithoutConcat(a: seq<Condition>, b: seq<Condition>, gone: set<Condition>)
    ensures Without(a + b, gone) == Without(a, gone) + Without(b, gone)
    decreases |b|
  {
    if b == [] {
      assert a + b == a;
    } else {
      var n := |b| - 1;
      WithoutConcat(a, b[..n], gone);
      assert (a + b)[..|a + b| - 1] == a + b[..n] && (a + b)[|a + b| - 1] == b[n];
    }
  }

  /** Some condition of a type, with no sub-id, still runs. */
  ghost predicate SomeRunning(cs: seq<Condition>, typ: nat, now: int)
    reads cs
  {
    exists m :: m in cs && m.typ == typ && m.subId == 0 && m.AliveAt(now)
  }

  lemma RunningAnswers(cs: seq<Condition>, typ: nat, now: int)
    ensures SomeRunning(cs, typ, now) ==> Answered(cs, typ, 0, now)
  {
    if m :| m in cs && m.typ == typ && m.subId == 0 && m.AliveAt(now) {
      var i :| 0 <= i < |cs| && cs[i] == m;
      assert Answers(cs[i], typ, 0, now);
    }
  }

  lemma OfTypeMembers(cs: seq<Condition>, typ: int)
    ensures forall c :: c in OfType(cs, typ) <==> c in cs && c.typ == typ
  {
  }

  lemma NotOpposite(cs: seq<Condition>, c: Condition)
    ensures c !in OfType(cs, Opposite(c.typ))
  {
  }

  lemma WithoutAlone(c: Condition)
    ensures Without([c], {c}) == []
  {
    assert [c][..0] == [];
  }

  /** Removing one condition from the middle leaves the others as they are. */
  lemma WithoutOne(a: seq<Condition>, c: Condition, b: seq<Condition>)
    requires c !in a && c !in b
    ensures Without(a + [c] + b, {c}) == a + b
  {
    hide Without;
    WithoutConcat(a + [c], b, {c});
    WithoutConcat(a, [c], {c});
    WithoutNone(a, {c});
    WithoutNone(b, {c});
    WithoutAlone(c);
  }

  /** What happens to the conditions of a creature. */
  datatype Event =
    | Add(typ: nat, id: int, subId: nat, ticks: int, speed: int, bonus: seq<int>, percent: seq<int>,
          roll: int, gain: seq<int>, startOk: bool, suppressed: bool, now: int)
    | RemoveType(typ: nat)
    | RemoveTypeId(typ: nat, id: int)
    | RemoveAt(k: nat)
    | RemoveAll(onlyPersistent: bool)
    | Execute(interval: int, now: int)

  class Creature {
    const isPlayer: bool
    var baseSpeed: int
    var varSpeed: int
    var varBonus: seq<int>
    var conditions: seq<Condition>

    constructor (isPlayer: bool, baseSpeed: int)
      ensures Conserved() && conditions == [] && this.isPlayer == isPlayer
    {
      this.isPlayer, this.baseSpeed, varSpeed, varBonus, conditions := isPlayer, baseSpeed, 0, Zeros(), [];
    }

    /** The list holds distinct, well-formed conditions. */
    ghost predicate Listed()
      reads this`conditions, conditions
    {
      && (forall i, j :: 0 <= i < j < |conditions| ==> conditions[i] != conditions[j])
      && forall c :: c in conditions ==> c.Valid()
    }

    ghost function Loans(): (l: seq<Loan>)
      requires Listed()
      reads this`conditions, conditions
      ensures |l| == |conditions| && WellSized(l)
      ensures forall i :: 0 <= i < |l| ==> conditions[i].Valid() && l[i] == conditions[i].Lends(isPlayer)
    {
      LoansOf(conditions, isPlayer)
    }

    /** No condition is listed twice. */
    lemma ListedOnce(i: nat)
      ensures Conserved() && i < |conditions| ==>
        conditions[i] !in conditions[..i] && conditions[i] !in conditions[i + 1..]
    {
    }

    /** Owing `speed` and `bonus` on top of what the conditions lend. */
    ghost predicate Owes(speed: int, bonus: seq<int>)
      reads this, conditions
    {
      && Listed() && |varBonus| == |bonus| == BONUSES
      && varSpeed == SpeedTotal(Loans()) + speed
      && forall k: nat :: k < BONUSES ==> varBonus[k] == BonusTotal(Loans(), k) + bonus[k]
    }

    /** The variable part of speed, skills and stats is exactly what the active conditions lend. */
    ghost predicate Conserved()
      reads this, conditions
    {
      Owes(0, Zeros())
    }

    // -------------------------------------------------------------- unseen callees, as contracts

    /** Game::changeSpeed: the variable part is read back from the speed and changed by the difference. */
    method ChangeSpeed(delta: int)
      modifies this`varSpeed
      ensures varSpeed == old(varSpeed) + delta
    {
      var v := (baseSpeed + varSpeed) - baseSpeed;
      varSpeed := v + delta;
    }

    /** updateSkills and updateStats (sign 1) and their undoing in endCondition (sign -1). */
    method ApplyBonus(bonus: seq<int>, sign: int)
      requires |bonus| == |varBonus| == BONUSES && (sign == 1 || sign == -1)
      modifies this`varBonus
      ensures |varBonus| == BONUSES
      ensures forall k :: 0 <= k < BONUSES ==> varBonus[k] == old(varBonus[k]) + sign * bonus[k]
    {
      var i := 0;
      while i < BONUSES
        invariant 0 <= i <= BONUSES && |varBonus| == BONUSES
        invariant forall k :: 0 <= k < BONUSES ==>
          varBonus[k] == old(varBonus[k]) + if k < i then sign * bonus[k] else 0
      {
        if bonus[i] != 0 {
          varBonus := varBonus[i := varBonus[i] + sign * bonus[i]];
        }
        i := i + 1;
      }
    }

    // -------------------------------------------------------------- start, end, merge

    /** The end time after setTicks. */
    static function EndAfter(endTime: int, ticks: int, now: int): int { if ticks > 0 then now + ticks else endTime }

    /** startCondition: speed is drawn if none is set; bonuses are worked out and applied. */
    method Start(c: Condition, roll: int, gain: seq<int>, now: int)
      requires Conserved() && c.Valid() && c !in conditions && |gain| == BONUSES
      modifies this`varSpeed, this`varBonus, c
      ensures c.Valid() && Owes(c.Lends(isPlayer).speed, c.Lends(isPlayer).bonus)
      ensures varSpeed == old(varSpeed) + if KindOf(c.typ).Speed? then c.speedDelta else 0
      ensures c.ticks == old(c.ticks) && c.endTime == EndAfter(old(c.endTime), c.ticks, now)
      ensures c.speedDelta == if KindOf(c.typ).Speed? && old(c.speedDelta) == 0 then roll else old(c.speedDelta)
      ensures c.percent == old(c.percent) && forall k :: 0 <= k < BONUSES ==>
        c.bonus[k] == old(c.bonus[k]) + if KindOf(c.typ).Attributes? && isPlayer && c.percent[k] != 0 then gain[k] else 0
    {
      hide LoansOf, Loans, SpeedTotal, BonusTotal;
      match KindOf(c.typ) {
        case Speed =>
          if c.speedDelta == 0 {
            c.speedDelta := roll;
          }
          ChangeSpeed(c.speedDelta);
        case Attributes =>
          if isPlayer {
            c.UpdatePercents(gain);
            ApplyBonus(c.bonus, 1);
          }
        case Other =>
      }
      if c.ticks > 0 {
        c.endTime := now + c.ticks;
      }
    }

    /** endCondition of a condition that has just left the list: what it lent is taken back. */
    method End(c: Condition)
      requires c.Valid() && Owes(c.Lends(isPlayer).speed, c.Lends(isPlayer).bonus)
      modifies this`varSpeed, this`varBonus
      ensures Conserved()
    {
      hide LoansOf, Loans, SpeedTotal, BonusTotal;
      match KindOf(c.typ) {
        case Speed =>
          ChangeSpeed(-c.speedDelta);
        case Attributes =>
          if isPlayer {
            ApplyBonus(c.bonus, -1);
          }
        case Other =>
      }
    }

    /** Erasing one condition from the list and ending it. */
    method EraseAt(i: nat)
      requires Conserved() && i < |conditions|
      modifies this`conditions, this`varSpeed, this`varBonus
      ensures Conserved() && conditions == old(conditions[..i] + conditions[i + 1..])
    {
      hide LoansOf, SpeedTotal, BonusTotal;
      ghost var loans := Loans();
      TotalWithout(loans, i);
      var c := conditions[i];
      conditions := conditions[..i] + conditions[i + 1..];
      assert Loans() == loans[..i] + loans[i + 1..];
      End(c);
    }

    /** One condition of the list lends something else now: the difference is owed. */
    lemma LoanChanged(j: nat, before: seq<Loan>)
      requires Listed() && j < |conditions| == |before| && WellSized(before)
      requires forall i :: 0 <= i < |before| && i != j ==> before[i] == Loans()[i]
      ensures SpeedTotal(Loans()) == SpeedTotal(before) - before[j].speed + Loans()[j].speed
      ensures forall k: nat :: k < BONUSES ==>
        BonusTotal(Loans(), k) == BonusTotal(before, k) - before[j].bonus[k] + Loans()[j].bonus[k]
    {
      hide LoansOf, SpeedTotal, BonusTotal;
      TotalChanged(before, j, Loans()[j]);
      assert Loans() == before[j := Loans()[j]];
    }

    /** The books are balanced again when the creature is given exactly the difference. */
    lemma Rebalanced(j: nat, before: seq<Loan>, speed: int, bonus: seq<int>)
      requires Listed() && j < |conditions| == |before| && WellSized(before) && |bonus| == |varBonus| == BONUSES
      requires forall i :: 0 <= i < |before| && i != j ==> before[i] == Loans()[i]
      requires speed == SpeedTotal(before) && forall k: nat :: k < BONUSES ==> bonus[k] == BonusTotal(before, k)
      requires varSpeed == speed - before[j].speed + Loans()[j].speed
      requires forall k: nat :: k < BONUSES ==> varBonus[k] == bonus[k] - before[j].bonus[k] + Loans()[j].bonus[k]
      ensures Conserved()
    {
      hide LoansOf, Loans, SpeedTotal, BonusTotal;
      LoanChanged(j, before);
    }

    lemma Books()
      requires Conserved()
      ensures Listed() && |varBonus| == BONUSES && varSpeed == SpeedTotal(Loans())
      ensures forall k: nat :: k < BONUSES ==> varBonus[k] == BonusTotal(Loans(), k)
    {
      hide LoansOf, Loans, SpeedTotal, BonusTotal;
    }

    /** ConditionSpeed::addCondition. */
    method MergeSpeed(j: nat, add: Condition, roll: int, now: int)
      requires Conserved() && j < |conditions| && KindOf(conditions[j].typ).Speed? && add.Valid() && add !in conditions
      modifies this`varSpeed, {conditions[j]}`ticks, {conditions[j]}`endTime, {conditions[j]}`speedDelta
      ensures Conserved()
      ensures old(RefusesSpeed(conditions[j], add)) ==>
        && conditions[j].ticks == old(conditions[j].ticks) && conditions[j].endTime == old(conditions[j].endTime)
        && conditions[j].speedDelta == old(conditions[j].speedDelta)
      ensures !old(RefusesSpeed(conditions[j], add)) ==>
        && conditions[j].ticks == add.ticks && conditions[j].endTime == EndAfter(old(conditions[j].endTime), add.ticks, now)
        && conditions[j].speedDelta == if add.speedDelta == 0 then roll else add.speedDelta
    {
      hide LoansOf, Loans, SpeedTotal, BonusTotal, Conserved, Owes;
      Books();
      ghost var before, speed, bonus := Loans(), varSpeed, varBonus;
      var c := conditions[j];
      if RefusesSpeed(c, add) { return; }
      c.SetTicks(add.ticks, now);
      var oldSpeedDelta := c.speedDelta;
      c.speedDelta := add.speedDelta;
      if c.speedDelta == 0 {
        c.speedDelta := roll;
      }
      var newSpeedChange := c.speedDelta - oldSpeedDelta;
      if newSpeedChange != 0 {
        ChangeSpeed(newSpeedChange);
      }
      Rebalanced(j, before, speed, bonus);
    }

    /** The old bonuses are undone, the new ones are worked out and applied. */
    method Reapply(c: Condition, add: Condition, gain: seq<int>)
      requires c.Valid() && add.Valid() && c != add && |gain| == |varBonus| == BONUSES
      modifies this`varBonus, c`bonus, c`percent
      ensures c.Valid() && |varBonus| == BONUSES && c.percent == add.percent
      ensures forall k :: 0 <= k < BONUSES ==>
        && c.bonus[k] == add.bonus[k] + (if isPlayer && add.percent[k] != 0 then gain[k] else 0)
        && varBonus[k] == old(varBonus[k]) + if isPlayer then c.bonus[k] - old(c.bonus[k]) else 0
    {
      if isPlayer {
        ApplyBonus(c.bonus, -1);
      }
      c.bonus, c.percent := add.bonus, add.percent;
      if isPlayer {
        c.UpdatePercents(gain);
        ApplyBonus(c.bonus, 1);
      }
    }

    /** ConditionAttributes::addCondition: the old bonuses are undone before the new ones are applied. */
    method MergeAttributes(j: nat, add: Condition, gain: seq<int>, now: int)
      requires Conserved() && j < |conditions| && KindOf(conditions[j].typ).Attributes? && add.Valid() && add !in conditions
      requires |gain| == BONUSES
      modifies this`varBonus, {conditions[j]}`ticks, {conditions[j]}`endTime, {conditions[j]}`bonus, {conditions[j]}`percent
      ensures Conserved()
      ensures !old(conditions[j].AcceptsUpdate(add, now)) ==>
        && conditions[j].bonus == old(conditions[j].bonus) && conditions[j].percent == old(conditions[j].percent)
        && conditions[j].ticks == old(conditions[j].ticks) && conditions[j].endTime == old(conditions[j].endTime)
      ensures old(conditions[j].AcceptsUpdate(add, now)) ==>
        && conditions[j].ticks == add.ticks && conditions[j].endTime == EndAfter(old(conditions[j].endTime), add.ticks, now)
        && conditions[j].percent == add.percent && conditions[j].Valid()
      ensures old(conditions[j].AcceptsUpdate(add, now)) ==> forall k :: 0 <= k < BONUSES ==>
        conditions[j].bonus[k] == add.bonus[k] + if isPlayer && add.percent[k] != 0 then gain[k] else 0
    {
      hide LoansOf, Loans, SpeedTotal, BonusTotal, Conserved;
      Books();
      ghost var before, speed, bonus := Loans(), varSpeed, varBonus;
      var c := conditions[j];
      if !c.AcceptsUpdate(add, now) { return; }
      c.SetTicks(add.ticks, now);
      Reapply(c, add, gain);
      Rebalanced(j, before, speed, bonus);
    }

    /** addCondition of the other classes: nothing of what a condition lends is touched. */
    method MergeOther(j: nat, add: Condition, now: int)
      requires Conserved() && j < |conditions| && KindOf(conditions[j].typ).Other? && add.Valid()
      modifies {conditions[j]}`ticks, {conditions[j]}`endTime
      ensures Conserved()
      ensures if old(conditions[j].AcceptsUpdate(add, now)) then
                && conditions[j].ticks == old(add.ticks)
                && conditions[j].endTime == EndAfter(old(conditions[j].endTime), old(add.ticks), now)
              else conditions[j].ticks == old(conditions[j].ticks) && conditions[j].endTime == old(conditions[j].endTime)
    {
      hide LoansOf, Loans, SpeedTotal, BonusTotal;
      ghost var before := Loans();
      var c := conditions[j];
      if c.AcceptsUpdate(add, now) {
        c.SetTicks(add.ticks, now);
      }
      LoanChanged(j, before);
    }

    /** With nothing active nothing is left over. */
    lemma NothingLeft()
      requires Conserved() && conditions == []
      ensures varSpeed == 0 && varBonus == Zeros()
    {
      assert Loans() == [];
    }

    /** With one condition active the creature has its speed, or a player its bonuses, and nothing else. */
    lemma OneLeft()
      requires Conserved() && |conditions| == 1
      ensures var c := conditions[0];
        && varSpeed == (if KindOf(c.typ).Speed? then c.speedDelta else 0)
        && varBonus == if KindOf(c.typ).Attributes? && isPlayer then c.bonus else Zeros()
    {
      var c := conditions[0];
      assert Loans() == [] + [c.Lends(isPlayer)];
      TotalSnoc([], c.Lends(isPlayer));
    }

    // -------------------------------------------------------------- the list

    /** getCondition: the first condition of this type, id and sub-id. */
    method GetCondition(typ: int, id: int, subId: nat) returns (j: int)
      ensures j == if Known(conditions, typ, id, subId) then First(conditions, typ, id, subId) else -1
    {
      j := 0;
      while j < |conditions|
        invariant 0 <= j <= |conditions|
        invariant forall i :: 0 <= i < j ==> !Same(conditions[i], typ, id, subId)
      {
        if Same(conditions[j], typ, id, subId) { return; }
        j := j + 1;
      }
      j := -1;
    }

    /** hasCondition with its time check, for one sub-id. */
    method HasCondition(typ: int, subId: nat, suppressed: bool, now: int) returns (has: bool)
      ensures has <==> !suppressed && Answered(conditions, typ, subId, now)
    {
      if suppressed { return false; }
      var i := 0;
      while i < |conditions|
        invariant 0 <= i <= |conditions|
        invariant forall k :: 0 <= k < i ==> !Answers(conditions[k], typ, subId, now)
      {
        if Answers(conditions[i], typ, subId, now) { return true; }
        i := i + 1;
      }
      has := false;
    }

    /** removeCondition of one type. */
    method RemoveType(typ: int)
      requires Conserved()
      modifies this`conditions, this`varSpeed, this`varBonus
      ensures Conserved() && conditions == Without(old(conditions), OfType(old(conditions), typ))
      ensures forall m :: m in conditions ==> m in old(conditions)
    {
      hide Conserved, Without, Pending;
      ghost var gone := OfType(conditions, typ);
      ghost var k := 0;
      var i := 0;
      SweepStart(conditions, gone);
      while i < |conditions|
        invariant Conserved() && i <= |conditions| && k <= |old(conditions)|
        invariant Pending(conditions, old(conditions), gone, i, k)
        decreases |old(conditions)| - k
      {
        SweepStep(conditions, old(conditions), gone, i, k);
        if conditions[i].typ != typ {
          i := i + 1;
        } else {
          EraseAt(i);
        }
        k := k + 1;
      }
      SweepDone(conditions, old(conditions), gone, i, k);
    }

    /** removeCondition of one type and id. */
    method RemoveTypeId(typ: int, id: int)
      requires Conserved()
      modifies this`conditions, this`varSpeed, this`varBonus
      ensures Conserved()
      ensures conditions == Without(old(conditions), set c | c in old(conditions) && c.typ == typ && c.id == id)
      ensures forall m :: m in conditions ==> m in old(conditions)
    {
      hide Conserved, Without, Pending;
      ghost var gone := set c | c in conditions && c.typ == typ && c.id == id;
      ghost var k := 0;
      var i := 0;
      SweepStart(conditions, gone);
      while i < |conditions|
        invariant Conserved() && i <= |conditions| && k <= |old(conditions)|
        invariant Pending(conditions, old(conditions), gone, i, k)
        decreases |old(conditions)| - k
      {
        SweepStep(conditions, old(conditions), gone, i, k);
        if conditions[i].typ != typ || conditions[i].id != id {
          i := i + 1;
        } else {
          EraseAt(i);
        }
        k := k + 1;
      }
      SweepDone(conditions, old(conditions), gone, i, k);
    }

    /** removeConditions: all of them, or only the persistent ones. */
    method RemoveConditions(onlyPersistent: bool)
      requires Conserved()
      modifies this`conditions, this`varSpeed, this`varBonus
      ensures Conserved()
      ensures conditions == Without(old(conditions), old(Leaving(conditions, onlyPersistent)))
      ensures forall m :: m in conditions ==> m in old(conditions)
    {
      hide Conserved, Without, Pending;
      ghost var gone := Leaving(conditions, onlyPersistent);
      ghost var k := 0;
      var i := 0;
      SweepStart(conditions, gone);
      while i < |conditions|
        invariant Conserved() && i <= |conditions| && k <= |old(conditions)|
        invariant Pending(conditions, old(conditions), gone, i, k)
        decreases |old(conditions)| - k
      {
        SweepStep(conditions, old(conditions), gone, i, k);
        if onlyPersistent && !conditions[i].Persistent() {
          i := i + 1;
        } else {
          EraseAt(i);
        }
        k := k + 1;
      }
      SweepDone(conditions, old(conditions), gone, i, k);
    }

    lemma ClocksStart(interval: int)
      requires Conserved()
      ensures ClocksAt(conditions, ClocksOf(conditions), interval, 0)
    {
      ClocksAre(conditions);
    }

    /** Condition::executeCondition for one entry of the list, the `k`-th of those there at the start. */
    method TickAt(i: nat, interval: int, now: int, ghost cs: seq<Condition>, ghost clocks: seq<Clock>, ghost k: nat)
      returns (alive: bool)
      requires Conserved() && i < |conditions| && ClocksAt(cs, clocks, interval, k)
      requires k < |cs| && cs[k] == conditions[i]
      modifies conditions[i]
      ensures Conserved() && ClocksAt(cs, clocks, interval, k + 1)
      ensures alive <==> Runs(clocks[k], now)
    {
      hide LoansOf, Loans, SpeedTotal, BonusTotal;
      ghost var before := Loans();
      var c := conditions[i];
      if c.ticks == -1 {
        alive := true;
      } else {
        c.ticks := if c.ticks - interval > 0 then c.ticks - interval else 0;
        alive := c.endTime >= now;
      }
      LoanChanged(i, before);
    }

    /** One turn of executeConditions: the condition at `i` lives on, or is erased and ended. */
    method ExecuteOne(i: nat, interval: int, now: int, ghost cs: seq<Condition>, ghost clocks: seq<Clock>,
                      ghost gone: set<Condition>, ghost k: nat)
      returns (next: nat)
      requires Conserved() && i < |conditions| && Pending(conditions, cs, gone, i, k)
      requires ClocksAt(cs, clocks, interval, k) && Ending(cs, clocks, gone, now)
      modifies this`conditions, this`varSpeed, this`varBonus, conditions[i]
      ensures Conserved() && k < |cs| && next <= |conditions| && Pending(conditions, cs, gone, next, k + 1)
      ensures ClocksAt(cs, clocks, interval, k + 1)
    {
      hide *;
      SweepStep(conditions, cs, gone, i, k);
      EndingAt(cs, clocks, gone, now, k);
      var alive := TickAt(i, interval, now, cs, clocks, k);
      if alive {
        next := i + 1;
      } else {
        EraseAt(i);
        next := i;
      }
    }

    /** executeConditions: the clocks go on, and what has run out is ended. */
    method ExecuteConditions(interval: int, now: int)
      requires Conserved()
      modifies this`conditions, this`varSpeed, this`varBonus, conditions
      ensures Conserved() && conditions == Without(old(conditions), old(Expired(conditions, now)))
      ensures forall m :: m in conditions ==> m in old(conditions)
      ensures ClocksAt(old(conditions), old(ClocksOf(conditions)), interval, |old(conditions)|)
    {
      hide *;
      ghost var cs, gone, clocks := conditions, Expired(conditions, now), ClocksOf(conditions);
      ghost var k := 0;
      var i: nat := 0;
      SweepStart(conditions, gone);
      ClocksStart(interval);
      ExpiredByClock(cs, now);
      while i < |conditions|
        invariant Conserved() && i <= |conditions| && k <= |cs|
        invariant Pending(conditions, cs, gone, i, k)
        invariant ClocksAt(cs, clocks, interval, k) && Ending(cs, clocks, gone, now)
        decreases |cs| - k
      {
        SweepStep(conditions, cs, gone, i, k);
        i := ExecuteOne(i, interval, now, cs, clocks, gone, k);
        k := k + 1;
      }
      SweepDone(conditions, cs, gone, i, k);
    }

    /** A condition that has started joins the end of the list. */
    method PushBack(c: Condition)
      requires c.Valid() && c !in conditions && Owes(c.Lends(isPlayer).speed, c.Lends(isPlayer).bonus)
      modifies this`conditions
      ensures Conserved() && conditions == old(conditions) + [c]
    {
      hide LoansOf, SpeedTotal, BonusTotal;
      ghost var loans := Loans();
      conditions := conditions + [c];
      assert Loans() == loans + [c.Lends(isPlayer)];
      TotalSnoc(loans, c.Lends(isPlayer));
    }

    /** A condition lends now what another one brought: its speed, or one that was drawn, and its bonuses. */
    ghost predicate TookOver(c: Condition, add: Condition, roll: int, gain: seq<int>)
      reads c, add
    {
      && (KindOf(c.typ).Speed? ==> c.speedDelta == if add.speedDelta == 0 then roll else add.speedDelta)
      && (KindOf(c.typ).Attributes? ==>
            && c.Valid() && add.Valid() && |gain| == BONUSES && c.percent == add.percent
            && forall k :: 0 <= k < BONUSES ==>
                 c.bonus[k] == add.bonus[k] + if isPlayer && add.percent[k] != 0 then gain[k] else 0)
    }

    /** The previous condition of the same kind takes the new one in. */
    method Merge(j: nat, add: Condition, roll: int, gain: seq<int>, now: int)
      requires Conserved() && j < |conditions| && add.Valid() && add !in conditions && |gain| == BONUSES
      modifies this`varSpeed, this`varBonus, conditions[j]
      ensures Conserved()
      ensures if old(conditions[j].TakesIn(add, now)) then
                && conditions[j].ticks == add.ticks && conditions[j].endTime == EndAfter(old(conditions[j].endTime), add.ticks, now)
                && TookOver(conditions[j], add, roll, gain)
              else unchanged(conditions[j])
    {
      hide Conserved;
      match KindOf(conditions[j].typ) {
        case Speed => MergeSpeed(j, add, roll, now);
        case Attributes => MergeAttributes(j, add, gain, now);
        case Other => MergeOther(j, add, now);
      }
    }

    /**
     addCondition: merged into a condition of the same type, id and sub-id if there is one; otherwise started,
     put at the end of the list, and haste and paralysis end each other.  `startOk` is what the
     startCondition of the other classes answers; `suppressed` whether the opposite type is suppressed.
     */
    method AddCondition(c: Condition, roll: int, gain: seq<int>, startOk: bool, suppressed: bool, now: int)
      returns (added: bool)
      requires Conserved() && c.Valid() && c !in conditions && |gain| == BONUSES
      modifies this`conditions, this`varSpeed, this`varBonus, conditions, c
      ensures Conserved()
      ensures added == (Known(old(conditions), c.typ, c.id, c.subId) || startOk || !KindOf(c.typ).Other?)
      ensures Known(old(conditions), c.typ, c.id, c.subId) || !added ==> conditions == old(conditions)
      ensures Known(old(conditions), c.typ, c.id, c.subId) ==>
        var m := old(conditions)[First(old(conditions), c.typ, c.id, c.subId)];
        && (if old(m.TakesIn(c, now)) then
              m.ticks == c.ticks && m.endTime == EndAfter(old(m.endTime), c.ticks, now) && TookOver(m, c, roll, gain)
            else unchanged(m))
        && unchanged(c) && forall o :: o in old(conditions) && o != m ==> unchanged(o)
      ensures !Known(old(conditions), c.typ, c.id, c.subId) ==>
        && (added ==> c.ticks == old(c.ticks) && c.endTime == EndAfter(old(c.endTime), c.ticks, now))
        && (added && KindOf(c.typ).Speed? ==> c.speedDelta == if old(c.speedDelta) == 0 then roll else old(c.speedDelta))
        && (added && KindOf(c.typ).Attributes? ==> |c.bonus| == |c.percent| == BONUSES && forall k :: 0 <= k < BONUSES ==>
              c.bonus[k] == old(c.bonus[k]) + if isPlayer && c.percent[k] != 0 then gain[k] else 0)
        && forall o :: o in old(conditions) ==> unchanged(o)
      ensures !Known(old(conditions), c.typ, c.id, c.subId) && added ==>
        conditions == if !suppressed && old(Answered(conditions, Opposite(c.typ), 0, now))
                      then Without(old(conditions) + [c], OfType(old(conditions) + [c], Opposite(c.typ)))
                      else old(conditions) + [c]
      ensures forall m :: m in conditions ==> m in old(conditions) || m == c
      ensures !Known(old(conditions), c.typ, c.id, c.subId) && !suppressed ==>
        && (c.typ == CONDITION_HASTE && old(SomeRunning(conditions, CONDITION_PARALYZE, now)) ==>
              c in conditions && forall m :: m in conditions ==> m.typ != CONDITION_PARALYZE)
        && (c.typ == CONDITION_PARALYZE && old(SomeRunning(conditions, CONDITION_HASTE, now)) ==>
              c in conditions && forall m :: m in conditions ==> m.typ != CONDITION_HASTE)
    {
      hide Conserved, Without, OfType, Known, Answered, Listed, Owes;
      RunningAnswers(conditions, CONDITION_PARALYZE, now);
      RunningAnswers(conditions, CONDITION_HASTE, now);
      ghost var all := conditions + [c];
      WithoutMembers(all, OfType(all, Opposite(c.typ)));
      OfTypeMembers(all, Opposite(c.typ));
      var j := GetCondition(c.typ, c.id, c.subId);
      if 0 <= j {
        Merge(j, c, roll, gain, now);
        return true;
      }
      if !startOk && KindOf(c.typ).Other? {
        return false;
      }
      Start(c, roll, gain, now);
      AnsweredByOthers(conditions, c, Opposite(c.typ), 0, now);
      PushBack(c);
      var has := HasCondition(Opposite(c.typ), 0, suppressed, now);
      if has {
        RemoveType(Opposite(c.typ));
      }
      return true;
    }

    /** A condition that is taken in or started lasts as long as its ticks say, from then on, and no longer. */
    method AddAndExecute(c: Condition, roll: int, gain: seq<int>, startOk: bool, suppressed: bool, now: int, interval: int,
                         later: int)
      returns (added: bool, ghost held: Condition)
      requires Conserved() && c.Valid() && c !in conditions && |gain| == BONUSES && c.ticks > 0
      requires Known(conditions, c.typ, c.id, c.subId) ==>
        conditions[First(conditions, c.typ, c.id, c.subId)].TakesIn(c, now)
      modifies this`conditions, this`varSpeed, this`varBonus, conditions, c
      ensures Conserved() && added == (old(Known(conditions, c.typ, c.id, c.subId)) || startOk || !KindOf(c.typ).Other?)
      ensures held == if old(Known(conditions, c.typ, c.id, c.subId))
                      then old(conditions[First(conditions, c.typ, c.id, c.subId)]) else c
      ensures added ==> (held in conditions <==> later <= now + old(c.ticks))
    {
      hide Conserved, Without, OfType, Known, Answered, Listed, Owes, First, TookOver;
      held := if Known(conditions, c.typ, c.id, c.subId) then conditions[First(conditions, c.typ, c.id, c.subId)] else c;
      ghost var before := conditions + [c];
      added := AddCondition(c, roll, gain, startOk, suppressed, now);
      ghost var there, gone := conditions, Expired(conditions, later);
      if added {
        WithoutMembers(before, OfType(before, Opposite(c.typ)));
        NotOpposite(before, c);
        assert held in there;
      }
      assert forall m :: 0 <= m < |conditions| ==> conditions[m] in conditions;
      ExecuteConditions(interval, later);
      WithoutMembers(there, gone);
    }

    /** removeCondition of one given condition. */
    method RemoveOne(c: Condition)
      requires Conserved()
      modifies this`conditions, this`varSpeed, this`varBonus
      ensures Conserved() && conditions == Without(old(conditions), {c})
      ensures forall m :: m in conditions ==> m in old(conditions)
    {
      hide Conserved, Without;
      var i := 0;
      while i < |conditions| && conditions[i] != c
        invariant i <= |conditions| && c !in conditions[..i]
      {
        i := i + 1;
      }
      if i < |conditions| {
        ListedOnce(i);
        assert conditions == conditions[..i] + [c] + conditions[i + 1..];
        WithoutOne(conditions[..i], c, conditions[i + 1..]);
        EraseAt(i);
      } else {
        WithoutNone(conditions, {c});
      }
    }

    // -------------------------------------------------------------- whole runs

    /** Any sequence of the operations keeps the books balanced; with no condition left nothing is left over. */
    method Run(events: seq<Event>)
      requires Conserved()
      requires forall e :: e in events && e.Add? ==> |e.bonus| == |e.percent| == |e.gain| == BONUSES
      modifies this`conditions, this`varSpeed, this`varBonus, conditions
      ensures Conserved()
      ensures conditions == [] ==> varSpeed == 0 && varBonus == Zeros()
    {
      hide *;
      var i := 0;
      while i < |events|
        invariant 0 <= i <= |events| && Conserved()
        invariant forall c :: c in conditions ==> c in old(conditions) || fresh(c)
      {
        assert forall m :: 0 <= m < |conditions| ==> conditions[m] in conditions;
        assert events[i] in events;
        match events[i] {
          case Add(typ, id, subId, ticks, speed, bonus, percent, roll, gain, startOk, suppressed, now) =>
            var c := new Condition(typ, id, subId, ticks, speed, bonus, percent);
            var _ := AddCondition(c, roll, gain, startOk, suppressed, now);
          case RemoveType(typ) => RemoveType(typ);
          case RemoveTypeId(typ, id) => RemoveTypeId(typ, id);
          case RemoveAt(k) => if k < |conditions| { RemoveOne(conditions[k]); }
          case RemoveAll(onlyPersistent) => RemoveConditions(onlyPersistent);
          case Execute(interval, now) => ExecuteConditions(interval, now);
        }
        i := i + 1;
      }
      if conditions == [] {
        NothingLeft();
      }
    }
  }
}
