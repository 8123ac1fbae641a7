/**
 House rent: what a visit of the rent collector does to a house and its owner, and what follows for a
 whole tenancy.  The rules for one visit come first, on values, then the code, which changes house and
 player in place, and then charges, warnings and evictions over any run of visits.
 */
module HouseRent {

  const UINT32: nat := 0x1_0000_0000
  const DAY: nat := 86400

  datatype Period = Daily | Weekly | Monthly | Yearly | Never

  function Seconds(period: Period): (s: nat)
    ensures period.Never? <==> s == 0
  {
    match period
    case Daily => DAY
    case Weekly => 7 * DAY
    case Monthly => 30 * DAY
    case Yearly => 365 * DAY
    case Never => 0
  }

  function WarningsLimit(period: Period): (n: nat)
  {
    match period
    case Daily => 1
    case Weekly => 3
    case Monthly => 7
    case Yearly => 14
    case Never => 7
  }

  datatype Config = Config(period: Period, bank: bool, needPremium: bool, cleanOld: int)

  /** The fields of a house that the collector reads and writes; times are 64 bits wide. */
  datatype Tenancy = Tenancy(owner: nat, paidUntil: nat, rentWarnings: nat, lastWarning: nat)

  /**
   What the collector finds out: the town, the guild leader, the name, the player (possibly offline), and
   whether the rent can be paid from the bank or the depot.
   */
  datatype Finding = Finding(town: bool, leader: bool, named: bool, loaded: bool, premium: bool, lastLogin: nat,
                             ignoresRent: bool, pays: bool)

  /** One visit. */
  datatype Visit = Visit(time: nat, bid: nat, found: Finding)

  datatype Event =
    | Nothing
    | Charged(time: nat, amount: nat)
    | Warned(time: nat)
    | EvictedUnpaid(time: nat)
    | EvictedOtherwise(time: nat)

  /** uint32_t amount = rent + bid */
  function Amount(rent: nat, bid: nat): nat
  {
    (rent + bid) % UINT32
  }

  /** uint32_t paidUntil = time + period */
  function PaidUntil(time: nat, period: Period): nat
  {
    (time + Seconds(period)) % UINT32
  }

  /** setOwnerEx(0): the house is free again. */
  function Vacated(h: Tenancy): Tenancy
  {
    if h.owner == 0 then h else Tenancy(0, 0, 0, 0)
  }

  /** Nothing is due. */
  predicate Settled(cfg: Config, h: Tenancy, rent: nat, time: nat)
  {
    cfg.period.Never? || h.owner == 0 || h.paidUntil > time || rent == 0
  }

  /** Reasons to lose a house that have nothing to do with the rent. */
  predicate Forfeits(cfg: Config, guild: bool, time: nat, found: Finding)
  {
    || (guild && !found.leader)
    || !found.named
    || (found.loaded && cfg.needPremium && !found.premium)
    || (found.loaded && cfg.cleanOld != 0 && time >= found.lastLogin + cfg.cleanOld)
  }

  /** What one visit does. */
  function Visited(cfg: Config, h: Tenancy, rent: nat, guild: bool, v: Visit): (Tenancy, Event)
  {
    if Settled(cfg, h, rent, v.time) || !v.found.town then (h, Nothing)
    else if Forfeits(cfg, guild, v.time, v.found) then (Vacated(h), EvictedOtherwise(v.time))
    else if !v.found.loaded || v.found.ignoresRent then (h, Nothing)
    else if v.found.pays then
      (h.(paidUntil := PaidUntil(v.time, cfg.period)), Charged(v.time, Amount(rent, v.bid)))
    else if v.time < h.lastWarning + DAY then (h, Nothing)
    else if h.rentWarnings < WarningsLimit(cfg.period) then
      (h.(rentWarnings := h.rentWarnings + 1, lastWarning := v.time), Warned(v.time))
    else (Vacated(h), EvictedUnpaid(v.time))
  }

  /** What setOwnerEx leaves to a new owner of a free house at time `t`. */
  predicate AcquiredAt(h: Tenancy, t: nat)
  {
    h.owner != 0 && h.rentWarnings == 0 && h.lastWarning == t
  }

  /** A free house carries no warnings over to its next owner. */
  predicate FreeIsClean(h: Tenancy)
  {
    h.owner == 0 ==> h.rentWarnings == 0
  }

  lemma Truncated(time: nat, s: nat)
    ensures (time % UINT32 + s) % UINT32 == (time + s) % UINT32
  {
  }

  // ---------------------------------------------------------------- the code

  class Player {
    const hasDepot: bool
    const ignoresRent: bool
    const premium: bool
    const lastLogin: nat
    var balance: nat
    var depotMoney: nat

    constructor (hasDepot: bool, ignoresRent: bool, premium: bool, lastLogin: nat, balance: nat, depotMoney: nat)
    {
      this.hasDepot, this.ignoresRent, this.premium, this.lastLogin := hasDepot, ignoresRent, premium, lastLogin;
      this.balance, this.depotMoney := balance, depotMoney;
    }

    predicate CanPay(bank: bool, amount: nat)
      reads this
    {
      (bank && balance >= amount) || (hasDepot && depotMoney >= amount)
    }

    /** removeMoney from the depot: exactly the amount, or nothing at all. */
    method RemoveMoney(amount: nat) returns (ok: bool)
      modifies this`depotMoney
      ensures ok <==> old(depotMoney) >= amount
      ensures depotMoney == if ok then old(depotMoney) - amount else old(depotMoney)
    {
      ok := depotMoney >= amount;
      if ok {
        depotMoney := depotMoney - amount;
      }
    }
  }

  class House {
    const rent: nat
    const isGuild: bool
    var owner: nat
    var paidUntil: nat
    var rentWarnings: nat
    var lastWarning: nat

    constructor (rent: nat, isGuild: bool)
      ensures State() == Tenancy(0, 0, 0, 0)
    {
      this.rent, this.isGuild := rent, isGuild;
      owner, paidUntil, rentWarnings, lastWarning := 0, 0, 0, 0;
    }

    function State(): Tenancy
      reads this
    {
      Tenancy(owner, paidUntil, rentWarnings, lastWarning)
    }

    /**
     setOwnerEx; for a guild hall the new owner is the guild of the player, `guildOf`, if the player exists.
     Storing it in the database is not part of this model.
     */
    method SetOwnerEx(guid: nat, guildOf: nat, known: bool, now: nat) returns (ok: bool)
      modifies this
      ensures old(owner) == guid ==> ok && State() == old(State())
      ensures old(owner) != guid && isGuild && guid != 0 && !known ==> !ok && State() == old(State())
      ensures old(owner) != guid && !(isGuild && guid != 0 && !known) ==>
        var newOwner := if isGuild && guid != 0 then guildOf else guid;
        && ok && owner == newOwner && lastWarning == (if newOwner != 0 then now else 0)
        && rentWarnings == (if old(owner) != 0 then 0 else old(rentWarnings))
        && paidUntil == (if old(owner) != 0 then 0 else old(paidUntil))
      ensures old(FreeIsClean(State())) ==>
        FreeIsClean(State()) && (State() != old(State()) && owner != 0 ==> AcquiredAt(State(), now))
    {
      if owner == guid { return true; }
      var newOwner := guid;
      if isGuild && guid != 0 {
        if !known { return false; }
        newOwner := guildOf;
      }
      if owner != 0 {
        rentWarnings, paidUntil := 0, 0;
      }
      owner := newOwner;
      if newOwner != 0 {
        lastWarning := now;
      } else {
        lastWarning := 0;
      }
      ok := true;
    }

    method Vacate()
      modifies this
      ensures State() == Vacated(old(State()))
    {
      var _ := SetOwnerEx(0, 0, true, 0);
    }

    /** payRent; a time of 0 means the clock. */
    method PayRent(cfg: Config, player: Player, town: bool, bid: nat, time: nat, clock: nat) returns (paid: bool)
      modifies this`paidUntil, player
      ensures Settled(cfg, old(State()), rent, time) || player.ignoresRent ==>
        paid && State() == old(State()) && player.balance == old(player.balance) && player.depotMoney == old(player.depotMoney)
      ensures !(Settled(cfg, old(State()), rent, time) || player.ignoresRent) ==>
        && (paid <==> town && old(player.CanPay(cfg.bank, Amount(rent, bid))))
        && (if paid && cfg.bank && old(player.balance) >= Amount(rent, bid)
            then player.balance == old(player.balance) - Amount(rent, bid) && player.depotMoney == old(player.depotMoney)
            else player.balance == old(player.balance)
                 && player.depotMoney == old(player.depotMoney) - if paid then Amount(rent, bid) else 0)
        && paidUntil == if paid then PaidUntil(if time == 0 then clock else time, cfg.period) else old(paidUntil)
    {
      if cfg.period.Never? || owner == 0 || paidUntil > time || rent == 0 || player.ignoresRent { return true; }
      if !town { return false; }
      paid := false;
      var amount := (rent + bid) % UINT32;
      if cfg.bank && player.balance >= amount {
        player.balance := player.balance - amount;
        paid := true;
      } else if player.hasDepot {
        paid := player.RemoveMoney(amount);
      }
      if !paid { return; }
      var when := if time == 0 then clock else time;
      var until := when % UINT32;
      Truncated(when, Seconds(cfg.period));
      hide Amount;
      match cfg.period {
        case Daily => until := (until + 86400) % UINT32;
        case Weekly => until := (until + 7 * 86400) % UINT32;
        case Monthly => until := (until + 30 * 86400) % UINT32;
        case Yearly => until := (until + 365 * 86400) % UINT32;
        case Never =>
      }
      paidUntil := until;
    }

    /** payHouse; `player` is null when the owner cannot be loaded. */
    method PayHouse(cfg: Config, time: nat, bid: nat, town: bool, leader: bool, named: bool, player: Player?)
      returns (paid: bool, ghost event: Event)
      requires time > 0
      modifies this, player
      ensures var found := Finding(town, leader, named, player != null, player != null && player.premium,
                                   if player != null then player.lastLogin else 0, player != null && player.ignoresRent,
                                   player != null && old(player.CanPay(cfg.bank, Amount(rent, bid))));
              (State(), event) == Visited(cfg, old(State()), rent, isGuild, Visit(time, bid, found))
      ensures player != null ==>
        player.balance + player.depotMoney ==
        old(player.balance + player.depotMoney) - (if event.Charged? then event.amount else 0)
      ensures paid <==> event.Charged? || Settled(cfg, old(State()), rent, time)
                        || (event == Nothing && town && player != null && player.ignoresRent)
    {
      event := Nothing;
      if cfg.period.Never? || owner == 0 || paidUntil > time || rent == 0 { return true, event; }
      if !town { return false, event; }
      if isGuild && !leader {
        Vacate();
        return false, EvictedOtherwise(time);
      }
      if !named {
        Vacate();
        return false, EvictedOtherwise(time);
      }
      if player == null { return false, event; }
      if !player.premium && cfg.needPremium {
        Vacate();
        return false, EvictedOtherwise(time);
      }
      if cfg.cleanOld != 0 && time >= player.lastLogin + cfg.cleanOld {
        Vacate();
        return false, EvictedOtherwise(time);
      }
      paid := PayRent(cfg, player, town, bid, time, time);
      if paid && !player.ignoresRent {
        event := Charged(time, Amount(rent, bid));
      }
      if !paid && time >= lastWarning + 86400 {
        var warningsLimit := 7;
        match cfg.period {
          case Daily => warningsLimit := 1;
          case Weekly => warningsLimit := 3;
          case Monthly => warningsLimit := 7;
          case Yearly => warningsLimit := 14;
          case Never =>
        }
        var warnings := rentWarnings;
        if warnings < warningsLimit {
          warnings := warnings + 1;
          rentWarnings := warnings;
          lastWarning := time;
          event := Warned(time);
        } else {
          Vacate();
          event := EvictedUnpaid(time);
        }
      }
    }
  }

  // ---------------------------------------------------------------- whole tenancies

  /** The visits one after the other: what is left in the end, and what each of them did. */
  function Run(cfg: Config, h: Tenancy, rent: nat, guild: bool, visits: seq<Visit>): (r: (Tenancy, seq<Event>))
    ensures |r.1| == |visits|
    decreases |visits|
  {
    if visits == [] then (h, [])
    else
      var (h', event) := Visited(cfg, h, rent, guild, visits[0]);
      var (h'', events) := Run(cfg, h', rent, guild, visits[1..]);
      (h'', [event] + events)
  }

  /** Every visit is early enough for its paid-until to fit 32 bits. */
  ghost predicate BeforeRollover(cfg: Config, visits: seq<Visit>)
  {
    forall i :: 0 <= i < |visits| ==> visits[i].time + Seconds(cfg.period) < UINT32
  }

  /** A charge holds off the next one for a whole period exactly while the date fits 32 bits. */
  lemma PeriodHoldsExactly(cfg: Config, h: Tenancy, rent: nat, time: nat)
    requires h.owner != 0 && rent != 0 && !cfg.period.Never?
    ensures (forall t :: time <= t < time + Seconds(cfg.period) ==>
               Settled(cfg, h.(paidUntil := PaidUntil(time, cfg.period)), rent, t))
            <==> time + Seconds(cfg.period) < UINT32
  {
    var h' := h.(paidUntil := PaidUntil(time, cfg.period));
    if time + Seconds(cfg.period) >= UINT32 {
      assert PaidUntil(time, cfg.period) <= time;
      assert !Settled(cfg, h', rent, time);
    }
  }

  /** A house without owner stays as it is. */
  lemma {:induction false} VacantStays(cfg: Config, h: Tenancy, rent: nat, guild: bool, visits: seq<Visit>)
    requires h.owner == 0
    ensures var (h', events) := Run(cfg, h, rent, guild, visits);
            h' == h && forall i :: 0 <= i < |events| ==> events[i] == Nothing
    decreases |visits|
  {
    if visits != [] {
      VacantStays(cfg, h, rent, guild, visits[1..]);
    }
  }

  ghost predicate NoChargeBefore(t: nat, events: seq<Event>)
  {
    forall i :: 0 <= i < |events| && events[i].Charged? ==> events[i].time >= t
  }

  /** No charge comes before the time that is paid for. */
  lemma {:induction false} ChargedAfterPaid(cfg: Config, h: Tenancy, rent: nat, guild: bool, visits: seq<Visit>)
    requires BeforeRollover(cfg, visits)
    ensures NoChargeBefore(h.paidUntil, Run(cfg, h, rent, guild, visits).1)
    decreases |visits|
  {
    if visits != [] {
      var (h', event) := Visited(cfg, h, rent, guild, visits[0]);
      var rest := Run(cfg, h', rent, guild, visits[1..]).1;
      assert event.Charged? ==> h'.paidUntil == visits[0].time + Seconds(cfg.period);
      if h'.owner == 0 {
        VacantStays(cfg, h', rent, guild, visits[1..]);
      } else {
        ChargedAfterPaid(cfg, h', rent, guild, visits[1..]);
        assert h'.paidUntil >= h.paidUntil;
      }
      assert NoChargeBefore(h.paidUntil, rest);
      assert Run(cfg, h, rent, guild, visits).1 == [event] + rest;
    }
  }

  /**
   Between two charges of a tenancy lies at least one period, and each charge takes the rent plus the bid,
   in the arithmetic of 32 bits.
   */
  lemma {:induction false} ChargesApart(cfg: Config, h: Tenancy, rent: nat, guild: bool, visits: seq<Visit>)
    requires BeforeRollover(cfg, visits)
    ensures var events := Run(cfg, h, rent, guild, visits).1;
            && (forall i, j :: 0 <= i < j < |events| && events[i].Charged? && events[j].Charged? ==>
                  events[j].time >= events[i].time + Seconds(cfg.period))
            && forall i :: 0 <= i < |events| && events[i].Charged? ==>
                 events[i].time == visits[i].time && events[i].amount == (rent + visits[i].bid) % UINT32
    decreases |visits|
  {
    if visits != [] {
      var (h', event) := Visited(cfg, h, rent, guild, visits[0]);
      var rest := Run(cfg, h', rent, guild, visits[1..]).1;
      ChargesApart(cfg, h', rent, guild, visits[1..]);
      ChargedAfterPaid(cfg, h', rent, guild, visits[1..]);
      assert Run(cfg, h, rent, guild, visits).1 == [event] + rest;
      hide Run;
      if event.Charged? {
        assert h'.paidUntil == visits[0].time + Seconds(cfg.period);
      }
    }
  }

  function Warnings(events: seq<Event>): nat
  {
    if events == [] then 0 else (if events[0].Warned? then 1 else 0) + Warnings(events[1..])
  }

  /**
   A tenancy ends for unpaid rent only after all its warnings were given, each at least a day after the one
   before; a payment in between does not take warnings back.
   */
  lemma {:induction false} EvictedLate(cfg: Config, h: Tenancy, rent: nat, guild: bool, visits: seq<Visit>)
    requires h.rentWarnings <= WarningsLimit(cfg.period)
    ensures var (h', events) := Run(cfg, h, rent, guild, visits);
            && h'.rentWarnings <= WarningsLimit(cfg.period)
            && (h.owner != 0 && h'.owner != 0 ==> h'.rentWarnings == h.rentWarnings + Warnings(events))
            && forall i :: 0 <= i < |events| && events[i].EvictedUnpaid? ==>
                 && events[i].time == visits[i].time
                 && events[i].time >= h.lastWarning + (WarningsLimit(cfg.period) + 1 - h.rentWarnings) * DAY
    decreases |visits|
  {
    if visits != [] {
      var (h', event) := Visited(cfg, h, rent, guild, visits[0]);
      var (h'', rest) := Run(cfg, h', rent, guild, visits[1..]);
      assert Run(cfg, h, rent, guild, visits) == (h'', [event] + rest);
      assert ([event] + rest)[1..] == rest;
      hide Run;
      if h'.owner == 0 {
        VacantStays(cfg, h', rent, guild, visits[1..]);
      } else {
        EvictedLate(cfg, h', rent, guild, visits[1..]);
      }
    }
  }

  lemma {:induction false} FreeStaysClean(cfg: Config, h: Tenancy, rent: nat, guild: bool, visits: seq<Visit>)
    requires FreeIsClean(h)
    ensures FreeIsClean(Run(cfg, h, rent, guild, visits).0)
    decreases |visits|
  {
    if visits != [] {
      FreeStaysClean(cfg, Visited(cfg, h, rent, guild, visits[0]).0, rent, guild, visits[1..]);
    }
  }

  /** From the day a house was acquired, nobody loses it for unpaid rent within the first limit + 1 days. */
  lemma EvictionBound(cfg: Config, h: Tenancy, rent: nat, guild: bool, visits: seq<Visit>, t: nat)
    requires AcquiredAt(h, t)
    ensures var events := Run(cfg, h, rent, guild, visits).1;
            forall i :: 0 <= i < |events| && events[i].EvictedUnpaid? ==>
              events[i].time >= t + (WarningsLimit(cfg.period) + 1) * DAY
  {
    EvictedLate(cfg, h, rent, guild, visits);
  }

  /** Nothing speaks against the owner, and if he is there to be charged he pays. */
  predicate GoodOwner(cfg: Config, guild: bool, v: Visit)
  {
    && v.found.named && (guild ==> v.found.leader)
    && (v.found.loaded ==>
          && (cfg.needPremium ==> v.found.premium)
          && (cfg.cleanOld == 0 || v.time < v.found.lastLogin + cfg.cleanOld)
          && (v.found.ignoresRent || v.found.pays))
  }

  /** Whoever is named, leads the guild if it is a guild's house, keeps his account up and pays stays, and is never warned. */
  lemma {:induction false} PayersStay(cfg: Config, h: Tenancy, rent: nat, guild: bool, visits: seq<Visit>)
    requires forall i :: 0 <= i < |visits| ==> GoodOwner(cfg, guild, visits[i])
    ensures var (h', events) := Run(cfg, h, rent, guild, visits);
            && h' == h.(paidUntil := h'.paidUntil)
            && forall i :: 0 <= i < |events| ==> events[i].Nothing? || events[i].Charged?
    decreases |visits|
  {
    if visits != [] {
      var (h', event) := Visited(cfg, h, rent, guild, visits[0]);
      hide Run;
      PayersStay(cfg, h', rent, guild, visits[1..]);
      RunNext(cfg, h, rent, guild, visits);
    }
  }

  /** Whoever is there, keeps his account up and pays is charged the rent and the bid exactly when rent is due. */
  lemma ChargedExactly(cfg: Config, h: Tenancy, rent: nat, guild: bool, v: Visit)
    requires GoodOwner(cfg, guild, v) && v.found.town && v.found.loaded && !v.found.ignoresRent
    ensures var due := h.owner != 0 && rent != 0 && !cfg.period.Never? && h.paidUntil <= v.time;
      Visited(cfg, h, rent, guild, v) ==
      if due then (h.(paidUntil := (v.time + Seconds(cfg.period)) % UINT32), Charged(v.time, (rent + v.bid) % UINT32))
      else (h, Nothing)
  {
  }

  lemma RunNext(cfg: Config, h: Tenancy, rent: nat, guild: bool, visits: seq<Visit>)
    requires visits != []
    ensures var (h', event) := Visited(cfg, h, rent, guild, visits[0]);
            var (h'', rest) := Run(cfg, h', rent, guild, visits[1..]);
            Run(cfg, h, rent, guild, visits) == (h'', [event] + rest)
  {
  }

  /** A visit takes the house away, though not for unpaid rent, exactly when rent is due and one of four things is wrong. */
  lemma LostOtherwise(cfg: Config, h: Tenancy, rent: nat, guild: bool, v: Visit)
    ensures Visited(cfg, h, rent, guild, v) == (Vacated(h), EvictedOtherwise(v.time)) <==>
      && h.owner != 0 && rent != 0 && !cfg.period.Never? && h.paidUntil <= v.time && v.found.town
      && (|| !v.found.named || (guild && !v.found.leader)
          || (v.found.loaded && ((cfg.needPremium && !v.found.premium)
                                 || (cfg.cleanOld != 0 && v.found.lastLogin + cfg.cleanOld <= v.time))))
  {
  }

  /** The owner is there to be charged, and does not pay. */
  predicate FailsToPay(cfg: Config, guild: bool, v: Visit)
  {
    v.found.town && v.found.loaded && !v.found.ignoresRent && !v.found.pays && !Forfeits(cfg, guild, v.time, v.found)
  }

  /** Daily visits to somebody who never pays: each gives a warning until the limit, and the next one evicts. */
  lemma {:induction false} NeverPaying(cfg: Config, h: Tenancy, rent: nat, guild: bool, visits: seq<Visit>)
    requires h.owner != 0 && rent != 0 && !cfg.period.Never? && h.rentWarnings <= WarningsLimit(cfg.period)
    requires |visits| == WarningsLimit(cfg.period) + 1 - h.rentWarnings
    requires forall i :: 0 <= i < |visits| ==> FailsToPay(cfg, guild, visits[i]) && visits[i].time >= h.paidUntil
    requires forall i, j :: 0 <= i < j < |visits| ==> visits[i].time + DAY <= visits[j].time
    requires visits[0].time >= h.lastWarning + DAY
    ensures var (h', events) := Run(cfg, h, rent, guild, visits);
            && h'.owner == 0 && events[|events| - 1] == EvictedUnpaid(visits[|visits| - 1].time)
            && forall i :: 0 <= i < |events| - 1 ==> events[i] == Warned(visits[i].time)
    decreases |visits|
  {
    var (h', event) := Visited(cfg, h, rent, guild, visits[0]);
    var (h'', rest) := Run(cfg, h', rent, guild, visits[1..]);
    assert Run(cfg, h, rent, guild, visits) == (h'', [event] + rest);
    if |visits| == 1 {
      assert event == EvictedUnpaid(visits[0].time);
      VacantStays(cfg, h', rent, guild, visits[1..]);
    } else {
      hide Run;
      NeverPaying(cfg, h', rent, guild, visits[1..]);
    }
  }
}
