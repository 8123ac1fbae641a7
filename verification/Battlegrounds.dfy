/**
 The battleground: a list of waiting players, two teams built from its strongest, and later arrivals put
 into the smaller team.  First the sorting of the list and the dealing out of its head, then the rules for
 building and joining on values, the code as a class proved against them, and what holds over every run of
 joins and kicks: full and disjoint teams, nobody twice, no team past its size, a small gap.
 */
module Battlegrounds {
  import opened Basics

  /** 127.0.0.1, for which several characters at a time are let through. */
  const LOCALHOST: nat := 16777343

  datatype Player = Player(id: nat, level: nat, ip: nat)

  datatype Status = BuildingTeams | Preparing | Started | Finished

  datatype Answer =
    | Closed
    | CanNotJoin
    | AlreadyInWaitlist
    | PutInWaitlist
    | NoError
    | InFight
    | PutDirectly
    | PutInside

  // ---------------------------------------------------------------- std::list::sort by level

  ghost predicate Descending(s: seq<Player>)
  {
    forall i, j :: 0 <= i < j < |s| ==> s[i].level >= s[j].level
  }

  /** The players of one level, in their order. */
  ghost function OfLevel(s: seq<Player>, level: nat): seq<Player>
  {
    if s == [] then []
    else (if s[0].level == level then [s[0]] else []) + OfLevel(s[1..], level)
  }

  /** Behind everybody of at least the same level. */
  function Inserted(s: seq<Player>, p: Player): (r: seq<Player>)
    ensures |r| == |s| + 1
  {
    if s == [] then [p]
    else if s[0].level >= p.level then [s[0]] + Inserted(s[1..], p)
    else [p] + s
  }

  /** A stable sort, highest level first. */
  function Sorted(s: seq<Player>): (r: seq<Player>)
    ensures |r| == |s|
  {
    if s == [] then [] else Inserted(Sorted(s[..|s| - 1]), s[|s| - 1])
  }

  lemma {:induction false} InsertedSame(s: seq<Player>, p: Player)
    ensures multiset(Inserted(s, p)) == multiset(s) + multiset{p}
  {
    if s != [] {
      assert s == [s[0]] + s[1..];
      InsertedSame(s[1..], p);
    }
  }

  /** Sorting neither loses nor adds anybody. */
  lemma {:induction false} SortedSame(s: seq<Player>)
    ensures multiset(Sorted(s)) == multiset(s)
  {
    if s != [] {
      assert s == s[..|s| - 1] + [s[|s| - 1]];
      SortedSame(s[..|s| - 1]);
      InsertedSame(Sorted(s[..|s| - 1]), s[|s| - 1]);
    }
  }

  lemma {:induction false} InsertedDescends(s: seq<Player>, p: Player)
    requires Descending(s)
    ensures Descending(Inserted(s, p))
  {
    if s != [] && s[0].level >= p.level {
      InsertedDescends(s[1..], p);
      InsertedSame(s[1..], p);
      var r := Inserted(s[1..], p);
      forall i | 0 <= i < |r| ensures s[0].level >= r[i].level {
        assert r[i] in multiset(r);
        assert r[i] == p || r[i] in s[1..];
      }
    }
  }

  lemma {:induction false} SortedDescends(s: seq<Player>)
    ensures Descending(Sorted(s))
  {
    if s != [] {
      SortedDescends(s[..|s| - 1]);
      InsertedDescends(Sorted(s[..|s| - 1]), s[|s| - 1]);
    }
  }

  lemma OfLevelFirst(p: Player, s: seq<Player>, level: nat)
    ensures OfLevel([p] + s, level) == (if p.level == level then [p] else []) + OfLevel(s, level)
  {
    assert ([p] + s)[1..] == s;
  }

  lemma OfNone(level: nat)
    ensures OfLevel([], level) == []
  {
  }

  lemma {:induction false} OfLevelConcat(a: seq<Player>, b: seq<Player>, level: nat)
    ensures OfLevel(a + b, level) == OfLevel(a, level) + OfLevel(b, level)
  {
    hide OfLevel;
    if a == [] {
      OfNone(level);
      assert a + b == b;
    } else {
      OfLevelConcat(a[1..], b, level);
      OfLevelFirst(a[0], a[1..], level);
      OfLevelFirst(a[0], a[1..] + b, level);
      assert a == [a[0]] + a[1..] && a + b == [a[0]] + (a[1..] + b);
    }
  }

  lemma DescendsOn(s: seq<Player>)
    ensures Descending(s) && s != [] ==>
      (Descending(s[1..]) && forall i :: 0 <= i < |s| ==> s[i].level <= s[0].level)
  {
  }

  lemma {:induction false} InsertedStable(s: seq<Player>, p: Player, level: nat)
    requires Descending(s)
    ensures OfLevel(Inserted(s, p), level) == OfLevel(s, level) + OfLevel([p], level)
  {
    hide OfLevel, Descending;
    if s == [] {
      OfLevelConcat([], [p], level);
      assert [] + [p] == [p];
    } else {
      DescendsOn(s);
      if s[0].level >= p.level {
        InsertedStable(s[1..], p, level);
        OfLevelFirst(s[0], s[1..], level);
        OfLevelFirst(s[0], Inserted(s[1..], p), level);
        assert s == [s[0]] + s[1..];
      } else {
        StrongerFirst(s, p, level);
      }
    }
  }

  lemma StrongerFirst(s: seq<Player>, p: Player, level: nat)
    requires forall i :: 0 <= i < |s| ==> s[i].level < p.level
    ensures OfLevel([p] + s, level) == OfLevel(s, level) + OfLevel([p], level)
  {
    hide OfLevel;
    OfLevelConcat([p], s, level);
    if level == p.level {
      NoneOfLevel(s, level);
    } else {
      NoneOfLevel([p], level);
    }
  }

  lemma {:induction false} NoneOfLevel(s: seq<Player>, level: nat)
    requires forall i :: 0 <= i < |s| ==> s[i].level != level
    ensures OfLevel(s, level) == []
  {
    if s != [] {
      NoneOfLevel(s[1..], level);
    }
  }

  /** Players of the same level keep their order in the list. */
  lemma {:induction false} SortedStable(s: seq<Player>, level: nat)
    ensures OfLevel(Sorted(s), level) == OfLevel(s, level)
  {
    hide OfLevel, Inserted, Descending;
    if s != [] {
      var init, last := s[..|s| - 1], s[|s| - 1];
      SortedStable(init, level);
      SortedDescends(init);
      InsertedStable(Sorted(init), last, level);
      OfLevelConcat(init, [last], level);
      assert s == init + [last];
    }
  }

  /** The head of the sorted list holds the strongest: nobody behind it has a higher level. */
  lemma StrongestFirst(s: seq<Player>, n: nat)
    requires n <= |s|
    ensures multiset(Sorted(s)[..n]) + multiset(Sorted(s)[n..]) == multiset(s)
    ensures forall p, q :: p in Sorted(s)[..n] && q in Sorted(s)[n..] ==> p.level >= q.level
  {
    hide *;
    SortedSame(s);
    SortedDescends(s);
    SplitDescends(Sorted(s), n);
    assert Sorted(s) == Sorted(s)[..n] + Sorted(s)[n..];
  }

  lemma SplitDescends(s: seq<Player>, n: nat)
    requires n <= |s| && Descending(s)
    ensures forall p, q :: p in s[..n] && q in s[n..] ==> p.level >= q.level
  {
    forall p, q | p in s[..n] && q in s[n..] ensures p.level >= q.level {
      var i :| 0 <= i < n && s[i] == p;
      var j :| n <= j < |s| && s[j] == q;
    }
  }

  // ---------------------------------------------------------------- dealing out

  /** Every second player, starting with the first (0) or the second (1). */
  function Picked(s: seq<Player>, parity: nat): seq<Player>
  {
    if s == [] then []
    else Picked(s[..|s| - 1], parity) + if (|s| - 1) % 2 == parity then [s[|s| - 1]] else []
  }

  function Levels(s: seq<Player>): nat
  {
    if s == [] then 0 else Levels(s[..|s| - 1]) + s[|s| - 1].level
  }

  ghost function Ids(s: seq<Player>): (r: set<nat>)
  {
    set p | p in s :: p.id
  }

  ghost predicate DistinctIds(s: seq<Player>)
  {
    forall i, j :: 0 <= i < j < |s| ==> s[i].id != s[j].id
  }

  lemma {:induction false} PickedHalf(s: seq<Player>, k: nat)
    requires |s| == 2 * k
    ensures |Picked(s, 0)| == |Picked(s, 1)| == k
  {
    if k > 0 {
      PickedPair(s);
      PickedHalf(s[..|s| - 2], k - 1);
    }
  }

  lemma PickedNext(s: seq<Player>, p: Player, parity: nat)
    ensures Picked(s + [p], parity) == Picked(s, parity) + if |s| % 2 == parity then [p] else []
  {
    assert (s + [p])[..|s|] == s;
  }

  lemma PickedPair(s: seq<Player>)
    requires |s| >= 2 && |s| % 2 == 0
    ensures Picked(s, 0) == Picked(s[..|s| - 2], 0) + [s[|s| - 2]]
    ensures Picked(s, 1) == Picked(s[..|s| - 2], 1) + [s[|s| - 1]]
  {
    hide Picked;
    var rest, a, b := s[..|s| - 2], s[|s| - 2], s[|s| - 1];
    assert s == (rest + [a]) + [b];
    PickedNext(rest, a, 0);
    PickedNext(rest, a, 1);
    PickedNext(rest + [a], b, 0);
    PickedNext(rest + [a], b, 1);
  }

  lemma LevelsNext(s: seq<Player>, p: Player)
    ensures Levels(s + [p]) == Levels(s) + p.level
  {
    assert (s + [p])[..|s|] == s;
  }

  /** The first team is at least as strong, by no more than the highest less the lowest level dealt out. */
  lemma {:induction false} Fair(s: seq<Player>)
    requires Descending(s) && |s| % 2 == 0 && s != []
    ensures 0 <= Levels(Picked(s, 0)) - Levels(Picked(s, 1)) <= s[0].level - s[|s| - 1].level
  {
    var rest, a, b := s[..|s| - 2], s[|s| - 2], s[|s| - 1];
    PickedPair(s);
    LevelsNext(Picked(rest, 0), a);
    LevelsNext(Picked(rest, 1), b);
    if rest != [] {
      Fair(rest);
    }
  }

  lemma {:induction false} PickedFrom(s: seq<Player>, p: Player)
    ensures p in Picked(s, 0) || p in Picked(s, 1) <==> p in s
  {
    if s != [] {
      PickedFrom(s[..|s| - 1], p);
      assert s == s[..|s| - 1] + [s[|s| - 1]];
    }
  }

  lemma IdsNext(s: seq<Player>, p: Player)
    ensures Ids(s + [p]) == Ids(s) + {p.id}
    ensures DistinctIds(s + [p]) <==> DistinctIds(s) && p.id !in Ids(s)
  {
    var t := s + [p];
    assert forall i :: 0 <= i < |s| ==> t[i] == s[i];
    if p.id in Ids(s) {
      var q :| q in s && q.id == p.id;
      var i :| 0 <= i < |s| && s[i] == q;
      assert t[i].id == t[|s|].id;
    } else {
      assert forall i :: 0 <= i < |s| ==> s[i] in s && s[i].id != p.id;
    }
  }

  lemma {:induction false} AllIds(s: seq<Player>)
    ensures |Ids(s)| <= |s| && (|Ids(s)| == |s| <==> DistinctIds(s))
  {
    if s == [] {
      assert Ids(s) == {};
    } else {
      var init, last := s[..|s| - 1], s[|s| - 1];
      AllIds(init);
      assert s == init + [last];
      IdsNext(init, last);
      hide Ids, DistinctIds;
      if last.id in Ids(init) {
        assert Ids(init) + {last.id} == Ids(init);
      }
    }
  }

  /** The teams are full and share nobody exactly when nobody was dealt out twice. */
  lemma FullTeams(s: seq<Player>, n: nat)
    requires |s| == 2 * n
    ensures |Ids(Picked(s, 0))| == n && |Ids(Picked(s, 1))| == n && Ids(Picked(s, 0)) !! Ids(Picked(s, 1))
            <==> DistinctIds(s)
  {
    PickedHalf(s, n);
    AllIds(Picked(s, 0));
    AllIds(Picked(s, 1));
    AllIds(s);
    EverybodyPicked(s);
    hide *;
    TwoHalves(Ids(Picked(s, 0)), Ids(Picked(s, 1)), Ids(s), n);
  }

  /** Two sets of at most `n` make up 2n exactly when both have `n` and share nothing. */
  lemma TwoHalves(one: set<nat>, two: set<nat>, all: set<nat>, n: nat)
    requires all == one + two && |one| <= n && |two| <= n
    ensures |one| == n && |two| == n && one !! two <==> |all| == 2 * n
  {
    assert |one + two| + |one * two| == |one| + |two|;
    if |one * two| == 0 {
      assert one * two == {};
    }
    if one !! two {
      assert one * two == {};
    }
  }

  // ---------------------------------------------------------------- the battleground

  /** map::insert: a key that is already there keeps its entry; newcomers are not inside yet. */
  function Joined(team: map<nat, bool>, id: nat): map<nat, bool>
  {
    if id in team then team else team[id := false]
  }

  function AllJoined(team: map<nat, bool>, s: seq<Player>): map<nat, bool>
  {
    if s == [] then team else Joined(AllJoined(team, s[..|s| - 1]), s[|s| - 1].id)
  }

  /** Those who were in the team stay as they were, and exactly the newcomers come in. */
  lemma {:induction false} JoinedExactly(team: map<nat, bool>, s: seq<Player>)
    ensures AllJoined(team, s).Keys == team.Keys + Ids(s)
    ensures forall id :: id in team ==> AllJoined(team, s)[id] == team[id]
    ensures forall id :: id in AllJoined(team, s) && id !in team ==> !AllJoined(team, s)[id]
  {
    if s != [] {
      JoinedExactly(team, s[..|s| - 1]);
      assert s == s[..|s| - 1] + [s[|s| - 1]];
    }
  }

  /** A team after the first `k` of the sorted list were dealt out, every second one to it. */
  function Dealt(team: map<nat, bool>, sorted: seq<Player>, k: nat, parity: nat): map<nat, bool>
    requires k <= |sorted|
  {
    AllJoined(team, Picked(sorted[..k], parity))
  }

  lemma AllJoinedNext(team: map<nat, bool>, s: seq<Player>, p: Player)
    ensures AllJoined(team, s + [p]) == Joined(AllJoined(team, s), p.id)
  {
    assert (s + [p])[..|s|] == s;
  }

  /** The fields of the battleground that joining and leaving change. */
  datatype State = State(isOpen: bool, status: Status, waitlist: seq<Player>, one: map<nat, bool>, two: map<nat, bool>)
  {
    predicate InTeam(id: nat)
    {
      id in one || id in two
    }

    predicate Full(n: nat)
    {
      |one| >= n && |two| >= n
    }

    predicate Capped(n: nat)
    {
      Max(|one|, |two|) <= n
    }

    function Gap(): nat
    {
      if |one| < |two| then |two| - |one| else |one| - |two|
    }

    /** playerIsInMatch: a member who is online comes from the same address; `ips` are those of the players online. */
    predicate InMatch(player: Player, ips: map<nat, nat>)
    {
      player.ip != LOCALHOST && exists id :: id in ips && InTeam(id) && ips[id] == player.ip
    }

    predicate Running()
    {
      status.Started? || status.Preparing?
    }
  }

  predicate Matches(waiting: Player, player: Player)
  {
    waiting.id == player.id || waiting.ip == player.ip
  }

  predicate Waits(waitlist: seq<Player>, player: Player)
  {
    player.ip != LOCALHOST && exists i :: 0 <= i < |waitlist| && Matches(waitlist[i], player)
  }

  /** The list without the first entry of a player. */
  function WithoutFirst(s: seq<Player>, id: nat): seq<Player>
  {
    if s == [] then [] else if s[0].id == id then s[1..] else [s[0]] + WithoutFirst(s[1..], id)
  }

  /** putInside */
  function MovedInside(s: State, player: Player): State
    requires s.InTeam(player.id)
  {
    s.(one := if player.id in s.one then s.one[player.id := true] else s.one,
       two := if player.id in s.one then s.two else s.two[player.id := true],
       waitlist := if Waits(s.waitlist, player) then WithoutFirst(s.waitlist, player.id) else s.waitlist)
  }

  /** sortTeam: whether it is the first team. */
  function SmallerIsOne(s: State, coin: bool): bool
  {
    |s.one| < |s.two| || (|s.one| == |s.two| && coin)
  }

  /** Whether buildTeams goes ahead. */
  predicate Ready(n: nat, s: State)
  {
    |s.waitlist| >= 2 * n && !s.Running()
  }

  function Built(n: nat, s: State, rand: nat): State
    requires Ready(n, s) && (rand == 1 || rand == 2)
  {
    var sorted := Sorted(s.waitlist);
    s.(status := Preparing, waitlist := sorted[2 * n..],
       one := Dealt(s.one, sorted, 2 * n, rand - 1), two := Dealt(s.two, sorted, 2 * n, 2 - rand))
  }

  /** What happens to a battleground. */
  datatype Event =
    | Join(player: Player, deserter: bool, inside: bool, inFight: bool, ips: map<nat, nat>, rand: nat, coin: bool)
    | Leave(id: nat)

  /** random_range(1, 2) gives one of the two. */
  predicate Drawn(e: Event)
  {
    e.Join? ==> e.rand == 1 || e.rand == 2
  }

  /** Joining while teams are built. */
  function Enlisted(n: nat, s: State, player: Player, rand: nat): (State, Answer)
    requires rand == 1 || rand == 2
  {
    if Waits(s.waitlist, player) then (s, AlreadyInWaitlist)
    else
      var s' := s.(waitlist := s.waitlist + [player]);
      (if Ready(n, s') then Built(n, s', rand) else s', PutInWaitlist)
  }

  /** Joining while a battle is prepared or running. */
  function Late(n: nat, s: State, e: Event): (State, Answer)
    requires e.Join?
  {
    var player := e.player;
    if e.inside then (s, NoError)
    else if s.InTeam(player.id) then
      if e.inFight then (s, InFight) else (MovedInside(s, player), Answer.PutInside)
    else if s.Full(n) then
      if Waits(s.waitlist, player) then (s, AlreadyInWaitlist)
      else (s.(waitlist := s.waitlist + [player]), PutInWaitlist)
    else if s.InMatch(player, e.ips) then (s, NoError)
    else if e.inFight then (s, InFight)
    else
      var s' := if SmallerIsOne(s, e.coin) then s.(one := s.one[player.id := false]) else s.(two := s.two[player.id := false]);
      (MovedInside(s', player), PutDirectly)
  }

  function Arrived(n: nat, s: State, e: Event): (State, Answer)
    requires e.Join? && Drawn(e)
  {
    if !s.isOpen then (s, Closed)
    else if e.deserter then (s, CanNotJoin)
    else if s.status.BuildingTeams? then Enlisted(n, s, e.player, e.rand)
    else if s.Running() then Late(n, s, e)
    else (s, NoError)
  }

  /** Whether the player has been put inside as a member of this team. */
  predicate IsInside(team: map<nat, bool>, id: nat)
  {
    id in team && team[id]
  }

  /** kickPlayer, as far as the teams go: only who has been put inside carries a team to be erased from. */
  function Gone(s: State, id: nat): State
  {
    if IsInside(s.one, id) then s.(one := s.one - {id})
    else if IsInside(s.two, id) then s.(two := s.two - {id})
    else s
  }

  function Next(n: nat, s: State, e: Event): State
    requires Drawn(e)
  {
    if e.Join? then Arrived(n, s, e).0 else Gone(s, e.id)
  }

  /** After all events, in order. */
  function After(n: nat, s: State, events: seq<Event>): State
    requires forall e :: e in events ==> Drawn(e)
  {
    if events == [] then s else Next(n, After(n, s, events[..|events| - 1]), events[|events| - 1])
  }

  class Battleground {
    const teamSize: nat
    var isOpen: bool
    var status: Status
    var waitlist: seq<Player>
    var teamOne: map<nat, bool>
    var teamTwo: map<nat, bool>

    constructor (teamSize: nat)
      requires 2 * teamSize < 0x1_0000
      ensures Sized() && this.teamSize == teamSize && status == BuildingTeams && waitlist == []
      ensures teamOne == teamTwo == map[]
    {
      this.teamSize, isOpen, status, waitlist, teamOne, teamTwo := teamSize, true, BuildingTeams, [], map[], map[];
    }

    /** The counter of the dealing loop is 16 bits wide. */
    ghost predicate Sized()
    {
      2 * teamSize < 0x1_0000
    }

    function Get(): State
      reads this
    {
      State(isOpen, status, waitlist, teamOne, teamTwo)
    }

    /** putInTeam */
    method PutInTeam(player: Player, one: bool)
      modifies this`teamOne, this`teamTwo
      ensures teamOne == if one then Joined(old(teamOne), player.id) else old(teamOne)
      ensures teamTwo == if one then old(teamTwo) else Joined(old(teamTwo), player.id)
    {
      if one {
        teamOne := if player.id in teamOne then teamOne else teamOne[player.id := false];
      } else {
        teamTwo := if player.id in teamTwo then teamTwo else teamTwo[player.id := false];
      }
    }

    /** buildTeams; `rand` is 1 or 2 and picks the team of the strongest. */
    method BuildTeams(rand: nat) returns (built: bool)
      requires Sized() && (rand == 1 || rand == 2)
      modifies this`status, this`waitlist, this`teamOne, this`teamTwo
      ensures built == Ready(teamSize, old(Get()))
      ensures Get() == if built then Built(teamSize, old(Get()), rand) else old(Get())
    {
      if |waitlist| < teamSize * 2 { return false; }
      if status == Started || status == Preparing { return false; }
      hide Picked, AllJoined, Sorted, Dealt, Joined;
      status := Preparing;
      waitlist := Sorted(waitlist);
      Deal(rand);
      built := true;
    }

    /** The loop of buildTeams: always the first of the list goes, to one team and the other in turn. */
    method Deal(rand: nat)
      requires Sized() && (rand == 1 || rand == 2) && |waitlist| >= 2 * teamSize
      modifies this`waitlist, this`teamOne, this`teamTwo
      ensures waitlist == old(waitlist)[2 * teamSize..]
      ensures teamOne == Dealt(old(teamOne), old(waitlist), 2 * teamSize, rand - 1)
      ensures teamTwo == Dealt(old(teamTwo), old(waitlist), 2 * teamSize, 2 - rand)
    {
      hide *;
      ghost var sorted := waitlist;
      var i := 1;
      DealStart(old(teamOne), old(teamTwo), sorted, rand);
      while i <= teamSize * 2
        invariant 1 <= i <= teamSize * 2 + 1 && waitlist == sorted[i - 1..]
        invariant teamOne == Dealt(old(teamOne), sorted, i - 1, rand - 1)
        invariant teamTwo == Dealt(old(teamTwo), sorted, i - 1, 2 - rand)
      {
        var one;
        if rand == 1 {
          one := i % 2 == 1;
        } else {
          one := i % 2 != 1;
        }
        DealNext(old(teamOne), sorted, i - 1, rand - 1);
        DealNext(old(teamTwo), sorted, i - 1, 2 - rand);
        PutInTeam(waitlist[0], one);
        waitlist := waitlist[1..];
        i := i + 1;
      }
    }

    /** playerIsInWaitlist: the same player or, but for localhost, the same address. */
    method PlayerIsInWaitlist(player: Player) returns (waits: bool)
      ensures waits <==> Waits(waitlist, player)
    {
      if player.ip == LOCALHOST { return false; }
      var i := 0;
      while i < |waitlist|
        invariant i <= |waitlist| && forall k :: 0 <= k < i ==> !Matches(waitlist[k], player)
      {
        if waitlist[i].id == player.id || waitlist[i].ip == player.ip { return true; }
        i := i + 1;
      }
      waits := false;
    }

    /** removeWaitlistPlayer */
    method RemoveWaitlistPlayer(player: Player)
      modifies this`waitlist
      ensures waitlist == WithoutFirst(old(waitlist), player.id)
    {
      var i := 0;
      assert waitlist[0..] == waitlist;
      while i < |waitlist| && waitlist[i].id != player.id
        invariant i <= |waitlist| && waitlist == old(waitlist)
        invariant WithoutFirst(waitlist, player.id) == waitlist[..i] + WithoutFirst(waitlist[i..], player.id)
      {
        assert waitlist[i..][1..] == waitlist[i + 1..];
        i := i + 1;
      }
      if i < |waitlist| {
        assert waitlist[i..][1..] == waitlist[i + 1..];
        waitlist := waitlist[..i] + waitlist[i + 1..];
      }
    }

    /** sortTeam: the smaller team, or any when they are even. */
    method SortTeam(coin: bool) returns (one: bool)
      ensures if one then |teamOne| <= |teamTwo| else |teamTwo| <= |teamOne|
      ensures one == SmallerIsOne(Get(), coin)
    {
      if |teamOne| < |teamTwo| { return true; }
      else if |teamTwo| < |teamOne| { return false; }
      else { return coin; }
    }

    /** putInside, as far as teams and waiting list go. */
    method PutInside(player: Player)
      requires Get().InTeam(player.id)
      modifies this`teamOne, this`teamTwo, this`waitlist
      ensures Get() == MovedInside(old(Get()), player)
    {
      hide WithoutFirst;
      var waits := PlayerIsInWaitlist(player);
      if waits {
        RemoveWaitlistPlayer(player);
      }
      if player.id in teamOne {
        teamOne := teamOne[player.id := true];
      } else {
        teamTwo := teamTwo[player.id := true];
      }
    }

    /** onPlayerJoin while a battle is prepared or running. */
    method JoinRunning(e: Event) returns (answer: Answer)
      requires e.Join?
      modifies this`teamOne, this`teamTwo, this`waitlist
      ensures (Get(), answer) == Late(teamSize, old(Get()), e)
    {
      hide Waits, MovedInside;
      var player := e.player;
      if e.inside { return NoError; }
      if player.id in teamOne || player.id in teamTwo {
        if e.inFight { return InFight; }
        PutInside(player);
        return Answer.PutInside;
      }
      if |teamOne| >= teamSize && |teamTwo| >= teamSize {
        var waits := PlayerIsInWaitlist(player);
        if waits { return AlreadyInWaitlist; }
        waitlist := waitlist + [player];
        return PutInWaitlist;
      }
      if Get().InMatch(player, e.ips) { return NoError; }
      if e.inFight { return InFight; }
      var one := SortTeam(e.coin);
      PutInTeam(player, one);
      PutInside(player);
      return PutDirectly;
    }

    /** onPlayerJoin while teams are built: the player waits, and a battle starts as soon as enough are waiting. */
    method JoinBuilding(player: Player, rand: nat) returns (answer: Answer)
      requires Sized() && (rand == 1 || rand == 2)
      modifies this`status, this`waitlist, this`teamOne, this`teamTwo
      ensures (Get(), answer) == Enlisted(teamSize, old(Get()), player, rand)
    {
      hide Waits, Built;
      var waits := PlayerIsInWaitlist(player);
      if waits { return AlreadyInWaitlist; }
      waitlist := waitlist + [player];
      var _ := BuildTeams(rand);
      return PutInWaitlist;
    }

    /** onPlayerJoin */
    method OnPlayerJoin(e: Event) returns (answer: Answer)
      requires Sized() && e.Join? && Drawn(e)
      modifies this`status, this`waitlist, this`teamOne, this`teamTwo
      ensures (Get(), answer) == Arrived(teamSize, old(Get()), e)
    {
      hide Late, Enlisted;
      if !isOpen { return Closed; }
      if e.deserter { return CanNotJoin; }
      if status == BuildingTeams {
        answer := JoinBuilding(e.player, e.rand);
        return;
      } else if status == Started || status == Preparing {
        answer := JoinRunning(e);
        return;
      }
      answer := NoError;
    }

    /** kickPlayer, as far as the teams go: the player is erased from the team in which he is inside. */
    method Kick(id: nat)
      modifies this`teamOne, this`teamTwo
      ensures Get() == Gone(old(Get()), id)
    {
      if id in teamOne && teamOne[id] {
        teamOne := teamOne - {id};
      } else if id in teamTwo && teamTwo[id] {
        teamTwo := teamTwo - {id};
      }
    }

    /** Whatever comes, one after the other. */
    method Run(events: seq<Event>)
      requires Sized() && forall e :: e in events ==> Drawn(e)
      modifies this`status, this`waitlist, this`teamOne, this`teamTwo
      ensures Get() == After(teamSize, old(Get()), events)
    {
      hide Arrived, Gone;
      var i := 0;
      assert events[..0] == [];
      while i < |events|
        invariant i <= |events| && Get() == After(teamSize, old(Get()), events[..i])
      {
        assert events[..i + 1][..i] == events[..i] && events[i] in events;
        match events[i] {
          case Join(_, _, _, _, _, _, _) =>
            var _ := OnPlayerJoin(events[i]);
          case Leave(id) =>
            Kick(id);
        }
        i := i + 1;
      }
      assert events[..|events|] == events;
    }
  }

  /** Not one more character from localhost that is in the list already. */
  ghost predicate Welcome(player: Player, waitlist: seq<Player>)
  {
    player.ip != LOCALHOST || player.id !in Ids(waitlist)
  }

  /** A player who is let into the list is new there exactly when he is welcome: the guard for localhost is to blame. */
  lemma WelcomeIsNew(player: Player, waitlist: seq<Player>)
    requires DistinctIds(waitlist) && !Waits(waitlist, player)
    ensures DistinctIds(waitlist + [player]) <==> Welcome(player, waitlist)
  {
    IdsNext(waitlist, player);
    if player.id in Ids(waitlist) {
      var p :| p in waitlist && p.id == player.id;
      var i :| 0 <= i < |waitlist| && waitlist[i] == p;
      assert Matches(waitlist[i], player);
    }
  }

  lemma SortedIds(s: seq<Player>)
    ensures Ids(Sorted(s)) == Ids(s)
  {
    hide Sorted;
    SortedSame(s);
    var r := Sorted(s);
    forall p ensures p in r <==> p in s {
      assert p in multiset(r) <==> p in multiset(s);
    }
  }

  lemma PartsDistinct(s: seq<Player>, n: nat)
    ensures n <= |s| && DistinctIds(s) ==> DistinctIds(s[..n]) && DistinctIds(s[n..])
  {
  }

  lemma SortedDistinct(s: seq<Player>, n: nat)
    requires n <= |s|
    ensures DistinctIds(s) ==> DistinctIds(Sorted(s)[..n]) && DistinctIds(Sorted(s)[n..])
  {
    hide *;
    SortedIds(s);
    AllIds(s);
    AllIds(Sorted(s));
    if DistinctIds(s) {
      PartsDistinct(Sorted(s), n);
    }
  }

  lemma Fewer(team: map<nat, bool>, id: nat)
    ensures |team - {id}| <= |team|
  {
    assert (team - {id}).Keys == team.Keys - {id};
    assert |team - {id}| == |(team - {id}).Keys| && |team| == |team.Keys|;
  }

  lemma OneMore(team: map<nat, bool>, id: nat, v: bool)
    requires id !in team
    ensures |team[id := v]| == |team| + 1
  {
    assert team[id := v].Keys == team.Keys + {id};
    assert |team[id := v]| == |team[id := v].Keys| && |team| == |team.Keys|;
  }

  lemma DealStart(one: map<nat, bool>, two: map<nat, bool>, s: seq<Player>, rand: nat)
    ensures rand == 1 || rand == 2 ==> Dealt(one, s, 0, rand - 1) == one && Dealt(two, s, 0, 2 - rand) == two
  {
  }

  lemma DealNext(team: map<nat, bool>, s: seq<Player>, k: nat, parity: nat)
    requires k < |s|
    ensures Dealt(team, s, k + 1, parity) ==
            if k % 2 == parity then Joined(Dealt(team, s, k, parity), s[k].id) else Dealt(team, s, k, parity)
  {
    hide Picked, AllJoined;
    assert s[..k + 1] == s[..k] + [s[k]];
    PickedNext(s[..k], s[k], parity);
    AllJoinedNext(team, Picked(s[..k], parity), s[k]);
    assert Picked(s[..k], parity) + [] == Picked(s[..k], parity);
  }

  /**
   What buildTeams makes of empty teams: together they hold exactly those dealt out, and both are full and
   share nobody exactly when nobody was dealt out twice.
   */
  lemma FromEmptyTeams(sorted: seq<Player>, n: nat, rand: nat)
    requires 2 * n <= |sorted| && (rand == 1 || rand == 2)
    ensures var one, two := Dealt(map[], sorted, 2 * n, rand - 1), Dealt(map[], sorted, 2 * n, 2 - rand);
            && one.Keys + two.Keys == Ids(sorted[..2 * n])
            && (|one.Keys| == n && |two.Keys| == n && one.Keys !! two.Keys <==> DistinctIds(sorted[..2 * n]))
  {
    hide *;
    var chosen := sorted[..2 * n];
    FullTeams(chosen, n);
    EverybodyPicked(chosen);
    DealtIds(sorted, 2 * n, 0);
    DealtIds(sorted, 2 * n, 1);
    if rand == 2 {
      assert Ids(Picked(chosen, 0)) + Ids(Picked(chosen, 1)) == Ids(Picked(chosen, 1)) + Ids(Picked(chosen, 0));
    }
  }

  lemma DealtIds(sorted: seq<Player>, k: nat, parity: nat)
    requires k <= |sorted|
    ensures Dealt(map[], sorted, k, parity).Keys == Ids(Picked(sorted[..k], parity))
  {
    hide AllJoined, Ids, Picked;
    JoinedExactly(map[], Picked(sorted[..k], parity));
  }

  lemma EverybodyPicked(s: seq<Player>)
    ensures Ids(s) == Ids(Picked(s, 0)) + Ids(Picked(s, 1))
  {
    forall p ensures p in s <==> p in Picked(s, 0) || p in Picked(s, 1) {
      PickedFrom(s, p);
    }
  }

  /** The levels of the two teams add up to the same, give or take the highest less the lowest level dealt out. */
  lemma EvenlyMatched(waitlist: seq<Player>, n: nat, rand: nat)
    requires 0 < n && 2 * n <= |waitlist| && (rand == 1 || rand == 2)
    ensures var chosen := Sorted(waitlist)[..2 * n];
            var one, two := Levels(Picked(chosen, rand - 1)), Levels(Picked(chosen, 2 - rand));
            one - two <= chosen[0].level - chosen[2 * n - 1].level && two - one <= chosen[0].level - chosen[2 * n - 1].level
  {
    hide Sorted, Picked, Levels;
    SortedDescends(waitlist);
    Fair(Sorted(waitlist)[..2 * n]);
  }

  // ---------------------------------------------------------------- who comes and goes

  /** A late arrival is let in exactly when he may, and then goes to a smallest team, which had room. */
  lemma LateArrival(n: nat, s: State, e: Event)
    requires e.Join?
    ensures var (s', answer) := Late(n, s, e);
            && (answer == PutDirectly <==>
                  !e.inside && !s.InTeam(e.player.id) && !s.Full(n) && !s.InMatch(e.player, e.ips) && !e.inFight)
            && (answer == PutDirectly ==>
                  || (|s.one| <= |s.two| && |s.one| < n && s'.one == s.one[e.player.id := true] && s'.two == s.two)
                  || (|s.two| <= |s.one| && |s.two| < n && s'.two == s.two[e.player.id := true] && s'.one == s.one))
            && (answer != PutDirectly ==> s'.one.Keys == s.one.Keys && s'.two.Keys == s.two.Keys)
            && (answer == PutInWaitlist <==>
                  !e.inside && !s.InTeam(e.player.id) && s.Full(n) && !Waits(s.waitlist, e.player))
            && s'.status == s.status
  {
    hide Waits, State.InMatch, WithoutFirst;
  }

  /** No late arrival makes a full team fuller, or the teams more uneven than by one. */
  lemma LateKeeps(n: nat, s: State, e: Event)
    requires e.Join?
    ensures var s' := Late(n, s, e).0;
            && (s.Capped(n) ==> s'.Capped(n)) && s'.Gap() <= Max(1, s.Gap())
            && |s'.one| + |s'.two| == |s.one| + |s.two| + if Late(n, s, e).1 == PutDirectly then 1 else 0
  {
    LateArrival(n, s, e);
    var (s', answer) := Late(n, s, e);
    hide Late;
    if answer == PutDirectly {
      if e.player.id !in s.one { OneMore(s.one, e.player.id, true); }
      if e.player.id !in s.two { OneMore(s.two, e.player.id, true); }
    } else {
      SameSize(s.one, s'.one);
      SameSize(s.two, s'.two);
    }
  }

  lemma SameSize(a: map<nat, bool>, b: map<nat, bool>)
    requires a.Keys == b.Keys
    ensures |a| == |b|
  {
    assert |a| == |a.Keys| && |b| == |b.Keys|;
  }

  /** No team is past its size, and while teams are built they are empty. */
  ghost predicate Fits(n: nat, s: State)
  {
    s.Capped(n) && (!s.status.BuildingTeams? || s.one == s.two == map[])
  }

  /** Besides, nobody waits twice while teams are built. */
  ghost predicate Regular(n: nat, s: State)
  {
    Fits(n, s) && (s.status.BuildingTeams? ==> DistinctIds(s.waitlist))
  }

  /** Teams dealt out to empty ones are within their size. */
  lemma BuiltFits(n: nat, s: State, rand: nat)
    requires Ready(n, s) && (rand == 1 || rand == 2) && s.one == s.two == map[]
    ensures Built(n, s, rand).Capped(n)
  {
    hide Sorted, Dealt, Built, Ready;
    BuiltTeams(n, s, rand);
    DealtSize(Sorted(s.waitlist), n, rand - 1);
    DealtSize(Sorted(s.waitlist), n, 2 - rand);
  }

  lemma DealtSize(sorted: seq<Player>, n: nat, parity: nat)
    requires 2 * n <= |sorted| && (parity == 0 || parity == 1)
    ensures |Dealt(map[], sorted, 2 * n, parity)| <= n
  {
    hide *;
    DealtIds(sorted, 2 * n, parity);
    PickedHalf(sorted[..2 * n], n);
    AllIds(Picked(sorted[..2 * n], parity));
    KeysSize(Dealt(map[], sorted, 2 * n, parity));
  }

  /** With nobody waiting twice both teams are full and share nobody. */
  lemma BuiltFull(n: nat, s: State, rand: nat)
    requires Ready(n, s) && (rand == 1 || rand == 2) && s.one == s.two == map[] && DistinctIds(s.waitlist)
    ensures var s' := Built(n, s, rand); |s'.one| == |s'.two| == n && s'.one.Keys !! s'.two.Keys
  {
    hide *;
    var sorted := Sorted(s.waitlist);
    BuiltTeams(n, s, rand);
    SortedDistinct(s.waitlist, 2 * n);
    FromEmptyTeams(sorted, n, rand);
    KeysSize(Dealt(map[], sorted, 2 * n, rand - 1));
    KeysSize(Dealt(map[], sorted, 2 * n, 2 - rand));
  }

  lemma BuiltTeams(n: nat, s: State, rand: nat)
    requires Ready(n, s) && (rand == 1 || rand == 2) && s.one == s.two == map[]
    ensures 2 * n <= |s.waitlist| == |Sorted(s.waitlist)|
    ensures Built(n, s, rand).one == Dealt(map[], Sorted(s.waitlist), 2 * n, rand - 1)
    ensures Built(n, s, rand).two == Dealt(map[], Sorted(s.waitlist), 2 * n, 2 - rand)
  {
    hide Sorted, Dealt;
  }

  lemma KeysSize(team: map<nat, bool>)
    ensures |team| == |team.Keys|
  {
  }

  lemma EnlistedFits(n: nat, s: State, player: Player, rand: nat)
    requires Fits(n, s) && s.status.BuildingTeams? && (rand == 1 || rand == 2)
    ensures Fits(n, Enlisted(n, s, player, rand).0)
  {
    hide Built, Waits;
    var s' := s.(waitlist := s.waitlist + [player]);
    if Ready(n, s') {
      BuiltFits(n, s', rand);
      BuiltStatus(n, s', rand);
    }
  }

  lemma LateFits(n: nat, s: State, e: Event)
    requires Fits(n, s) && e.Join? && s.Running()
    ensures Fits(n, Late(n, s, e).0)
  {
    hide Late, State.Gap;
    LateKeeps(n, s, e);
    LateArrival(n, s, e);
  }

  /** A kick makes the teams smaller by one exactly when the player is inside; who is not stays a member. */
  lemma KickExactly(s: State, id: nat)
    ensures var s' := Gone(s, id);
            && |s'.one| + |s'.two| == |s.one| + |s.two| - (if IsInside(s.one, id) || IsInside(s.two, id) then 1 else 0)
            && (forall other :: other != id ==> (other in s'.one <==> other in s.one) && (other in s'.two <==> other in s.two))
            && s'.status == s.status && s'.waitlist == s.waitlist && s'.isOpen == s.isOpen
  {
    if IsInside(s.one, id) {
      OneLess(s.one, id);
    } else if IsInside(s.two, id) {
      OneLess(s.two, id);
    }
  }

  lemma OneLess(team: map<nat, bool>, id: nat)
    requires id in team
    ensures |team - {id}| == |team| - 1
  {
    assert (team - {id}).Keys == team.Keys - {id};
    assert |team - {id}| == |(team - {id}).Keys| && |team| == |team.Keys|;
  }

  lemma GoneFits(n: nat, s: State, id: nat)
    requires Fits(n, s)
    ensures Fits(n, Gone(s, id))
  {
    Fewer(s.one, id);
    Fewer(s.two, id);
  }

  lemma NextFits(n: nat, s: State, e: Event)
    requires Fits(n, s) && Drawn(e)
    ensures Fits(n, Next(n, s, e))
  {
    hide Enlisted, Late, Gone, Fits;
    if !e.Join? {
      GoneFits(n, s, e.id);
    } else if s.status.BuildingTeams? {
      EnlistedFits(n, s, e.player, e.rand);
    } else if s.Running() {
      LateFits(n, s, e);
    }
  }

  lemma BuiltStatus(n: nat, s: State, rand: nat)
    requires Ready(n, s) && (rand == 1 || rand == 2)
    ensures Built(n, s, rand).status == Preparing && 2 * n <= |Sorted(s.waitlist)|
    ensures Built(n, s, rand).waitlist == Sorted(s.waitlist)[2 * n..]
  {
    hide Sorted, Dealt;
  }

  /** In every run, whoever comes: no team ever grows past its size. */
  lemma {:induction false} RunFits(n: nat, s: State, events: seq<Event>)
    requires Fits(n, s) && forall e :: e in events ==> Drawn(e)
    ensures Fits(n, After(n, s, events))
  {
    hide Fits, Next;
    if events != [] {
      RunFits(n, s, events[..|events| - 1]);
      NextFits(n, After(n, s, events[..|events| - 1]), events[|events| - 1]);
    }
  }

  /** In every run, as soon as enough players wait for teams their battle starts: fewer than two teams of them go on waiting. */
  lemma {:induction false} NobodyKeptWaiting(n: nat, s: State, events: seq<Event>)
    requires (s.status.BuildingTeams? ==> |s.waitlist| < 2 * n) && forall e :: e in events ==> Drawn(e)
    ensures After(n, s, events).status.BuildingTeams? ==> |After(n, s, events).waitlist| < 2 * n
  {
    if events != [] {
      NobodyKeptWaiting(n, s, events[..|events| - 1]);
      StartsInTime(n, After(n, s, events[..|events| - 1]), events[|events| - 1]);
    }
  }

  lemma StartsInTime(n: nat, s: State, e: Event)
    requires Drawn(e) && (s.status.BuildingTeams? ==> |s.waitlist| < 2 * n)
    ensures Next(n, s, e).status.BuildingTeams? ==> |Next(n, s, e).waitlist| < 2 * n
  {
    hide Waits, Built;
    if e.Join? && s.status.BuildingTeams? && s.isOpen && !e.deserter {
      var s' := s.(waitlist := s.waitlist + [e.player]);
      if Ready(n, s') {
        BuiltStatus(n, s', e.rand);
      }
    } else if e.Join? && s.Running() && s.isOpen && !e.deserter {
      LateArrival(n, s, e);
    }
  }

  /** Whoever comes late into a team shares the address of no member who is online, unless it is localhost. */
  lemma LateAddress(n: nat, s: State, e: Event, id: nat)
    requires e.Join? && Late(n, s, e).1 == PutDirectly && e.player.ip != LOCALHOST && (id in s.one || id in s.two)
    ensures id in e.ips ==> e.ips[id] != e.player.ip
  {
  }

  /** The events without what a deserter tries. */
  function Faithful(events: seq<Event>): (r: seq<Event>)
    requires forall e :: e in events ==> Drawn(e)
    ensures forall e :: e in r ==> Drawn(e)
  {
    if events == [] then []
    else
      var last := events[|events| - 1];
      Faithful(events[..|events| - 1]) + if last.Join? && last.deserter then [] else [last]
  }

  /** In every run, deserters might as well not have come: whatever is going on, they change nothing. */
  lemma {:induction false} DesertersStayOut(n: nat, s: State, events: seq<Event>)
    requires forall e :: e in events ==> Drawn(e)
    ensures After(n, s, events) == After(n, s, Faithful(events))
  {
    hide Enlisted, Late, Gone;
    if events != [] {
      var front, last := events[..|events| - 1], events[|events| - 1];
      DesertersStayOut(n, s, front);
      var rest := Faithful(front);
      assert Faithful(events) == rest + if last.Join? && last.deserter then [] else [last];
      if last.Join? && last.deserter {
        assert rest + [] == rest;
      } else {
        assert (rest + [last])[..|rest|] == rest;
      }
    }
  }

  /** A join that puts the player into the list of those who wait for teams. */
  predicate Enlists(s: State, e: Event)
  {
    e.Join? && s.isOpen && !e.deserter && s.status.BuildingTeams?
  }

  /** Nobody from localhost comes in a second time while he waits. */
  ghost predicate AllWelcome(n: nat, s: State, events: seq<Event>)
    requires forall e :: e in events ==> Drawn(e)
  {
    events == [] ||
    (AllWelcome(n, s, events[..|events| - 1])
     && var before := After(n, s, events[..|events| - 1]);
        Enlists(before, events[|events| - 1]) ==> Welcome(events[|events| - 1].player, before.waitlist))
  }

  ghost predicate OnlyJoins(events: seq<Event>)
  {
    forall e :: e in events ==> e.Join?
  }

  lemma EnlistedRegular(n: nat, s: State, player: Player, rand: nat)
    requires Regular(n, s) && s.status.BuildingTeams? && (rand == 1 || rand == 2) && Welcome(player, s.waitlist)
    ensures Regular(n, Enlisted(n, s, player, rand).0) && Enlisted(n, s, player, rand).0.Gap() == 0
  {
    hide Built, Waits, DistinctIds, Welcome;
    EnlistedFits(n, s, player, rand);
    if !Waits(s.waitlist, player) {
      WelcomeIsNew(player, s.waitlist);
      var s' := s.(waitlist := s.waitlist + [player]);
      if Ready(n, s') {
        BuiltFull(n, s', rand);
        BuiltStatus(n, s', rand);
      }
    }
  }

  lemma NextRegular(n: nat, s: State, e: Event)
    requires Regular(n, s) && Drawn(e) && (Enlists(s, e) ==> Welcome(e.player, s.waitlist))
    ensures Regular(n, Next(n, s, e))
    ensures e.Join? ==> Next(n, s, e).Gap() <= Max(1, s.Gap())
  {
    hide Enlisted, Late, DistinctIds, Welcome, State.Gap, Fits;
    NextFits(n, s, e);
    if e.Join? {
      if Enlists(s, e) {
        EnlistedRegular(n, s, e.player, e.rand);
      } else {
        LateKeeps(n, s, e);
        LateArrival(n, s, e);
      }
    }
  }

  /** When all are welcome, nobody waits twice, and while nobody leaves the teams differ by one at most, or as before. */
  lemma {:induction false} RunRegular(n: nat, s: State, events: seq<Event>)
    requires Regular(n, s) && (forall e :: e in events ==> Drawn(e)) && AllWelcome(n, s, events)
    ensures Regular(n, After(n, s, events))
    ensures OnlyJoins(events) ==> After(n, s, events).Gap() <= Max(1, s.Gap())
  {
    hide Regular, Next, Welcome, Enlists, State.Gap;
    if events != [] {
      var last := |events| - 1;
      RunRegular(n, s, events[..last]);
      NextRegular(n, After(n, s, events[..last]), events[last]);
      assert events[last] in events;
    }
  }

  /** Until a battle starts, nobody is in the list twice exactly when all were welcome. */
  lemma {:induction false} DistinctExactly(n: nat, s: State, events: seq<Event>)
    requires forall e :: e in events ==> Drawn(e)
    requires s.status.BuildingTeams? && DistinctIds(s.waitlist) && After(n, s, events).status.BuildingTeams?
    ensures DistinctIds(After(n, s, events).waitlist) <==> AllWelcome(n, s, events)
  {
    hide DistinctIds, Welcome, Waits, Built, Late;
    if events != [] {
      var last := |events| - 1;
      var before, e := After(n, s, events[..last]), events[last];
      StillBuilding(n, before, e);
      DistinctExactly(n, s, events[..last]);
      if Enlists(before, e) {
        if Waits(before.waitlist, e.player) {
          WaitsIsWelcome(e.player, before.waitlist);
        } else {
          ListGrows(before.waitlist, e.player);
          if DistinctIds(before.waitlist) {
            WelcomeIsNew(e.player, before.waitlist);
          }
        }
      }
    }
  }

  lemma StillBuilding(n: nat, s: State, e: Event)
    requires Drawn(e) && Next(n, s, e).status.BuildingTeams?
    ensures s.status.BuildingTeams?
    ensures Next(n, s, e).waitlist ==
            if Enlists(s, e) && !Waits(s.waitlist, e.player) then s.waitlist + [e.player] else s.waitlist
  {
    hide Waits, Late, Gone;
    if e.Join? {
      LateArrival(n, s, e);
    } else {
      KickExactly(s, e.id);
    }
  }

  lemma WaitsIsWelcome(player: Player, waitlist: seq<Player>)
    ensures Waits(waitlist, player) ==> Welcome(player, waitlist)
  {
  }

  lemma ListGrows(waitlist: seq<Player>, player: Player)
    ensures DistinctIds(waitlist + [player]) ==> DistinctIds(waitlist)
  {
    assert forall i :: 0 <= i < |waitlist| ==> (waitlist + [player])[i] == waitlist[i];
  }

  /** Players from elsewhere are always welcome. */
  lemma {:induction false} ElsewhereIsWelcome(n: nat, s: State, events: seq<Event>)
    requires forall e :: e in events ==> Drawn(e) && (e.Join? ==> e.player.ip != LOCALHOST)
    ensures AllWelcome(n, s, events)
  {
    if events != [] {
      ElsewhereIsWelcome(n, s, events[..|events| - 1]);
      assert events[|events| - 1] in events;
    }
  }

  /** From localhost one player joins twice, and with teams of one he is put into both. */
  lemma TwiceFromLocalhost(e: Event)
    requires e.Join? && !e.deserter && e.rand == 1 && e.player.ip == LOCALHOST
    ensures var s := After(1, State(true, BuildingTeams, [], map[], map[]), [e, e]);
            (s.status, s.waitlist, s.one.Keys, s.two.Keys) == (Preparing, [], {e.player.id}, {e.player.id})
    ensures !AllWelcome(1, State(true, BuildingTeams, [], map[], map[]), [e, e])
  {
    var s0, p := State(true, BuildingTeams, [], map[], map[]), e.player;
    var s1 := s0.(waitlist := [p]);
    hide Built, AllWelcome;
    assert [e][..0] == [] && [e, e][..1] == [e];
    assert After(1, s0, []) == s0;
    assert Next(1, s0, e) == s1;
    assert After(1, s0, [e]) == s1;
    assert [p] + [p] == [p, p];
    var s2 := s0.(waitlist := [p, p]);
    assert Next(1, s1, e) == Built(1, s2, 1);
    BothTeams(s2, p);
    NotWelcomeTwice(e);
  }

  lemma NotWelcomeTwice(e: Event)
    requires e.Join? && !e.deserter && e.rand == 1 && e.player.ip == LOCALHOST
    ensures !AllWelcome(1, State(true, BuildingTeams, [], map[], map[]), [e, e])
  {
    var s0, p := State(true, BuildingTeams, [], map[], map[]), e.player;
    hide Built, Late;
    assert [e][..0] == [] && [e, e][..1] == [e];
    assert After(1, s0, []) == s0;
    assert Next(1, s0, e) == s0.(waitlist := [p]);
    assert After(1, s0, [e]) == s0.(waitlist := [p]);
    assert !Welcome(p, [p]) by {
      assert p in [p];
    }
  }

  lemma BothTeams(s: State, p: Player)
    requires !s.Running() && s.waitlist == [p, p] && s.one == s.two == map[]
    ensures var s' := Built(1, s, 1); (s'.status, s'.waitlist, s'.one.Keys, s'.two.Keys) == (Preparing, [], {p.id}, {p.id})
  {
    BothSame(p);
    BothPicked(p);
    hide Sorted, Picked, Dealt, Ids, Built;
    BuiltTeams(1, s, 1);
    BuiltStatus(1, s, 1);
    DealtIds([p, p], 2, 0);
    DealtIds([p, p], 2, 1);
    assert [p, p][..2] == [p, p];
  }

  lemma BothPicked(p: Player)
    ensures Picked([p, p], 0) == [p] && Picked([p, p], 1) == [p] && Ids([p]) == {p.id}
  {
    OnePicked(p);
    hide Picked, Ids;
    assert [p] + [p] == [p, p] && [p] + [] == [p] && [] + [p] == [p];
    PickedNext([p], p, 0);
    PickedNext([p], p, 1);
  }

  lemma OnePicked(p: Player)
    ensures Picked([p], 0) == [p] && Picked([p], 1) == [] && Ids([p]) == {p.id}
  {
    NonePicked();
    assert [p][..0] == [];
  }

  lemma NonePicked()
    ensures Picked([], 0) == [] && Picked([], 1) == []
  {
  }

  lemma BothSame(p: Player)
    ensures Sorted([p, p]) == [p, p]
  {
    hide Sorted;
    SortedSame([p, p]);
    var s := Sorted([p, p]);
    assert multiset(s) == multiset{p, p};
    assert s[0] in multiset(s) && s[1] in multiset(s);
  }
}
