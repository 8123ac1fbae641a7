/**
 How conditions are stored with a player and rebuilt: every condition becomes a run of attributes, each an
 attribute code and its bytes, closed by an end code; reading starts from a fresh condition of the type
 found and sets one attribute after the other.
 */
module ConditionCodec {
  import opened ConditionTypes
  import opened PropStreams
  import opened Basics

  const ATTR_TYPE: Byte := 1
  const ATTR_ID: Byte := 2
  const ATTR_TICKS: Byte := 3
  const ATTR_HEALTHTICKS: Byte := 4
  const ATTR_HEALTHGAIN: Byte := 5
  const ATTR_MANATICKS: Byte := 6
  const ATTR_MANAGAIN: Byte := 7
  const ATTR_DELAYED: Byte := 8
  const ATTR_OWNER: Byte := 9
  const ATTR_INTERVALDATA: Byte := 10
  const ATTR_SPEEDDELTA: Byte := 11
  const ATTR_FORMULA_MINA: Byte := 12
  const ATTR_FORMULA_MINB: Byte := 13
  const ATTR_FORMULA_MAXA: Byte := 14
  const ATTR_FORMULA_MAXB: Byte := 15
  const ATTR_LIGHTCOLOR: Byte := 16
  const ATTR_LIGHTLEVEL: Byte := 17
  const ATTR_LIGHTTICKS: Byte := 18
  const ATTR_LIGHTINTERVAL: Byte := 19
  const ATTR_SOULTICKS: Byte := 20
  const ATTR_SOULGAIN: Byte := 21
  const ATTR_SKILLS: Byte := 22
  const ATTR_STATS: Byte := 23
  const ATTR_OUTFIT: Byte := 24
  const ATTR_PERIODDAMAGE: Byte := 25
  const ATTR_BUFF: Byte := 26
  const ATTR_SUBID: Byte := 27
  const ATTR_END: Byte := 254

  /** A stored hit: three numbers of 32 bits. */
  type Interval = i: IntervalInfo |
    -0x8000_0000 <= i.timeLeft < 0x8000_0000 && -0x8000_0000 <= i.value < 0x8000_0000
    && -0x8000_0000 <= i.interval < 0x8000_0000
    witness IntervalInfo(0, 0, 0)

  /** The bytes of a float. */
  type Float = s: seq<Byte> | |s| == 4 witness [0, 0, 0, 0]

  /** The bytes of an Outfit_t. */
  type Outfit = s: seq<Byte> | |s| == 10 witness [0, 0, 0, 0, 0, 0, 0, 0, 0, 0]

  datatype Base = Base(typ: UInt32, id: Int32, ticks: Int32, buff: bool, subId: UInt32)

  /** The stored fields of the subclasses. */
  datatype Body =
    | Damage(delayed: bool, periodDamage: Int32, owner: UInt32, damageList: seq<Interval>)
    | Speed(speedOutfits: seq<Outfit>, speedDelta: Int32, mina: Float, minb: Float, maxa: Float, maxb: Float)
    | Outfits(outfits: seq<Outfit>)
    | Light(color: UInt32, level: UInt32, lightTicks: UInt32, lightInterval: UInt32)
    | Regeneration(healthTicks: UInt32, healthGain: UInt32, manaTicks: UInt32, manaGain: UInt32)
    | Soul(soulGain: UInt32, soulTicks: UInt32)
    | Attributes(skills: seq<Int32>, stats: seq<Int32>, currentSkill: nat, currentStat: nat)
    | Plain

  datatype Value = Value(base: Base, body: Body)

  /** What createCondition makes of a type; for the others it makes nothing. */
  function FreshBody(typ: UInt32): Option<Body>
  {
    if typ in {0x1, 0x2, 0x4, 0x8, 0x8000, 0x4_0000, 0x8_0000, 0x10_0000} then Some(Damage(false, 0, 0, []))
    else if typ in {0x10, 0x20} then Some(Speed([], 0, [0, 0, 0, 0], [0, 0, 0, 0], [0, 0, 0, 0], [0, 0, 0, 0]))
    else if typ == 0x40 then Some(Outfits([]))
    else if typ == 0x100 then Some(Light(0, 0, 0, 0))
    else if typ == 0x2000 then Some(Regeneration(1000, 0, 1000, 0))
    else if typ == 0x4000 then Some(Soul(0, 0))
    else if typ == 0x2_0000 then Some(Attributes([0, 0, 0, 0, 0, 0, 0], [0, 0, 0, 0, 0], 0, 0))
    else if typ in {0x80, 0x200, 0x400, 0x800, 0x1000, 0x1_0000, 0x20_0000, 0x40_0000, 0x80_0000, 0x100_0000, 0x400_0000}
    then Some(Plain)
    else None
  }

  /** A fresh condition; damage conditions start without ticks. */
  function Fresh(base: Base): (r: Option<Value>)
  {
    match FreshBody(base.typ)
    case Some(body) => Some(Value(if body.Damage? then base.(ticks := 0) else base, body))
    case None => None
  }

  // ---------------------------------------------------------------- attributes

  datatype Field = Field(attr: Byte, payload: seq<Byte>)

  function Bytes(fields: seq<Field>): seq<Byte>
  {
    if fields == [] then [] else [fields[0].attr] + fields[0].payload + Bytes(fields[1..])
  }

  function BaseFields(b: Base): seq<Field>
  {
    [Field(ATTR_TYPE, Long(b.typ)), Field(ATTR_ID, Signed(b.id)), Field(ATTR_TICKS, Signed(b.ticks)),
     Field(ATTR_BUFF, Signed(if b.buff then 1 else 0)), Field(ATTR_SUBID, Long(b.subId))]
  }

  function IntervalField(i: Interval): Field
  {
    Field(ATTR_INTERVALDATA, Signed(i.timeLeft) + Signed(i.value) + Signed(i.interval))
  }

  function IntervalFields(l: seq<Interval>): seq<Field>
  {
    if l == [] then [] else IntervalFields(l[..|l| - 1]) + [IntervalField(l[|l| - 1])]
  }

  function OutfitFields(l: seq<Outfit>): seq<Field>
  {
    if l == [] then [] else OutfitFields(l[..|l| - 1]) + [Field(ATTR_OUTFIT, l[|l| - 1])]
  }

  function NumberFields(attr: Byte, l: seq<Int32>): seq<Field>
  {
    if l == [] then [] else NumberFields(attr, l[..|l| - 1]) + [Field(attr, Signed(l[|l| - 1]))]
  }

  /** The attributes of a subclass, in the order in which they are written. */
  function BodyFields(body: Body): seq<Field>
  {
    match body
    case Damage(delayed, periodDamage, owner, l) =>
      [Field(ATTR_DELAYED, [if delayed then 1 else 0]), Field(ATTR_PERIODDAMAGE, Signed(periodDamage)),
       Field(ATTR_OWNER, Long(owner))] + IntervalFields(l)
    case Speed(l, speedDelta, mina, minb, maxa, maxb) =>
      OutfitFields(l)
      + [Field(ATTR_SPEEDDELTA, Signed(speedDelta)), Field(ATTR_FORMULA_MINA, mina), Field(ATTR_FORMULA_MINB, minb),
         Field(ATTR_FORMULA_MAXA, maxa), Field(ATTR_FORMULA_MAXB, maxb)]
    case Outfits(l) => OutfitFields(l)
    case Light(color, level, ticks, interval) =>
      [Field(ATTR_LIGHTCOLOR, Long(color)), Field(ATTR_LIGHTLEVEL, Long(level)),
       Field(ATTR_LIGHTTICKS, Long(ticks)), Field(ATTR_LIGHTINTERVAL, Long(interval))]
    case Regeneration(healthTicks, healthGain, manaTicks, manaGain) =>
      [Field(ATTR_HEALTHTICKS, Long(healthTicks)), Field(ATTR_HEALTHGAIN, Long(healthGain)),
       Field(ATTR_MANATICKS, Long(manaTicks)), Field(ATTR_MANAGAIN, Long(manaGain))]
    case Soul(gain, ticks) => [Field(ATTR_SOULGAIN, Long(gain)), Field(ATTR_SOULTICKS, Long(ticks))]
    case Attributes(skills, stats, _, _) => NumberFields(ATTR_SKILLS, skills) + NumberFields(ATTR_STATS, stats)
    case Plain => []
  }

  function Wrap(x: int): Int32
  {
    (x + 0x8000_0000) % 0x1_0000_0000 - 0x8000_0000
  }

  /** How many bytes an attribute takes; 0 when the class does not know it. */
  function Size(body: Body, attr: Byte): nat
  {
    if attr in {ATTR_TYPE, ATTR_ID, ATTR_TICKS, ATTR_BUFF, ATTR_SUBID} then 4
    else match body
      case Damage(_, _, _, _) =>
        if attr == ATTR_DELAYED then 1
        else if attr == ATTR_PERIODDAMAGE || attr == ATTR_OWNER then 4
        else if attr == ATTR_INTERVALDATA then 12 else 0
      case Speed(_, _, _, _, _, _) =>
        if attr == ATTR_OUTFIT then 10
        else if ATTR_SPEEDDELTA <= attr <= ATTR_FORMULA_MAXB then 4 else 0
      case Outfits(_) => if attr == ATTR_OUTFIT then 10 else 0
      case Light(_, _, _, _) => if ATTR_LIGHTCOLOR <= attr <= ATTR_LIGHTINTERVAL then 4 else 0
      case Regeneration(_, _, _, _) => if ATTR_HEALTHTICKS <= attr <= ATTR_MANAGAIN then 4 else 0
      case Soul(_, _) => if attr == ATTR_SOULGAIN || attr == ATTR_SOULTICKS then 4 else 0
      case Attributes(skills, stats, k, m) =>
        if (attr == ATTR_SKILLS && k < |skills|) || (attr == ATTR_STATS && m < |stats|) then 4 else 0
      case Plain => 0
  }

  /** Setting one attribute. */
  function Set(c: Value, attr: Byte, s: seq<Byte>): Value
    requires |s| == Size(c.body, attr) > 0
  {
    if attr == ATTR_TYPE then c.(base := c.base.(typ := LongOf(s)))
    else if attr == ATTR_ID then c.(base := c.base.(id := SignedOf(s)))
    else if attr == ATTR_TICKS then c.(base := c.base.(ticks := SignedOf(s)))
    else if attr == ATTR_BUFF then c.(base := c.base.(buff := SignedOf(s) != 0))
    else if attr == ATTR_SUBID then c.(base := c.base.(subId := LongOf(s)))
    else if c.body.Damage? && attr == ATTR_INTERVALDATA then SetInterval(c, s)
    else c.(body := SetBody(c.body, attr, s))
  }

  /** The interval joins the list, and the ticks become longer by it. */
  function SetInterval(c: Value, s: seq<Byte>): Value
    requires c.body.Damage? && |s| == 12
  {
    var i := IntervalInfo(SignedOf(s[..4]), SignedOf(s[4..8]), SignedOf(s[8..]));
    c.(body := c.body.(damageList := c.body.damageList + [i]),
       base := if c.base.ticks != -1 then c.base.(ticks := Wrap(c.base.ticks + i.interval)) else c.base)
  }

  function SetBody(body: Body, attr: Byte, s: seq<Byte>): Body
    requires |s| == Size(body, attr) > 0 && attr !in {ATTR_TYPE, ATTR_ID, ATTR_TICKS, ATTR_BUFF, ATTR_SUBID}
    requires !(body.Damage? && attr == ATTR_INTERVALDATA)
  {
    match body
    case Damage(_, _, _, _) =>
      if attr == ATTR_DELAYED then body.(delayed := s[0] != 0)
      else if attr == ATTR_PERIODDAMAGE then body.(periodDamage := SignedOf(s))
      else body.(owner := LongOf(s))
    case Speed(l, _, _, _, _, _) =>
      if attr == ATTR_OUTFIT then body.(speedOutfits := l + [s])
      else if attr == ATTR_SPEEDDELTA then body.(speedDelta := SignedOf(s))
      else if attr == ATTR_FORMULA_MINA then body.(mina := s)
      else if attr == ATTR_FORMULA_MINB then body.(minb := s)
      else if attr == ATTR_FORMULA_MAXA then body.(maxa := s)
      else body.(maxb := s)
    case Outfits(l) => Outfits(l + [s])
    case Light(_, _, _, _) =>
      if attr == ATTR_LIGHTCOLOR then body.(color := LongOf(s))
      else if attr == ATTR_LIGHTLEVEL then body.(level := LongOf(s))
      else if attr == ATTR_LIGHTTICKS then body.(lightTicks := LongOf(s))
      else body.(lightInterval := LongOf(s))
    case Regeneration(_, _, _, _) =>
      if attr == ATTR_HEALTHTICKS then body.(healthTicks := LongOf(s))
      else if attr == ATTR_HEALTHGAIN then body.(healthGain := LongOf(s))
      else if attr == ATTR_MANATICKS then body.(manaTicks := LongOf(s))
      else body.(manaGain := LongOf(s))
    case Soul(_, _) =>
      if attr == ATTR_SOULGAIN then body.(soulGain := LongOf(s)) else body.(soulTicks := LongOf(s))
    case Attributes(skills, stats, k, m) =>
      if attr == ATTR_SKILLS then body.(skills := skills[k := SignedOf(s)], currentSkill := k + 1)
      else body.(stats := stats[m := SignedOf(s)], currentStat := m + 1)
  }

  // ---------------------------------------------------------------- reading

  datatype Read = Read(ok: bool, value: Value, rest: seq<Byte>)

  /** unserialize: attributes until the end code, or until the bytes run out. */
  function ReadProps(c: Value, s: seq<Byte>): (r: Read)
    ensures |r.rest| <= |s|
    decreases |s|
  {
    if s == [] then Read(true, c, [])
    else if s[0] == ATTR_END then Read(true, c, s[1..])
    else
      var n := Size(c.body, s[0]);
      if n == 0 || |s| - 1 < n then Read(false, c, s[1..])
      else ReadProps(Set(c, s[0], s[1..1 + n]), s[1 + n..])
  }

  /** The attributes fit one after the other. */
  ghost predicate Fit(c: Value, fields: seq<Field>)
    decreases |fields|
  {
    fields == [] ||
    (fields[0].attr != ATTR_END && |fields[0].payload| == Size(c.body, fields[0].attr) > 0
     && Fit(Set(c, fields[0].attr, fields[0].payload), fields[1..]))
  }

  ghost function Applied(c: Value, fields: seq<Field>): Value
    requires Fit(c, fields)
    decreases |fields|
  {
    if fields == [] then c else Applied(Set(c, fields[0].attr, fields[0].payload), fields[1..])
  }

  /** Reading back what was written sets the attributes in order and stops behind the end code. */
  lemma {:induction false} ReadsFields(c: Value, fields: seq<Field>, rest: seq<Byte>)
    requires Fit(c, fields)
    ensures ReadProps(c, Bytes(fields) + [ATTR_END] + rest) == Read(true, Applied(c, fields), rest)
    decreases |fields|
  {
    hide Set, Size;
    var s := Bytes(fields) + [ATTR_END] + rest;
    if fields == [] {
      assert s == [ATTR_END] + rest;
      assert s[1..] == rest;
    } else {
      var f := fields[0];
      ReadsFields(Set(c, f.attr, f.payload), fields[1..], rest);
      var tail := Bytes(fields[1..]) + [ATTR_END] + rest;
      assert s == [f.attr] + f.payload + tail;
      assert s[1..1 + |f.payload|] == f.payload && s[1 + |f.payload|..] == tail;
    }
  }

  lemma {:induction false} FitConcat(c: Value, a: seq<Field>, b: seq<Field>)
    requires Fit(c, a) && Fit(Applied(c, a), b)
    ensures Fit(c, a + b) && Applied(c, a + b) == Applied(Applied(c, a), b)
    decreases |a|
  {
    hide Set, Size;
    if a == [] {
      assert a + b == b;
    } else {
      assert (a + b)[1..] == a[1..] + b;
      FitConcat(Set(c, a[0].attr, a[0].payload), a[1..], b);
    }
  }

  lemma FitOne(c: Value, f: Field)
    requires f.attr != ATTR_END && |f.payload| == Size(c.body, f.attr) > 0
    ensures Fit(c, [f]) && Applied(c, [f]) == Set(c, f.attr, f.payload)
  {
    hide Set, Size;
    assert [f][1..] == [];
    assert Fit(Set(c, f.attr, f.payload), []);
  }

  lemma FitNone(c: Value)
    ensures Fit(c, []) && Applied(c, []) == c
  {
  }

  /** One attribute more behind. */
  lemma FitNext(c: Value, fields: seq<Field>, f: Field, c': Value)
    requires Fit(c, fields) && Sets(Applied(c, fields), f, c')
    ensures Fit(c, fields + [f]) && Applied(c, fields + [f]) == c'
  {
    hide Set, Size, Fit, Applied;
    FitOne(Applied(c, fields), f);
    FitConcat(c, fields, [f]);
  }

  ghost predicate Sets(c: Value, f: Field, c': Value)
  {
    f.attr != ATTR_END && |f.payload| == Size(c.body, f.attr) > 0 && Set(c, f.attr, f.payload) == c'
  }

  /** One attribute more in front. */
  lemma FitMore(c: Value, f: Field, fields: seq<Field>)
    requires f.attr != ATTR_END && |f.payload| == Size(c.body, f.attr) > 0
    requires Fit(Set(c, f.attr, f.payload), fields)
    ensures Fit(c, [f] + fields) && Applied(c, [f] + fields) == Applied(Set(c, f.attr, f.payload), fields)
  {
    hide Set, Size;
    assert ([f] + fields)[1..] == fields;
  }

  // ---------------------------------------------------------------- every class comes back

  /** The ticks that grow with every interval read; -1 is for ever. */
  function GrownTicks(ticks: Int32, l: seq<Interval>): Int32
  {
    if l == [] then ticks
    else
      var t := GrownTicks(ticks, l[..|l| - 1]);
      if t == -1 then -1 else Wrap(t + l[|l| - 1].interval)
  }

  /** What a stored condition comes back as: damage with the ticks of its intervals, attributes with full counters. */
  function Restored(c: Value): Value
  {
    match c.body
    case Damage(_, _, _, l) => c.(base := c.base.(ticks := GrownTicks(0, l)))
    case Attributes(_, _, _, _) => c.(body := c.body.(currentSkill := SKILLS, currentStat := STATS))
    case _ => c
  }

  /** The remaining intervals are the ticks again exactly while their sum fits 32 bits. */
  lemma {:induction false} TicksAreTotal(l: seq<Interval>)
    requires forall i :: 0 <= i < |l| ==> l[i].interval >= 0
    ensures Total(l) >= 0 && (GrownTicks(0, l) == Total(l) <==> Total(l) < 0x8000_0000)
  {
    if l != [] {
      TicksAreTotal(l[..|l| - 1]);
      TotalNext(l[..|l| - 1], l[|l| - 1]);
      assert l == l[..|l| - 1] + [l[|l| - 1]];
      if Total(l) < 0x8000_0000 {
        assert Total(l[..|l| - 1]) < 0x8000_0000;
      }
    }
  }

  lemma {:induction false} IntervalsRead(c: Value, l: seq<Interval>)
    requires c.body.Damage?
    ensures Fit(c, IntervalFields(l))
    ensures Applied(c, IntervalFields(l)) == WithIntervals(c, l)
  {
    hide Fit, Applied, Sets, Wrap;
    FitNone(c);
    if l == [] {
      assert c.body.damageList + l == c.body.damageList;
    } else {
      var init, last := l[..|l| - 1], l[|l| - 1];
      IntervalsRead(c, init);
      IntervalRead(WithIntervals(c, init), last);
      assert c.body.damageList + l == (c.body.damageList + init) + [last];
      FitNext(c, IntervalFields(init), IntervalField(last), WithIntervals(c, l));
    }
  }

  function WithIntervals(c: Value, l: seq<Interval>): Value
    requires c.body.Damage?
  {
    c.(body := c.body.(damageList := c.body.damageList + l), base := c.base.(ticks := GrownTicks(c.base.ticks, l)))
  }

  lemma IntervalRead(c: Value, i: Interval)
    requires c.body.Damage?
    ensures Sets(c, IntervalField(i),
                 c.(body := c.body.(damageList := c.body.damageList + [i]),
                    base := if c.base.ticks != -1 then c.base.(ticks := Wrap(c.base.ticks + i.interval)) else c.base))
  {
    hide Signed, SignedOf, Wrap;
    SignedBack(i.timeLeft);
    SignedBack(i.value);
    SignedBack(i.interval);
    var s := IntervalField(i).payload;
    assert s[..4] == Signed(i.timeLeft) && s[4..8] == Signed(i.value) && s[8..] == Signed(i.interval);
  }

  lemma {:induction false} OutfitsRead(c: Value, l: seq<Outfit>)
    requires c.body.Speed? || c.body.Outfits?
    ensures Fit(c, OutfitFields(l))
    ensures Applied(c, OutfitFields(l)) ==
            if c.body.Speed? then c.(body := c.body.(speedOutfits := c.body.speedOutfits + l))
            else c.(body := Outfits(c.body.outfits + l))
  {
    if l == [] {
      assert c.body.Speed? ==> c.body.speedOutfits + l == c.body.speedOutfits;
      assert c.body.Outfits? ==> c.body.outfits + l == c.body.outfits;
    } else {
      var init, last := l[..|l| - 1], l[|l| - 1];
      OutfitsRead(c, init);
      var c' := Applied(c, OutfitFields(init));
      FitOne(c', Field(ATTR_OUTFIT, last));
      FitConcat(c, OutfitFields(init), [Field(ATTR_OUTFIT, last)]);
      assert c.body.Speed? ==> c.body.speedOutfits + l == (c.body.speedOutfits + init) + [last];
      assert c.body.Outfits? ==> c.body.outfits + l == (c.body.outfits + init) + [last];
    }
  }

  lemma SkillRead(c: Value, x: Int32)
    requires c.body.Attributes? && c.body.currentSkill < |c.body.skills|
    ensures Sets(c, Field(ATTR_SKILLS, Signed(x)),
                 c.(body := c.body.(skills := c.body.skills[c.body.currentSkill := x], currentSkill := c.body.currentSkill + 1)))
  {
    hide Signed, SignedOf;
    SignedBack(x);
  }

  lemma {:induction false} SkillsRead(c: Value, l: seq<Int32>)
    requires c.body.Attributes? && c.body.currentSkill == 0 && |l| <= |c.body.skills|
    ensures Fit(c, NumberFields(ATTR_SKILLS, l))
    ensures Applied(c, NumberFields(ATTR_SKILLS, l)) ==
            c.(body := c.body.(skills := l + c.body.skills[|l|..], currentSkill := |l|))
  {
    hide Fit, Applied, Sets, Signed;
    FitNone(c);
    if l == [] {
      assert l + c.body.skills[0..] == c.body.skills;
    } else {
      var init, last := l[..|l| - 1], l[|l| - 1];
      SkillsRead(c, init);
      SkillRead(Applied(c, NumberFields(ATTR_SKILLS, init)), last);
      assert l + c.body.skills[|l|..] == (init + c.body.skills[|init|..])[|init| := last];
      FitNext(c, NumberFields(ATTR_SKILLS, init), Field(ATTR_SKILLS, Signed(last)),
              c.(body := c.body.(skills := l + c.body.skills[|l|..], currentSkill := |l|)));
    }
  }

  lemma StatRead(c: Value, x: Int32)
    requires c.body.Attributes? && c.body.currentStat < |c.body.stats|
    ensures Sets(c, Field(ATTR_STATS, Signed(x)),
                 c.(body := c.body.(stats := c.body.stats[c.body.currentStat := x], currentStat := c.body.currentStat + 1)))
  {
    hide Signed, SignedOf;
    SignedBack(x);
  }

  lemma {:induction false} StatsRead(c: Value, l: seq<Int32>)
    requires c.body.Attributes? && c.body.currentStat == 0 && |l| <= |c.body.stats|
    ensures Fit(c, NumberFields(ATTR_STATS, l))
    ensures Applied(c, NumberFields(ATTR_STATS, l)) ==
            c.(body := c.body.(stats := l + c.body.stats[|l|..], currentStat := |l|))
  {
    hide Fit, Applied, Sets, Signed;
    FitNone(c);
    if l == [] {
      assert l + c.body.stats[0..] == c.body.stats;
    } else {
      var init, last := l[..|l| - 1], l[|l| - 1];
      StatsRead(c, init);
      StatRead(Applied(c, NumberFields(ATTR_STATS, init)), last);
      assert l + c.body.stats[|l|..] == (init + c.body.stats[|init|..])[|init| := last];
      FitNext(c, NumberFields(ATTR_STATS, init), Field(ATTR_STATS, Signed(last)),
              c.(body := c.body.(stats := l + c.body.stats[|l|..], currentStat := |l|)));
    }
  }

  lemma DamageRead(c: Value, delayed: bool, periodDamage: Int32, owner: UInt32)
    requires c.body.Damage?
    ensures var fields := [Field(ATTR_DELAYED, [if delayed then 1 else 0]), Field(ATTR_PERIODDAMAGE, Signed(periodDamage)),
                           Field(ATTR_OWNER, Long(owner))];
            Fit(c, fields)
            && Applied(c, fields) == c.(body := c.body.(delayed := delayed, periodDamage := periodDamage, owner := owner))
  {
    hide Signed, SignedOf, Long, LongOf, Fit, Applied;
    SignedBack(periodDamage);
    LongBack(owner);
    var f0, f1 := Field(ATTR_DELAYED, [if delayed then 1 else 0]), Field(ATTR_PERIODDAMAGE, Signed(periodDamage));
    var f2 := Field(ATTR_OWNER, Long(owner));
    var c1 := c.(body := c.body.(delayed := delayed));
    var c2 := c.(body := c.body.(delayed := delayed, periodDamage := periodDamage));
    assert Set(c, f0.attr, f0.payload) == c1;
    assert Set(c1, f1.attr, f1.payload) == c2;
    FitOne(c2, f2);
    FitMore(c1, f1, [f2]);
    FitMore(c, f0, [f1] + [f2]);
    assert [f0, f1, f2] == [f0] + ([f1] + [f2]);
  }

  lemma SoulRead(c: Value, gain: UInt32, ticks: UInt32)
    requires c.body.Soul?
    ensures var fields := BodyFields(Soul(gain, ticks));
            Fit(c, fields) && Applied(c, fields) == c.(body := Soul(gain, ticks))
  {
    hide Long, LongOf, Fit, Applied;
    LongBack(gain);
    LongBack(ticks);
    var f0, f1 := Field(ATTR_SOULGAIN, Long(gain)), Field(ATTR_SOULTICKS, Long(ticks));
    FitOne(c.(body := Soul(gain, c.body.soulTicks)), f1);
    FitMore(c, f0, [f1]);
    assert [f0, f1] == [f0] + [f1];
  }

  /** Four numbers, for the classes that store four. */
  lemma FourRead(c: Value, f0: Field, f1: Field, f2: Field, f3: Field, c1: Value, c2: Value, c3: Value, c4: Value)
    requires Sets(c, f0, c1) && Sets(c1, f1, c2) && Sets(c2, f2, c3) && Sets(c3, f3, c4)
    ensures Fit(c, [f0, f1, f2, f3]) && Applied(c, [f0, f1, f2, f3]) == c4
  {
    hide Fit, Applied, Set, Size;
    FitOne(c3, f3);
    FitMore(c2, f2, [f3]);
    FitMore(c1, f1, [f2] + [f3]);
    FitMore(c, f0, [f1] + ([f2] + [f3]));
    assert [f0, f1, f2, f3] == [f0] + ([f1] + ([f2] + [f3]));
  }

  lemma LightRead(c: Value, color: UInt32, level: UInt32, ticks: UInt32, interval: UInt32)
    requires c.body.Light?
    ensures var fields := BodyFields(Light(color, level, ticks, interval));
            Fit(c, fields) && Applied(c, fields) == c.(body := Light(color, level, ticks, interval))
  {
    hide Long, LongOf, Fit, Applied;
    LongBack(color);
    LongBack(level);
    LongBack(ticks);
    LongBack(interval);
    var c1 := c.(body := c.body.(color := color));
    var c2 := c.(body := c.body.(color := color, level := level));
    var c3 := c.(body := Light(color, level, ticks, c.body.lightInterval));
    FourRead(c, Field(ATTR_LIGHTCOLOR, Long(color)), Field(ATTR_LIGHTLEVEL, Long(level)),
             Field(ATTR_LIGHTTICKS, Long(ticks)), Field(ATTR_LIGHTINTERVAL, Long(interval)),
             c1, c2, c3, c.(body := Light(color, level, ticks, interval)));
  }

  lemma RegenerationRead(c: Value, healthTicks: UInt32, healthGain: UInt32, manaTicks: UInt32, manaGain: UInt32)
    requires c.body.Regeneration?
    ensures var fields := BodyFields(Regeneration(healthTicks, healthGain, manaTicks, manaGain));
            Fit(c, fields) && Applied(c, fields) == c.(body := Regeneration(healthTicks, healthGain, manaTicks, manaGain))
  {
    hide Long, LongOf, Fit, Applied;
    LongBack(healthTicks);
    LongBack(healthGain);
    LongBack(manaTicks);
    LongBack(manaGain);
    var c1 := c.(body := c.body.(healthTicks := healthTicks));
    var c2 := c.(body := c.body.(healthTicks := healthTicks, healthGain := healthGain));
    var c3 := c.(body := Regeneration(healthTicks, healthGain, manaTicks, c.body.manaGain));
    FourRead(c, Field(ATTR_HEALTHTICKS, Long(healthTicks)), Field(ATTR_HEALTHGAIN, Long(healthGain)),
             Field(ATTR_MANATICKS, Long(manaTicks)), Field(ATTR_MANAGAIN, Long(manaGain)),
             c1, c2, c3, c.(body := Regeneration(healthTicks, healthGain, manaTicks, manaGain)));
  }

  lemma SpeedRead(c: Value, d: Int32, mina: Float, minb: Float, maxa: Float, maxb: Float)
    requires c.body.Speed?
    ensures var fields := [Field(ATTR_SPEEDDELTA, Signed(d)), Field(ATTR_FORMULA_MINA, mina), Field(ATTR_FORMULA_MINB, minb),
                           Field(ATTR_FORMULA_MAXA, maxa), Field(ATTR_FORMULA_MAXB, maxb)];
            Fit(c, fields) && Applied(c, fields) == c.(body := Speed(c.body.speedOutfits, d, mina, minb, maxa, maxb))
  {
    hide Signed, SignedOf, Fit, Applied;
    SignedBack(d);
    var f0, f1, f2 := Field(ATTR_SPEEDDELTA, Signed(d)), Field(ATTR_FORMULA_MINA, mina), Field(ATTR_FORMULA_MINB, minb);
    var f3, f4 := Field(ATTR_FORMULA_MAXA, maxa), Field(ATTR_FORMULA_MAXB, maxb);
    var b := c.body;
    var c0 := c.(body := b.(speedDelta := d));
    var c1 := c.(body := Speed(b.speedOutfits, d, mina, b.minb, b.maxa, b.maxb));
    var c2 := c.(body := Speed(b.speedOutfits, d, mina, minb, b.maxa, b.maxb));
    var c3 := c.(body := Speed(b.speedOutfits, d, mina, minb, maxa, b.maxb));
    FourRead(c0, f1, f2, f3, f4, c1, c2, c3, c.(body := Speed(b.speedOutfits, d, mina, minb, maxa, maxb)));
    FitMore(c, f0, [f1, f2, f3, f4]);
    assert [f0, f1, f2, f3, f4] == [f0] + [f1, f2, f3, f4];
  }

  /** The body belongs to the type: what createCondition makes of it is of the same class. */
  ghost predicate Typed(c: Value)
  {
    && FreshBody(c.base.typ).Some?
    && (match c.body
        case Damage(_, _, _, _) => FreshBody(c.base.typ).value.Damage?
        case Speed(_, _, _, _, _, _) => FreshBody(c.base.typ).value.Speed?
        case Outfits(_) => FreshBody(c.base.typ).value.Outfits?
        case Light(_, _, _, _) => FreshBody(c.base.typ).value.Light?
        case Regeneration(_, _, _, _) => FreshBody(c.base.typ).value.Regeneration?
        case Soul(_, _) => FreshBody(c.base.typ).value.Soul?
        case Attributes(skills, stats, _, _) =>
          FreshBody(c.base.typ).value.Attributes? && |skills| == SKILLS && |stats| == STATS
        case Plain => FreshBody(c.base.typ).value.Plain?)
  }

  lemma DamageBack(start: Value, body: Body)
    requires start.body == Damage(false, 0, 0, []) && body.Damage?
    ensures Fit(start, BodyFields(body))
    ensures Applied(start, BodyFields(body)) ==
            Value(start.base.(ticks := GrownTicks(start.base.ticks, body.damageList)), body)
  {
    hide Fit, Applied, Set, Size, IntervalFields, GrownTicks;
    var head := [Field(ATTR_DELAYED, [if body.delayed then 1 else 0]), Field(ATTR_PERIODDAMAGE, Signed(body.periodDamage)),
                 Field(ATTR_OWNER, Long(body.owner))];
    DamageRead(start, body.delayed, body.periodDamage, body.owner);
    IntervalsRead(Applied(start, head), body.damageList);
    FitConcat(start, head, IntervalFields(body.damageList));
    assert [] + body.damageList == body.damageList;
  }

  lemma SpeedBack(start: Value, body: Body)
    requires start.body.Speed? && start.body.speedOutfits == [] && body.Speed?
    ensures Fit(start, BodyFields(body)) && Applied(start, BodyFields(body)) == start.(body := body)
  {
    hide Fit, Applied, Set, Size, OutfitFields;
    var l := body.speedOutfits;
    OutfitsRead(start, l);
    assert [] + l == l;
    var tail := [Field(ATTR_SPEEDDELTA, Signed(body.speedDelta)), Field(ATTR_FORMULA_MINA, body.mina),
                 Field(ATTR_FORMULA_MINB, body.minb), Field(ATTR_FORMULA_MAXA, body.maxa), Field(ATTR_FORMULA_MAXB, body.maxb)];
    SpeedRead(Applied(start, OutfitFields(l)), body.speedDelta, body.mina, body.minb, body.maxa, body.maxb);
    FitConcat(start, OutfitFields(l), tail);
  }

  lemma AttributesBack(start: Value, body: Body)
    requires start.body.Attributes? && body.Attributes? && start.body.currentSkill == start.body.currentStat == 0
    requires |body.skills| == |start.body.skills| && |body.stats| == |start.body.stats|
    ensures Fit(start, BodyFields(body))
    ensures Applied(start, BodyFields(body)) ==
            start.(body := Attributes(body.skills, body.stats, |body.skills|, |body.stats|))
  {
    hide Fit, Applied, Set, Size, NumberFields;
    SkillsRead(start, body.skills);
    StatsRead(Applied(start, NumberFields(ATTR_SKILLS, body.skills)), body.stats);
    FitConcat(start, NumberFields(ATTR_SKILLS, body.skills), NumberFields(ATTR_STATS, body.stats));
    assert body.skills + start.body.skills[|body.skills|..] == body.skills;
    assert body.stats + start.body.stats[|body.stats|..] == body.stats;
  }

  /** Setting all attributes of a condition on a fresh one makes the condition again. */
  lemma BodyRead(c: Value)
    requires Typed(c)
    ensures var start := Fresh(c.base).value; Fit(start, BodyFields(c.body)) && Applied(start, BodyFields(c.body)) == Restored(c)
  {
    var start := Fresh(c.base).value;
    match c.body {
      case Damage(_, _, _, _) => DamageBack(start, c.body);
      case Speed(_, _, _, _, _, _) => SpeedBack(start, c.body);
      case Outfits(l) =>
        OutfitsRead(start, l);
        assert [] + l == l;
      case Light(color, level, ticks, interval) => LightRead(start, color, level, ticks, interval);
      case Regeneration(ht, hg, mt, mg) => RegenerationRead(start, ht, hg, mt, mg);
      case Soul(gain, ticks) => SoulRead(start, gain, ticks);
      case Attributes(_, _, _, _) => AttributesBack(start, c.body);
      case Plain =>
    }
  }

  // ---------------------------------------------------------------- whole conditions, and lists of them

  lemma {:induction false} BytesConcat(a: seq<Field>, b: seq<Field>)
    ensures Bytes(a + b) == Bytes(a) + Bytes(b)
  {
    if a == [] {
      assert a + b == b;
    } else {
      assert (a + b)[1..] == a[1..] + b;
      BytesConcat(a[1..], b);
    }
  }

  lemma BytesOne(f: Field)
    ensures Bytes([f]) == [f.attr] + f.payload
  {
    assert [f][1..] == [];
    assert Bytes([]) == [];
  }

  lemma BytesMore(f: Field, fields: seq<Field>)
    ensures Bytes([f] + fields) == [f.attr] + f.payload + Bytes(fields)
  {
    assert ([f] + fields)[1..] == fields;
  }

  /** A condition as it is stored. */
  function Encoded(c: Value): seq<Byte>
  {
    Bytes(BaseFields(c.base) + BodyFields(c.body)) + [ATTR_END]
  }

  function SaveAll(cs: seq<Value>): seq<Byte>
  {
    if cs == [] then [] else Encoded(cs[0]) + SaveAll(cs[1..])
  }

  /** An attribute of four bytes that has to come next. */
  function Head(s: seq<Byte>, attr: Byte): (r: Option<(seq<Byte>, seq<Byte>)>)
    ensures r.Some? ==> |r.value.0| == 4 && |s| == 5 + |r.value.1|
  {
    if |s| >= 5 && s[0] == attr then Some((s[1..5], s[5..])) else None
  }

  lemma HeadBack(attr: Byte, payload: seq<Byte>, rest: seq<Byte>)
    requires |payload| == 4
    ensures Head([attr] + payload + rest, attr) == Some((payload, rest))
  {
    var s := [attr] + payload + rest;
    assert s[1..5] == payload && s[5..] == rest;
  }

  /** createCondition from a stream: the five common attributes, and a fresh condition if the type is known. */
  function BaseAt(s: seq<Byte>): (r: Option<(Base, seq<Byte>)>)
    ensures r.Some? ==> |r.value.1| < |s|
  {
    var typ := Head(s, ATTR_TYPE);
    if typ.None? then None
    else
      var id := Head(typ.value.1, ATTR_ID);
      if id.None? then None
      else
        var ticks := Head(id.value.1, ATTR_TICKS);
        if ticks.None? then None
        else
          var buff := Head(ticks.value.1, ATTR_BUFF);
          if buff.None? then None
          else
            var subId := Head(buff.value.1, ATTR_SUBID);
            if subId.None? then None
            else
              Some((Base(LongOf(typ.value.0), SignedOf(id.value.0), SignedOf(ticks.value.0),
                                    LongOf(buff.value.0) != 0, LongOf(subId.value.0)), subId.value.1))
  }

  function Created(s: seq<Byte>): (r: Option<(Value, seq<Byte>)>)
    ensures r.Some? ==> |r.value.1| < |s|
  {
    var base := BaseAt(s);
    if base.None? then None
    else
      var start := Fresh(base.value.0);
      if start.None? then None else Some((start.value, base.value.1))
  }

  /** The loading loop: it stops at the first condition that cannot be created. */
  function LoadAll(s: seq<Byte>): seq<Value>
    decreases |s|
  {
    var created := Created(s);
    if created.None? then []
    else
      var r := ReadProps(created.value.0, created.value.1);
      (if r.ok then [r.value] else []) + LoadAll(r.rest)
  }

  lemma BuffBack(buff: bool)
    ensures LongOf(Signed(if buff then 1 else 0)) != 0 <==> buff
  {
    LongBack(if buff then 1 else 0);
  }

  lemma BaseBack(b: Base, rest: seq<Byte>)
    ensures BaseAt(Bytes(BaseFields(b)) + rest) == Some((b, rest))
  {
    hide Long, LongOf, Signed, SignedOf, Head, Bytes, BaseFields;
    var typ, id, ticks, subId := Long(b.typ), Signed(b.id), Signed(b.ticks), Long(b.subId);
    var buff := Signed(if b.buff then 1 else 0);
    LongBack(b.typ);
    SignedBack(b.id);
    SignedBack(b.ticks);
    LongBack(b.subId);
    BuffBack(b.buff);
    BaseBytes(b);
    var s4 := [ATTR_SUBID] + subId + rest;
    var s3 := [ATTR_BUFF] + buff + s4;
    var s2 := [ATTR_TICKS] + ticks + s3;
    var s1 := [ATTR_ID] + id + s2;
    var s0 := [ATTR_TYPE] + typ + s1;
    HeadBack(ATTR_TYPE, typ, s1);
    HeadBack(ATTR_ID, id, s2);
    HeadBack(ATTR_TICKS, ticks, s3);
    HeadBack(ATTR_BUFF, buff, s4);
    HeadBack(ATTR_SUBID, subId, rest);
    assert Bytes(BaseFields(b)) + rest == s0;
  }

  lemma BaseBytes(b: Base)
    ensures Bytes(BaseFields(b)) ==
            [ATTR_TYPE] + Long(b.typ) + ([ATTR_ID] + Signed(b.id) + ([ATTR_TICKS] + Signed(b.ticks)
            + ([ATTR_BUFF] + Signed(if b.buff then 1 else 0) + ([ATTR_SUBID] + Long(b.subId)))))
  {
    hide Long, Signed, Bytes;
    var f := BaseFields(b);
    BytesOne(f[4]);
    BytesMore(f[3], [f[4]]);
    BytesMore(f[2], [f[3]] + [f[4]]);
    BytesMore(f[1], [f[2]] + ([f[3]] + [f[4]]));
    BytesMore(f[0], [f[1]] + ([f[2]] + ([f[3]] + [f[4]])));
    assert f == [f[0]] + ([f[1]] + ([f[2]] + ([f[3]] + [f[4]])));
  }

  lemma EncodedParts(c: Value, rest: seq<Byte>)
    ensures Encoded(c) + rest == Bytes(BaseFields(c.base)) + (Bytes(BodyFields(c.body)) + [ATTR_END] + rest)
  {
    hide Bytes, BaseFields, BodyFields;
    BytesConcat(BaseFields(c.base), BodyFields(c.body));
  }

  /** One stored condition comes back whole, in front of anything. */
  lemma ConditionBack(c: Value, rest: seq<Byte>)
    requires Typed(c)
    ensures LoadAll(Encoded(c) + rest) == [Restored(c)] + LoadAll(rest)
  {
    hide Bytes, BaseFields, BodyFields, BaseAt, ReadProps, Applied, Fit, FreshBody, Restored, Encoded;
    var s, tail := Encoded(c) + rest, Bytes(BodyFields(c.body)) + [ATTR_END] + rest;
    EncodedParts(c, rest);
    BaseBack(c.base, tail);
    assert Created(s) == Some((Fresh(c.base).value, tail));
    BodyRead(c);
    ReadsFields(Fresh(c.base).value, BodyFields(c.body), rest);
  }

  /** What of a list comes back: everything before the first condition of a type that cannot be created. */
  function Loaded(cs: seq<Value>): seq<Value>
  {
    if cs == [] || FreshBody(cs[0].base.typ).None? then [] else [Restored(cs[0])] + Loaded(cs[1..])
  }

  /** The class of a condition is the one that belongs to its type, if any does. */
  ghost predicate Regular(cs: seq<Value>)
  {
    forall i :: 0 <= i < |cs| && FreshBody(cs[i].base.typ).Some? ==> Typed(cs[i])
  }

  /** Storing and loading a list of conditions. */
  lemma {:induction false} ListBack(cs: seq<Value>)
    requires Regular(cs)
    ensures LoadAll(SaveAll(cs)) == Loaded(cs)
  {
    if cs != [] {
      var rest := SaveAll(cs[1..]);
      assert SaveAll(cs) == Encoded(cs[0]) + rest;
      if FreshBody(cs[0].base.typ).Some? {
        assert Regular(cs[1..]);
        ListBack(cs[1..]);
        hide Encoded, LoadAll, Typed, FreshBody;
        ConditionBack(cs[0], rest);
      } else {
        EncodedParts(cs[0], rest);
        BaseBack(cs[0].base, Bytes(BodyFields(cs[0].body)) + [ATTR_END] + rest);
        hide BaseAt, Encoded;
        assert Created(SaveAll(cs)).None?;
      }
    }
  }

  /** Of stored conditions of any types, all come back exactly when the type of every one can be created. */
  lemma AllBack(cs: seq<Value>)
    requires Regular(cs)
    ensures |LoadAll(SaveAll(cs))| == |cs| <==> forall i :: 0 <= i < |cs| ==> FreshBody(cs[i].base.typ).Some?
  {
    hide LoadAll, SaveAll, FreshBody, Loaded;
    ListBack(cs);
    LoadedAll(cs);
  }

  /** Bytes of an unknown type in front: nothing behind them is loaded. */
  lemma NothingBehindUnknown(unknown: Value, others: seq<Value>)
    requires FreshBody(unknown.base.typ).None? && Regular(others)
    ensures LoadAll(SaveAll([unknown] + others)) == []
  {
    hide LoadAll, SaveAll, Typed, FreshBody;
    assert Regular([unknown] + others);
    ListBack([unknown] + others);
  }

  /** Every condition as it comes back. */
  function AllRestored(cs: seq<Value>): (r: seq<Value>)
    ensures |r| == |cs| && forall i :: 0 <= i < |cs| ==> r[i] == Restored(cs[i])
  {
    if cs == [] then [] else [Restored(cs[0])] + AllRestored(cs[1..])
  }

  /** Where every condition fits its type, all come back. */
  lemma {:induction false} LoadedTyped(cs: seq<Value>)
    requires forall c :: c in cs ==> Typed(c)
    ensures Regular(cs) && Loaded(cs) == AllRestored(cs)
  {
    hide Restored, FreshBody;
    if cs != [] {
      LoadedTyped(cs[1..]);
      TypedIsKnown(cs[0]);
    }
  }

  lemma TypedIsKnown(c: Value)
    ensures Typed(c) ==> FreshBody(c.base.typ).Some?
  {
  }

  lemma {:induction false} LoadedAll(cs: seq<Value>)
    ensures |Loaded(cs)| <= |cs|
    ensures |Loaded(cs)| == |cs| <==> forall i :: 0 <= i < |cs| ==> FreshBody(cs[i].base.typ).Some?
  {
    hide FreshBody, Restored;
    if cs != [] && FreshBody(cs[0].base.typ).Some? {
      LoadedAll(cs[1..]);
      assert forall i :: 1 <= i < |cs| ==> cs[i] == cs[1..][i - 1];
    }
  }
}
