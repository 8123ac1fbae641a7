/**
 The methods that store conditions in a growing stream and rebuild them from one, proved against the format
 of ConditionCodec.
 */
module ConditionStorage {
  import opened ConditionTypes
  import opened PropStreams
  import opened ConditionCodec
  import opened Basics

  /** Room for any further fields: `out` holds `before` and the bytes of the fields written since. */
  ghost predicate Holds(out: PropWriteStream, before: seq<Byte>, fields: seq<Field>)
    reads out, out.buffer
  {
    out.Valid() && out.Contents() == before + Bytes(fields)
  }

  /** addByte of the code, addType of the value. */
  method AddField(out: PropWriteStream, attr: Byte, payload: seq<Byte>, ghost before: seq<Byte>, ghost done: seq<Field>)
    requires Holds(out, before, done)
    modifies out, out.buffer
    ensures Holds(out, before, done + [Field(attr, payload)]) && (out.buffer == old(out.buffer) || fresh(out.buffer))
  {
    hide Bytes;
    FieldsMore(done, attr, payload, before);
    out.AddType([attr]);
    out.AddType(payload);
  }

  lemma FieldsMore(done: seq<Field>, attr: Byte, payload: seq<Byte>, before: seq<Byte>)
    ensures before + Bytes(done + [Field(attr, payload)]) == before + Bytes(done) + [attr] + payload
  {
    hide Bytes;
    BytesConcat(done, [Field(attr, payload)]);
    BytesOne(Field(attr, payload));
  }

  class Condition {
    var base: Base
    var body: Body

    constructor (value: Value)
      ensures Get() == value
    {
      base, body := value.base, value.body;
    }

    function Get(): Value
      reads this
    {
      Value(base, body)
    }

    // -------------------------------------------------------------- serialize

    /** Condition::serialize */
    method SerializeBase(out: PropWriteStream, ghost before: seq<Byte>)
      requires Holds(out, before, [])
      modifies out, out.buffer
      ensures Holds(out, before, BaseFields(base)) && (out.buffer == old(out.buffer) || fresh(out.buffer))
    {
      hide Bytes, Holds, Long, Signed;
      ghost var f := BaseFields(base);
      assert [] + [f[0]] == f[..1];
      AddField(out, ATTR_TYPE, Long(base.typ), before, []);
      assert f[..1] + [f[1]] == f[..2];
      AddField(out, ATTR_ID, Signed(base.id), before, f[..1]);
      assert f[..2] + [f[2]] == f[..3];
      AddField(out, ATTR_TICKS, Signed(base.ticks), before, f[..2]);
      assert f[..3] + [f[3]] == f[..4];
      AddField(out, ATTR_BUFF, Signed(if base.buff then 1 else 0), before, f[..3]);
      assert f[..4] + [f[4]] == f;
      AddField(out, ATTR_SUBID, Long(base.subId), before, f[..4]);
    }

    /** The loop over the damage list. */
    method SerializeIntervals(out: PropWriteStream, l: seq<Interval>, ghost before: seq<Byte>, ghost done: seq<Field>)
      requires Holds(out, before, done)
      modifies out, out.buffer
      ensures Holds(out, before, done + IntervalFields(l)) && (out.buffer == old(out.buffer) || fresh(out.buffer))
    {
      hide Bytes, Holds;
      var i := 0;
      assert done + IntervalFields([]) == done;
      while i < |l|
        invariant 0 <= i <= |l| && Holds(out, before, done + IntervalFields(l[..i]))
        invariant out.buffer == old(out.buffer) || fresh(out.buffer)
      {
        assert l[..i + 1][..i] == l[..i];
        assert done + IntervalFields(l[..i + 1]) == (done + IntervalFields(l[..i])) + [IntervalField(l[i])];
        AddField(out, ATTR_INTERVALDATA, Signed(l[i].timeLeft) + Signed(l[i].value) + Signed(l[i].interval),
                 before, done + IntervalFields(l[..i]));
        i := i + 1;
      }
      assert l[..|l|] == l;
    }

    /** The loop over the outfits. */
    method SerializeOutfits(out: PropWriteStream, l: seq<Outfit>, ghost before: seq<Byte>, ghost done: seq<Field>)
      requires Holds(out, before, done)
      modifies out, out.buffer
      ensures Holds(out, before, done + OutfitFields(l)) && (out.buffer == old(out.buffer) || fresh(out.buffer))
    {
      hide Bytes, Holds;
      var i := 0;
      assert done + OutfitFields([]) == done;
      while i < |l|
        invariant 0 <= i <= |l| && Holds(out, before, done + OutfitFields(l[..i]))
        invariant out.buffer == old(out.buffer) || fresh(out.buffer)
      {
        assert l[..i + 1][..i] == l[..i];
        assert done + OutfitFields(l[..i + 1]) == (done + OutfitFields(l[..i])) + [Field(ATTR_OUTFIT, l[i])];
        AddField(out, ATTR_OUTFIT, l[i], before, done + OutfitFields(l[..i]));
        i := i + 1;
      }
      assert l[..|l|] == l;
    }

    /** The loops over skills and stats. */
    method SerializeNumbers(out: PropWriteStream, attr: Byte, l: seq<Int32>, ghost before: seq<Byte>, ghost done: seq<Field>)
      requires Holds(out, before, done)
      modifies out, out.buffer
      ensures Holds(out, before, done + NumberFields(attr, l)) && (out.buffer == old(out.buffer) || fresh(out.buffer))
    {
      hide Bytes, Holds, Signed;
      var i := 0;
      assert done + NumberFields(attr, []) == done;
      while i < |l|
        invariant 0 <= i <= |l| && Holds(out, before, done + NumberFields(attr, l[..i]))
        invariant out.buffer == old(out.buffer) || fresh(out.buffer)
      {
        assert l[..i + 1][..i] == l[..i];
        assert done + NumberFields(attr, l[..i + 1]) == (done + NumberFields(attr, l[..i])) + [Field(attr, Signed(l[i]))];
        AddField(out, attr, Signed(l[i]), before, done + NumberFields(attr, l[..i]));
        i := i + 1;
      }
      assert l[..|l|] == l;
    }

    /** ConditionDamage::serialize */
    method SerializeDamage(out: PropWriteStream, ghost before: seq<Byte>, ghost done: seq<Field>)
      requires body.Damage? && Holds(out, before, done)
      modifies out, out.buffer
      ensures Holds(out, before, done + BodyFields(body)) && (out.buffer == old(out.buffer) || fresh(out.buffer))
    {
      hide Bytes, Holds, Long, Signed, IntervalFields;
      ghost var f := [Field(ATTR_DELAYED, [if body.delayed then 1 else 0]),
                      Field(ATTR_PERIODDAMAGE, Signed(body.periodDamage)),
                      Field(ATTR_OWNER, Long(body.owner))];
      assert done + f[..0] == done;
      AddField(out, ATTR_DELAYED, [if body.delayed then 1 else 0], before, done + f[..0]);
      assert (done + f[..0]) + [f[0]] == done + f[..1];
      AddField(out, ATTR_PERIODDAMAGE, Signed(body.periodDamage), before, done + f[..1]);
      assert (done + f[..1]) + [f[1]] == done + f[..2];
      AddField(out, ATTR_OWNER, Long(body.owner), before, done + f[..2]);
      assert (done + f[..2]) + [f[2]] == done + f;
      SerializeIntervals(out, body.damageList, before, done + f);
      Regroup(done, f, IntervalFields(body.damageList));
    }

    /** ConditionSpeed::serialize, after the outfits of ConditionOutfit::serialize */
    method SerializeSpeed(out: PropWriteStream, ghost before: seq<Byte>, ghost done: seq<Field>)
      requires body.Speed? && Holds(out, before, done)
      modifies out, out.buffer
      ensures Holds(out, before, done + BodyFields(body)) && (out.buffer == old(out.buffer) || fresh(out.buffer))
    {
      hide Bytes, Holds, Long, Signed;
      SerializeOutfits(out, body.speedOutfits, before, done);
      ghost var start := done + OutfitFields(body.speedOutfits);
      ghost var f := [Field(ATTR_SPEEDDELTA, Signed(body.speedDelta)),
                      Field(ATTR_FORMULA_MINA, body.mina),
                      Field(ATTR_FORMULA_MINB, body.minb),
                      Field(ATTR_FORMULA_MAXA, body.maxa),
                      Field(ATTR_FORMULA_MAXB, body.maxb)];
      assert start + f[..0] == start;
      AddField(out, ATTR_SPEEDDELTA, Signed(body.speedDelta), before, start + f[..0]);
      assert (start + f[..0]) + [f[0]] == start + f[..1];
      AddField(out, ATTR_FORMULA_MINA, body.mina, before, start + f[..1]);
      assert (start + f[..1]) + [f[1]] == start + f[..2];
      AddField(out, ATTR_FORMULA_MINB, body.minb, before, start + f[..2]);
      assert (start + f[..2]) + [f[2]] == start + f[..3];
      AddField(out, ATTR_FORMULA_MAXA, body.maxa, before, start + f[..3]);
      assert (start + f[..3]) + [f[3]] == start + f[..4];
      AddField(out, ATTR_FORMULA_MAXB, body.maxb, before, start + f[..4]);
      assert (start + f[..4]) + [f[4]] == start + f;
      Regroup(done, OutfitFields(body.speedOutfits), f);
    }

    /** ConditionLight::serialize */
    method SerializeLight(out: PropWriteStream, ghost before: seq<Byte>, ghost done: seq<Field>)
      requires body.Light? && Holds(out, before, done)
      modifies out, out.buffer
      ensures Holds(out, before, done + BodyFields(body)) && (out.buffer == old(out.buffer) || fresh(out.buffer))
    {
      hide Bytes, Holds, Long, Signed;
      ghost var f := [Field(ATTR_LIGHTCOLOR, Long(body.color)),
                      Field(ATTR_LIGHTLEVEL, Long(body.level)),
                      Field(ATTR_LIGHTTICKS, Long(body.lightTicks)),
                      Field(ATTR_LIGHTINTERVAL, Long(body.lightInterval))];
      assert done + f[..0] == done;
      AddField(out, ATTR_LIGHTCOLOR, Long(body.color), before, done + f[..0]);
      assert (done + f[..0]) + [f[0]] == done + f[..1];
      AddField(out, ATTR_LIGHTLEVEL, Long(body.level), before, done + f[..1]);
      assert (done + f[..1]) + [f[1]] == done + f[..2];
      AddField(out, ATTR_LIGHTTICKS, Long(body.lightTicks), before, done + f[..2]);
      assert (done + f[..2]) + [f[2]] == done + f[..3];
      AddField(out, ATTR_LIGHTINTERVAL, Long(body.lightInterval), before, done + f[..3]);
      assert (done + f[..3]) + [f[3]] == done + f;
    }

    /** ConditionRegeneration::serialize */
    method SerializeRegeneration(out: PropWriteStream, ghost before: seq<Byte>, ghost done: seq<Field>)
      requires body.Regeneration? && Holds(out, before, done)
      modifies out, out.buffer
      ensures Holds(out, before, done + BodyFields(body)) && (out.buffer == old(out.buffer) || fresh(out.buffer))
    {
      hide Bytes, Holds, Long, Signed;
      ghost var f := [Field(ATTR_HEALTHTICKS, Long(body.healthTicks)),
                      Field(ATTR_HEALTHGAIN, Long(body.healthGain)),
                      Field(ATTR_MANATICKS, Long(body.manaTicks)),
                      Field(ATTR_MANAGAIN, Long(body.manaGain))];
      assert done + f[..0] == done;
      AddField(out, ATTR_HEALTHTICKS, Long(body.healthTicks), before, done + f[..0]);
      assert (done + f[..0]) + [f[0]] == done + f[..1];
      AddField(out, ATTR_HEALTHGAIN, Long(body.healthGain), before, done + f[..1]);
      assert (done + f[..1]) + [f[1]] == done + f[..2];
      AddField(out, ATTR_MANATICKS, Long(body.manaTicks), before, done + f[..2]);
      assert (done + f[..2]) + [f[2]] == done + f[..3];
      AddField(out, ATTR_MANAGAIN, Long(body.manaGain), before, done + f[..3]);
      assert (done + f[..3]) + [f[3]] == done + f;
    }

    /** ConditionSoul::serialize */
    method SerializeSoul(out: PropWriteStream, ghost before: seq<Byte>, ghost done: seq<Field>)
      requires body.Soul? && Holds(out, before, done)
      modifies out, out.buffer
      ensures Holds(out, before, done + BodyFields(body)) && (out.buffer == old(out.buffer) || fresh(out.buffer))
    {
      hide Bytes, Holds, Long, Signed;
      ghost var f := [Field(ATTR_SOULGAIN, Long(body.soulGain)),
                      Field(ATTR_SOULTICKS, Long(body.soulTicks))];
      assert done + f[..0] == done;
      AddField(out, ATTR_SOULGAIN, Long(body.soulGain), before, done + f[..0]);
      assert (done + f[..0]) + [f[0]] == done + f[..1];
      AddField(out, ATTR_SOULTICKS, Long(body.soulTicks), before, done + f[..1]);
      assert (done + f[..1]) + [f[1]] == done + f;
    }

    /** ConditionAttributes::serialize */
    method SerializeAttributes(out: PropWriteStream, ghost before: seq<Byte>, ghost done: seq<Field>)
      requires body.Attributes? && Holds(out, before, done)
      modifies out, out.buffer
      ensures Holds(out, before, done + BodyFields(body)) && (out.buffer == old(out.buffer) || fresh(out.buffer))
    {
      hide Bytes, Holds, NumberFields;
      SerializeNumbers(out, ATTR_SKILLS, body.skills, before, done);
      ghost var start := done + NumberFields(ATTR_SKILLS, body.skills);
      SerializeNumbers(out, ATTR_STATS, body.stats, before, start);
      assert start + NumberFields(ATTR_STATS, body.stats) == done + BodyFields(body);
    }

    /** serialize: the common attributes, then those of the class. */
    method Serialize(out: PropWriteStream)
      requires out.Valid()
      modifies out, out.buffer
      ensures out.Valid() && (out.buffer == old(out.buffer) || fresh(out.buffer))
      ensures out.Contents() == old(out.Contents()) + Bytes(BaseFields(base) + BodyFields(body))
    {
      ghost var before, done := out.Contents(), BaseFields(base);
      assert Holds(out, before, []);
      SerializeBase(out, before);
      hide Bytes, BaseFields, BodyFields;
      match body {
        case Damage(_, _, _, _) => SerializeDamage(out, before, done);
        case Speed(_, _, _, _, _, _) => SerializeSpeed(out, before, done);
        case Outfits(outfits) =>
          OutfitsOnly(body);
          SerializeOutfits(out, outfits, before, done);
        case Light(_, _, _, _) => SerializeLight(out, before, done);
        case Regeneration(_, _, _, _) => SerializeRegeneration(out, before, done);
        case Soul(_, _) => SerializeSoul(out, before, done);
        case Attributes(_, _, _, _) => SerializeAttributes(out, before, done);
        case Plain =>
          PlainOnly(body, done);
      }
    }

    // -------------------------------------------------------------- unserialize

    /** Condition::unserializeProp */
    method UnserializeBase(attr: Byte, stream: PropStream) returns (ok: bool)
      requires stream.Valid() && (attr in {ATTR_TYPE, ATTR_ID, ATTR_TICKS, ATTR_BUFF, ATTR_SUBID} || Size(body, attr) == 0)
      modifies this, stream`p
      ensures stream.Valid() && (ok <==> Takes(old(Get()), attr, old(stream.Rest())))
      ensures ok ==> Get() == Set(old(Get()), attr, Front(old(Get()), attr, old(stream.Rest())))
      ensures ok ==> stream.Rest() == old(stream.Rest())[Size(old(body), attr)..]
      ensures !ok ==> Get() == old(Get()) && stream.Rest() == old(stream.Rest())
    {
      var s;
      if attr == ATTR_TYPE {
        ok, s := stream.GetType(4);
        if !ok { return; }
        base := base.(typ := LongOf(s));
      } else if attr == ATTR_ID {
        ok, s := stream.GetType(4);
        if !ok { return; }
        base := base.(id := SignedOf(s));
      } else if attr == ATTR_TICKS {
        ok, s := stream.GetType(4);
        if !ok { return; }
        base := base.(ticks := SignedOf(s));
      } else if attr == ATTR_BUFF {
        ok, s := stream.GetType(4);
        if !ok { return; }
        base := base.(buff := SignedOf(s) != 0);
      } else if attr == ATTR_SUBID {
        ok, s := stream.GetType(4);
        if !ok { return; }
        base := base.(subId := LongOf(s));
      } else {
        ok := false;
      }
    }

    /** ConditionDamage::unserializeProp */
    method UnserializeDamage(attr: Byte, stream: PropStream) returns (ok: bool)
      requires stream.Valid() && body.Damage?
      modifies this, stream`p
      ensures stream.Valid() && (ok <==> Takes(old(Get()), attr, old(stream.Rest())))
      ensures ok ==> Get() == Set(old(Get()), attr, Front(old(Get()), attr, old(stream.Rest())))
      ensures ok ==> stream.Rest() == old(stream.Rest())[Size(old(body), attr)..]
      ensures !ok ==> Get() == old(Get()) && stream.Rest() == old(stream.Rest())
    {
      var s;
      if attr == ATTR_DELAYED {
        ok, s := stream.GetType(1);
        if !ok { return; }
        body := body.(delayed := s[0] != 0);
      } else if attr == ATTR_PERIODDAMAGE {
        ok, s := stream.GetType(4);
        if !ok { return; }
        body := body.(periodDamage := SignedOf(s));
      } else if attr == ATTR_OWNER {
        ok, s := stream.GetType(4);
        if !ok { return; }
        body := body.(owner := LongOf(s));
      } else if attr == ATTR_INTERVALDATA {
        ok, s := stream.GetType(12);
        if !ok { return; }
        var i := IntervalInfo(SignedOf(s[..4]), SignedOf(s[4..8]), SignedOf(s[8..]));
        body := body.(damageList := body.damageList + [i]);
        if base.ticks != -1 {
          base := base.(ticks := Wrap(base.ticks + i.interval));
        }
      } else {
        ok := UnserializeBase(attr, stream);
      }
    }

    /** ConditionOutfit::unserializeProp */
    method UnserializeOutfit(attr: Byte, stream: PropStream) returns (ok: bool)
      requires stream.Valid() && body.Outfits?
      modifies this, stream`p
      ensures stream.Valid() && (ok <==> Takes(old(Get()), attr, old(stream.Rest())))
      ensures ok ==> Get() == Set(old(Get()), attr, Front(old(Get()), attr, old(stream.Rest())))
      ensures ok ==> stream.Rest() == old(stream.Rest())[Size(old(body), attr)..]
      ensures !ok ==> Get() == old(Get()) && stream.Rest() == old(stream.Rest())
    {
      var s;
      if attr == ATTR_OUTFIT {
        ok, s := stream.GetType(10);
        if !ok { return; }
        body := Outfits(body.outfits + [s]);
      } else {
        ok := UnserializeBase(attr, stream);
      }
    }

    /** ConditionSpeed::unserializeProp, and that of ConditionOutfit behind it */
    method UnserializeSpeed(attr: Byte, stream: PropStream) returns (ok: bool)
      requires stream.Valid() && body.Speed?
      modifies this, stream`p
      ensures stream.Valid() && (ok <==> Takes(old(Get()), attr, old(stream.Rest())))
      ensures ok ==> Get() == Set(old(Get()), attr, Front(old(Get()), attr, old(stream.Rest())))
      ensures ok ==> stream.Rest() == old(stream.Rest())[Size(old(body), attr)..]
      ensures !ok ==> Get() == old(Get()) && stream.Rest() == old(stream.Rest())
    {
      var s;
      if attr == ATTR_SPEEDDELTA {
        ok, s := stream.GetType(4);
        if !ok { return; }
        body := body.(speedDelta := SignedOf(s));
      } else if attr == ATTR_FORMULA_MINA {
        ok, s := stream.GetType(4);
        if !ok { return; }
        body := body.(mina := s);
      } else if attr == ATTR_FORMULA_MINB {
        ok, s := stream.GetType(4);
        if !ok { return; }
        body := body.(minb := s);
      } else if attr == ATTR_FORMULA_MAXA {
        ok, s := stream.GetType(4);
        if !ok { return; }
        body := body.(maxa := s);
      } else if attr == ATTR_FORMULA_MAXB {
        ok, s := stream.GetType(4);
        if !ok { return; }
        body := body.(maxb := s);
      } else if attr == ATTR_OUTFIT {
        ok, s := stream.GetType(10);
        if !ok { return; }
        body := body.(speedOutfits := body.speedOutfits + [s]);
      } else {
        ok := UnserializeBase(attr, stream);
      }
    }

    /** ConditionLight::unserializeProp */
    method UnserializeLight(attr: Byte, stream: PropStream) returns (ok: bool)
      requires stream.Valid() && body.Light?
      modifies this, stream`p
      ensures stream.Valid() && (ok <==> Takes(old(Get()), attr, old(stream.Rest())))
      ensures ok ==> Get() == Set(old(Get()), attr, Front(old(Get()), attr, old(stream.Rest())))
      ensures ok ==> stream.Rest() == old(stream.Rest())[Size(old(body), attr)..]
      ensures !ok ==> Get() == old(Get()) && stream.Rest() == old(stream.Rest())
    {
      var s;
      if attr == ATTR_LIGHTCOLOR {
        ok, s := stream.GetType(4);
        if !ok { return; }
        body := body.(color := LongOf(s));
      } else if attr == ATTR_LIGHTLEVEL {
        ok, s := stream.GetType(4);
        if !ok { return; }
        body := body.(level := LongOf(s));
      } else if attr == ATTR_LIGHTTICKS {
        ok, s := stream.GetType(4);
        if !ok { return; }
        body := body.(lightTicks := LongOf(s));
      } else if attr == ATTR_LIGHTINTERVAL {
        ok, s := stream.GetType(4);
        if !ok { return; }
        body := body.(lightInterval := LongOf(s));
      } else {
        ok := UnserializeBase(attr, stream);
      }
    }

    /** ConditionRegeneration::unserializeProp */
    method UnserializeRegeneration(attr: Byte, stream: PropStream) returns (ok: bool)
      requires stream.Valid() && body.Regeneration?
      modifies this, stream`p
      ensures stream.Valid() && (ok <==> Takes(old(Get()), attr, old(stream.Rest())))
      ensures ok ==> Get() == Set(old(Get()), attr, Front(old(Get()), attr, old(stream.Rest())))
      ensures ok ==> stream.Rest() == old(stream.Rest())[Size(old(body), attr)..]
      ensures !ok ==> Get() == old(Get()) && stream.Rest() == old(stream.Rest())
    {
      var s;
      if attr == ATTR_HEALTHTICKS {
        ok, s := stream.GetType(4);
        if !ok { return; }
        body := body.(healthTicks := LongOf(s));
      } else if attr == ATTR_HEALTHGAIN {
        ok, s := stream.GetType(4);
        if !ok { return; }
        body := body.(healthGain := LongOf(s));
      } else if attr == ATTR_MANATICKS {
        ok, s := stream.GetType(4);
        if !ok { return; }
        body := body.(manaTicks := LongOf(s));
      } else if attr == ATTR_MANAGAIN {
        ok, s := stream.GetType(4);
        if !ok { return; }
        body := body.(manaGain := LongOf(s));
      } else {
        ok := UnserializeBase(attr, stream);
      }
    }

    /** ConditionSoul::unserializeProp */
    method UnserializeSoul(attr: Byte, stream: PropStream) returns (ok: bool)
      requires stream.Valid() && body.Soul?
      modifies this, stream`p
      ensures stream.Valid() && (ok <==> Takes(old(Get()), attr, old(stream.Rest())))
      ensures ok ==> Get() == Set(old(Get()), attr, Front(old(Get()), attr, old(stream.Rest())))
      ensures ok ==> stream.Rest() == old(stream.Rest())[Size(old(body), attr)..]
      ensures !ok ==> Get() == old(Get()) && stream.Rest() == old(stream.Rest())
    {
      var s;
      if attr == ATTR_SOULGAIN {
        ok, s := stream.GetType(4);
        if !ok { return; }
        body := body.(soulGain := LongOf(s));
      } else if attr == ATTR_SOULTICKS {
        ok, s := stream.GetType(4);
        if !ok { return; }
        body := body.(soulTicks := LongOf(s));
      } else {
        ok := UnserializeBase(attr, stream);
      }
    }

    /** ConditionAttributes::unserializeProp; a number past the last skill or stat is refused here */
    method UnserializeAttributes(attr: Byte, stream: PropStream) returns (ok: bool)
      requires stream.Valid() && body.Attributes?
      modifies this, stream`p
      ensures stream.Valid() && (ok <==> Takes(old(Get()), attr, old(stream.Rest())))
      ensures ok ==> Get() == Set(old(Get()), attr, Front(old(Get()), attr, old(stream.Rest())))
      ensures ok ==> stream.Rest() == old(stream.Rest())[Size(old(body), attr)..]
      ensures !ok ==> Get() == old(Get()) && stream.Rest() == old(stream.Rest())
    {
      var s;
      if attr == ATTR_SKILLS {
        if body.currentSkill >= |body.skills| { return false; }
        ok, s := stream.GetType(4);
        if !ok { return; }
        body := body.(skills := body.skills[body.currentSkill := SignedOf(s)], currentSkill := body.currentSkill + 1);
      } else if attr == ATTR_STATS {
        if body.currentStat >= |body.stats| { return false; }
        ok, s := stream.GetType(4);
        if !ok { return; }
        body := body.(stats := body.stats[body.currentStat := SignedOf(s)], currentStat := body.currentStat + 1);
      } else {
        ok := UnserializeBase(attr, stream);
      }
    }

    /** unserializeProp of the class at hand */
    method UnserializeProp(attr: Byte, stream: PropStream) returns (ok: bool)
      requires stream.Valid()
      modifies this, stream`p
      ensures stream.Valid() && (ok <==> Takes(old(Get()), attr, old(stream.Rest())))
      ensures ok ==> Get() == Set(old(Get()), attr, Front(old(Get()), attr, old(stream.Rest())))
      ensures ok ==> stream.Rest() == old(stream.Rest())[Size(old(body), attr)..]
      ensures !ok ==> Get() == old(Get()) && stream.Rest() == old(stream.Rest())
    {
      hide Set, Size;
      match body {
        case Damage(_, _, _, _) => ok := UnserializeDamage(attr, stream);
        case Speed(_, _, _, _, _, _) => ok := UnserializeSpeed(attr, stream);
        case Outfits(_) => ok := UnserializeOutfit(attr, stream);
        case Light(_, _, _, _) => ok := UnserializeLight(attr, stream);
        case Regeneration(_, _, _, _) => ok := UnserializeRegeneration(attr, stream);
        case Soul(_, _) => ok := UnserializeSoul(attr, stream);
        case Attributes(_, _, _, _) => ok := UnserializeAttributes(attr, stream);
        case Plain =>
          PlainKnowsBase(body, attr);
          ok := UnserializeBase(attr, stream);
      }
    }

    /** unserialize */
    method Unserialize(stream: PropStream) returns (ok: bool)
      requires stream.Valid()
      modifies this, stream`p
      ensures stream.Valid() && Read(ok, Get(), stream.Rest()) == ReadProps(old(Get()), old(stream.Rest()))
    {
      hide ReadProps, Takes, Set, Size;
      ghost var start := stream.Rest();
      ghost var result := ReadProps(Get(), start);
      var got, s := stream.GetType(1);
      assert (if got then s else []) + stream.Rest() == start;
      while got && s[0] != ATTR_END
        invariant stream.Valid() && (got ==> |s| == 1)
        invariant ReadProps(Get(), (if got then s else []) + stream.Rest()) == result
        invariant !got ==> stream.Rest() == []
        decreases |stream.Rest()| + |s|
      {
        var attr := s[0];
        ReadStep(Get(), s, stream.Rest());
        ok := UnserializeProp(attr, stream);
        if !ok { return; }
        ghost var next := stream.Rest();
        got, s := stream.GetType(1);
        assert (if got then s else []) + stream.Rest() == next;
      }
      ReadEnd(Get(), if got then s else [], stream.Rest());
      ok := true;
    }
  }

  lemma ReadStep(c: Value, s: seq<Byte>, rest: seq<Byte>)
    requires |s| == 1 && s[0] != ATTR_END
    ensures Takes(c, s[0], rest) ==> 0 < Size(c.body, s[0]) <= |rest|
    ensures Takes(c, s[0], rest) ==>
      ReadProps(c, s + rest) == ReadProps(Set(c, s[0], Front(c, s[0], rest)), rest[Size(c.body, s[0])..])
    ensures !Takes(c, s[0], rest) ==> ReadProps(c, s + rest) == Read(false, c, rest)
  {
    hide Set, Size;
    var all, n := s + rest, Size(c.body, s[0]);
    assert all[1..] == rest;
    if Takes(c, s[0], rest) {
      assert all[1..1 + n] == rest[..n] && all[1 + n..] == rest[n..];
    }
  }

  lemma ReadEnd(c: Value, s: seq<Byte>, rest: seq<Byte>)
    requires (s == [] && rest == []) || (|s| == 1 && s[0] == ATTR_END)
    ensures ReadProps(c, s + rest) == Read(true, c, rest)
  {
    hide Set, Size;
    assert s != [] ==> (s + rest)[1..] == rest;
  }

  /** The attribute is known and its bytes are there. */
  predicate Takes(c: Value, attr: Byte, s: seq<Byte>)
  {
    0 < Size(c.body, attr) <= |s|
  }

  /** The bytes of the attribute. */
  function Front(c: Value, attr: Byte, s: seq<Byte>): (r: seq<Byte>)
    requires Takes(c, attr, s)
    ensures |r| == Size(c.body, attr) > 0
  {
    s[..Size(c.body, attr)]
  }

  lemma Regroup(a: seq<Field>, b: seq<Field>, c: seq<Field>)
    ensures (a + b) + c == a + (b + c)
  {
  }

  lemma PlainKnowsBase(body: Body, attr: Byte)
    requires body.Plain?
    ensures attr in {ATTR_TYPE, ATTR_ID, ATTR_TICKS, ATTR_BUFF, ATTR_SUBID} || Size(body, attr) == 0
  {
  }

  lemma OutfitsOnly(body: Body)
    ensures body.Outfits? ==> BodyFields(body) == OutfitFields(body.outfits)
  {
  }

  lemma PlainOnly(body: Body, done: seq<Field>)
    ensures body.Plain? ==> done + BodyFields(body) == done
  {
  }

  // ---------------------------------------------------------------- creating, saving and loading

  /** One attribute code and four bytes, as createCondition reads them. */
  method GetHead(stream: PropStream, attr: Byte) returns (ok: bool, s: seq<Byte>)
    requires stream.Valid()
    modifies stream`p
    ensures stream.Valid() && (ok <==> Head(old(stream.Rest()), attr).Some?)
    ensures ok ==> (s, stream.Rest()) == Head(old(stream.Rest()), attr).value
  {
    ghost var rest := stream.Rest();
    ok, s := stream.GetType(1);
    if !ok || s[0] != attr { return false, []; }
    ok, s := stream.GetType(4);
    if !ok { return false, []; }
    assert rest[1..][..4] == rest[1..5] && rest[1..][4..] == rest[5..];
  }

  /** createCondition from a type. */
  method Create(base: Base) returns (c: Condition?)
    ensures c == null <==> Fresh(base).None?
    ensures c != null ==> fresh(c) && c.Get() == Fresh(base).value
  {
    match FreshBody(base.typ) {
      case None => return null;
      case Some(body) =>
        if body.Damage? {
          c := new Condition(Value(base.(ticks := 0), body));
        } else {
          c := new Condition(Value(base, body));
        }
    }
  }

  /** createCondition from a stream. */
  method CreateCondition(stream: PropStream) returns (c: Condition?)
    requires stream.Valid()
    modifies stream`p
    ensures stream.Valid() && (c == null <==> Created(old(stream.Rest())).None?)
    ensures c != null ==> fresh(c) && (c.Get(), stream.Rest()) == Created(old(stream.Rest())).value
  {
    hide Head, FreshBody, Fresh;
    var ok, typ, id, ticks, buff, subId;
    ok, typ := GetHead(stream, ATTR_TYPE);
    if !ok { return null; }
    ok, id := GetHead(stream, ATTR_ID);
    if !ok { return null; }
    ok, ticks := GetHead(stream, ATTR_TICKS);
    if !ok { return null; }
    ok, buff := GetHead(stream, ATTR_BUFF);
    if !ok { return null; }
    ok, subId := GetHead(stream, ATTR_SUBID);
    if !ok { return null; }
    c := Create(Base(LongOf(typ), SignedOf(id), SignedOf(ticks), LongOf(buff) != 0, LongOf(subId)));
  }

  function ValuesOf(cs: seq<Condition>): (vs: seq<Value>)
    reads cs
    ensures |vs| == |cs| && forall i :: 0 <= i < |cs| ==> vs[i] == cs[i].Get()
  {
    if cs == [] then [] else ValuesOf(cs[..|cs| - 1]) + [cs[|cs| - 1].Get()]
  }

  /** isPersistent, or a game master's condition. */
  predicate IsKept(v: Value)
  {
    || (v.base.ticks > 0 && (v.base.id == CONDITIONID_DEFAULT || v.base.id != CONDITIONID_COMBAT))
    || v.base.typ == CONDITION_GAMEMASTER
  }

  function Kept(vs: seq<Value>): seq<Value>
  {
    if vs == [] then [] else Kept(vs[..|vs| - 1]) + if IsKept(vs[|vs| - 1]) then [vs[|vs| - 1]] else []
  }

  lemma {:induction false} SaveConcat(a: seq<Value>, b: seq<Value>)
    ensures SaveAll(a + b) == SaveAll(a) + SaveAll(b)
  {
    hide Encoded;
    if a == [] {
      assert a + b == b;
    } else {
      assert (a + b)[1..] == a[1..] + b;
      SaveConcat(a[1..], b);
    }
  }

  lemma SaveOne(v: Value)
    ensures SaveAll([v]) == Encoded(v)
  {
    hide Encoded;
    assert [v][1..] == [] && SaveAll([]) == [];
  }

  /** The saving loop: the lasting conditions, each closed by the end code. */
  method SaveConditions(cs: seq<Condition>) returns (stream: PropWriteStream)
    ensures fresh(stream) && stream.Valid() && stream.Contents() == SaveAll(Kept(ValuesOf(cs)))
  {
    hide Encoded, SaveAll, IsKept, Bytes, BaseFields, BodyFields;
    stream := new PropWriteStream();
    ghost var vs := ValuesOf(cs);
    SaveNone();
    var i := 0;
    while i < |cs|
      invariant 0 <= i <= |cs| && stream.Valid() && fresh(stream) && fresh(stream.buffer)
      invariant stream.Contents() == SaveAll(Kept(vs[..i]))
    {
      assert vs[..i + 1][..i] == vs[..i];
      var c := cs[i];
      if IsKept(c.Get()) {
        SaveConcat(Kept(vs[..i]), [c.Get()]);
        SaveOne(c.Get());
        EncodedAs(c.Get());
        c.Serialize(stream);
        stream.AddType([ATTR_END]);
      } else {
        assert Kept(vs[..i]) + [] == Kept(vs[..i]);
      }
      i := i + 1;
    }
    assert vs[..|vs|] == vs;
  }

  lemma SaveNone()
    ensures SaveAll(Kept([])) == []
  {
  }

  lemma EncodedAs(v: Value)
    ensures forall s: seq<Byte> :: s + Encoded(v) == (s + Bytes(BaseFields(v.base) + BodyFields(v.body))) + [ATTR_END]
  {
  }

  lemma LoadStep(s: seq<Byte>)
    ensures Created(s).None? ==> LoadAll(s) == []
    ensures Created(s).Some? ==>
      var r := ReadProps(Created(s).value.0, Created(s).value.1);
      |r.rest| < |s| && LoadAll(s) == (if r.ok then [r.value] else []) + LoadAll(r.rest)
  {
    hide Created, ReadProps;
  }

  /** Distinct objects that hold the values. */
  ghost predicate Carry(cs: seq<Condition>, vs: seq<Value>)
    reads cs
  {
    |cs| == |vs| && forall i :: 0 <= i < |cs| ==> cs[i].Get() == vs[i]
  }

  lemma CarryNone()
    ensures Carry([], [])
  {
  }

  lemma CarryNext(cs: seq<Condition>, vs: seq<Value>, c: Condition)
    ensures Carry(cs, vs) ==> Carry(cs + [c], vs + [c.Get()])
  {
  }

  lemma CarryAll(cs: seq<Condition>, vs: seq<Value>)
    ensures Carry(cs, vs) ==> ValuesOf(cs) == vs
  {
    hide ValuesOf;
  }

  /** The loading loop: what cannot be created ends it, what does not read is dropped. */
  method LoadConditions(data: seq<Byte>) returns (cs: seq<Condition>)
    ensures ValuesOf(cs) == LoadAll(data)
  {
    hide *;
    cs := [];
    var stream := new PropStream(data);
    ghost var vs, rest := [], data;
    CarryNone();
    assert vs + LoadAll(rest) == LoadAll(data);
    var c := CreateCondition(stream);
    while c != null
      invariant stream.Valid() && fresh(stream)
      invariant c == null <==> Created(rest).None?
      invariant c != null ==> fresh(c) && (c.Get(), stream.Rest()) == Created(rest).value && c !in cs
      invariant Carry(cs, vs) && vs + LoadAll(rest) == LoadAll(data)
      decreases |rest|
    {
      LoadStep(rest);
      var ok := c.Unserialize(stream);
      ghost var r := ReadProps(Created(rest).value.0, Created(rest).value.1);
      assert r == Read(ok, c.Get(), stream.Rest());
      ghost var was := vs;
      if ok {
        CarryNext(cs, vs, c);
        cs := cs + [c];
        vs := vs + [c.Get()];
      }
      rest := r.rest;
      assert vs + LoadAll(rest) == was + ((if ok then [r.value] else []) + LoadAll(rest));
      c := CreateCondition(stream);
    }
    LoadStep(rest);
    CarryAll(cs, vs);
    assert vs + [] == vs;
  }

  /**
   What the code makes: a condition of a class that fits its type, or a spell being cast, which belongs to a
   combat.
   */
  ghost predicate Made(v: Value)
  {
    Typed(v) || (v.base.typ == CONDITION_CASTING_SPELL && v.base.id == CONDITIONID_COMBAT)
  }

  lemma {:induction false} KeptAreMade(vs: seq<Value>)
    requires forall v :: v in vs ==> Made(v)
    ensures forall v :: v in Kept(vs) ==> v in vs && Typed(v) && IsKept(v)
  {
    hide Typed;
    if vs != [] {
      var last := |vs| - 1;
      KeptAreMade(vs[..last]);
      assert Made(vs[last]);
    }
  }

  /** Everything the saving loop writes of what the code makes is loaded again: every condition, in order. */
  lemma WrittenBack(vs: seq<Value>)
    requires forall v :: v in vs ==> Made(v)
    ensures Regular(Kept(vs)) && LoadAll(SaveAll(Kept(vs))) == AllRestored(Kept(vs))
  {
    hide *;
    KeptAreMade(vs);
    LoadedTyped(Kept(vs));
    ListBack(Kept(vs));
  }

  /** What a player's conditions come back as, from the stream they were saved to. */
  method SaveAndLoad(cs: seq<Condition>) returns (back: seq<Condition>)
    requires Regular(Kept(ValuesOf(cs)))
    ensures ValuesOf(back) == Loaded(Kept(ValuesOf(cs)))
    ensures (forall v :: v in ValuesOf(cs) ==> Made(v)) ==> ValuesOf(back) == AllRestored(Kept(ValuesOf(cs)))
  {
    hide SaveAll, LoadAll, Kept, Loaded, ValuesOf, Regular, Made, AllRestored;
    ghost var vs := Kept(ValuesOf(cs));
    var stream := SaveConditions(cs);
    back := LoadConditions(stream.buffer[..stream.size]);
    ListBack(vs);
    if forall v :: v in ValuesOf(cs) ==> Made(v) {
      WrittenBack(ValuesOf(cs));
    }
  }
}
