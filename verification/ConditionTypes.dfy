/** What the modules about conditions share: type and id codes, the numbers of skills and stats, and the hits of damage. */
module ConditionTypes {

  const SKILLS: nat := 7
  const STATS: nat := 5

  const CONDITION_HASTE: nat := 0x10
  const CONDITION_PARALYZE: nat := 0x20
  const CONDITION_ATTRIBUTES: nat := 0x2_0000
  const CONDITION_GAMEMASTER: nat := 0x40_0000
  const CONDITION_CASTING_SPELL: nat := 0x200_0000

  const CONDITIONID_DEFAULT: int := -1
  const CONDITIONID_COMBAT: int := 0

  /** A hit still to come: the time left until it is due, its value, and the interval it waits for. */
  datatype IntervalInfo = IntervalInfo(timeLeft: int, value: int, interval: int)

  /** The time that all hits of a list wait for. */
  function Total(list: seq<IntervalInfo>): int
  {
    if list == [] then 0 else list[0].interval + Total(list[1..])
  }

  lemma {:induction false} TotalNext(list: seq<IntervalInfo>, info: IntervalInfo)
    ensures Total(list + [info]) == Total(list) + info.interval
  {
    if list == [] {
      assert [] + [info] == [info];
      assert Total([info]) == info.interval + Total([info][1..]);
    } else {
      assert (list + [info])[1..] == list[1..] + [info];
      TotalNext(list[1..], info);
    }
  }
}
