/** The pointling constructor and the level curve (internal/models/pointling.go). */
module LevelCurve {
  import opened Entities

  const BaseXP := 3
  const XPPerLevel := 3
  const MaxXP := 120

  /** XP a pointling at `level` needs for the next level: a ramp of 3 per level
      from 3 at level 1, capped at 120 from level 40 on. */
  function CalculateNextLevelXP(level: int): (required: int)
    ensures required <= MaxXP
    ensures level < 40 ==> required == 3 * level
    ensures level >= 40 ==> required == MaxXP
  {
    var required := BaseXP + (level - 1) * XPPerLevel;
    if required > MaxXP then MaxXP else required
  }

  lemma NextLevelXPMonotone(a: int, b: int)
    requires a <= b
    ensures CalculateNextLevelXP(a) <= CalculateNextLevelXP(b)
  {
  }

  lemma NextLevelXPFirstSteps()
    ensures CalculateNextLevelXP(1) == 3 && CalculateNextLevelXP(2) == 6
    ensures forall level :: level >= 1 ==> 3 <= CalculateNextLevelXP(level)
  {
  }

  /** A pointling before it is stored: level 1, no XP, the requirement of level 1
      on the curve, an empty look, and no id or creation time yet (Go's zero values). */
  function NewPointling(userId: int, nickname: Option<string>): (p: Pointling)
    ensures p.userId == userId && p.nickname == nickname
    ensures p.level == 1 && p.currentXP == 0 && p.look == map[]
    ensures p.requiredXP == CalculateNextLevelXP(p.level) == 3
  {
    Pointling(0, userId, nickname, 1, 0, 3, None, map[], 0)
  }
}
