/** The string enumerations of constants.py. Each member's wire value is given
    by a `...Value` function, and `FactionOf` is the enum constructor
    `Faction(value)`, which fails on a string that is no member's value. */
module Constants {
  import opened Errors

  datatype Faction = Mythos | Rogue | Seeker | Mystic | Survivor | Guardian | Neutral

  function FactionValue(f: Faction): string {
    match f
    case Mythos => "mythos"
    case Rogue => "rogue"
    case Seeker => "seeker"
    case Mystic => "mystic"
    case Survivor => "survivor"
    case Guardian => "guardian"
    case Neutral => "neutral"
  }

  /** `Faction(value)`: the member whose value is `value`, or None where Python raises ValueError. */
  function FactionOf(value: string): (r: Option<Faction>)
    ensures r.Some? ==> FactionValue(r.value) == value
    ensures r.None? <==> forall f: Faction :: FactionValue(f) != value
  {
    if value == "mythos" then Some(Mythos)
    else if value == "rogue" then Some(Rogue)
    else if value == "seeker" then Some(Seeker)
    else if value == "mystic" then Some(Mystic)
    else if value == "survivor" then Some(Survivor)
    else if value == "guardian" then Some(Guardian)
    else if value == "neutral" then Some(Neutral)
    else None
  }

  datatype Skill = Intellect | Agility | Willpower | Combat | Wild

  /** The members of Skill in declaration order, the order `for skill in Skill` visits them. */
  const AllSkills: seq<Skill> := [Intellect, Agility, Willpower, Combat, Wild]

  function SkillValue(s: Skill): string {
    match s
    case Intellect => "intellect"
    case Agility => "agility"
    case Willpower => "willpower"
    case Combat => "combat"
    case Wild => "wild"
  }

  datatype PlayerCardType = AssetType | EventType | SkillType

  function PlayerCardTypeValue(t: PlayerCardType): string {
    match t
    case AssetType => "asset"
    case EventType => "event"
    case SkillType => "skill"
  }

  datatype PlayerCounts = Solo | TwoPlayer | FourPlayer | Multiplayer | Unknown

  function PlayerCountsValue(p: PlayerCounts): string {
    match p
    case Solo => "SOLO"
    case TwoPlayer => "TWO-PLAYER"
    case FourPlayer => "FOUR-PLAYER"
    case Multiplayer => "MULTIPLAYER"
    case Unknown => "UNKNOWN"
  }
}
