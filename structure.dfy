/** The raw report that the combat-log client returns (the go-fflogs
    `structure` package). Every pointer field that the client may leave
    nil is an `Option`; times are int64 milliseconds. */
module Structure {
  import opened Wrappers

  /** One attempt at an encounter (structure.FightsFight). StartTime and
      EndTime are offsets from the report's start. */
  datatype FightsFight = FightsFight(
    id: int,
    startTime: int,
    endTime: int,
    boss: int,
    zoneId: int,
    zoneName: string,
    difficulty: Option<int>,
    kill: Option<bool>,
    fightPercentage: Option<int>,
    bossPercentage: Option<int>,
    lastPhaseForPercentageDisplay: Option<int>,
    hasEcho: Option<bool>,
    standardComposition: Option<bool>)

  /** The id of a fight that a friendly took part in. */
  datatype FriendlyFight = FriendlyFight(id: int)

  /** A player character listed in a report (structure.FightsFriendly);
      `jobType` is the job name the client reports as `Type`. */
  datatype FightsFriendly = FightsFriendly(
    name: string,
    server: string,
    jobType: string,
    fights: seq<FriendlyFight>)

  /** A whole report (structure.Fights). */
  datatype ReportFights = ReportFights(
    start: int,
    gameVersion: int,
    zone: int,
    fights: seq<FightsFight>,
    friendlies: seq<FightsFriendly>)
}
