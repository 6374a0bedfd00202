/** The stored entities (the gorm models of database.go) and the two pure
    rules defined on them: display eligibility and the improvement policy. */
module Entities {
  import opened Wrappers
  import opened Structure

  /** Go's zero `time.Time` (1 January of year 1, UTC) in Unix milliseconds. */
  const ZeroTime: int := -62135596800000

  /** An encounter, unique by `compareHash`; `id` is the store's row id
      (0 for a row not yet stored). */
  datatype EncounterInfo = EncounterInfo(
    id: nat,
    compareHash: string,
    bossId: int,
    zoneId: int,
    zoneName: string,
    difficulty: int)

  /** The best known attempt of one character at one encounter. Times are
      Unix milliseconds; percentages use the 10000 = 100.00% scale, lower
      meaning closer to a kill. */
  datatype CharacterProgression = CharacterProgression(
    id: nat,
    characterId: nat,
    encounterInfoId: nat,
    gameVersion: int,
    firstKillTime: int,
    lastProgressionTime: int,
    bestFightPercentage: int,
    bestPhase: int,
    bestPhasePercentage: int,
    bestEncounterTime: int,
    hasKill: bool,
    hasEcho: bool,
    hasStandardComposition: bool)

  /** The zero value of CharacterProgression: what a lookup that finds no
      row leaves in the record. */
  const EmptyProgression: CharacterProgression :=
    CharacterProgression(0, 0, 0, 0, ZeroTime, ZeroTime, 0, 0, 0, 0, false, false, false)

  /** A player character, unique by `compareHash`; `uuid` is its short
      public identifier. */
  datatype Character = Character(
    id: nat,
    uuid: string,
    compareHash: string,
    name: string,
    server: string)

  /** One row of the ledger of imported reports. */
  datatype ReportImportHistory = ReportImportHistory(id: nat, reportId: string)

  /** `sub` occurs in `s` at position `i`. */
  predicate OccursAt(s: string, sub: string, i: int) {
    0 <= i <= |s| - |sub| && s[i..i + |sub|] == sub
  }

  /** `sub` occurs somewhere in `s`. */
  ghost predicate Occurs(s: string, sub: string) {
    exists i :: OccursAt(s, sub, i)
  }

  /** strings.Contains. */
  function Contains(s: string, sub: string): (r: bool)
    ensures r <==> Occurs(s, sub)
    decreases |s|
  {
    if |s| < |sub| then false
    else if s[..|sub|] == sub then assert OccursAt(s, sub, 0); true
    else if s == [] then false
    else
      var r' := Contains(s[1..], sub);
      assert Occurs(s[1..], sub) ==> Occurs(s, sub) by {
        if Occurs(s[1..], sub) {
          var i :| OccursAt(s[1..], sub, i);
          var window, shifted := s[1..][i..i + |sub|], s[i + 1..i + 1 + |sub|];
          assert forall k :: 0 <= k < |sub| ==> window[k] == shifted[k];
          assert shifted == window;
          assert OccursAt(s, sub, i + 1);
        }
      }
      assert Occurs(s, sub) ==> Occurs(s[1..], sub) by {
        if Occurs(s, sub) {
          var i :| OccursAt(s, sub, i);
          assert i != 0;
          assert s[1..][i - 1..i - 1 + |sub|] == s[i..i + |sub|];
          assert OccursAt(s[1..], sub, i - 1);
        }
      }
      r'
  }

  /** An encounter is shown on character pages when its zone name marks
      high-end content. */
  function IsDisplayable(e: EncounterInfo): (r: bool)
    ensures r <==> Occurs(e.zoneName, "Savage") || Occurs(e.zoneName, "Ultimate") || Occurs(e.zoneName, "Extreme")
  {
    Contains(e.zoneName, "Savage") || Contains(e.zoneName, "Ultimate") || Contains(e.zoneName, "Extreme")
  }

  /** Whether attempt `f` supersedes the stored best `cp`. */
  predicate IsImprovement(cp: CharacterProgression, f: FightsFight) {
    if cp.id == 0 || f.fightPercentage.None? || f.kill.None? then true
    else
      var encounterTime := f.endTime - f.startTime;
      (!cp.hasKill && !f.kill.value && f.fightPercentage.value < cp.bestFightPercentage)
      || (f.kill.value && (!cp.hasKill || encounterTime < cp.bestEncounterTime))
  }

  /** An independent statement of the improvement policy: how far a
      record or an attempt got, ranked so that any kill beats any
      non-kill, a shorter kill beats a longer one, and a lower remaining
      percentage beats a higher one. */
  datatype Standing = Progress(percentage: int) | Cleared(duration: int)

  predicate Outranks(a: Standing, b: Standing) {
    match (a, b)
    case (Cleared(x), Progress(_)) => true
    case (Cleared(x), Cleared(y)) => x < y
    case (Progress(p), Progress(q)) => p < q
    case (Progress(_), Cleared(_)) => false
  }

  function StoredStanding(cp: CharacterProgression): Standing {
    if cp.hasKill then Cleared(cp.bestEncounterTime) else Progress(cp.bestFightPercentage)
  }

  function FightStanding(f: FightsFight): Standing
    requires f.kill.Some? && f.fightPercentage.Some?
  {
    if f.kill.value then Cleared(f.endTime - f.startTime) else Progress(f.fightPercentage.value)
  }

  /** No stored record, or an attempt of unknown outcome, always counts. */
  lemma UnknownIsImprovement(cp: CharacterProgression, f: FightsFight)
    requires cp.id == 0 || f.fightPercentage.None? || f.kill.None?
    ensures IsImprovement(cp, f)
  {
  }

  /** With a stored record and a known attempt, IsImprovement is exactly
      the ranking above. */
  lemma ImprovementIsOutranking(cp: CharacterProgression, f: FightsFight)
    requires cp.id != 0 && f.fightPercentage.Some? && f.kill.Some?
    ensures IsImprovement(cp, f) <==> Outranks(FightStanding(f), StoredStanding(cp))
  {
  }

  /** A stored kill is never superseded by a non-kill, and an attempt that
      equals the stored record never counts. */
  lemma KillIsNeverLost(cp: CharacterProgression, f: FightsFight)
    requires cp.id != 0 && cp.hasKill && f.fightPercentage.Some? && f.kill == Some(false)
    ensures !IsImprovement(cp, f)
  {
  }

  lemma EqualIsNoImprovement(cp: CharacterProgression, f: FightsFight)
    requires cp.id != 0 && f.fightPercentage.Some? && f.kill.Some?
    requires StoredStanding(cp) == FightStanding(f)
    ensures !IsImprovement(cp, f)
  {
  }

  /** The ranking is a strict order. */
  lemma OutranksIsStrictOrder(a: Standing, b: Standing, c: Standing)
    ensures !Outranks(a, a)
    ensures Outranks(a, b) ==> !Outranks(b, a)
    ensures Outranks(a, b) && Outranks(b, c) ==> Outranks(a, c)
  {
  }

  /** If `cp` is replaced by a record that stands where attempt `f` stands,
      and `f` improved on `cp`, then every attempt that did not improve on
      `cp` does not improve on the replacement either. This is what makes
      a second pass over the same attempts write nothing. */
  lemma {:induction false} SupersedeKeepsSettled(cp: CharacterProgression, f: FightsFight, r: CharacterProgression, g: FightsFight)
    requires f.kill.Some? && f.fightPercentage.Some?
    requires g.kill.Some? && g.fightPercentage.Some?
    requires IsImprovement(cp, f) && !IsImprovement(cp, g)
    requires r.id != 0 && StoredStanding(r) == FightStanding(f)
    ensures !IsImprovement(r, g)
  {
    ImprovementIsOutranking(cp, f);
    ImprovementIsOutranking(cp, g);
    ImprovementIsOutranking(r, g);
    OutranksIsStrictOrder(FightStanding(g), FightStanding(f), StoredStanding(cp));
  }
}
