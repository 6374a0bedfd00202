/** The sync/merge engine of database.go over an in-memory entity store.
    Each table is a map keyed the way the engine looks rows up:
    encounters and characters by compare hash, progressions by
    (character id, encounter id). */
module Database {
  import opened Wrappers
  import opened Structure
  import opened Errors
  import opened Entities
  import opened Helpers

  /** (CharacterID, EncounterInfoID) */
  type ProgressionKey = (nat, nat)

  /** The compare hashes of the valid attempts among `fs`. */
  function ValidHashes(digest: string -> string, fs: seq<FightsFight>): set<string> {
    if fs == [] then {}
    else
      var last := fs[|fs| - 1];
      ValidHashes(digest, fs[..|fs| - 1]) + (if IsEncounterValid(last) then {EncounterInfoHash(digest, last)} else {})
  }

  lemma {:induction false} ValidHashesMembers(digest: string -> string, fs: seq<FightsFight>, h: string)
    ensures h in ValidHashes(digest, fs) <==>
      exists k :: 0 <= k < |fs| && IsEncounterValid(fs[k]) && EncounterInfoHash(digest, fs[k]) == h
    decreases |fs|
  {
    if fs != [] {
      var init := fs[..|fs| - 1];
      ValidHashesMembers(digest, init, h);
      assert forall k :: 0 <= k < |init| ==> init[k] == fs[k];
    }
  }

  lemma ValidHashesHas(digest: string -> string, fs: seq<FightsFight>, k: nat)
    requires k < |fs| && IsEncounterValid(fs[k])
    ensures EncounterInfoHash(digest, fs[k]) in ValidHashes(digest, fs)
  {
    ValidHashesMembers(digest, fs, EncounterInfoHash(digest, fs[k]));
  }

  /** A set that holds the hash of every valid attempt holds ValidHashes,
      and ValidHashes is empty exactly when no attempt is valid. */
  lemma ValidHashesCovered(digest: string -> string, fs: seq<FightsFight>, keys: set<string>)
    requires forall k :: 0 <= k < |fs| && IsEncounterValid(fs[k]) ==> EncounterInfoHash(digest, fs[k]) in keys
    ensures ValidHashes(digest, fs) <= keys
  {
    forall h | h in ValidHashes(digest, fs)
      ensures h in keys
    {
      ValidHashesMembers(digest, fs, h);
    }
  }

  lemma ValidHashesEmpty(digest: string -> string, fs: seq<FightsFight>)
    ensures ValidHashes(digest, fs) == {} <==> forall k :: 0 <= k < |fs| ==> !IsEncounterValid(fs[k])
  {
    if exists k :: 0 <= k < |fs| && IsEncounterValid(fs[k]) {
      var k :| 0 <= k < |fs| && IsEncounterValid(fs[k]);
      ValidHashesHas(digest, fs, k);
    } else {
      ValidHashesCovered(digest, fs, {});
    }
  }

  /** A friendly that the character sync stores: name, server and job all known. */
  predicate IsNamed(p: FightsFriendly) {
    p.name != "" && p.server != "" && p.jobType != ""
  }

  /** The compare hashes of the named friendlies among `ps`. */
  function NamedHashes(digest: string -> string, ps: seq<FightsFriendly>): set<string> {
    if ps == [] then {}
    else
      var last := ps[|ps| - 1];
      NamedHashes(digest, ps[..|ps| - 1]) + (if IsNamed(last) then {CharacterHash(digest, last)} else {})
  }

  lemma {:induction false} NamedHashesMembers(digest: string -> string, ps: seq<FightsFriendly>, h: string)
    ensures h in NamedHashes(digest, ps) <==>
      exists k :: 0 <= k < |ps| && IsNamed(ps[k]) && CharacterHash(digest, ps[k]) == h
    decreases |ps|
  {
    if ps != [] {
      var init := ps[..|ps| - 1];
      NamedHashesMembers(digest, init, h);
      assert forall k :: 0 <= k < |init| ==> init[k] == ps[k];
    }
  }

  lemma NamedHashesHas(digest: string -> string, ps: seq<FightsFriendly>, k: nat)
    requires k < |ps| && IsNamed(ps[k])
    ensures CharacterHash(digest, ps[k]) in NamedHashes(digest, ps)
  {
    NamedHashesMembers(digest, ps, CharacterHash(digest, ps[k]));
  }

  lemma NamedHashesCovered(digest: string -> string, ps: seq<FightsFriendly>, keys: set<string>)
    requires forall k :: 0 <= k < |ps| && IsNamed(ps[k]) ==> CharacterHash(digest, ps[k]) in keys
    ensures NamedHashes(digest, ps) <= keys
  {
    forall h | h in NamedHashes(digest, ps)
      ensures h in keys
    {
      NamedHashesMembers(digest, ps, h);
    }
  }

  lemma NamedHashesEmpty(digest: string -> string, ps: seq<FightsFriendly>)
    ensures NamedHashes(digest, ps) == {} <==> forall k :: 0 <= k < |ps| ==> !IsNamed(ps[k])
  {
    if exists k :: 0 <= k < |ps| && IsNamed(ps[k]) {
      var k :| 0 <= k < |ps| && IsNamed(ps[k]);
      NamedHashesHas(digest, ps, k);
    } else {
      NamedHashesCovered(digest, ps, {});
    }
  }

  /** A stored encounter row describes attempt `f`. */
  predicate DescribesFight(e: EncounterInfo, f: FightsFight) {
    e.bossId == f.boss && e.zoneId == f.zoneId && e.zoneName == f.zoneName && e.difficulty == f.difficulty.GetOr(0)
  }

  /** `fs[k]` is the first valid attempt of `fs` with compare hash `h`. */
  predicate FirstValidWithHash(digest: string -> string, fs: seq<FightsFight>, h: string, k: nat) {
    && k < |fs| && IsEncounterValid(fs[k]) && EncounterInfoHash(digest, fs[k]) == h
    && forall k' :: 0 <= k' < k && IsEncounterValid(fs[k']) ==> EncounterInfoHash(digest, fs[k']) != h
  }

  /** A stored encounter row was made from the first valid attempt of `fs`
      with the row's compare hash. */
  ghost predicate EncounterFromReport(digest: string -> string, e: EncounterInfo, fs: seq<FightsFight>) {
    exists k: nat :: FirstValidWithHash(digest, fs, e.compareHash, k) && DescribesFight(e, fs[k])
  }

  /** `ps[k]` is the first named friendly of `ps` with compare hash `h`. */
  predicate FirstNamedWithHash(digest: string -> string, ps: seq<FightsFriendly>, h: string, k: nat) {
    && k < |ps| && IsNamed(ps[k]) && CharacterHash(digest, ps[k]) == h
    && forall k' :: 0 <= k' < k && IsNamed(ps[k']) ==> CharacterHash(digest, ps[k']) != h
  }

  /** A stored character row was made from the first named friendly of
      `ps` with the row's compare hash, and has its name and server. */
  ghost predicate CharacterFromReport(digest: string -> string, c: Character, ps: seq<FightsFriendly>) {
    exists k: nat :: FirstNamedWithHash(digest, ps, c.compareHash, k) && c.name == ps[k].name && c.server == ps[k].server
  }

  /** A progression row holds the numbers of attempt `f` of `report`, with
      10000 (100.00%) for unknown percentages and phase 0 for an unknown phase. */
  predicate CarriesFight(row: CharacterProgression, f: FightsFight, report: ReportFights) {
    && row.bestEncounterTime == f.endTime - f.startTime
    && row.bestFightPercentage == f.fightPercentage.GetOr(10000)
    && row.bestPhasePercentage == f.bossPercentage.GetOr(10000)
    && row.bestPhase == f.lastPhaseForPercentageDisplay.GetOr(0)
    && row.gameVersion == report.gameVersion
    && row.lastProgressionTime == report.start + f.endTime
  }

  /** The attempt `f`, credited to friendly `p`, is already reflected in the
      store: when its encounter and character are stored, a progression row
      exists for the pair and `f` does not improve on it. */
  predicate Settled(digest: string -> string, encounters: map<string, EncounterInfo>, characters: map<string, Character>,
                    progressions: map<ProgressionKey, CharacterProgression>, f: FightsFight, p: FightsFriendly)
  {
    IsEncounterValid(f) && EncounterInfoHash(digest, f) in encounters && CharacterHash(digest, p) in characters ==>
      var key := (characters[CharacterHash(digest, p)].id, encounters[EncounterInfoHash(digest, f)].id);
      key in progressions && !IsImprovement(progressions[key], f)
  }

  /** Every valid attempt of the report is settled for every friendly. */
  predicate AllSettled(digest: string -> string, encounters: map<string, EncounterInfo>, characters: map<string, Character>,
                       progressions: map<ProgressionKey, CharacterProgression>, report: ReportFights)
  {
    forall i, j :: 0 <= i < |report.fights| && 0 <= j < |report.friendlies| ==>
      Settled(digest, encounters, characters, progressions, report.fights[i], report.friendlies[j])
  }

  /** How a stored row may change: not at all, or to a strictly better
      standing without losing a kill or moving the first kill later. */
  predicate Grew(before: CharacterProgression, after: CharacterProgression) {
    before == after
    || (&& Outranks(StoredStanding(after), StoredStanding(before))
        && (before.hasKill ==> after.hasKill && after.firstKillTime <= before.firstKillTime))
  }

  /** Overwriting the row at `key` with a record that stands where an
      improving attempt `f` stands keeps every settled pair settled. */
  lemma WriteKeepsSettled(digest: string -> string, encounters: map<string, EncounterInfo>, characters: map<string, Character>,
                          progressions: map<ProgressionKey, CharacterProgression>, key: ProgressionKey,
                          cp: CharacterProgression, f: FightsFight, rec: CharacterProgression, g: FightsFight, q: FightsFriendly)
    requires Settled(digest, encounters, characters, progressions, g, q)
    requires key in progressions ==> progressions[key] == cp
    requires IsEncounterValid(f) && IsImprovement(cp, f)
    requires rec.id != 0 && StoredStanding(rec) == FightStanding(f)
    ensures Settled(digest, encounters, characters, progressions[key := rec], g, q)
  {
    if IsEncounterValid(g) && EncounterInfoHash(digest, g) in encounters && CharacterHash(digest, q) in characters {
      var k := (characters[CharacterHash(digest, q)].id, encounters[EncounterInfoHash(digest, g)].id);
      if k == key {
        SupersedeKeepsSettled(cp, f, rec, g);
      }
    }
  }

  lemma GrewTransitive(a: CharacterProgression, b: CharacterProgression, c: CharacterProgression)
    requires Grew(a, b) && Grew(b, c)
    ensures Grew(a, c)
  {
    OutranksIsStrictOrder(StoredStanding(c), StoredStanding(b), StoredStanding(a));
    if a != c && a != b && b != c {
      assert Outranks(StoredStanding(c), StoredStanding(a));
    }
  }

  /** Every pair settled in `before` is still settled in `after`. */
  ghost predicate SettlementKept(digest: string -> string, encounters: map<string, EncounterInfo>, characters: map<string, Character>,
                                 before: map<ProgressionKey, CharacterProgression>, after: map<ProgressionKey, CharacterProgression>)
  {
    forall g, q :: Settled(digest, encounters, characters, before, g, q) ==> Settled(digest, encounters, characters, after, g, q)
  }

  /** The pairs that the progression sync has visited before attempt `i`
      and friendly `j` are settled: every friendly for attempts before `i`,
      the first `j` friendlies for attempt `i`. */
  ghost predicate SettledBefore(digest: string -> string, encounters: map<string, EncounterInfo>, characters: map<string, Character>,
                                progressions: map<ProgressionKey, CharacterProgression>, report: ReportFights, i: nat, j: nat)
  {
    forall i', j' :: 0 <= i' < |report.fights| && 0 <= j' < |report.friendlies| && (i' < i || (i' == i && j' < j)) ==>
      Settled(digest, encounters, characters, progressions, report.fights[i'], report.friendlies[j'])
  }

  lemma SettledBeforeKept(digest: string -> string, encounters: map<string, EncounterInfo>, characters: map<string, Character>,
                          before: map<ProgressionKey, CharacterProgression>, after: map<ProgressionKey, CharacterProgression>,
                          report: ReportFights, i: nat, j: nat)
    requires SettledBefore(digest, encounters, characters, before, report, i, j)
    requires SettlementKept(digest, encounters, characters, before, after)
    ensures SettledBefore(digest, encounters, characters, after, report, i, j)
  {
  }

  lemma SettledBeforeNextFriendly(digest: string -> string, encounters: map<string, EncounterInfo>, characters: map<string, Character>,
                                  progressions: map<ProgressionKey, CharacterProgression>, report: ReportFights, i: nat, j: nat)
    requires i < |report.fights| && j < |report.friendlies|
    requires SettledBefore(digest, encounters, characters, progressions, report, i, j)
    requires Settled(digest, encounters, characters, progressions, report.fights[i], report.friendlies[j])
    ensures SettledBefore(digest, encounters, characters, progressions, report, i, j + 1)
  {
  }

  lemma SettledBeforeNextFight(digest: string -> string, encounters: map<string, EncounterInfo>, characters: map<string, Character>,
                               progressions: map<ProgressionKey, CharacterProgression>, report: ReportFights, i: nat)
    requires i < |report.fights|
    requires SettledBefore(digest, encounters, characters, progressions, report, i, |report.friendlies|)
      || !IsEncounterValid(report.fights[i])
    requires SettledBefore(digest, encounters, characters, progressions, report, i, 0)
    ensures SettledBefore(digest, encounters, characters, progressions, report, i + 1, 0)
  {
  }

  lemma SettledBeforeAll(digest: string -> string, encounters: map<string, EncounterInfo>, characters: map<string, Character>,
                         progressions: map<ProgressionKey, CharacterProgression>, report: ReportFights)
    requires SettledBefore(digest, encounters, characters, progressions, report, |report.fights|, 0)
    ensures AllSettled(digest, encounters, characters, progressions, report)
  {
  }

  lemma AllSettledAt(digest: string -> string, encounters: map<string, EncounterInfo>, characters: map<string, Character>,
                     progressions: map<ProgressionKey, CharacterProgression>, report: ReportFights, i: nat, j: nat)
    requires AllSettled(digest, encounters, characters, progressions, report)
    requires i < |report.fights| && j < |report.friendlies|
    ensures Settled(digest, encounters, characters, progressions, report.fights[i], report.friendlies[j])
  {
  }

  /** Every row sits under its own key and has an id below `nextId`. */
  ghost predicate TablesValid(encounters: map<string, EncounterInfo>, characters: map<string, Character>,
                              progressions: map<ProgressionKey, CharacterProgression>, history: seq<ReportImportHistory>, nextId: nat)
  {
    && nextId > 0
    && (forall h :: h in encounters ==> encounters[h].compareHash == h && 0 < encounters[h].id < nextId)
    && (forall h :: h in characters ==> characters[h].compareHash == h && 0 < characters[h].id < nextId)
    && (forall k :: k in progressions ==>
          progressions[k].characterId == k.0 && progressions[k].encounterInfoId == k.1 && 0 < progressions[k].id < nextId)
    && (forall i :: 0 <= i < |history| ==> 0 < history[i].id < nextId)
  }

  /** Every hash the report brings has its row and every attempt of the
      report is settled for every friendly. */
  ghost predicate TablesSynced(digest: string -> string, encounters: map<string, EncounterInfo>, characters: map<string, Character>,
                               progressions: map<ProgressionKey, CharacterProgression>, report: ReportFights)
  {
    && ValidHashes(digest, report.fights) <= encounters.Keys
    && NamedHashes(digest, report.friendlies) <= characters.Keys
    && AllSettled(digest, encounters, characters, progressions, report)
  }

  /** Appending a ledger row with a fresh id keeps the tables well formed. */
  lemma TablesValidLog(encounters: map<string, EncounterInfo>, characters: map<string, Character>,
                       progressions: map<ProgressionKey, CharacterProgression>, history: seq<ReportImportHistory>, nextId: nat,
                       reportId: string)
    requires TablesValid(encounters, characters, progressions, history, nextId)
    ensures TablesValid(encounters, characters, progressions, history + [ReportImportHistory(nextId, reportId)], nextId + 1)
  {
  }

  /** The stage at which HandleReport stopped. */
  datatype Stage = Done | EncounterStage | CharacterStage | ProgressionStage | HistoryStage

  /** The number of ledger rows for a report id. */
  function CountImports(history: seq<ReportImportHistory>, reportId: string): (n: nat)
    ensures n > 0 <==> exists i :: 0 <= i < |history| && history[i].reportId == reportId
    ensures n <= |history|
  {
    if history == [] then 0
    else
      var rest := CountImports(history[1..], reportId);
      assert forall i :: 0 < i < |history| ==> history[i] == history[1..][i - 1];
      (if history[0].reportId == reportId then 1 else 0) + rest
  }

  /** The encounter table grew from `before` to `after`: no stored row
      changed, and every new row has an id of at least `firstId` and was
      made from the first valid attempt of `fs` with its hash. */
  ghost predicate EncountersGrew(digest: string -> string, before: map<string, EncounterInfo>, after: map<string, EncounterInfo>,
                                 firstId: nat, fs: seq<FightsFight>)
  {
    && (forall h :: h in before ==> h in after && after[h] == before[h])
    && (forall h :: h in after && h !in before ==> after[h].id >= firstId && EncounterFromReport(digest, after[h], fs))
  }

  lemma EncountersGrewStep(digest: string -> string, before: map<string, EncounterInfo>, mid: map<string, EncounterInfo>,
                           firstId: nat, fs: seq<FightsFight>, h: string, row: EncounterInfo)
    requires EncountersGrew(digest, before, mid, firstId, fs)
    requires h !in mid && row.id >= firstId && EncounterFromReport(digest, row, fs)
    ensures EncountersGrew(digest, before, mid[h := row], firstId, fs)
  {
  }

  lemma EncounterRowFromReport(digest: string -> string, fs: seq<FightsFight>, i: nat, row: EncounterInfo)
    requires FirstValidWithHash(digest, fs, row.compareHash, i) && DescribesFight(row, fs[i])
    ensures EncounterFromReport(digest, row, fs)
  {
  }

  /** Every valid attempt among the first `i` has its row. */
  ghost predicate EncounterHashesStored(digest: string -> string, after: map<string, EncounterInfo>, fs: seq<FightsFight>, i: nat) {
    forall k :: 0 <= k < i && k < |fs| && IsEncounterValid(fs[k]) ==> EncounterInfoHash(digest, fs[k]) in after
  }

  /** The state of the encounter sync after the first `i` attempts: the
      table only grew, every valid attempt so far has its row, and a down
      table saw no valid attempt yet. */
  ghost predicate EncounterLoop(digest: string -> string, before: map<string, EncounterInfo>, after: map<string, EncounterInfo>,
                                firstId: nat, tableDown: bool, fs: seq<FightsFight>, i: nat)
  {
    && i <= |fs|
    && EncountersGrew(digest, before, after, firstId, fs)
    && EncounterHashesStored(digest, after, fs, i)
    && (tableDown ==> after == before && forall k :: 0 <= k < i ==> !IsEncounterValid(fs[k]))
  }

  lemma EncounterLoopStep(digest: string -> string, before: map<string, EncounterInfo>, mid: map<string, EncounterInfo>,
                          after: map<string, EncounterInfo>, firstId: nat, tableDown: bool, fs: seq<FightsFight>, i: nat, id: nat)
    requires i < |fs| && EncounterLoop(digest, before, mid, firstId, tableDown, fs, i)
    requires !IsEncounterValid(fs[i]) ==> after == mid
    requires IsEncounterValid(fs[i]) ==>
      var f, h := fs[i], EncounterInfoHash(digest, fs[i]);
      && !tableDown
      && (h in mid ==> after == mid)
      && (h !in mid ==> id >= firstId && after == mid[h := EncounterInfo(id, h, f.boss, f.zoneId, f.zoneName, f.difficulty.GetOr(0))])
    ensures EncounterLoop(digest, before, after, firstId, tableDown, fs, i + 1)
  {
    EncounterHashesStoredStep(digest, mid, after, fs, i);
    if IsEncounterValid(fs[i]) && EncounterInfoHash(digest, fs[i]) !in mid {
      var f, h := fs[i], EncounterInfoHash(digest, fs[i]);
      EncounterFirstSighting(digest, mid, fs, i);
      EncounterRowFromReport(digest, fs, i, after[h]);
      EncountersGrewStep(digest, before, mid, firstId, fs, h, after[h]);
    }
  }

  /** A valid attempt whose hash the sync has not stored yet is the first
      valid attempt with that hash. */
  lemma EncounterFirstSighting(digest: string -> string, mid: map<string, EncounterInfo>, fs: seq<FightsFight>, i: nat)
    requires i < |fs| && IsEncounterValid(fs[i]) && EncounterInfoHash(digest, fs[i]) !in mid
    requires EncounterHashesStored(digest, mid, fs, i)
    ensures FirstValidWithHash(digest, fs, EncounterInfoHash(digest, fs[i]), i)
  {
  }

  lemma EncounterHashesStoredStep(digest: string -> string, mid: map<string, EncounterInfo>, after: map<string, EncounterInfo>,
                                  fs: seq<FightsFight>, i: nat)
    requires i < |fs| && mid.Keys <= after.Keys && EncounterHashesStored(digest, mid, fs, i)
    requires IsEncounterValid(fs[i]) ==> EncounterInfoHash(digest, fs[i]) in after
    ensures EncounterHashesStored(digest, after, fs, i + 1)
  {
  }

  /** The character table grew from `before` to `after`: no stored row
      changed, and every new row has an id of at least `firstId`, a public
      id, and was made from the first named friendly of `ps` with its hash. */
  ghost predicate CharactersGrew(digest: string -> string, before: map<string, Character>, after: map<string, Character>,
                                 firstId: nat, ps: seq<FightsFriendly>)
  {
    && (forall h :: h in before ==> h in after && after[h] == before[h])
    && (forall h :: h in after && h !in before ==>
          after[h].id >= firstId && IsPublicId(after[h].uuid) && CharacterFromReport(digest, after[h], ps))
  }

  /** Rows that are new from id `hi` on are new from any lower id on. */
  lemma CharactersGrewFrom(digest: string -> string, before: map<string, Character>, after: map<string, Character>,
                           lo: nat, hi: nat, ps: seq<FightsFriendly>)
    requires lo <= hi && CharactersGrew(digest, before, after, hi, ps)
    ensures CharactersGrew(digest, before, after, lo, ps)
  {
  }

  lemma CharactersGrewStep(digest: string -> string, before: map<string, Character>, mid: map<string, Character>,
                           firstId: nat, ps: seq<FightsFriendly>, h: string, row: Character)
    requires CharactersGrew(digest, before, mid, firstId, ps)
    requires h !in mid && row.id >= firstId && IsPublicId(row.uuid) && CharacterFromReport(digest, row, ps)
    ensures CharactersGrew(digest, before, mid[h := row], firstId, ps)
  {
  }

  lemma CharacterRowFromReport(digest: string -> string, ps: seq<FightsFriendly>, i: nat, row: Character)
    requires FirstNamedWithHash(digest, ps, row.compareHash, i) && row.name == ps[i].name && row.server == ps[i].server
    ensures CharacterFromReport(digest, row, ps)
  {
  }

  /** Every named friendly among the first `i` has its row. */
  ghost predicate CharacterHashesStored(digest: string -> string, after: map<string, Character>, ps: seq<FightsFriendly>, i: nat) {
    forall k :: 0 <= k < i && k < |ps| && IsNamed(ps[k]) ==> CharacterHash(digest, ps[k]) in after
  }

  /** The state of the character sync after the first `i` friendlies. */
  ghost predicate CharacterLoop(digest: string -> string, before: map<string, Character>, after: map<string, Character>,
                                firstId: nat, tableDown: bool, ps: seq<FightsFriendly>, i: nat)
  {
    && i <= |ps|
    && CharactersGrew(digest, before, after, firstId, ps)
    && CharacterHashesStored(digest, after, ps, i)
    && (tableDown ==> after == before && forall k :: 0 <= k < i ==> !IsNamed(ps[k]))
  }

  lemma CharacterLoopStep(digest: string -> string, before: map<string, Character>, mid: map<string, Character>,
                          after: map<string, Character>, firstId: nat, tableDown: bool, ps: seq<FightsFriendly>, i: nat, id: nat)
    requires i < |ps| && CharacterLoop(digest, before, mid, firstId, tableDown, ps, i)
    requires !IsNamed(ps[i]) ==> after == mid
    requires IsNamed(ps[i]) ==>
      var p, h := ps[i], CharacterHash(digest, ps[i]);
      && !tableDown
      && (h in mid ==> after == mid)
      && (h !in mid ==>
            && h in after && IsPublicId(after[h].uuid) && id >= firstId
            && after == mid[h := Character(id, after[h].uuid, h, p.name, p.server)])
    ensures CharacterLoop(digest, before, after, firstId, tableDown, ps, i + 1)
  {
    CharacterHashesStoredStep(digest, mid, after, ps, i);
    if IsNamed(ps[i]) && CharacterHash(digest, ps[i]) !in mid {
      var h := CharacterHash(digest, ps[i]);
      CharacterFirstSighting(digest, mid, ps, i);
      CharacterRowFromReport(digest, ps, i, after[h]);
      CharactersGrewStep(digest, before, mid, firstId, ps, h, after[h]);
    }
  }

  /** A named friendly whose hash the sync has not stored yet is the first
      named friendly with that hash. */
  lemma CharacterFirstSighting(digest: string -> string, mid: map<string, Character>, ps: seq<FightsFriendly>, i: nat)
    requires i < |ps| && IsNamed(ps[i]) && CharacterHash(digest, ps[i]) !in mid
    requires CharacterHashesStored(digest, mid, ps, i)
    ensures FirstNamedWithHash(digest, ps, CharacterHash(digest, ps[i]), i)
  {
  }

  lemma CharacterHashesStoredStep(digest: string -> string, mid: map<string, Character>, after: map<string, Character>,
                                  ps: seq<FightsFriendly>, i: nat)
    requires i < |ps| && mid.Keys <= after.Keys && CharacterHashesStored(digest, mid, ps, i)
    requires IsNamed(ps[i]) ==> CharacterHash(digest, ps[i]) in after
    ensures CharacterHashesStored(digest, after, ps, i + 1)
  {
  }

  /** The row holds the numbers of some valid attempt of the report. */
  ghost predicate CarriedByReport(row: CharacterProgression, report: ReportFights) {
    exists i :: 0 <= i < |report.fights| && IsEncounterValid(report.fights[i]) && CarriesFight(row, report.fights[i], report)
  }

  /** The progression table changed from `before` to `after` only by
      growing rows, and every new or changed row carries an attempt of the
      report. */
  ghost predicate ProgressionsGrew(before: map<ProgressionKey, CharacterProgression>,
                                   after: map<ProgressionKey, CharacterProgression>, report: ReportFights)
  {
    && (forall k :: k in before ==> k in after && Grew(before[k], after[k]))
    && (forall k :: k in after && (k !in before || after[k] != before[k]) ==> CarriedByReport(after[k], report))
  }

  /** From `before` to `after` only the row at `key` was added or changed,
      and it holds the numbers of attempt `f` of `report`. */
  ghost predicate WroteOnly(before: map<ProgressionKey, CharacterProgression>, after: map<ProgressionKey, CharacterProgression>,
                            key: ProgressionKey, f: FightsFight, report: ReportFights)
  {
    forall k :: k in after && (k !in before || after[k] != before[k]) ==> k == key && CarriesFight(after[k], f, report)
  }

  lemma WriteIsOnlyAt(before: map<ProgressionKey, CharacterProgression>, key: ProgressionKey,
                      rec: CharacterProgression, f: FightsFight, report: ReportFights)
    requires CarriesFight(rec, f, report)
    ensures WroteOnly(before, before[key := rec], key, f, report)
  {
  }

  /** Saving a row under its own key, with an id already handed out, keeps
      the tables well formed. */
  lemma TablesValidPut(encounters: map<string, EncounterInfo>, characters: map<string, Character>,
                       progressions: map<ProgressionKey, CharacterProgression>, history: seq<ReportImportHistory>, nextId: nat,
                       key: ProgressionKey, rec: CharacterProgression)
    requires TablesValid(encounters, characters, progressions, history, nextId)
    requires rec.characterId == key.0 && rec.encounterInfoId == key.1 && 0 < rec.id < nextId
    ensures TablesValid(encounters, characters, progressions[key := rec], history, nextId)
  {
  }

  /** Attempt `i` of the report, credited to friendly `j`, is filed under
      `k`: the friendly's stored character id and the attempt's stored
      encounter id. */
  predicate CreditedUnder(digest: string -> string, encounters: map<string, EncounterInfo>, characters: map<string, Character>,
                          report: ReportFights, i: nat, j: nat, k: ProgressionKey)
  {
    && i < |report.fights| && j < |report.friendlies| && IsEncounterValid(report.fights[i])
    && EncounterInfoHash(digest, report.fights[i]) in encounters && CharacterHash(digest, report.friendlies[j]) in characters
    && k == (characters[CharacterHash(digest, report.friendlies[j])].id, encounters[EncounterInfoHash(digest, report.fights[i])].id)
  }

  /** Every row added or changed from `before` to `after` holds the numbers
      of a valid attempt of the report filed under that row's own key, that
      is, of the row's encounter, credited to a friendly whose stored
      character is the row's character. */
  ghost predicate ChangedRowsFromReport(digest: string -> string, encounters: map<string, EncounterInfo>, characters: map<string, Character>,
                                        before: map<ProgressionKey, CharacterProgression>,
                                        after: map<ProgressionKey, CharacterProgression>, report: ReportFights)
  {
    forall k :: k in after && (k !in before || after[k] != before[k]) ==>
      exists i: nat, j: nat :: CreditedUnder(digest, encounters, characters, report, i, j, k) && CarriesFight(after[k], report.fights[i], report)
  }

  /** Crediting attempt `i` to friendly `j` keeps every changed row tied to
      an attempt of its own key. */
  lemma ChangedRowsStep(digest: string -> string, encounters: map<string, EncounterInfo>, characters: map<string, Character>,
                        a: map<ProgressionKey, CharacterProgression>, b: map<ProgressionKey, CharacterProgression>,
                        c: map<ProgressionKey, CharacterProgression>, report: ReportFights, i: nat, j: nat)
    requires ChangedRowsFromReport(digest, encounters, characters, a, b, report)
    requires i < |report.fights| && j < |report.friendlies| && IsEncounterValid(report.fights[i])
    requires EncounterInfoHash(digest, report.fights[i]) in encounters
    requires CharacterHash(digest, report.friendlies[j]) !in characters ==> c == b
    requires CharacterHash(digest, report.friendlies[j]) in characters ==>
      WroteOnly(b, c, (characters[CharacterHash(digest, report.friendlies[j])].id, encounters[EncounterInfoHash(digest, report.fights[i])].id),
                report.fights[i], report)
    ensures ChangedRowsFromReport(digest, encounters, characters, a, c, report)
  {
    forall k | k in c && (k !in a || c[k] != a[k])
      ensures exists i': nat, j': nat :: CreditedUnder(digest, encounters, characters, report, i', j', k)
                                          && CarriesFight(c[k], report.fights[i'], report)
    {
      if k !in b || c[k] != b[k] {
        assert CreditedUnder(digest, encounters, characters, report, i, j, k);
      }
    }
  }

  lemma ProgressionsGrewTransitive(a: map<ProgressionKey, CharacterProgression>, b: map<ProgressionKey, CharacterProgression>,
                                   c: map<ProgressionKey, CharacterProgression>, report: ReportFights)
    requires ProgressionsGrew(a, b, report) && ProgressionsGrew(b, c, report)
    ensures ProgressionsGrew(a, c, report)
  {
    forall k | k in a
      ensures k in c && Grew(a[k], c[k])
    {
      GrewTransitive(a[k], b[k], c[k]);
    }
  }
  class Store {
    /** The SHA-256-then-base-36 digest used for compare hashes. */
    const digest: string -> string
    /** The stream of rand.Intn(36) results. */
    const randomIndex: nat -> nat
    var encounters: map<string, EncounterInfo>
    var characters: map<string, Character>
    var progressions: map<ProgressionKey, CharacterProgression>
    var history: seq<ReportImportHistory>
    /** The next row id the storage engine hands out. */
    var nextId: nat
    /** How many random draws have been used. */
    var randomDraws: nat
    /** The tables on which every storage operation fails. */
    var down: set<Table>

    ghost predicate Valid()
      reads this
    {
      && (forall n: nat :: randomIndex(n) < 36)
      && TablesValid(encounters, characters, progressions, history, nextId)
    }

    constructor (digest: string -> string, randomIndex: nat -> nat, down: set<Table>)
      requires forall n: nat :: randomIndex(n) < 36
      ensures Valid()
      ensures this.digest == digest && this.randomIndex == randomIndex && this.down == down
      ensures encounters == map[] && characters == map[] && progressions == map[] && history == []
    {
      this.digest := digest;
      this.randomIndex := randomIndex;
      this.down := down;
      encounters, characters, progressions, history := map[], map[], map[], [];
      nextId, randomDraws := 1, 0;
    }

    function FetchEncounterInfoFromCompareHash(hash: string): (r: Result<EncounterInfo, DbError>)
      reads this
      ensures r.Ok? <==> EncounterInfos !in down && hash in encounters
      ensures r.Err? ==> r.error == (if EncounterInfos in down then StorageFailure(EncounterInfos) else RecordNotFound)
      ensures Valid() && r.Ok? ==> r.value.compareHash == hash && 0 < r.value.id < nextId
    {
      if EncounterInfos in down then Err(StorageFailure(EncounterInfos))
      else if hash in encounters then Ok(encounters[hash])
      else Err(RecordNotFound)
    }

    function FetchCharacterFromCompareHash(hash: string): (r: Result<Character, DbError>)
      reads this
      ensures r.Ok? <==> Characters !in down && hash in characters
      ensures r.Err? ==> r.error == (if Characters in down then StorageFailure(Characters) else RecordNotFound)
      ensures Valid() && r.Ok? ==> r.value.compareHash == hash && 0 < r.value.id < nextId
    {
      if Characters in down then Err(StorageFailure(Characters))
      else if hash in characters then Ok(characters[hash])
      else Err(RecordNotFound)
    }

    function FetchCharacterProgression(encounterInfoId: nat, characterId: nat): (r: Result<CharacterProgression, DbError>)
      reads this
      ensures r.Ok? <==> CharacterProgressions !in down && (characterId, encounterInfoId) in progressions
      ensures r.Err? ==> r.error == (if CharacterProgressions in down then StorageFailure(CharacterProgressions) else RecordNotFound)
      ensures Valid() && r.Ok? ==>
        r.value.characterId == characterId && r.value.encounterInfoId == encounterInfoId && 0 < r.value.id < nextId
    {
      if CharacterProgressions in down then Err(StorageFailure(CharacterProgressions))
      else if (characterId, encounterInfoId) in progressions then Ok(progressions[(characterId, encounterInfoId)])
      else Err(RecordNotFound)
    }

    /** The report has a row in the import ledger. The count query's error
        is dropped, so a ledger that cannot be read leaves the count at 0
        and the report counts as not imported. */
    function HasFFLogsReport(reportId: string): (r: bool)
      reads this
      ensures r <==> ImportHistories !in down && exists i :: 0 <= i < |history| && history[i].reportId == reportId
    {
      if ImportHistories in down then false else CountImports(history, reportId) > 0
    }

    /** Everything the report brings is stored and settled. */
    ghost predicate Synced(report: ReportFights)
      reads this
    {
      TablesSynced(digest, encounters, characters, progressions, report)
    }

    /** One step of the encounter sync: looks the attempt's compare hash up
        and creates the row when it is missing. */
    method UpsertEncounterInfo(f: FightsFight) returns (r: Outcome<DbError>)
      requires Valid() && IsEncounterValid(f)
      modifies this
      ensures Valid()
      ensures characters == old(characters) && progressions == old(progressions) && history == old(history)
      ensures randomDraws == old(randomDraws) && down == old(down)
      ensures r.Fail? <==> EncounterInfos in down
      ensures r.Fail? ==> r.error == StorageFailure(EncounterInfos)
      ensures var h := EncounterInfoHash(digest, f);
        if r.Fail? || h in old(encounters) then encounters == old(encounters) && nextId == old(nextId)
        else encounters == old(encounters)[h := EncounterInfo(old(nextId), h, f.boss, f.zoneId, f.zoneName, f.difficulty.GetOr(0))]
             && nextId == old(nextId) + 1
    {
      var compareHash := EncounterInfoHash(digest, f);
      var found := FetchEncounterInfoFromCompareHash(compareHash);
      if found.Err? {
        if found.error != RecordNotFound {
          return Fail(found.error);
        }
        var difficulty := 0;
        if f.difficulty.Some? {
          difficulty := f.difficulty.value;
        }
        encounters := encounters[compareHash := EncounterInfo(nextId, compareHash, f.boss, f.zoneId, f.zoneName, difficulty)];
        nextId := nextId + 1;
      }
      return Pass;
    }

    /** Creates an EncounterInfo for every valid attempt whose compare hash
        is not stored yet; stored rows are never touched. */
    method SyncEncounterInfo(report: ReportFights) returns (r: Outcome<DbError>)
      requires Valid()
      modifies this
      ensures Valid()
      ensures characters == old(characters) && progressions == old(progressions) && history == old(history)
      ensures randomDraws == old(randomDraws) && down == old(down) && nextId >= old(nextId)
      ensures EncountersGrew(digest, old(encounters), encounters, old(nextId), report.fights)
      ensures r.Pass? <==> EncounterInfos !in down || ValidHashes(digest, report.fights) == {}
      ensures r.Fail? ==> r.error == StorageFailure(EncounterInfos) && encounters == old(encounters)
      ensures r.Pass? ==> ValidHashes(digest, report.fights) <= encounters.Keys
      ensures old(ValidHashes(digest, report.fights) <= encounters.Keys) ==> encounters == old(encounters) && nextId == old(nextId)
    {
      var fs := report.fights;
      var i := 0;
      while i < |fs|
        invariant Valid()
        invariant characters == old(characters) && progressions == old(progressions) && history == old(history)
        invariant randomDraws == old(randomDraws) && down == old(down) && nextId >= old(nextId)
        invariant EncounterLoop(digest, old(encounters), encounters, old(nextId), EncounterInfos in down, fs, i)
        invariant old(ValidHashes(digest, fs) <= encounters.Keys) ==> encounters == old(encounters) && nextId == old(nextId)
      {
        var f := fs[i];
        ghost var mid, id := encounters, nextId;
        if IsEncounterValid(f) {
          ValidHashesHas(digest, fs, i);
          r := UpsertEncounterInfo(f);
          if r.Fail? {
            ValidHashesEmpty(digest, fs);
            return;
          }
        }
        EncounterLoopStep(digest, old(encounters), mid, encounters, old(nextId), EncounterInfos in down, fs, i, id);
        i := i + 1;
      }
      ValidHashesCovered(digest, fs, encounters.Keys);
      ValidHashesEmpty(digest, fs);
      return Pass;
    }

    /** One step of the character sync: looks the friendly's compare hash
        up and creates the row, with a public id made of the next six
        random draws, when it is missing. */
    method UpsertCharacter(p: FightsFriendly) returns (r: Outcome<DbError>)
      requires Valid() && IsNamed(p)
      modifies this
      ensures Valid()
      ensures encounters == old(encounters) && progressions == old(progressions) && history == old(history) && down == old(down)
      ensures r.Fail? <==> Characters in down
      ensures r.Fail? ==> r.error == StorageFailure(Characters)
      ensures var h := CharacterHash(digest, p);
        if r.Fail? || h in old(characters) then
          characters == old(characters) && nextId == old(nextId) && randomDraws == old(randomDraws)
        else
          && h in characters
          && characters == old(characters)[h := Character(old(nextId), characters[h].uuid, h, p.name, p.server)]
          && IsPublicId(characters[h].uuid)
          && DrawnUid(characters[h].uuid, randomIndex, old(randomDraws))
          && nextId == old(nextId) + 1 && randomDraws == old(randomDraws) + UidLength
    {
      var compareHash := CharacterHash(digest, p);
      var found := FetchCharacterFromCompareHash(compareHash);
      if found.Err? {
        if found.error != RecordNotFound {
          return Fail(found.error);
        }
        var uid := GenerateUid(randomIndex, randomDraws);
        randomDraws := randomDraws + UidLength;
        characters := characters[compareHash := Character(nextId, uid, compareHash, p.name, p.server)];
        nextId := nextId + 1;
      }
      return Pass;
    }

    /** Creates a Character, with a newly drawn public id, for every named
        friendly whose compare hash is not stored yet; stored rows are never
        touched. */
    method SyncCharacter(report: ReportFights) returns (r: Outcome<DbError>)
      requires Valid()
      modifies this
      ensures Valid()
      ensures encounters == old(encounters) && progressions == old(progressions) && history == old(history) && down == old(down)
      ensures CharactersGrew(digest, old(characters), characters, old(nextId), report.friendlies)
      ensures r.Pass? <==> Characters !in down || NamedHashes(digest, report.friendlies) == {}
      ensures r.Fail? ==> r.error == StorageFailure(Characters) && characters == old(characters)
      ensures r.Pass? ==> NamedHashes(digest, report.friendlies) <= characters.Keys
      ensures old(NamedHashes(digest, report.friendlies) <= characters.Keys) ==>
        characters == old(characters) && nextId == old(nextId) && randomDraws == old(randomDraws)
    {
      var ps := report.friendlies;
      var i := 0;
      while i < |ps|
        invariant Valid()
        invariant encounters == old(encounters) && progressions == old(progressions) && history == old(history) && down == old(down)
        invariant nextId >= old(nextId)
        invariant CharacterLoop(digest, old(characters), characters, old(nextId), Characters in down, ps, i)
        invariant old(NamedHashes(digest, ps) <= characters.Keys) ==>
          characters == old(characters) && nextId == old(nextId) && randomDraws == old(randomDraws)
      {
        var p := ps[i];
        ghost var mid, id := characters, nextId;
        if IsNamed(p) {
          NamedHashesHas(digest, ps, i);
          r := UpsertCharacter(p);
          if r.Fail? {
            NamedHashesEmpty(digest, ps);
            return;
          }
        }
        CharacterLoopStep(digest, old(characters), mid, characters, old(nextId), Characters in down, ps, i, id);
        i := i + 1;
      }
      NamedHashesCovered(digest, ps, characters.Keys);
      NamedHashesEmpty(digest, ps);
      return Pass;
    }

    /** The fields that the progression sync assigns, one after the other,
        to the fetched record `cp` before saving it. */
    method RecordFight(cp: CharacterProgression, f: FightsFight, report: ReportFights, characterId: nat, encounterInfoId: nat)
      returns (r: CharacterProgression)
      ensures r.id == cp.id && r.characterId == characterId && r.encounterInfoId == encounterInfoId
      ensures CarriesFight(r, f, report)
      ensures r.hasKill == (cp.hasKill || f.kill == Some(true))
      ensures !r.hasKill ==> r.firstKillTime == cp.firstKillTime
      ensures r.hasKill && !cp.hasKill ==> r.firstKillTime == report.start + f.endTime
      ensures cp.hasKill ==> r.firstKillTime == Min(cp.firstKillTime, if f.kill == Some(true) then report.start + f.endTime else cp.firstKillTime)
      ensures r.hasEcho == f.hasEcho.GetOr(cp.hasEcho)
      ensures r.hasStandardComposition == f.standardComposition.GetOr(cp.hasStandardComposition)
      ensures f.kill.Some? && f.fightPercentage.Some? && (f.kill.value || !cp.hasKill) ==> StoredStanding(r) == FightStanding(f)
    {
      var encounterTime := f.endTime - f.startTime;
      var endTime := report.start + f.endTime;
      var bestEncounterTime := encounterTime;
      var bestFightPercentage := 10000;
      if f.fightPercentage.Some? {
        bestFightPercentage := f.fightPercentage.value;
      }
      var bestPhasePercentage := 10000;
      if f.bossPercentage.Some? {
        bestPhasePercentage := f.bossPercentage.value;
      }
      var bestPhase := 0;
      if f.lastPhaseForPercentageDisplay.Some? {
        bestPhase := f.lastPhaseForPercentageDisplay.value;
      }
      var gameVersion := report.gameVersion;
      var hasKill, firstKillTime := cp.hasKill, cp.firstKillTime;
      if f.kill.Some? {
        if f.kill.value && (!hasKill || firstKillTime > endTime) {
          firstKillTime := endTime;
          hasKill := true;
        }
      }
      var hasEcho := cp.hasEcho;
      if f.hasEcho.Some? {
        hasEcho := f.hasEcho.value;
      }
      var hasStandardComposition := cp.hasStandardComposition;
      if f.standardComposition.Some? {
        hasStandardComposition := f.standardComposition.value;
      }
      r := CharacterProgression(cp.id, characterId, encounterInfoId, gameVersion, firstKillTime, endTime,
        bestFightPercentage, bestPhase, bestPhasePercentage, bestEncounterTime, hasKill, hasEcho, hasStandardComposition);
    }

    /** One step of the progression sync: credits attempt `f` of encounter
        `encounter` to friendly `p` when the friendly has a stored character
        and the attempt improves on the pair's stored progression. */
    method CreditFriendly(f: FightsFight, encounter: EncounterInfo, p: FightsFriendly, report: ReportFights)
      returns (r: Outcome<DbError>)
      requires Valid() && IsEncounterValid(f)
      requires EncounterInfoHash(digest, f) in encounters && encounters[EncounterInfoHash(digest, f)] == encounter
      requires f in report.fights
      modifies this
      ensures Valid()
      ensures encounters == old(encounters) && characters == old(characters) && history == old(history)
      ensures randomDraws == old(randomDraws) && down == old(down)
      ensures r.Fail? ==>
        && r.error in {StorageFailure(Characters), StorageFailure(CharacterProgressions)}
        && progressions == old(progressions) && nextId == old(nextId)
      ensures r.Pass? ==> Settled(digest, encounters, characters, progressions, f, p)
      ensures old(Settled(digest, encounters, characters, progressions, f, p)) ==>
        progressions == old(progressions) && nextId == old(nextId)
      ensures SettlementKept(digest, encounters, characters, old(progressions), progressions)
      ensures ProgressionsGrew(old(progressions), progressions, report)
      ensures CharacterHash(digest, p) !in characters ==> progressions == old(progressions)
      ensures CharacterHash(digest, p) in characters ==>
        WroteOnly(old(progressions), progressions, (characters[CharacterHash(digest, p)].id, encounter.id), f, report)
    {
      var foundCharacter := FetchCharacterFromCompareHash(CharacterHash(digest, p));
      if foundCharacter.Err? {
        if foundCharacter.error != RecordNotFound {
          return Fail(foundCharacter.error);
        }
        return Pass;
      }
      var character := foundCharacter.value;
      var foundProgression := FetchCharacterProgression(encounter.id, character.id);
      if foundProgression.Err? && foundProgression.error != RecordNotFound {
        return Fail(foundProgression.error);
      }
      var cp := if foundProgression.Ok? then foundProgression.value else EmptyProgression;
      if IsImprovement(cp, f) {
        var key := (character.id, encounter.id);
        var rec := RecordFight(cp, f, report, character.id, encounter.id);
        if rec.id == 0 {
          rec := rec.(id := nextId);
          nextId := nextId + 1;
        }
        ghost var before := progressions;
        assert key in before ==> before[key] == cp;
        progressions := progressions[key := rec];
        forall g, q | Settled(digest, encounters, characters, before, g, q)
          ensures Settled(digest, encounters, characters, progressions, g, q)
        {
          WriteKeepsSettled(digest, encounters, characters, before, key, cp, f, rec, g, q);
        }
        EqualIsNoImprovement(rec, f);
        if key in before {
          ImprovementIsOutranking(cp, f);
        }
        assert CarriedByReport(rec, report) by {
          var i :| 0 <= i < |report.fights| && report.fights[i] == f;
        }
        WriteIsOnlyAt(before, key, rec, f, report);
        TablesValidPut(encounters, characters, before, history, nextId, key, rec);
      }
      return Pass;
    }

    /** For every valid attempt and every friendly with a stored character,
        saves the attempt as the pair's progression when it improves on the
        stored one. */
    method SyncCharacterProgression(reportId: string, report: ReportFights) returns (r: Outcome<DbError>)
      requires Valid()
      modifies this
      ensures Valid()
      ensures encounters == old(encounters) && characters == old(characters) && history == old(history)
      ensures randomDraws == old(randomDraws) && down == old(down)
      ensures r.Pass? ==> AllSettled(digest, encounters, characters, progressions, report)
      ensures old(AllSettled(digest, encounters, characters, progressions, report)) ==>
        progressions == old(progressions) && nextId == old(nextId)
      ensures ProgressionsGrew(old(progressions), progressions, report)
      ensures ChangedRowsFromReport(digest, encounters, characters, old(progressions), progressions, report)
      ensures r.Fail? ==> r.error in {RecordNotFound, StorageFailure(EncounterInfos), StorageFailure(Characters), StorageFailure(CharacterProgressions)}
    {
      var fs, ps := report.fights, report.friendlies;
      var i := 0;
      while i < |fs|
        invariant 0 <= i <= |fs|
        invariant Valid()
        invariant encounters == old(encounters) && characters == old(characters) && history == old(history)
        invariant randomDraws == old(randomDraws) && down == old(down)
        invariant SettledBefore(digest, encounters, characters, progressions, report, i, 0)
        invariant old(AllSettled(digest, encounters, characters, progressions, report)) ==>
          progressions == old(progressions) && nextId == old(nextId)
        invariant ProgressionsGrew(old(progressions), progressions, report)
        invariant ChangedRowsFromReport(digest, encounters, characters, old(progressions), progressions, report)
      {
        var f := fs[i];
        if IsEncounterValid(f) {
          var foundEncounter := FetchEncounterInfoFromCompareHash(EncounterInfoHash(digest, f));
          if foundEncounter.Err? {
            return Fail(foundEncounter.error);
          }
          var encounter := foundEncounter.value;
          ghost var rowStart := progressions;
          var j := 0;
          while j < |ps|
            invariant 0 <= j <= |ps|
            invariant Valid()
            invariant encounters == old(encounters) && characters == old(characters) && history == old(history)
            invariant randomDraws == old(randomDraws) && down == old(down)
            invariant SettledBefore(digest, encounters, characters, progressions, report, i, j)
            invariant SettledBefore(digest, encounters, characters, progressions, report, i, 0)
            invariant old(AllSettled(digest, encounters, characters, progressions, report)) ==>
              progressions == old(progressions) && nextId == old(nextId)
            invariant ProgressionsGrew(old(progressions), progressions, report)
            invariant ChangedRowsFromReport(digest, encounters, characters, old(progressions), progressions, report)
          {
            ghost var before := progressions;
            if old(AllSettled(digest, encounters, characters, progressions, report)) {
              AllSettledAt(digest, encounters, characters, before, report, i, j);
            }
            r := CreditFriendly(f, encounter, ps[j], report);
            if r.Fail? {
              return;
            }
            ProgressionsGrewTransitive(old(progressions), before, progressions, report);
            ChangedRowsStep(digest, encounters, characters, old(progressions), before, progressions, report, i, j);
            SettledBeforeKept(digest, encounters, characters, before, progressions, report, i, j);
            SettledBeforeKept(digest, encounters, characters, before, progressions, report, i, 0);
            SettledBeforeNextFriendly(digest, encounters, characters, progressions, report, i, j);
            j := j + 1;
          }
        }
        SettledBeforeNextFight(digest, encounters, characters, progressions, report, i);
        i := i + 1;
      }
      SettledBeforeAll(digest, encounters, characters, progressions, report);
      return Pass;
    }

    /** The three sync passes of an import: encounters, then characters,
        then progressions, stopping at the first error. */
    method SyncTables(reportId: string, report: ReportFights) returns (r: Outcome<DbError>, ghost stopped: Stage)
      requires Valid()
      modifies this
      ensures Valid()
      ensures history == old(history) && down == old(down)
      ensures r.Pass? <==> stopped == Done
      ensures stopped != HistoryStage
      ensures stopped == EncounterStage ==>
        r == Fail(StorageFailure(EncounterInfos)) && encounters == old(encounters) && characters == old(characters)
        && progressions == old(progressions)
      ensures stopped == CharacterStage ==>
        r == Fail(StorageFailure(Characters)) && characters == old(characters) && progressions == old(progressions)
      ensures stopped == CharacterStage || stopped == ProgressionStage ==>
        EncountersGrew(digest, old(encounters), encounters, old(nextId), report.fights)
      ensures stopped == ProgressionStage ==>
        && r.error in {RecordNotFound, StorageFailure(EncounterInfos), StorageFailure(Characters), StorageFailure(CharacterProgressions)}
        && CharactersGrew(digest, old(characters), characters, old(nextId), report.friendlies)
        && ProgressionsGrew(old(progressions), progressions, report)
      ensures r.Pass? ==> TablesSynced(digest, encounters, characters, progressions, report)
      ensures old(Synced(report)) ==>
        encounters == old(encounters) && characters == old(characters) && progressions == old(progressions)
    {
      r := SyncEncounterInfo(report);
      if r.Fail? {
        return r, EncounterStage;
      }
      ghost var firstCharacterId := nextId;
      r := SyncCharacter(report);
      if r.Fail? {
        return r, CharacterStage;
      }
      CharactersGrewFrom(digest, old(characters), characters, old(nextId), firstCharacterId, report.friendlies);
      r := SyncCharacterProgression(reportId, report);
      if r.Fail? {
        return r, ProgressionStage;
      }
      return Pass, Done;
    }

    /** Imports one fetched report: the three sync passes, then the ledger
        row, which is saved only after all three succeeded. */
    method HandleFFLogsReportFights(reportId: string, report: ReportFights) returns (r: Outcome<DbError>, ghost stopped: Stage)
      requires Valid()
      modifies this
      ensures Valid()
      ensures r.Pass? <==> stopped == Done
      ensures stopped == EncounterStage ==>
        r == Fail(StorageFailure(EncounterInfos)) && encounters == old(encounters) && characters == old(characters)
        && progressions == old(progressions) && history == old(history)
      ensures stopped == CharacterStage ==>
        r == Fail(StorageFailure(Characters)) && characters == old(characters)
        && progressions == old(progressions) && history == old(history)
      ensures stopped == CharacterStage || stopped == ProgressionStage ==>
        EncountersGrew(digest, old(encounters), encounters, old(nextId), report.fights)
      ensures stopped == ProgressionStage ==>
        && r.error in {RecordNotFound, StorageFailure(EncounterInfos), StorageFailure(Characters), StorageFailure(CharacterProgressions)}
        && CharactersGrew(digest, old(characters), characters, old(nextId), report.friendlies)
        && ProgressionsGrew(old(progressions), progressions, report)
        && history == old(history)
      ensures stopped == HistoryStage ==> r == Fail(StorageFailure(ImportHistories)) && history == old(history)
      ensures r.Pass? ==>
        && |history| == |old(history)| + 1 && history[..|old(history)|] == old(history)
        && history[|old(history)|].reportId == reportId
        && HasFFLogsReport(reportId)
        && Synced(report)
      ensures old(Synced(report)) ==>
        encounters == old(encounters) && characters == old(characters) && progressions == old(progressions)
    {
      r, stopped := SyncTables(reportId, report);
      if r.Fail? {
        return;
      }
      if ImportHistories in down {
        return Fail(StorageFailure(ImportHistories)), HistoryStage;
      }
      TablesValidLog(encounters, characters, progressions, history, nextId, reportId);
      history := history + [ReportImportHistory(nextId, reportId)];
      nextId := nextId + 1;
      assert history[|history| - 1].reportId == reportId;
      return Pass, Done;
    }
  }

  function Min(a: int, b: int): int {
    if a <= b then a else b
  }
}
