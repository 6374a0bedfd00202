/** The per-character progression extractor of fflogs_report.go: for one
    friendly of a fetched report it picks, per encounter, the best attempt
    the friendly took part in. The Go functions are search and update
    loops; each is a method proved equal to a recursive specification
    function, and the properties of the extractor are lemmas about those
    functions. */
module Report {
  import opened Wrappers
  import opened Structure
  import opened Errors
  import opened Entities
  import opened Helpers

  /** The encounter part of an extracted progression (fflogs_report.go
      fills only these fields of EncounterInfo). */
  datatype ReportEncounter = ReportEncounter(
    compareHash: string,
    zoneId: int,
    zoneName: string,
    difficulty: int,
    bossId: int)

  /** The record the extractor builds for one encounter. The extractor's
      CharacterProgression has fields of its own, unlike the stored one. */
  datatype ReportProgression = ReportProgression(
    reportId: string,
    gameVersion: int,
    time: int,
    fightPercentage: int,
    phase: int,
    phasePercentage: int,
    duration: int,
    isKill: bool,
    isStandardComposition: bool,
    hasEcho: bool,
    job: string,
    encounterInfo: ReportEncounter)

  /** FFLogCharacterReport: a character and its best attempts in one report. */
  datatype CharacterReport = CharacterReport(reportId: string, character: Character, progression: seq<ReportProgression>)

  // ---------------------------------------------------------------------
  // Participation

  /** The friendly took part in the fight: one of its fight entries carries
      the fight's id. */
  predicate TookPart(p: FightsFriendly, f: FightsFight) {
    exists k :: 0 <= k < |p.fights| && p.fights[k].id == f.id
  }

  method IsFriendlyInEncounter(p: FightsFriendly, f: FightsFight) returns (r: bool)
    ensures r == TookPart(p, f)
  {
    for i := 0 to |p.fights|
      invariant forall k :: 0 <= k < i ==> p.fights[k].id != f.id
    {
      if p.fights[i].id == f.id {
        return true;
      }
    }
    return false;
  }

  // ---------------------------------------------------------------------
  // Encounter hashes of a friendly

  /** The compare hashes of the fights among `fs` that the friendly took
      part in, each once, in order of first appearance; validity is not
      checked. */
  function EncounterHashes(digest: string -> string, fs: seq<FightsFight>, p: FightsFriendly): seq<string> {
    if fs == [] then []
    else
      var out := EncounterHashes(digest, fs[..|fs| - 1], p);
      var f := fs[|fs| - 1];
      if TookPart(p, f) && EncounterInfoHash(digest, f) !in out then out + [EncounterInfoHash(digest, f)] else out
  }

  method EncounterHashesForFriendly(digest: string -> string, report: ReportFights, p: FightsFriendly) returns (out: seq<string>)
    ensures out == EncounterHashes(digest, report.fights, p)
  {
    var fs := report.fights;
    out := [];
    for i := 0 to |fs|
      invariant out == EncounterHashes(digest, fs[..i], p)
    {
      assert fs[..i + 1][..i] == fs[..i];
      var f := fs[i];
      var tookPart := IsFriendlyInEncounter(p, f);
      if !tookPart {
        continue;
      }
      var compareHash := EncounterInfoHash(digest, f);
      var hasHash := false;
      for j := 0 to |out|
        invariant hasHash <==> compareHash in out[..j]
      {
        if compareHash == out[j] {
          assert compareHash in out[..j + 1];
          hasHash := true;
          break;
        }
        assert out[..j + 1] == out[..j] + [out[j]];
      }
      assert hasHash <==> compareHash in out by {
        if !hasHash {
          assert out[..|out|] == out;
        }
      }
      if !hasHash {
        out := out + [compareHash];
      }
    }
    assert fs[..|fs|] == fs;
  }

  /** No element is listed twice. */
  predicate NoDuplicates(s: seq<string>) {
    forall i, j :: 0 <= i < j < |s| ==> s[i] != s[j]
  }

  lemma AppendNoDuplicates(s: seq<string>, x: string)
    requires NoDuplicates(s) && x !in s
    ensures NoDuplicates(s + [x])
  {
    var t := s + [x];
    forall i, j | 0 <= i < j < |t|
      ensures t[i] != t[j]
    {
      assert t[i] == s[i];
      if j < |s| {
        assert t[j] == s[j];
      }
    }
  }

  /** No hash is listed twice. */
  lemma {:induction false} EncounterHashesNoDuplicates(digest: string -> string, fs: seq<FightsFight>, p: FightsFriendly)
    ensures NoDuplicates(EncounterHashes(digest, fs, p))
    decreases |fs|
  {
    if fs != [] {
      var init := fs[..|fs| - 1];
      EncounterHashesNoDuplicates(digest, init, p);
      var out := EncounterHashes(digest, init, p);
      var h := EncounterInfoHash(digest, fs[|fs| - 1]);
      if TookPart(p, fs[|fs| - 1]) && h !in out {
        AppendNoDuplicates(out, h);
      }
    }
  }

  /** The list holds exactly the hashes of the fights the friendly took
      part in. */
  lemma {:induction false} EncounterHashesMembers(digest: string -> string, fs: seq<FightsFight>, p: FightsFriendly, h: string)
    ensures h in EncounterHashes(digest, fs, p) <==>
      exists k :: 0 <= k < |fs| && TookPart(p, fs[k]) && EncounterInfoHash(digest, fs[k]) == h
    decreases |fs|
  {
    if fs != [] {
      var init := fs[..|fs| - 1];
      EncounterHashesMembers(digest, init, p, h);
      assert forall k :: 0 <= k < |init| ==> init[k] == fs[k];
    }
  }

  /** The list only grows as fights are added: the list of a prefix of the
      fights is a prefix of the list of all of them, so hashes stand in
      the order in which they first appear. */
  lemma {:induction false} EncounterHashesGrow(digest: string -> string, fs: seq<FightsFight>, p: FightsFriendly, n: nat)
    requires n <= |fs|
    ensures var whole := EncounterHashes(digest, fs, p);
      var part := EncounterHashes(digest, fs[..n], p);
      |part| <= |whole| && whole[..|part|] == part
    decreases |fs|
  {
    if n < |fs| {
      var init := fs[..|fs| - 1];
      EncounterHashesGrow(digest, init, p, n);
      assert init[..n] == fs[..n];
    } else {
      assert fs[..n] == fs;
    }
  }

  /** A fight whose hash is new when it is reached appends that hash. */
  lemma EncounterHashesFirstAppearance(digest: string -> string, fs: seq<FightsFight>, p: FightsFriendly, k: nat)
    requires k < |fs| && TookPart(p, fs[k])
    requires EncounterInfoHash(digest, fs[k]) !in EncounterHashes(digest, fs[..k], p)
    ensures EncounterHashes(digest, fs[..k + 1], p) == EncounterHashes(digest, fs[..k], p) + [EncounterInfoHash(digest, fs[k])]
  {
    assert fs[..k + 1][..k] == fs[..k];
  }

  // ---------------------------------------------------------------------
  // Valid attempts and kills of a friendly

  /** The friendly took part in a valid attempt with compare hash `h`. */
  predicate HasValidFight(digest: string -> string, fs: seq<FightsFight>, p: FightsFriendly, h: string) {
    exists k :: 0 <= k < |fs| && IsEncounterValid(fs[k]) && TookPart(p, fs[k]) && EncounterInfoHash(digest, fs[k]) == h
  }

  /** The friendly took part in a valid kill with compare hash `h`. */
  predicate HasValidKill(digest: string -> string, fs: seq<FightsFight>, p: FightsFriendly, h: string) {
    exists k :: 0 <= k < |fs| && IsEncounterValid(fs[k]) && TookPart(p, fs[k]) && EncounterInfoHash(digest, fs[k]) == h
                && fs[k].kill.value
  }

  method DoesFriendlyHaveEncounter(digest: string -> string, report: ReportFights, p: FightsFriendly, h: string)
    returns (r: bool)
    ensures r == HasValidFight(digest, report.fights, p, h)
  {
    var fs := report.fights;
    for i := 0 to |fs|
      invariant !HasValidFight(digest, fs[..i], p, h)
    {
      assert fs[..i + 1][..i] == fs[..i];
      var tookPart := IsFriendlyInEncounter(p, fs[i]);
      if IsEncounterValid(fs[i]) && tookPart && EncounterInfoHash(digest, fs[i]) == h {
        assert fs[..i + 1][i] == fs[i];
        assert HasValidFight(digest, fs[..i + 1], p, h);
        return true;
      }
      assert !HasValidFight(digest, fs[..i + 1], p, h) by {
        assert forall k :: 0 <= k < i + 1 ==> fs[..i + 1][k] == fs[k];
      }
    }
    assert fs[..|fs|] == fs;
    return false;
  }

  method DoesFriendlyHaveEncounterKill(digest: string -> string, report: ReportFights, p: FightsFriendly, h: string)
    returns (r: bool)
    ensures r == HasValidKill(digest, report.fights, p, h)
  {
    var fs := report.fights;
    for i := 0 to |fs|
      invariant !HasValidKill(digest, fs[..i], p, h)
    {
      assert fs[..i + 1][..i] == fs[..i];
      var tookPart := IsFriendlyInEncounter(p, fs[i]);
      if IsEncounterValid(fs[i]) && tookPart && EncounterInfoHash(digest, fs[i]) == h && fs[i].kill.value {
        assert fs[..i + 1][i] == fs[i];
        assert HasValidKill(digest, fs[..i + 1], p, h);
        return true;
      }
      assert !HasValidKill(digest, fs[..i + 1], p, h) by {
        assert forall k :: 0 <= k < i + 1 ==> fs[..i + 1][k] == fs[k];
      }
    }
    assert fs[..|fs|] == fs;
    return false;
  }

  /** A valid kill is a valid attempt. */
  lemma KillIsEncounter(digest: string -> string, fs: seq<FightsFight>, p: FightsFriendly, h: string)
    requires HasValidKill(digest, fs, p, h)
    ensures HasValidFight(digest, fs, p, h)
  {
  }

  // ---------------------------------------------------------------------
  // The extractor

  /** The extractor dereferences the phase and composition of every
      attempt it picks; the Go code panics when they are nil. */
  predicate Complete(f: FightsFight) {
    f.lastPhaseForPercentageDisplay.Some? && f.standardComposition.Some?
  }

  /** Every valid attempt the friendly took part in is complete. This is
      more than the extractor reads: it only needs the attempts it picks. */
  predicate Dereferenceable(fs: seq<FightsFight>, p: FightsFriendly) {
    forall k :: 0 <= k < |fs| && IsEncounterValid(fs[k]) && TookPart(p, fs[k]) ==> Complete(fs[k])
  }

  /** The running `best*` variables of the extractor's scan for one hash. */
  datatype Best = Best(
    hasFightData: bool,
    duration: int,
    fightPercent: int,
    phasePercent: int,
    phase: int,
    endTime: int,
    standardComp: bool,
    zoneId: int,
    zoneName: string,
    difficulty: int,
    bossId: int)

  /** The values the scan starts from. */
  const NoBest: Best := Best(false, -1, -1, -1, -1, ZeroTime, false, -1, "", -1, -1)

  /** The scan for hash `h` looks at attempt `f`: the friendly took part,
      the attempt is valid with that hash, and it is a kill when the
      friendly has a kill. */
  predicate Considered(digest: string -> string, p: FightsFriendly, h: string, hasKill: bool, f: FightsFight) {
    TookPart(p, f) && IsEncounterValid(f) && EncounterInfoHash(digest, f) == h && !(hasKill && !f.kill.value)
  }

  /** A considered attempt updates the duration by the kill/no-kill rule,
      and replaces everything else when its fight percentage is lower than
      the best so far (or there is none yet). */
  function Improve(b: Best, f: FightsFight, report: ReportFights, hasKill: bool): Best
    requires IsEncounterValid(f) && Complete(f)
  {
    var d := f.endTime - f.startTime;
    var duration := if (hasKill && (d < b.duration || b.duration == -1)) || (!hasKill && d > b.duration) then d else b.duration;
    if b.fightPercent < 0 || b.fightPercent > f.fightPercentage.value then
      Best(true, duration, f.fightPercentage.value, f.bossPercentage.value, f.lastPhaseForPercentageDisplay.value,
           report.start + f.endTime, f.standardComposition.value, report.zone, f.zoneName, f.difficulty.value, f.boss)
    else
      b.(duration := duration)
  }

  /** The scan over the attempts `fs` for hash `h`. */
  function Scan(digest: string -> string, report: ReportFights, fs: seq<FightsFight>, p: FightsFriendly, h: string, hasKill: bool): Best
    requires Dereferenceable(fs, p)
  {
    if fs == [] then NoBest
    else
      var init := fs[..|fs| - 1];
      assert Dereferenceable(init, p) by {
        assert forall k :: 0 <= k < |init| ==> init[k] == fs[k];
      }
      var b := Scan(digest, report, init, p, h, hasKill);
      var f := fs[|fs| - 1];
      if Considered(digest, p, h, hasKill, f) then Improve(b, f, report, hasKill) else b
  }

  /** The record built from a scan that found data. */
  function ProgressionOf(reportId: string, report: ReportFights, p: FightsFriendly, h: string, hasKill: bool, b: Best): ReportProgression {
    ReportProgression(reportId, report.gameVersion, b.endTime, b.fightPercent, b.phase, b.phasePercent, b.duration,
      hasKill, b.standardComp, false, p.jobType, ReportEncounter(h, b.zoneId, b.zoneName, b.difficulty, b.bossId))
  }

  /** The scan for hash `h` over the whole report, with the kill flag the
      extractor computes first. */
  function ScanFor(digest: string -> string, report: ReportFights, p: FightsFriendly, h: string): Best
    requires Dereferenceable(report.fights, p)
  {
    Scan(digest, report, report.fights, p, h, HasValidKill(digest, report.fights, p, h))
  }

  /** The progressions for the hashes `hs`, in order: one for each hash
      with a valid attempt whose scan found data. */
  function Progressions(digest: string -> string, reportId: string, report: ReportFights, p: FightsFriendly, hs: seq<string>)
    : seq<ReportProgression>
    requires Dereferenceable(report.fights, p)
  {
    if hs == [] then []
    else
      var out := Progressions(digest, reportId, report, p, hs[..|hs| - 1]);
      var h := hs[|hs| - 1];
      if !HasValidFight(digest, report.fights, p, h) then out
      else
        var b := ScanFor(digest, report, p, h);
        if b.hasFightData then out + [ProgressionOf(reportId, report, p, h, HasValidKill(digest, report.fights, p, h), b)]
        else out
  }

  /** What the extractor returns for a friendly: the character record and
      the progressions for its encounter hashes. */
  function CharacterOf(digest: string -> string, p: FightsFriendly): Character {
    Character(0, "", CharacterHash(digest, p), p.name, p.server)
  }

  function ExtractedProgressions(digest: string -> string, reportId: string, report: ReportFights, p: FightsFriendly)
    : seq<ReportProgression>
    requires Dereferenceable(report.fights, p)
  {
    Progressions(digest, reportId, report, p, EncounterHashes(digest, report.fights, p))
  }

  /** The inner scan of the extractor for one hash, over the running
      `best*` variables. */
  method ScanEncounter(digest: string -> string, report: ReportFights, p: FightsFriendly, encounterHash: string, hasKill: bool)
    returns (best: Best)
    requires Dereferenceable(report.fights, p)
    ensures best == Scan(digest, report, report.fights, p, encounterHash, hasKill)
  {
    var fs := report.fights;
    var hasFightData := false;
    var bestDuration := -1;
    var bestFightPercent := -1;
    var bestPhasePercent := -1;
    var bestPhase := -1;
    var bestEndTime := ZeroTime;
    var bestStandardComp := false;
    var bestZoneId := -1;
    var bestZoneName := "";
    var bestDifficulty := -1;
    var bestBossId := -1;
    for i := 0 to |fs|
      invariant Best(hasFightData, bestDuration, bestFightPercent, bestPhasePercent, bestPhase, bestEndTime,
                     bestStandardComp, bestZoneId, bestZoneName, bestDifficulty, bestBossId)
                == Scan(digest, report, fs[..i], p, encounterHash, hasKill)
    {
      assert fs[..i + 1][..i] == fs[..i];
      var fight := fs[i];
      var hasFight := IsFriendlyInEncounter(p, fight);
      if !hasFight {
        continue;
      }
      if !IsEncounterValid(fight) || EncounterInfoHash(digest, fight) != encounterHash || (hasKill && !fight.kill.value) {
        continue;
      }
      var encounterDuration := fight.endTime - fight.startTime;
      if (hasKill && (encounterDuration < bestDuration || bestDuration == -1)) || (!hasKill && encounterDuration > bestDuration) {
        bestDuration := encounterDuration;
      }
      if bestFightPercent < 0 || bestFightPercent > fight.fightPercentage.value {
        hasFightData := true;
        bestFightPercent := fight.fightPercentage.value;
        bestPhasePercent := fight.bossPercentage.value;
        bestPhase := fight.lastPhaseForPercentageDisplay.value;
        bestEndTime := report.start + fight.endTime;
        bestStandardComp := fight.standardComposition.value;
        bestZoneId := report.zone;
        bestZoneName := fight.zoneName;
        bestDifficulty := fight.difficulty.value;
        bestBossId := fight.boss;
      }
    }
    assert fs[..|fs|] == fs;
    best := Best(hasFightData, bestDuration, bestFightPercent, bestPhasePercent, bestPhase, bestEndTime,
                 bestStandardComp, bestZoneId, bestZoneName, bestDifficulty, bestBossId);
  }

  method CharacterProgressForFriendly(digest: string -> string, reportId: string, report: ReportFights, p: FightsFriendly)
    returns (character: Character, progressions: seq<ReportProgression>)
    requires Dereferenceable(report.fights, p)
    ensures character == CharacterOf(digest, p)
    ensures progressions == ExtractedProgressions(digest, reportId, report, p)
  {
    character := Character(0, "", CharacterHash(digest, p), p.name, p.server);
    progressions := [];
    var encounterHashes := EncounterHashesForFriendly(digest, report, p);
    for j := 0 to |encounterHashes|
      invariant progressions == Progressions(digest, reportId, report, p, encounterHashes[..j])
    {
      assert encounterHashes[..j + 1][..j] == encounterHashes[..j];
      var encounterHash := encounterHashes[j];
      var hasEncounter := DoesFriendlyHaveEncounter(digest, report, p, encounterHash);
      if !hasEncounter {
        continue;
      }
      var hasKill := DoesFriendlyHaveEncounterKill(digest, report, p, encounterHash);
      var best := ScanEncounter(digest, report, p, encounterHash, hasKill);
      if best.hasFightData {
        progressions := progressions + [ReportProgression(reportId, report.gameVersion, best.endTime, best.fightPercent, best.phase,
          best.phasePercent, best.duration, hasKill, best.standardComp, false, p.jobType,
          ReportEncounter(encounterHash, best.zoneId, best.zoneName, best.difficulty, best.bossId))];
      }
    }
    assert encounterHashes[..|encounterHashes|] == encounterHashes;
  }

  // ---------------------------------------------------------------------
  // Properties of the scan

  /** EndTime - StartTime. */
  function Duration(f: FightsFight): int {
    f.endTime - f.startTime
  }

  /** Some attempt among `fs` is considered by the scan for `h`. */
  predicate AnyConsidered(digest: string -> string, fs: seq<FightsFight>, p: FightsFriendly, h: string, hasKill: bool) {
    exists k :: 0 <= k < |fs| && Considered(digest, p, h, hasKill, fs[k])
  }

  lemma AnyConsideredInit(digest: string -> string, fs: seq<FightsFight>, p: FightsFriendly, h: string, hasKill: bool)
    requires fs != []
    ensures AnyConsidered(digest, fs, p, h, hasKill) <==>
      AnyConsidered(digest, fs[..|fs| - 1], p, h, hasKill) || Considered(digest, p, h, hasKill, fs[|fs| - 1])
  {
    var init := fs[..|fs| - 1];
    assert forall k :: 0 <= k < |init| ==> init[k] == fs[k];
  }

  lemma DereferenceableInit(fs: seq<FightsFight>, p: FightsFriendly)
    requires fs != [] && Dereferenceable(fs, p)
    ensures Dereferenceable(fs[..|fs| - 1], p)
  {
    var init := fs[..|fs| - 1];
    assert forall k :: 0 <= k < |init| ==> init[k] == fs[k];
  }

  /** The scan finds data exactly when it considers some attempt; when it
      considers none it ends where it started; the zone it reports is the
      report's zone. */
  lemma {:induction false} ScanFindsData(digest: string -> string, report: ReportFights, fs: seq<FightsFight>, p: FightsFriendly,
                                         h: string, hasKill: bool)
    requires Dereferenceable(fs, p)
    ensures var b := Scan(digest, report, fs, p, h, hasKill);
      && (b.hasFightData <==> AnyConsidered(digest, fs, p, h, hasKill))
      && (!AnyConsidered(digest, fs, p, h, hasKill) ==> b == NoBest)
      && (b.hasFightData ==> b.zoneId == report.zone)
    decreases |fs|
  {
    if fs != [] {
      DereferenceableInit(fs, p);
      ScanFindsData(digest, report, fs[..|fs| - 1], p, h, hasKill);
      AnyConsideredInit(digest, fs, p, h, hasKill);
    }
  }

  /** A friendly with a valid attempt for `h` always gets data from the
      scan the extractor runs for `h`. */
  lemma ValidFightIsScanned(digest: string -> string, report: ReportFights, p: FightsFriendly, h: string)
    requires Dereferenceable(report.fights, p)
    requires HasValidFight(digest, report.fights, p, h)
    ensures ScanFor(digest, report, p, h).hasFightData
  {
    var fs := report.fights;
    var hasKill := HasValidKill(digest, fs, p, h);
    if hasKill {
      var k :| 0 <= k < |fs| && IsEncounterValid(fs[k]) && TookPart(p, fs[k]) && EncounterInfoHash(digest, fs[k]) == h
               && fs[k].kill.value;
      assert Considered(digest, p, h, hasKill, fs[k]);
    } else {
      var k :| 0 <= k < |fs| && IsEncounterValid(fs[k]) && TookPart(p, fs[k]) && EncounterInfoHash(digest, fs[k]) == h;
      assert Considered(digest, p, h, hasKill, fs[k]);
    }
    ScanFindsData(digest, report, fs, p, h, hasKill);
  }

  /** The scan's percentage, phase, phase percentage, time, composition,
      zone name, difficulty and boss all come from attempt `f`. */
  predicate FromFight(b: Best, f: FightsFight, report: ReportFights) {
    && f.fightPercentage == Some(b.fightPercent)
    && f.bossPercentage == Some(b.phasePercent)
    && f.lastPhaseForPercentageDisplay == Some(b.phase)
    && b.endTime == report.start + f.endTime
    && f.standardComposition == Some(b.standardComp)
    && b.zoneName == f.zoneName
    && f.difficulty == Some(b.difficulty)
    && b.bossId == f.boss
  }

  /** Attempt k is considered, has the lowest fight percentage of all
      considered attempts, and every considered attempt before it is
      strictly higher. */
  predicate FirstMinimumAt(digest: string -> string, fs: seq<FightsFight>, p: FightsFriendly, h: string, hasKill: bool, k: int) {
    && 0 <= k < |fs| && Considered(digest, p, h, hasKill, fs[k])
    && (forall m :: 0 <= m < |fs| && Considered(digest, p, h, hasKill, fs[m]) ==>
          fs[k].fightPercentage.value <= fs[m].fightPercentage.value)
    && (forall m :: 0 <= m < k && Considered(digest, p, h, hasKill, fs[m]) ==>
          fs[k].fightPercentage.value < fs[m].fightPercentage.value)
  }

  /** A considered attempt that beats the best so far supplies every field. */
  lemma ImproveTakesFight(b: Best, f: FightsFight, report: ReportFights, hasKill: bool)
    requires IsEncounterValid(f) && Complete(f)
    requires b.fightPercent < 0 || b.fightPercent > f.fightPercentage.value
    ensures FromFight(Improve(b, f, report, hasKill), f, report)
  {
  }

  /** A considered attempt that does not beat the best so far changes only
      the duration. */
  lemma ImproveKeepsFight(b: Best, f: FightsFight, g: FightsFight, report: ReportFights, hasKill: bool)
    requires IsEncounterValid(f) && Complete(f)
    requires FromFight(b, g, report)
    requires 0 <= b.fightPercent <= f.fightPercentage.value
    ensures FromFight(Improve(b, f, report, hasKill), g, report)
  {
  }

  lemma FirstMinimumSkip(digest: string -> string, fs: seq<FightsFight>, p: FightsFriendly, h: string, hasKill: bool, k: int)
    requires fs != [] && FirstMinimumAt(digest, fs[..|fs| - 1], p, h, hasKill, k)
    requires !Considered(digest, p, h, hasKill, fs[|fs| - 1])
    ensures FirstMinimumAt(digest, fs, p, h, hasKill, k)
  {
    var init := fs[..|fs| - 1];
    assert forall m :: 0 <= m < |init| ==> init[m] == fs[m];
  }

  lemma FirstMinimumKeep(digest: string -> string, fs: seq<FightsFight>, p: FightsFriendly, h: string, hasKill: bool, k: int)
    requires fs != [] && FirstMinimumAt(digest, fs[..|fs| - 1], p, h, hasKill, k)
    requires Considered(digest, p, h, hasKill, fs[|fs| - 1])
    requires fs[k].fightPercentage.value <= fs[|fs| - 1].fightPercentage.value
    ensures FirstMinimumAt(digest, fs, p, h, hasKill, k)
  {
    var init := fs[..|fs| - 1];
    assert forall m :: 0 <= m < |init| ==> init[m] == fs[m];
  }

  lemma FirstMinimumLast(digest: string -> string, fs: seq<FightsFight>, p: FightsFriendly, h: string, hasKill: bool)
    requires fs != [] && Considered(digest, p, h, hasKill, fs[|fs| - 1])
    requires forall m :: 0 <= m < |fs| - 1 && Considered(digest, p, h, hasKill, fs[m]) ==>
      fs[|fs| - 1].fightPercentage.value < fs[m].fightPercentage.value
    ensures FirstMinimumAt(digest, fs, p, h, hasKill, |fs| - 1)
  {
  }

  /** With non-negative percentages, the scan picks the first considered
      attempt with the lowest fight percentage and takes all its other
      fields from that same attempt. */
  lemma {:induction false} ScanPicksFirstMinimum(digest: string -> string, report: ReportFights, fs: seq<FightsFight>,
                                                 p: FightsFriendly, h: string, hasKill: bool)
    requires Dereferenceable(fs, p)
    requires forall k :: 0 <= k < |fs| && Considered(digest, p, h, hasKill, fs[k]) ==> fs[k].fightPercentage.value >= 0
    requires AnyConsidered(digest, fs, p, h, hasKill)
    ensures exists k :: FirstMinimumAt(digest, fs, p, h, hasKill, k) && FromFight(Scan(digest, report, fs, p, h, hasKill), fs[k], report)
    decreases |fs|
  {
    var n := |fs| - 1;
    var init, last := fs[..n], fs[n];
    assert forall k :: 0 <= k < n ==> init[k] == fs[k];
    DereferenceableInit(fs, p);
    AnyConsideredInit(digest, fs, p, h, hasKill);
    var b := Scan(digest, report, init, p, h, hasKill);
    var c := Considered(digest, p, h, hasKill, last);
    var s := Scan(digest, report, fs, p, h, hasKill);
    assert s == if c then Improve(b, last, report, hasKill) else b;
    if !AnyConsidered(digest, init, p, h, hasKill) {
      ScanFindsData(digest, report, init, p, h, hasKill);
      assert c && b == NoBest;
      ImproveTakesFight(b, last, report, hasKill);
      FirstMinimumLast(digest, fs, p, h, hasKill);
      assert FirstMinimumAt(digest, fs, p, h, hasKill, n) && FromFight(s, fs[n], report);
    } else {
      ScanPicksFirstMinimum(digest, report, init, p, h, hasKill);
      var k0 :| FirstMinimumAt(digest, init, p, h, hasKill, k0) && FromFight(b, init[k0], report);
      if !c {
        FirstMinimumSkip(digest, fs, p, h, hasKill, k0);
        assert FirstMinimumAt(digest, fs, p, h, hasKill, k0) && FromFight(s, fs[k0], report);
      } else if b.fightPercent > last.fightPercentage.value {
        ImproveTakesFight(b, last, report, hasKill);
        FirstMinimumLast(digest, fs, p, h, hasKill);
        assert FirstMinimumAt(digest, fs, p, h, hasKill, n) && FromFight(s, fs[n], report);
      } else {
        ImproveKeepsFight(b, last, fs[k0], report, hasKill);
        FirstMinimumKeep(digest, fs, p, h, hasKill, k0);
        assert FirstMinimumAt(digest, fs, p, h, hasKill, k0) && FromFight(s, fs[k0], report);
      }
    }
  }

  /** A considered attempt updates the duration by the kill/no-kill rule,
      whether or not it replaces the other fields. */
  lemma ImproveDuration(b: Best, f: FightsFight, report: ReportFights, hasKill: bool)
    requires IsEncounterValid(f) && Complete(f)
    ensures var d := Duration(f);
      Improve(b, f, report, hasKill).duration ==
        if (hasKill && (d < b.duration || b.duration == -1)) || (!hasKill && d > b.duration) then d else b.duration
  {
  }

  /** `dur` is the longest duration of the considered attempts, or -1 when
      they all are shorter than that or there are none. */
  predicate LongestDuration(digest: string -> string, fs: seq<FightsFight>, p: FightsFriendly, h: string, dur: int) {
    && (forall k :: 0 <= k < |fs| && Considered(digest, p, h, false, fs[k]) ==> Duration(fs[k]) <= dur)
    && (dur == -1 || exists k :: 0 <= k < |fs| && Considered(digest, p, h, false, fs[k]) && dur == Duration(fs[k]))
  }

  lemma LongestDurationStep(digest: string -> string, fs: seq<FightsFight>, p: FightsFriendly, h: string, dur: int)
    requires fs != [] && LongestDuration(digest, fs[..|fs| - 1], p, h, dur)
    ensures var last := fs[|fs| - 1];
      LongestDuration(digest, fs, p, h,
        if Considered(digest, p, h, false, last) && Duration(last) > dur then Duration(last) else dur)
  {
    var init := fs[..|fs| - 1];
    assert forall k :: 0 <= k < |init| ==> init[k] == fs[k];
  }

  /** Without a kill, the duration is the longest considered attempt's,
      or -1 when there is none (or all are shorter than that). */
  lemma {:induction false} ScanDurationWithoutKill(digest: string -> string, report: ReportFights, fs: seq<FightsFight>,
                                                   p: FightsFriendly, h: string)
    requires Dereferenceable(fs, p)
    ensures LongestDuration(digest, fs, p, h, Scan(digest, report, fs, p, h, false).duration)
    decreases |fs|
  {
    if fs != [] {
      var init, last := fs[..|fs| - 1], fs[|fs| - 1];
      DereferenceableInit(fs, p);
      ScanDurationWithoutKill(digest, report, init, p, h);
      var b := Scan(digest, report, init, p, h, false);
      LongestDurationStep(digest, fs, p, h, b.duration);
      if Considered(digest, p, h, false, last) {
        ImproveDuration(b, last, report, false);
      }
    }
  }

  /** No considered attempt lasted less than `dur`. */
  predicate AtMostAll(digest: string -> string, fs: seq<FightsFight>, p: FightsFriendly, h: string, dur: int) {
    forall k :: 0 <= k < |fs| && Considered(digest, p, h, true, fs[k]) ==> dur <= Duration(fs[k])
  }

  /** Some considered attempt lasted exactly `dur`. */
  predicate Attained(digest: string -> string, fs: seq<FightsFight>, p: FightsFriendly, h: string, dur: int) {
    exists k :: 0 <= k < |fs| && Considered(digest, p, h, true, fs[k]) && dur == Duration(fs[k])
  }

  /** `dur` is the shortest duration of the considered attempts, and -1
      when there are none. */
  predicate ShortestDuration(digest: string -> string, fs: seq<FightsFight>, p: FightsFriendly, h: string, dur: int) {
    && AtMostAll(digest, fs, p, h, dur)
    && (AnyConsidered(digest, fs, p, h, true) ==> Attained(digest, fs, p, h, dur))
    && (!AnyConsidered(digest, fs, p, h, true) ==> dur == -1)
  }

  lemma AtMostAllLower(digest: string -> string, fs: seq<FightsFight>, p: FightsFriendly, h: string, dur: int, next: int)
    requires AtMostAll(digest, fs, p, h, dur) || !AnyConsidered(digest, fs, p, h, true)
    requires next <= dur
    ensures AtMostAll(digest, fs, p, h, next)
  {
  }

  lemma AtMostAllStep(digest: string -> string, fs: seq<FightsFight>, p: FightsFriendly, h: string, next: int)
    requires fs != [] && AtMostAll(digest, fs[..|fs| - 1], p, h, next)
    requires Considered(digest, p, h, true, fs[|fs| - 1]) ==> next <= Duration(fs[|fs| - 1])
    ensures AtMostAll(digest, fs, p, h, next)
  {
    var init := fs[..|fs| - 1];
    assert forall k :: 0 <= k < |init| ==> init[k] == fs[k];
  }

  lemma AttainedStep(digest: string -> string, fs: seq<FightsFight>, p: FightsFriendly, h: string, dur: int)
    requires fs != [] && Attained(digest, fs[..|fs| - 1], p, h, dur)
    ensures Attained(digest, fs, p, h, dur)
  {
    var init := fs[..|fs| - 1];
    var k :| 0 <= k < |init| && Considered(digest, p, h, true, init[k]) && dur == Duration(init[k]);
    assert init[k] == fs[k];
  }

  lemma ShortestDurationStep(digest: string -> string, fs: seq<FightsFight>, p: FightsFriendly, h: string, dur: int)
    requires fs != [] && ShortestDuration(digest, fs[..|fs| - 1], p, h, dur)
    requires forall k :: 0 <= k < |fs| && Considered(digest, p, h, true, fs[k]) ==> Duration(fs[k]) >= 0
    ensures var last := fs[|fs| - 1];
      ShortestDuration(digest, fs, p, h,
        if Considered(digest, p, h, true, last) && (Duration(last) < dur || dur == -1) then Duration(last) else dur)
  {
    var n := |fs| - 1;
    var init, last := fs[..n], fs[n];
    AnyConsideredInit(digest, fs, p, h, true);
    var c := Considered(digest, p, h, true, last);
    var d := Duration(last);
    if !c {
      AtMostAllStep(digest, fs, p, h, dur);
      if AnyConsidered(digest, init, p, h, true) {
        AttainedStep(digest, fs, p, h, dur);
      }
    } else if !AnyConsidered(digest, init, p, h, true) {
      AtMostAllLower(digest, init, p, h, d, d);
      AtMostAllStep(digest, fs, p, h, d);
      assert Attained(digest, fs, p, h, d);
    } else {
      var k :| 0 <= k < |init| && Considered(digest, p, h, true, init[k]) && dur == Duration(init[k]);
      assert init[k] == fs[k];
      assert dur >= 0;
      if d < dur {
        AtMostAllLower(digest, init, p, h, dur, d);
        AtMostAllStep(digest, fs, p, h, d);
        assert Attained(digest, fs, p, h, d);
      } else {
        AtMostAllStep(digest, fs, p, h, dur);
        AttainedStep(digest, fs, p, h, dur);
      }
    }
  }

  /** With a kill and non-negative durations, the duration is the shortest
      considered attempt's, and -1 when none is considered. */
  lemma {:induction false} ScanDurationWithKill(digest: string -> string, report: ReportFights, fs: seq<FightsFight>,
                                                p: FightsFriendly, h: string)
    requires Dereferenceable(fs, p)
    requires forall k :: 0 <= k < |fs| && Considered(digest, p, h, true, fs[k]) ==> Duration(fs[k]) >= 0
    ensures ShortestDuration(digest, fs, p, h, Scan(digest, report, fs, p, h, true).duration)
    decreases |fs|
  {
    if fs != [] {
      var init, last := fs[..|fs| - 1], fs[|fs| - 1];
      assert forall k :: 0 <= k < |init| ==> init[k] == fs[k];
      DereferenceableInit(fs, p);
      ScanDurationWithKill(digest, report, init, p, h);
      var b := Scan(digest, report, init, p, h, true);
      ShortestDurationStep(digest, fs, p, h, b.duration);
      if Considered(digest, p, h, true, last) {
        ImproveDuration(b, last, report, true);
      }
    }
  }

  // ---------------------------------------------------------------------
  // Properties of the extracted progressions

  /** The compare hashes of a list of progressions, in order. */
  function HashesOf(ps: seq<ReportProgression>): seq<string>
    ensures |HashesOf(ps)| == |ps|
  {
    if ps == [] then [] else HashesOf(ps[..|ps| - 1]) + [ps[|ps| - 1].encounterInfo.compareHash]
  }

  /** The hashes among `hs` for which the friendly has a valid attempt, in
      order. */
  function WithValidFight(digest: string -> string, fs: seq<FightsFight>, p: FightsFriendly, hs: seq<string>): seq<string> {
    if hs == [] then []
    else
      var out := WithValidFight(digest, fs, p, hs[..|hs| - 1]);
      if HasValidFight(digest, fs, p, hs[|hs| - 1]) then out + [hs[|hs| - 1]] else out
  }

  /** `e` is the record the extractor builds for its own compare hash. */
  predicate EntryFor(digest: string -> string, reportId: string, report: ReportFights, p: FightsFriendly, e: ReportProgression)
    requires Dereferenceable(report.fights, p)
  {
    var h := e.encounterInfo.compareHash;
    && HasValidFight(digest, report.fights, p, h)
    && ScanFor(digest, report, p, h).hasFightData
    && e == ProgressionOf(reportId, report, p, h, HasValidKill(digest, report.fights, p, h), ScanFor(digest, report, p, h))
  }

  /** One record per hash with a valid attempt, in the order of the hashes,
      each built from the scan for its hash. */
  lemma {:induction false} ProgressionsFollowHashes(digest: string -> string, reportId: string, report: ReportFights,
                                                    p: FightsFriendly, hs: seq<string>)
    requires Dereferenceable(report.fights, p)
    ensures var out := Progressions(digest, reportId, report, p, hs);
      && HashesOf(out) == WithValidFight(digest, report.fights, p, hs)
      && forall i :: 0 <= i < |out| ==> EntryFor(digest, reportId, report, p, out[i])
    decreases |hs|
  {
    if hs != [] {
      var h := hs[|hs| - 1];
      ProgressionsFollowHashes(digest, reportId, report, p, hs[..|hs| - 1]);
      var out := Progressions(digest, reportId, report, p, hs[..|hs| - 1]);
      if HasValidFight(digest, report.fights, p, h) {
        ValidFightIsScanned(digest, report, p, h);
        var e := ProgressionOf(reportId, report, p, h, HasValidKill(digest, report.fights, p, h), ScanFor(digest, report, p, h));
        assert EntryFor(digest, reportId, report, p, e);
        var out' := out + [e];
        assert out'[..|out'| - 1] == out;
        assert forall i :: 0 <= i < |out| ==> out'[i] == out[i];
      }
    }
  }

  /** Filtering keeps exactly the hashes with a valid attempt, and keeps a
      list free of duplicates. */
  lemma {:induction false} WithValidFightMembers(digest: string -> string, fs: seq<FightsFight>, p: FightsFriendly,
                                                 hs: seq<string>)
    ensures forall h :: h in WithValidFight(digest, fs, p, hs) <==> h in hs && HasValidFight(digest, fs, p, h)
    ensures NoDuplicates(hs) ==> NoDuplicates(WithValidFight(digest, fs, p, hs))
    decreases |hs|
  {
    if hs != [] {
      var init := hs[..|hs| - 1];
      assert hs == init + [hs[|hs| - 1]];
      WithValidFightMembers(digest, fs, p, init);
      if NoDuplicates(hs) {
        assert NoDuplicates(init);
        assert hs[|hs| - 1] !in init;
        if HasValidFight(digest, fs, p, hs[|hs| - 1]) {
          AppendNoDuplicates(WithValidFight(digest, fs, p, init), hs[|hs| - 1]);
        }
      }
    }
  }

  /** The extractor emits exactly one record for each encounter in which
      the friendly has a valid attempt, and no other. */
  lemma ExtractedCoversValidEncounters(digest: string -> string, reportId: string, report: ReportFights, p: FightsFriendly)
    requires Dereferenceable(report.fights, p)
    ensures var hs := HashesOf(ExtractedProgressions(digest, reportId, report, p));
      && NoDuplicates(hs)
      && forall h :: h in hs <==> HasValidFight(digest, report.fights, p, h)
  {
    var fs := report.fights;
    var all := EncounterHashes(digest, fs, p);
    ProgressionsFollowHashes(digest, reportId, report, p, all);
    EncounterHashesNoDuplicates(digest, fs, p);
    WithValidFightMembers(digest, fs, p, all);
    forall h | HasValidFight(digest, fs, p, h)
      ensures h in all
    {
      EncounterHashesMembers(digest, fs, p, h);
    }
  }

  /** Every extracted record is a kill exactly when the friendly has a valid
      kill of its encounter, carries the friendly's job, the report's id,
      game version and zone, and has no echo flag. */
  lemma ExtractedEntries(digest: string -> string, reportId: string, report: ReportFights, p: FightsFriendly)
    requires Dereferenceable(report.fights, p)
    ensures var out := ExtractedProgressions(digest, reportId, report, p);
      forall i :: 0 <= i < |out| ==>
        var e := out[i];
        && e.isKill == HasValidKill(digest, report.fights, p, e.encounterInfo.compareHash)
        && e.reportId == reportId
        && e.gameVersion == report.gameVersion
        && e.job == p.jobType
        && !e.hasEcho
        && e.encounterInfo.zoneId == report.zone
  {
    var out := ExtractedProgressions(digest, reportId, report, p);
    ProgressionsFollowHashes(digest, reportId, report, p, EncounterHashes(digest, report.fights, p));
    forall i | 0 <= i < |out|
      ensures out[i].encounterInfo.zoneId == report.zone
    {
      var h := out[i].encounterInfo.compareHash;
      assert EntryFor(digest, reportId, report, p, out[i]);
      ScanFindsData(digest, report, report.fights, p, h, HasValidKill(digest, report.fights, p, h));
    }
  }

  // ---------------------------------------------------------------------
  // Character reports of a fetched report

  /** The extractor may run on every friendly that has a server. */
  predicate FriendliesDereferenceable(report: ReportFights, ps: seq<FightsFriendly>) {
    forall j :: 0 <= j < |ps| && ps[j].server != "" ==> Dereferenceable(report.fights, ps[j])
  }

  /** A friendly is reported when it has a server and the extractor finds
      at least one progression for it. */
  predicate Kept(digest: string -> string, reportId: string, report: ReportFights, p: FightsFriendly) {
    p.server != "" && Dereferenceable(report.fights, p) && ExtractedProgressions(digest, reportId, report, p) != []
  }

  /** The character reports of the friendlies `ps`, in order. */
  function CharacterReports(digest: string -> string, reportId: string, report: ReportFights, ps: seq<FightsFriendly>)
    : seq<CharacterReport>
    requires FriendliesDereferenceable(report, ps)
  {
    if ps == [] then []
    else
      var init := ps[..|ps| - 1];
      assert FriendliesDereferenceable(report, init) by {
        assert forall j :: 0 <= j < |init| ==> init[j] == ps[j];
      }
      var out := CharacterReports(digest, reportId, report, init);
      var p := ps[|ps| - 1];
      if Kept(digest, reportId, report, p)
      then out + [CharacterReport(reportId, CharacterOf(digest, p), ExtractedProgressions(digest, reportId, report, p))]
      else out
  }

  /** The filtering after the fetch: a fetch error is passed on, and
      otherwise one character report is built per kept friendly. */
  method FetchCharacterReports(digest: string -> string, reportId: string, fetched: Result<ReportFights, FetchError>)
    returns (r: Result<seq<CharacterReport>, FetchError>)
    requires fetched.Ok? ==> FriendliesDereferenceable(fetched.value, fetched.value.friendlies)
    ensures fetched.Err? ==> r == Err(fetched.error)
    ensures fetched.Ok? ==> r == Ok(CharacterReports(digest, reportId, fetched.value, fetched.value.friendlies))
  {
    if fetched.Err? {
      return Err(fetched.error);
    }
    var report := fetched.value;
    var ps := report.friendlies;
    var out: seq<CharacterReport> := [];
    for i := 0 to |ps|
      invariant FriendliesDereferenceable(report, ps[..i])
      invariant out == CharacterReports(digest, reportId, report, ps[..i])
    {
      assert ps[..i + 1][..i] == ps[..i];
      var p := ps[i];
      if p.server == "" {
        continue;
      }
      var character, characterProgression := CharacterProgressForFriendly(digest, reportId, report, p);
      if |characterProgression| == 0 {
        continue;
      }
      out := out + [CharacterReport(reportId, character, characterProgression)];
    }
    assert ps[..|ps|] == ps;
    return Ok(out);
  }

  /** A friendly with a server is kept exactly when it took part in some
      valid attempt. */
  lemma KeptIffValidFight(digest: string -> string, reportId: string, report: ReportFights, p: FightsFriendly)
    requires p.server != "" && Dereferenceable(report.fights, p)
    ensures Kept(digest, reportId, report, p) <==>
      exists k :: 0 <= k < |report.fights| && IsEncounterValid(report.fights[k]) && TookPart(p, report.fights[k])
  {
    var fs := report.fights;
    var out := ExtractedProgressions(digest, reportId, report, p);
    ExtractedCoversValidEncounters(digest, reportId, report, p);
    var hs := HashesOf(out);
    if out != [] {
      assert hs[0] in hs;
    }
    if exists k :: 0 <= k < |fs| && IsEncounterValid(fs[k]) && TookPart(p, fs[k]) {
      var k :| 0 <= k < |fs| && IsEncounterValid(fs[k]) && TookPart(p, fs[k]);
      assert HasValidFight(digest, fs, p, EncounterInfoHash(digest, fs[k]));
    }
  }

  /** `c` is the character report of one of the kept friendlies among `ps`. */
  predicate FromKeptFriendly(digest: string -> string, reportId: string, report: ReportFights, ps: seq<FightsFriendly>,
                             c: CharacterReport) {
    exists j :: 0 <= j < |ps| && Kept(digest, reportId, report, ps[j]) &&
      c == CharacterReport(reportId, CharacterOf(digest, ps[j]), ExtractedProgressions(digest, reportId, report, ps[j]))
  }

  /** Every character report belongs to a kept friendly and carries that
      friendly's character and progressions under the report's id. */
  lemma {:induction false} CharacterReportsSound(digest: string -> string, reportId: string, report: ReportFights,
                                                 ps: seq<FightsFriendly>)
    requires FriendliesDereferenceable(report, ps)
    ensures forall c :: c in CharacterReports(digest, reportId, report, ps) ==> FromKeptFriendly(digest, reportId, report, ps, c)
    decreases |ps|
  {
    if ps != [] {
      var n := |ps| - 1;
      var init := ps[..n];
      assert forall j :: 0 <= j < |init| ==> init[j] == ps[j];
      assert FriendliesDereferenceable(report, init);
      CharacterReportsSound(digest, reportId, report, init);
      var before := CharacterReports(digest, reportId, report, init);
      forall c | c in before
        ensures FromKeptFriendly(digest, reportId, report, ps, c)
      {
        var j :| 0 <= j < |init| && Kept(digest, reportId, report, init[j]) &&
          c == CharacterReport(reportId, CharacterOf(digest, init[j]), ExtractedProgressions(digest, reportId, report, init[j]));
        assert ps[j] == init[j];
      }
      assert Kept(digest, reportId, report, ps[n]) ==> FromKeptFriendly(digest, reportId, report, ps,
        CharacterReport(reportId, CharacterOf(digest, ps[n]), ExtractedProgressions(digest, reportId, report, ps[n])));
    }
  }

  /** Every kept friendly has a character report. */
  lemma {:induction false} CharacterReportsComplete(digest: string -> string, reportId: string, report: ReportFights,
                                                    ps: seq<FightsFriendly>)
    requires FriendliesDereferenceable(report, ps)
    ensures var out := CharacterReports(digest, reportId, report, ps);
      forall j :: 0 <= j < |ps| && Kept(digest, reportId, report, ps[j]) ==>
        CharacterReport(reportId, CharacterOf(digest, ps[j]), ExtractedProgressions(digest, reportId, report, ps[j])) in out
    decreases |ps|
  {
    if ps != [] {
      var init := ps[..|ps| - 1];
      assert forall j :: 0 <= j < |init| ==> init[j] == ps[j];
      CharacterReportsComplete(digest, reportId, report, init);
    }
  }
}
