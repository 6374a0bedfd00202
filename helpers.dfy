/** Identity hashes, the fight-validity filter, report-id parsing and the
    small helpers of helpers.go. The SHA-256 digest followed by base-36
    encoding is the parameter `digest`, left uninterpreted: everything
    below holds for every digest function. */
module Helpers {
  import opened Wrappers
  import opened Structure
  import opened Entities

  // ---------------------------------------------------------------------
  // Decimal formatting (fmt's %d)

  function DigitChar(d: nat): char
    requires d < 10
  {
    (48 + d) as char
  }

  /** The decimal digits of `n`, most significant first. */
  function Digits(n: nat): (r: string)
    ensures |r| >= 1 && r[0] != '-'
    decreases n
  {
    if n < 10 then [DigitChar(n)] else Digits(n / 10) + [DigitChar(n % 10)]
  }

  /** fmt.Sprintf("%d", n). */
  function DecimalString(n: int): string
    decreases if n < 0 then 1 else 0
  {
    if n < 0 then "-" + DecimalString(-n) else Digits(n)
  }

  lemma {:induction false} DigitsInjective(a: nat, b: nat)
    requires Digits(a) == Digits(b)
    ensures a == b
    decreases a
  {
    if a < 10 && b < 10 {
      assert DigitChar(a) == Digits(a)[0] == Digits(b)[0] == DigitChar(b);
    } else if a >= 10 && b >= 10 {
      var da, db := Digits(a), Digits(b);
      assert da[|da| - 1] == DigitChar(a % 10) && db[|db| - 1] == DigitChar(b % 10);
      assert Digits(a / 10) == da[..|da| - 1] == db[..|db| - 1] == Digits(b / 10);
      DigitsInjective(a / 10, b / 10);
    }
  }

  /** Distinct integers print differently. */
  lemma DecimalStringInjective(a: int, b: int)
    requires DecimalString(a) == DecimalString(b)
    ensures a == b
  {
    if a < 0 && b < 0 {
      assert Digits(-a) == DecimalString(a)[1..] == DecimalString(b)[1..] == Digits(-b);
      DigitsInjective(-a, -b);
    } else if a >= 0 && b >= 0 {
      DigitsInjective(a, b);
    }
  }

  // ---------------------------------------------------------------------
  // Compare hashes

  /** The encounter compare hash: the digest of the decimal zone id. */
  function EncounterInfoHash(digest: string -> string, f: FightsFight): string {
    digest(DecimalString(f.zoneId))
  }

  /** The character compare hash: the digest of name and server written
      one after the other, with no separator. */
  function CharacterHash(digest: string -> string, p: FightsFriendly): string {
    digest(p.name + p.server)
  }

  ghost predicate Injective(digest: string -> string) {
    forall a, b :: digest(a) == digest(b) ==> a == b
  }

  /** The encounter hash looks at the zone id and nothing else. */
  lemma EncounterHashIsZoneHash(digest: string -> string, f: FightsFight, g: FightsFight)
    requires f.zoneId == g.zoneId
    ensures EncounterInfoHash(digest, f) == EncounterInfoHash(digest, g)
  {
  }

  /** With a collision-free digest, different zones get different hashes. */
  lemma DistinctZonesDistinctHashes(digest: string -> string, f: FightsFight, g: FightsFight)
    requires Injective(digest)
    requires f.zoneId != g.zoneId
    ensures EncounterInfoHash(digest, f) != EncounterInfoHash(digest, g)
  {
    if EncounterInfoHash(digest, f) == EncounterInfoHash(digest, g) {
      DecimalStringInjective(f.zoneId, g.zoneId);
    }
  }

  /** The character hash looks at the concatenation only, so a name and
      server split differently collide even with a collision-free digest. */
  lemma CharacterHashIsConcatenationHash(digest: string -> string, p: FightsFriendly, q: FightsFriendly)
    requires p.name + p.server == q.name + q.server
    ensures CharacterHash(digest, p) == CharacterHash(digest, q)
  {
  }

  lemma CharacterHashSplitCollision(digest: string -> string, fights: seq<FriendlyFight>)
    ensures CharacterHash(digest, FightsFriendly("ab", "c", "Paladin", fights))
         == CharacterHash(digest, FightsFriendly("a", "bc", "Paladin", fights))
  {
    assert "ab" + "c" == "a" + "bc";
  }

  // ---------------------------------------------------------------------
  // Fight validity

  /** An attempt counts for progression when its echo flag is known and
      off, its difficulty is known and non-zero, and its boss percentage,
      fight percentage and kill flag are known. */
  predicate IsEncounterValid(f: FightsFight) {
    f.hasEcho.Some? && !f.hasEcho.value && f.difficulty.Some? && f.difficulty.value != 0
    && f.bossPercentage.Some? && f.fightPercentage.Some? && f.kill.Some?
  }

  /** Phase and composition are not part of the filter: an attempt without
      them can still be valid. */
  lemma ValidityIgnoresPhaseAndComposition(f: FightsFight)
    requires IsEncounterValid(f)
    ensures IsEncounterValid(f.(lastPhaseForPercentageDisplay := None, standardComposition := None))
  {
  }

  /** An attempt run under echo is never valid. */
  lemma EchoIsNeverValid(f: FightsFight)
    requires f.hasEcho == Some(true)
    ensures !IsEncounterValid(f)
  {
  }

  // ---------------------------------------------------------------------
  // Report URL to report id

  const HttpReportPrefix: string := "http://www.fflogs.com/reports/"
  const HttpsReportPrefix: string := "https://www.fflogs.com/reports/"
  /** The length of a bare report id. */
  const ReportIdLength: nat := 16

  /** The character class [A-Za-z1-9] (note: no '0'). */
  predicate IsIdChar(c: char) {
    ('A' <= c <= 'Z') || ('a' <= c <= 'z') || ('1' <= c <= '9')
  }

  /** `pre` occurs in `s` at position i. */
  predicate StartsAt(s: string, i: nat, pre: string)
    decreases |pre|
  {
    i + |pre| <= |s| && (pre == [] || (s[i] == pre[0] && StartsAt(s, i + 1, pre[1..])))
  }

  lemma {:induction false} StartsAtSlice(s: string, i: nat, pre: string)
    ensures StartsAt(s, i, pre) <==> i + |pre| <= |s| && s[i..i + |pre|] == pre
    decreases |pre|
  {
    if pre != [] && i + |pre| <= |s| {
      StartsAtSlice(s, i + 1, pre[1..]);
      assert s[i..i + |pre|] == [s[i]] + s[i + 1..i + 1 + |pre[1..]|];
      assert pre == [pre[0]] + pre[1..];
    }
  }

  /** Where the id starts when the prefix `https?://www.fflogs.com/reports/`
      matches at position i; the optional 's' is tried first. */
  function MatchEnd(s: string, i: nat): Option<nat> {
    if StartsAt(s, i, HttpsReportPrefix) then Some(i + |HttpsReportPrefix|)
    else if StartsAt(s, i, HttpReportPrefix) then Some(i + |HttpReportPrefix|)
    else None
  }

  predicate MatchesAt(s: string, i: nat) {
    MatchEnd(s, i).Some?
  }

  /** The leftmost position at or after i where the pattern matches. */
  function FirstMatch(s: string, i: nat): (r: Option<nat>)
    ensures r.Some? ==> i <= r.value && MatchesAt(s, r.value)
    ensures r.Some? ==> forall q: nat :: i <= q < r.value ==> !MatchesAt(s, q)
    ensures r.None? ==> forall q: nat :: i <= q ==> !MatchesAt(s, q)
    decreases |s| - i
  {
    if i > |s| then None
    else if MatchesAt(s, i) then Some(i)
    else FirstMatch(s, i + 1)
  }

  /** The longest run of id characters starting at position j. */
  function IdRun(s: string, j: nat): (r: string)
    requires j <= |s|
    ensures j + |r| <= |s| && s[j..j + |r|] == r
    ensures forall c :: c in r ==> IsIdChar(c)
    ensures j + |r| == |s| || !IsIdChar(s[j + |r|])
    decreases |s| - j
  {
    if j == |s| || !IsIdChar(s[j]) then "" else [s[j]] + IdRun(s, j + 1)
  }

  /** The report id named by a report URL, or a bare 16-character id, or
      "" when neither form is recognised. */
  function ReportUrlToReportId(reportUrl: string): string {
    match FirstMatch(reportUrl, 0)
    case Some(p) => IdRun(reportUrl, MatchEnd(reportUrl, p).value)
    case None => if |reportUrl| == ReportIdLength then reportUrl else ""
  }

  /** Without a match anywhere, only a bare 16-character input is kept. */
  lemma ReportIdWithoutMatch(reportUrl: string)
    requires forall q: nat :: !MatchesAt(reportUrl, q)
    ensures ReportUrlToReportId(reportUrl) == (if |reportUrl| == ReportIdLength then reportUrl else "")
  {
  }

  /** With a match, the id is the maximal run of id characters after the
      leftmost match (possibly empty): IdRun's contract. */
  lemma ReportIdAtLeftmostMatch(reportUrl: string, p: nat)
    requires MatchesAt(reportUrl, p)
    requires forall q: nat :: q < p ==> !MatchesAt(reportUrl, q)
    ensures ReportUrlToReportId(reportUrl) == IdRun(reportUrl, MatchEnd(reportUrl, p).value)
  {
    FirstMatchIsLeftmost(reportUrl, p);
  }

  lemma FirstMatchIsLeftmost(s: string, p: nat)
    requires MatchesAt(s, p)
    requires forall q: nat :: q < p ==> !MatchesAt(s, q)
    ensures FirstMatch(s, 0) == Some(p)
  {
    var r := FirstMatch(s, 0);
    assert r.Some?;
    assert !(r.value < p);
    assert !(p < r.value);
  }

  lemma {:induction false} IdRunOfIdChars(s: string, j: nat)
    requires j <= |s|
    requires forall k :: j <= k < |s| ==> IsIdChar(s[k])
    ensures IdRun(s, j) == s[j..]
    decreases |s| - j
  {
    if j < |s| {
      IdRunOfIdChars(s, j + 1);
      assert s[j..] == [s[j]] + s[j + 1..];
    }
  }

  /** A full https report URL gives back its id. */
  lemma ReportIdOfUrl(id: string)
    requires forall c :: c in id ==> IsIdChar(c)
    ensures ReportUrlToReportId(HttpsReportPrefix + id) == id
  {
    var s := HttpsReportPrefix + id;
    assert s[0..|HttpsReportPrefix|] == HttpsReportPrefix;
    StartsAtSlice(s, 0, HttpsReportPrefix);
    assert MatchesAt(s, 0);
    assert FirstMatch(s, 0) == Some(0);
    forall k | |HttpsReportPrefix| <= k < |s| ensures IsIdChar(s[k]) {
      assert s[k] == id[k - |HttpsReportPrefix|];
    }
    IdRunOfIdChars(s, |HttpsReportPrefix|);
    assert s[|HttpsReportPrefix|..] == id;
  }

  /** A bare 16-character id is too short to hold the URL pattern, so it
      is returned unchanged. */
  lemma BareReportId(id: string)
    requires |id| == ReportIdLength
    ensures ReportUrlToReportId(id) == id
  {
    assert forall q: nat :: !MatchesAt(id, q);
  }

  // ---------------------------------------------------------------------
  // Jobs

  const JobsMap: map<string, string> := map[
    "whitemage" := "whm", "scholar" := "sch", "astrologian" := "ast", "sage" := "sge",
    "darkknight" := "drk", "paladin" := "pld", "gunbreaker" := "gnb", "warrior" := "war",
    "redmage" := "rdm", "blackmage" := "blm", "summoner" := "smn", "bard" := "brd",
    "machinist" := "mch", "dancer" := "dnc", "monk" := "mnk", "samurai" := "sam",
    "dragoon" := "drg", "reaper" := "rpr"]

  function LowerChar(c: char): char {
    if 'A' <= c <= 'Z' then (c as int - 'A' as int + 'a' as int) as char else c
  }

  /** strings.ToLower, on ASCII letters. */
  function Lower(s: string): (r: string)
    ensures |r| == |s|
    ensures forall k :: 0 <= k < |s| ==> r[k] == LowerChar(s[k])
  {
    if s == [] then [] else [LowerChar(s[0])] + Lower(s[1..])
  }

  /** The job abbreviation of a job name, "" for an unknown job. */
  function JobNameToJobAbbr(name: string): (r: string)
    ensures r != "" <==> Lower(name) in JobsMap
    ensures r == "" || |r| == 3
  {
    if Lower(name) in JobsMap then JobsMap[Lower(name)] else ""
  }

  /** Job lookup does not depend on letter case. */
  lemma JobLookupIgnoresCase(name: string)
    ensures JobNameToJobAbbr(Lower(name)) == JobNameToJobAbbr(name)
  {
    assert Lower(Lower(name)) == Lower(name);
  }

  // ---------------------------------------------------------------------
  // Public ids

  const UidLength: nat := 6
  const LetterRunes: string := "abcdefghijklmnopqrstuvwxyz1234567890"

  /** A public id of the right length drawn from the letter runes. */
  predicate IsPublicId(uid: string) {
    |uid| == UidLength && forall c :: c in uid ==> c in LetterRunes
  }

  /** Position i of `uid` is the letter that draw `start + i` picks. */
  predicate DrawnUid(uid: string, draw: nat -> nat, start: nat) {
    |uid| == UidLength && forall i :: 0 <= i < UidLength ==> draw(start + i) < |LetterRunes| && uid[i] == LetterRunes[draw(start + i)]
  }

  /** A public character id built from six consecutive results of
      rand.Intn(36): `draw(n)` is the n-th result of the generator and
      `start` the number of results used before. */
  method GenerateUid(draw: nat -> nat, start: nat) returns (uid: string)
    requires forall n: nat :: draw(n) < 36
    ensures IsPublicId(uid)
    ensures DrawnUid(uid, draw, start)
  {
    var b := new char[UidLength];
    var i := 0;
    while i < b.Length
      invariant 0 <= i <= b.Length
      invariant forall k :: 0 <= k < i ==> b[k] == LetterRunes[draw(start + k)]
    {
      b[i] := LetterRunes[draw(start + i)];
      i := i + 1;
    }
    uid := b[..];
  }

  // ---------------------------------------------------------------------
  // Client address

  /** The client address of a request: the X-Real-Ip header, else the
      X-Forwarded-For header, else the connection's remote address. */
  function ReadUserIp(realIp: string, forwardedFor: string, remoteAddr: string): (r: string)
    ensures r == "" <==> realIp == "" && forwardedFor == "" && remoteAddr == ""
    ensures realIp != "" ==> r == realIp
    ensures realIp == "" && forwardedFor != "" ==> r == forwardedFor
    ensures realIp == "" && forwardedFor == "" ==> r == remoteAddr
  {
    if realIp != "" then realIp else if forwardedFor != "" then forwardedFor else remoteAddr
  }

  // ---------------------------------------------------------------------
  // Encounter display list

  /** One configured display category: a name and the boss ids it shows. */
  datatype DisplayedEncounter = DisplayedEncounter(name: string, bossIds: seq<int>)

  /** One category as displayed: its name and the encounters found for it. */
  datatype DisplayEncounterData = DisplayEncounterData(category: string, encounters: seq<EncounterInfo>)

  /** The first encounter of `list` with the given boss id. */
  function FirstWithBoss(list: seq<EncounterInfo>, bossId: int): (r: Option<EncounterInfo>)
    ensures r.Some? ==> exists k :: 0 <= k < |list| && list[k] == r.value && list[k].bossId == bossId
                                    && forall j :: 0 <= j < k ==> list[j].bossId != bossId
    ensures r.None? ==> forall k :: 0 <= k < |list| ==> list[k].bossId != bossId
  {
    if list == [] then None
    else if list[0].bossId == bossId then Some(list[0])
    else
      var r := FirstWithBoss(list[1..], bossId);
      assert r.Some? ==> exists k :: 0 < k < |list| && list[k] == r.value && list[k].bossId == bossId
                                     && forall j :: 0 <= j < k ==> list[j].bossId != bossId by {
        if r.Some? {
          var k :| 0 <= k < |list[1..]| && list[1..][k] == r.value && list[1..][k].bossId == bossId
                   && forall j :: 0 <= j < k ==> list[1..][j].bossId != bossId;
          assert forall j :: 0 < j < k + 1 ==> list[j].bossId != bossId by {
            forall j | 0 < j < k + 1 ensures list[j].bossId != bossId { assert list[j] == list[1..][j - 1]; }
          }
        }
      }
      r
  }

  /** The encounters a category shows: for each of its boss ids in order,
      the first encounter with that boss id, if any. */
  function CategoryEncounters(list: seq<EncounterInfo>, bossIds: seq<int>): seq<EncounterInfo> {
    if bossIds == [] then []
    else
      var head := CategoryEncounters(list, bossIds[..|bossIds| - 1]);
      match FirstWithBoss(list, bossIds[|bossIds| - 1])
      case Some(e) => head + [e]
      case None => head
  }

  /** The displayed categories, in configuration order, without the
      categories that show nothing. */
  function DisplayList(list: seq<EncounterInfo>, categories: seq<DisplayedEncounter>): seq<DisplayEncounterData> {
    if categories == [] then []
    else
      var head := DisplayList(list, categories[..|categories| - 1]);
      var last := categories[|categories| - 1];
      var shown := CategoryEncounters(list, last.bossIds);
      if |shown| > 0 then head + [DisplayEncounterData(last.name, shown)] else head
  }

  /** EncounterDisplayListFromEncounterInfoList. */
  method EncounterDisplayListFromEncounterInfoList(list: seq<EncounterInfo>, categories: seq<DisplayedEncounter>)
    returns (out: seq<DisplayEncounterData>)
    ensures out == DisplayList(list, categories)
  {
    out := [];
    var c := 0;
    while c < |categories|
      invariant 0 <= c <= |categories|
      invariant out == DisplayList(list, categories[..c])
    {
      var category := categories[c];
      var encounters: seq<EncounterInfo> := [];
      var b := 0;
      while b < |category.bossIds|
        invariant 0 <= b <= |category.bossIds|
        invariant encounters == CategoryEncounters(list, category.bossIds[..b])
      {
        var bossId := category.bossIds[b];
        var k := 0;
        while k < |list|
          invariant 0 <= k <= |list|
          invariant forall j :: 0 <= j < k ==> list[j].bossId != bossId
        {
          if list[k].bossId == bossId {
            break;
          }
          k := k + 1;
        }
        assert category.bossIds[..b + 1][..b] == category.bossIds[..b];
        if k < |list| {
          assert FirstWithBoss(list, bossId) == Some(list[k]) by {
            FirstWithBossAt(list, bossId, k);
          }
          encounters := encounters + [list[k]];
        }
        b := b + 1;
      }
      assert category.bossIds[..b] == category.bossIds;
      assert categories[..c + 1][..c] == categories[..c];
      if |encounters| > 0 {
        out := out + [DisplayEncounterData(category.name, encounters)];
      }
      c := c + 1;
    }
    assert categories[..c] == categories;
  }

  lemma {:induction false} FirstWithBossAt(list: seq<EncounterInfo>, bossId: int, k: nat)
    requires k < |list| && list[k].bossId == bossId
    requires forall j :: 0 <= j < k ==> list[j].bossId != bossId
    ensures FirstWithBoss(list, bossId) == Some(list[k])
    decreases k
  {
    if k > 0 {
      assert forall j :: 0 <= j < k - 1 ==> list[1..][j].bossId != bossId by {
        forall j | 0 <= j < k - 1 ensures list[1..][j].bossId != bossId { assert list[1..][j] == list[j + 1]; }
      }
      FirstWithBossAt(list[1..], bossId, k - 1);
    }
  }

  /** What a category shows: at most one encounter per boss id, each one
      taken from the list, with one of the category's boss ids. */
  lemma {:induction false} CategoryEncountersFacts(list: seq<EncounterInfo>, bossIds: seq<int>)
    ensures |CategoryEncounters(list, bossIds)| <= |bossIds|
    ensures forall e :: e in CategoryEncounters(list, bossIds) ==> e in list && e.bossId in bossIds
    decreases |bossIds|
  {
    if bossIds != [] {
      var init := bossIds[..|bossIds| - 1];
      CategoryEncountersFacts(list, init);
      assert forall b :: b in init ==> b in bossIds;
    }
  }

  /** What the display list holds: only non-empty categories, each one
      named after a configured category, and no more entries than
      categories. */
  lemma {:induction false} DisplayListFacts(list: seq<EncounterInfo>, categories: seq<DisplayedEncounter>)
    ensures |DisplayList(list, categories)| <= |categories|
    ensures forall d :: d in DisplayList(list, categories) ==>
      |d.encounters| > 0 && exists c :: c in categories && c.name == d.category && d.encounters == CategoryEncounters(list, c.bossIds)
    decreases |categories|
  {
    if categories != [] {
      var init := categories[..|categories| - 1];
      DisplayListFacts(list, init);
      assert forall c :: c in init ==> c in categories;
    }
  }
}
