/** What a line's flags say, and that nothing a reader would ask about goes unsaid. */
module LineLaws {
  import opened Ordering
  import opened Domain
  import opened Results
  import opened Scoring

  function AtStart(race: Race, start: Option<Uuid>, p: Participant): Crossings
  {
    if start.Some? then CrossingsOf(race.events, (p.id, start.value), race.gun) else NO_CROSSINGS
  }

  function AtFinish(race: Race, finish: Uuid, p: Participant): Crossings
  {
    CrossingsOf(race.events, (p.id, finish), race.gun)
  }

  function TimeFlagsOf(race: Race, e: Entry): seq<Flag>
  {
    var measured := MeasuredMs(race.mode, e.gunTimeMs, e.chipTimeMs);
    TimeFlags(e.finishAt.Some?, race.mode, e.gunTimeMs, e.chipTimeMs, measured.Some? && measured.value < 0)
  }

  /** What each flag about times says. */
  predicate TimeFlagDue(race: Race, e: Entry, flag: Flag)
  {
    match flag
    case NoStartReadUnderChipTime => e.finishAt.Some? && race.mode.FromChip? && e.chipTimeMs.None?
    case NoGunTime => e.finishAt.Some? && e.gunTimeMs.None? && (race.mode.FromGun? || e.chipTimeMs.None?)
    case FinishBeforeStart =>
      var measured := MeasuredMs(race.mode, e.gunTimeMs, e.chipTimeMs);
      measured.Some? && measured.value < 0
    case _ => false
  }

  /** A finish declared and nowhere seen. */
  predicate DeclaredUnseen(e: Entry)
  {
    e.statusSource == Declared && e.status == Finished && e.finishAt.None?
  }

  lemma FlagsAre(race: Race, start: Option<Uuid>, finish: Uuid, p: Participant, flag: Flag)
    ensures var e := LineOf(race, start, finish, p);
            flag in e.flags <==>
              || flag in StartFlags(AtStart(race, start, p), race.gun)
              || flag in FinishFlags(AtFinish(race, finish, p))
              || flag in TimeFlagsOf(race, e)
              || (flag == DeclaredFinishedWithoutFinishRead && DeclaredUnseen(e))
  {
  }

  /** The kinds of flag each part of a line can raise. */
  lemma StartFlagsOnly(c: Crossings, gun: Option<Time>, flag: Flag)
    ensures flag in StartFlags(c, gun) ==> flag.StartReadBeforeGun? || flag.ManualStart? || flag.ManualStartOverChip?
    ensures StartReadBeforeGun in StartFlags(c, gun) <==> c.counted.None? && StartAt(c, gun).Some?
  {
  }

  lemma FinishFlagsOnly(c: Crossings, flag: Flag)
    ensures flag in FinishFlags(c) ==> flag.FinishReadBeforeGun? || flag.ManualFinish? || flag.ManualFinishOverChip?
    ensures FinishReadBeforeGun in FinishFlags(c) <==> c.counted.None? && c.beforeGun.Some?
  {
  }

  lemma TimeFlagsOnly(race: Race, e: Entry, flag: Flag)
    ensures flag in TimeFlagsOf(race, e) <==> TimeFlagDue(race, e, flag)
  {
  }

  /** A finisher is never left off the placings in silence: no time to place by exactly when a flag
      says that there was no gun, that the time was impossible, or that no finish was seen. */
  lemma MissingTimeIsExplained(race: Race, start: Option<Uuid>, finish: Uuid, p: Participant)
    ensures var e := LineOf(race, start, finish, p);
            e.status == Finished ==>
              (e.scoringTimeMs.None? <==>
                 NoGunTime in e.flags || FinishBeforeStart in e.flags || DeclaredFinishedWithoutFinishRead in e.flags)
  {
    TimeFlag(race, start, finish, p, NoGunTime);
    TimeFlag(race, start, finish, p, FinishBeforeStart);
    TimeFlag(race, start, finish, p, DeclaredFinishedWithoutFinishRead);
  }

  lemma TimeFlag(race: Race, start: Option<Uuid>, finish: Uuid, p: Participant, flag: Flag)
    requires flag.NoStartReadUnderChipTime? || flag.NoGunTime? || flag.FinishBeforeStart?
             || flag.DeclaredFinishedWithoutFinishRead?
    ensures var e := LineOf(race, start, finish, p);
            flag in e.flags <==>
              flag in TimeFlagsOf(race, e) || (flag == DeclaredFinishedWithoutFinishRead && DeclaredUnseen(e))
    ensures var e := LineOf(race, start, finish, p);
            flag in TimeFlagsOf(race, e) <==> TimeFlagDue(race, e, flag)
  {
    FlagsAre(race, start, finish, p, flag);
    StartFlagsOnly(AtStart(race, start, p), race.gun, flag);
    FinishFlagsOnly(AtFinish(race, finish, p), flag);
    TimeFlagsOnly(race, LineOf(race, start, finish, p), flag);
  }

  /** Under chip time a runner no start read was found for is timed from the gun, and flagged;
      everyone else not flagged is timed by their own. */
  lemma ChipFallbackIsFlagged(race: Race, start: Option<Uuid>, finish: Uuid, p: Participant)
    requires race.mode.FromChip?
    ensures var e := LineOf(race, start, finish, p);
            && (NoStartReadUnderChipTime in e.flags <==> e.finishAt.Some? && e.startAt.None?)
            && (e.scoringTimeMs.Some? ==>
                  e.scoringTimeMs == if NoStartReadUnderChipTime in e.flags then e.gunTimeMs else e.chipTimeMs)
  {
    TimeFlag(race, start, finish, p, NoStartReadUnderChipTime);
  }

  /** A runner whose only start was a warm-up is timed from the gun and flagged; one whose only
      finish was a warm-up is flagged and has no finish. */
  lemma WarmUpsAreFlagged(race: Race, start: Uuid, finish: Uuid, p: Participant)
    ensures var e := LineOf(race, Some(start), finish, p);
            && (StartReadBeforeGun in e.flags <==>
                  Counting(race.events, (p.id, start), race.gun) == {}
                  && WarmUps(race.events, (p.id, start), race.gun) != {})
            && (StartReadBeforeGun in e.flags ==> e.startAt == race.gun && race.gun.Some?)
            && (FinishReadBeforeGun in e.flags <==>
                  Counting(race.events, (p.id, finish), race.gun) == {}
                  && WarmUps(race.events, (p.id, finish), race.gun) != {})
            && (FinishReadBeforeGun in e.flags ==> e.finishAt.None?)
  {
    CrossingsMean(race.events, (p.id, start), race.gun);
    CrossingsMean(race.events, (p.id, finish), race.gun);
    WarmUpFlag(race, Some(start), finish, p, StartReadBeforeGun);
    WarmUpFlag(race, Some(start), finish, p, FinishReadBeforeGun);
  }

  lemma WarmUpFlag(race: Race, start: Option<Uuid>, finish: Uuid, p: Participant, flag: Flag)
    requires flag.StartReadBeforeGun? || flag.FinishReadBeforeGun?
    ensures var s, f := AtStart(race, start, p), AtFinish(race, finish, p);
            flag in LineOf(race, start, finish, p).flags <==>
              if flag.StartReadBeforeGun? then s.counted.None? && StartAt(s, race.gun).Some?
              else f.counted.None? && f.beforeGun.Some?
  {
    FlagsAre(race, start, finish, p, flag);
    StartFlagsOnly(AtStart(race, start, p), race.gun, flag);
    FinishFlagsOnly(AtFinish(race, finish, p), flag);
    TimeFlagsOnly(race, LineOf(race, start, finish, p), flag);
  }

  /** A time used that a hand typed is flagged, and flagged again exactly when a chip crossing
      that counted was passed over for it. */
  lemma ManualUseIsFlagged(race: Race, start: Uuid, finish: Uuid, p: Participant)
    ensures var e := LineOf(race, Some(start), finish, p);
            var s, f := AtStart(race, Some(start), p), AtFinish(race, finish, p);
            && (ManualStart in e.flags <==> ManuallyUsed(StartEvent(s, race.gun)))
            && (ManualStartOverChip in e.flags <==>
                  ManuallyUsed(s.counted) && CountingChips(race.events, (p.id, start), race.gun) != {})
            && (ManualFinish in e.flags <==> ManuallyUsed(f.counted))
            && (ManualFinishOverChip in e.flags <==>
                  ManuallyUsed(f.counted) && CountingChips(race.events, (p.id, finish), race.gun) != {})
  {
    CrossingsMean(race.events, (p.id, start), race.gun);
    CrossingsMean(race.events, (p.id, finish), race.gun);
    ManualFlag(race, Some(start), finish, p, ManualStart);
    ManualFlag(race, Some(start), finish, p, ManualStartOverChip);
    ManualFlag(race, Some(start), finish, p, ManualFinish);
    ManualFlag(race, Some(start), finish, p, ManualFinishOverChip);
  }

  predicate ManuallyUsed(used: Option<TimingEvent>)
  {
    used.Some? && used.value.origin.FromManual?
  }

  lemma ManualFlag(race: Race, start: Option<Uuid>, finish: Uuid, p: Participant, flag: Flag)
    requires flag.ManualStart? || flag.ManualStartOverChip? || flag.ManualFinish? || flag.ManualFinishOverChip?
    ensures var s, f := AtStart(race, start, p), AtFinish(race, finish, p);
            flag in LineOf(race, start, finish, p).flags <==>
              match flag
              case ManualStart => ManuallyUsed(StartEvent(s, race.gun))
              case ManualStartOverChip => ManuallyUsed(s.counted) && s.countedChip.Some?
              case ManualFinish => ManuallyUsed(f.counted)
              case _ => ManuallyUsed(f.counted) && f.countedChip.Some?
  {
    FlagsAre(race, start, finish, p, flag);
    StartFlagsOnly(AtStart(race, start, p), race.gun, flag);
    FinishFlagsOnly(AtFinish(race, finish, p), flag);
    TimeFlagsOnly(race, LineOf(race, start, finish, p), flag);
    NoneCountedMeansNoChip(race, start, finish, p);
  }

  lemma NoneCountedMeansNoChip(race: Race, start: Option<Uuid>, finish: Uuid, p: Participant)
    ensures AtStart(race, start, p).counted.None? ==> AtStart(race, start, p).countedChip.None?
  {
    if start.Some? {
      var post, c := (p.id, start.value), AtStart(race, start, p);
      CrossingsMean(race.events, post, race.gun);
      assert c.countedChip.Some? ==> c.countedChip.value in Counting(race.events, post, race.gun);
    }
  }

  /** Where a flag stands among the others. */
  function Standing(flag: Flag): nat
  {
    match flag
    case StartReadBeforeGun => 0
    case ManualStart => 1
    case ManualStartOverChip => 2
    case ManualFinish => 3
    case ManualFinishOverChip => 4
    case FinishReadBeforeGun => 5
    case NoStartReadUnderChipTime => 6
    case NoGunTime => 7
    case FinishBeforeStart => 8
    case DeclaredFinishedWithoutFinishRead => 9
  }

  ghost predicate InOrderWithin(flags: seq<Flag>, low: nat, high: nat)
  {
    && (forall i :: 0 <= i < |flags| ==> low <= Standing(flags[i]) < high)
    && forall i, j :: 0 <= i < j < |flags| ==> Standing(flags[i]) < Standing(flags[j])
  }

  lemma InOrderJoined(a: seq<Flag>, b: seq<Flag>, low: nat, mid: nat, high: nat)
    requires InOrderWithin(a, low, mid) && InOrderWithin(b, mid, high) && low <= mid <= high
    ensures InOrderWithin(a + b, low, high)
  {
  }

  /** Each flag once, and always in the same order. */
  lemma FlagsComeInOrder(race: Race, start: Option<Uuid>, finish: Uuid, p: Participant)
    ensures var flags := LineOf(race, start, finish, p).flags;
            forall i, j :: 0 <= i < j < |flags| ==> Standing(flags[i]) < Standing(flags[j])
  {
    FlagsInParts(race, start, finish, p);
    PartsInOrder(race, AtStart(race, start, p), AtFinish(race, finish, p), LineOf(race, start, finish, p));
  }

  lemma PartsInOrder(race: Race, s: Crossings, f: Crossings, e: Entry)
    ensures InOrderWithin(StartFlags(s, race.gun) + FinishFlags(f) + TimeFlagsOf(race, e)
                          + FlagIf(DeclaredUnseen(e), DeclaredFinishedWithoutFinishRead), 0, 10)
  {
    StartFlagsInOrder(s, race.gun);
    FinishFlagsInOrder(f);
    TimeFlagsInOrder(race, e);
    FlagIfInOrder(DeclaredUnseen(e), DeclaredFinishedWithoutFinishRead);
    FourInOrder(StartFlags(s, race.gun), FinishFlags(f), TimeFlagsOf(race, e),
                FlagIf(DeclaredUnseen(e), DeclaredFinishedWithoutFinishRead));
  }

  lemma FlagIfInOrder(raised: bool, flag: Flag)
    ensures InOrderWithin(FlagIf(raised, flag), Standing(flag), Standing(flag) + 1)
  {
  }

  lemma FourInOrder(a: seq<Flag>, b: seq<Flag>, c: seq<Flag>, d: seq<Flag>)
    requires InOrderWithin(a, 0, 3) && InOrderWithin(b, 3, 6) && InOrderWithin(c, 6, 9) && InOrderWithin(d, 9, 10)
    ensures InOrderWithin(a + b + c + d, 0, 10)
  {
    InOrderJoined(a, b, 0, 3, 6);
    InOrderJoined(a + b, c, 0, 6, 9);
    InOrderJoined(a + b + c, d, 0, 9, 10);
  }

  lemma FlagsInParts(race: Race, start: Option<Uuid>, finish: Uuid, p: Participant)
    ensures var e := LineOf(race, start, finish, p);
            e.flags == StartFlags(AtStart(race, start, p), race.gun) + FinishFlags(AtFinish(race, finish, p))
                       + TimeFlagsOf(race, e) + FlagIf(DeclaredUnseen(e), DeclaredFinishedWithoutFinishRead)
  {
  }

  lemma StartFlagsInOrder(c: Crossings, gun: Option<Time>)
    ensures InOrderWithin(StartFlags(c, gun), 0, 3)
  {
    InOrderJoined(FlagIf(c.counted.None? && StartAt(c, gun).Some?, StartReadBeforeGun),
                  ManualFlags(c, StartEvent(c, gun), ManualStart, ManualStartOverChip), 0, 1, 3);
  }

  lemma FinishFlagsInOrder(c: Crossings)
    ensures InOrderWithin(FinishFlags(c), 3, 6)
  {
    InOrderJoined(ManualFlags(c, c.counted, ManualFinish, ManualFinishOverChip),
                  FlagIf(c.counted.None? && c.beforeGun.Some?, FinishReadBeforeGun), 3, 5, 6);
  }

  lemma TimeFlagsInOrder(race: Race, e: Entry)
    ensures InOrderWithin(TimeFlagsOf(race, e), 6, 9)
  {
    var measured := MeasuredMs(race.mode, e.gunTimeMs, e.chipTimeMs);
    var noStart := e.finishAt.Some? && race.mode.FromChip? && e.chipTimeMs.None?;
    ThreeFlagsInOrder(noStart, e.finishAt.Some? && e.gunTimeMs.None? && (race.mode.FromGun? || noStart),
                      measured.Some? && measured.value < 0);
  }

  lemma ThreeFlagsInOrder(a: bool, b: bool, c: bool)
    ensures InOrderWithin(FlagIf(a, NoStartReadUnderChipTime) + FlagIf(b, NoGunTime) + FlagIf(c, FinishBeforeStart),
                          6, 9)
  {
    FlagIfInOrder(a, NoStartReadUnderChipTime);
    FlagIfInOrder(b, NoGunTime);
    FlagIfInOrder(c, FinishBeforeStart);
    InOrderJoined(FlagIf(a, NoStartReadUnderChipTime), FlagIf(b, NoGunTime), 6, 7, 8);
    InOrderJoined(FlagIf(a, NoStartReadUnderChipTime) + FlagIf(b, NoGunTime), FlagIf(c, FinishBeforeStart), 6, 8, 9);
  }
}
