/** From the published time back to the read a reader sent, or to what an operator wrote. */
module EndToEnd {
  import opened Ordering
  import opened Domain
  import opened Laps
  import opened Derive
  import opened Provenance
  import opened OrderBlind
  import R = Results
  import S = Scoring
  import ResultLaws

  /** A crossing of the derivation, resting on a read of the journal at that instant. */
  ghost predicate FromRead(input: Input, participant: Uuid, checkpoint: Uuid, at: Time)
  {
    exists c, r :: c in Derived(input).accepted && RestsOn(input, c, r)
                   && c.participant == Some(participant) && c.checkpoint == checkpoint && At(r) == at
  }

  ghost predicate FromEntry(input: Input, participant: Uuid, checkpoint: Uuid, at: Time)
  {
    exists e :: e in input.manual && e.participant == participant && e.checkpoint == checkpoint && e.at == at
  }

  ghost predicate Evidenced(input: Input, participant: Uuid, checkpoint: Uuid, at: Time)
  {
    FromRead(input, participant, checkpoint, at) || FromEntry(input, participant, checkpoint, at)
  }

  lemma SourceProvenance(input: Input, s: Source)
    requires s in Sources(input)
    ensures Evidenced(input, s.participant, s.checkpoint, s.at)
  {
    SortPermutes(UnsortedSources(input), SourceKey);
    assert s in UnsortedSources(input);
    if s in ManualSources(input.manual, input.gun) {
      ManualSourceOrigin(input.manual, input.gun, s);
    } else {
      var sides := Crediting.SidesOf(Credits(input));
      CrossingSourceOrigin(Accepted(input), sides, s);
      var c :| c in Accepted(input) && c.participant.Some? && s == CrossingSource(c, c.participant.value, sides);
      AcceptedProvenance(input, c);
      var r :| RestsOn(input, c, r);
      assert FromRead(input, s.participant, s.checkpoint, s.at);
    }
  }

  lemma EventProvenance(input: Input, e: TimingEvent)
    requires e in Derived(input).timingEvents
    ensures Evidenced(input, e.participant, e.checkpoint, e.at)
  {
    var i :| 0 <= i < |Sources(input)| && Derived(input).timingEvents[i] == e;
    SourceProvenance(input, Sources(input)[i]);
  }

  /** Scored from its own derivation under its own gun, every finish published is the instant of
      a credited read of the finish, or of an operator's entry there, at or after the gun; and
      every start is the same at the start line, or is the gun. */
  lemma PublishedTimesAreEvidenced(input: Input, race: S.Race, start: Option<Uuid>, finish: Uuid, p: R.Participant)
    requires race.events == Derived(input).timingEvents && race.gun == input.gun
    ensures var e := S.LineOf(race, start, finish, p);
            && (e.finishAt.Some? ==> Evidenced(input, p.id, finish, e.finishAt.value)
                                     && (race.gun.Some? ==> e.finishAt.value >= race.gun.value))
            && (e.startAt.Some? ==> start.Some? && (e.startAt == race.gun
                                     || Evidenced(input, p.id, start.value, e.startAt.value)))
  {
    var e := S.LineOf(race, start, finish, p);
    R.CrossingsMean(race.events, (p.id, finish), race.gun);
    if e.finishAt.Some? {
      EventProvenance(input, R.CrossingsOf(race.events, (p.id, finish), race.gun).counted.value);
    }
    if e.startAt.Some? {
      var atStart := R.CrossingsOf(race.events, (p.id, start.value), race.gun);
      R.CrossingsMean(race.events, (p.id, start.value), race.gun);
      if atStart.counted.Some? {
        EventProvenance(input, atStart.counted.value);
      }
    }
  }

  /** So from a journal to its published sheet: every instant on the sheet is evidenced or the
      gun, no time used for placing is negative, and under a gun nobody's own time is above
      their gun time. */
  lemma EveryPublishedTimeIsEvidenced(input: Input, race: S.Race, list: seq<R.Entry>, e: R.Entry)
    requires race.events == Derived(input).timingEvents && race.gun == input.gun
    requires S.ScoreOf(race) == S.Scores(list) && e in list
    ensures var course := S.CourseOf(race.checkpoints, race.mode);
            && course.Lines?
            && (e.finishAt.Some? ==> Evidenced(input, e.participant, course.finish, e.finishAt.value))
            && (e.startAt.Some? ==> course.start.Some? && (e.startAt == race.gun
                                     || Evidenced(input, e.participant, course.start.value, e.startAt.value)))
    ensures e.scoringTimeMs.Some? ==> e.scoringTimeMs.value >= 0 && e.finishAt.Some?
    ensures race.gun.Some? && e.chipTimeMs.Some? ==> e.gunTimeMs.Some? && e.chipTimeMs.value <= e.gunTimeMs.value
  {
    var p := ResultLaws.PublishedLine(race, list, e);
    var course := S.CourseOf(race.checkpoints, race.mode);
    LineShows(S.LineOf(race, course.start, course.finish, p), p.id, e);
    PublishedTimesAreEvidenced(input, race, course.start, course.finish, p);
    ResultLaws.TimesAreSane(race, course.start, course.finish, p);
  }

  lemma LineShows(line: R.Entry, participant: Uuid, e: R.Entry)
    requires e == line.(place := e.place) && line.participant == participant
    ensures e.participant == participant && e.finishAt == line.finishAt && e.startAt == line.startAt
    ensures e.scoringTimeMs == line.scoringTimeMs && e.gunTimeMs == line.gunTimeMs && e.chipTimeMs == line.chipTimeMs
  {
  }

  /** An undeclared runner is finished exactly when the evidence puts them at the finish at or
      after the gun: a credited read of a chip they wore, or an entry. */
  lemma FinishedMeansEvidence(input: Input, race: S.Race, start: Option<Uuid>, finish: Uuid, p: R.Participant)
    requires race.events == Derived(input).timingEvents && race.gun == input.gun
    requires forall d :: d in race.declarations ==> d.participant != p.id
    ensures S.LineOf(race, start, finish, p).status == R.Finished
            <==> exists at: Time :: Evidenced(input, p.id, finish, at) && (race.gun.None? || at >= race.gun.value)
  {
    ResultLaws.UndeclaredStatus(race, start, finish, p);
    SeenMeansEvidenced(input, race, finish, p);
  }

  lemma SeenMeansEvidenced(input: Input, race: S.Race, finish: Uuid, p: R.Participant)
    requires race.events == Derived(input).timingEvents
    ensures (exists x :: x in race.events && ResultLaws.SeenInTheRace(race, p, x) && x.checkpoint == finish)
            <==> exists at: Time :: Evidenced(input, p.id, finish, at) && (race.gun.None? || at >= race.gun.value)
  {
    if x :| x in race.events && ResultLaws.SeenInTheRace(race, p, x) && x.checkpoint == finish {
      EventProvenance(input, x);
    }
    if at: Time :| Evidenced(input, p.id, finish, at) && (race.gun.None? || at >= race.gun.value) {
      var e := EvidenceHasEvent(input, p.id, finish, at);
      assert e in race.events && ResultLaws.SeenInTheRace(race, p, e) && e.checkpoint == finish;
    }
  }

  lemma EvidenceHasEvent(input: Input, participant: Uuid, checkpoint: Uuid, at: Time) returns (e: TimingEvent)
    requires Evidenced(input, participant, checkpoint, at)
    ensures e in Derived(input).timingEvents
    ensures e.participant == participant && e.checkpoint == checkpoint && e.at == at
  {
    var s: Source;
    if FromRead(input, participant, checkpoint, at) {
      s := SourceOfRead(input, participant, checkpoint, at);
    } else {
      s := SourceOfEntry(input, participant, checkpoint, at);
    }
    e := EventOfSource(input, s);
  }

  lemma EventOfSource(input: Input, s: Source) returns (e: TimingEvent)
    requires s in UnsortedSources(input)
    ensures e in Derived(input).timingEvents
    ensures e.participant == s.participant && e.checkpoint == s.checkpoint && e.at == s.at
  {
    SortPermutes(UnsortedSources(input), SourceKey);
    var j :| 0 <= j < |Sources(input)| && Sources(input)[j] == s;
    e := Derived(input).timingEvents[j];
  }

  lemma SourceOfRead(input: Input, participant: Uuid, checkpoint: Uuid, at: Time) returns (s: Source)
    requires FromRead(input, participant, checkpoint, at)
    ensures s in UnsortedSources(input) && s.participant == participant && s.checkpoint == checkpoint && s.at == at
  {
    var c, r :| c in Derived(input).accepted && RestsOn(input, c, r)
                && c.participant == Some(participant) && c.checkpoint == checkpoint && At(r) == at;
    s := CrossingSource(c, participant, Crediting.SidesOf(Credits(input)));
    CrossingHasSource(Accepted(input), Crediting.SidesOf(Credits(input)), c);
  }

  lemma SourceOfEntry(input: Input, participant: Uuid, checkpoint: Uuid, at: Time) returns (s: Source)
    requires FromEntry(input, participant, checkpoint, at)
    ensures s in UnsortedSources(input) && s.participant == participant && s.checkpoint == checkpoint && s.at == at
  {
    var m :| m in input.manual && m.participant == participant && m.checkpoint == checkpoint && m.at == at;
    s := ManualSource(m, input.gun);
    var i :| 0 <= i < |input.manual| && input.manual[i] == m;
    assert ManualSources(input.manual, input.gun)[i] == s;
  }

  lemma {:induction false} CrossingHasSource(accepted: seq<AcceptedRead>, sides: map<Uuid, bool>, c: AcceptedRead)
    requires c in accepted && c.participant.Some?
    ensures CrossingSource(c, c.participant.value, sides) in CrossingSources(accepted, sides)
  {
    if c != accepted[|accepted| - 1] {
      CrossingHasSource(accepted[..|accepted| - 1], sides, c);
    }
  }
}
