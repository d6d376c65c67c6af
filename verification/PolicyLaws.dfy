/** What a configuration entry changes, and what it leaves alone. */
module PolicyLaws {
  import opened Ordering
  import opened Domain

  // ----- Timing policy -----

  function Overriding(p: TimingPolicy, at: Uuid, own: CheckpointPolicy): TimingPolicy
  {
    p.(perCheckpoint := p.perCheckpoint[at := own])
  }

  /** A checkpoint's own policy decides there, in so far as it says anything, and nowhere else; where
      there is none the race's own does. */
  lemma OverridesAreLocal(p: TimingPolicy, at: Uuid, own: CheckpointPolicy, checkpoint: Uuid)
    ensures var q := Overriding(p, at, own);
            && (checkpoint != at ==> SelectionRuleFor(q, checkpoint) == SelectionRuleFor(p, checkpoint)
                                     && WindowFor(q, checkpoint) == WindowFor(p, checkpoint))
            && SelectionRuleFor(q, at) == (if own.rule.Some? then own.rule.value else p.rule)
            && (own.minIntervalMs.Some? && own.minIntervalMs.value <= I64_MAX ==>
                  WindowFor(q, at) == own.minIntervalMs.value * NANOS_PER_MS)
            && (own.minIntervalMs.None? && p.minIntervalMs <= I64_MAX ==>
                  WindowFor(q, at) == p.minIntervalMs * NANOS_PER_MS)
    ensures checkpoint !in p.perCheckpoint ==>
              && SelectionRuleFor(p, checkpoint) == p.rule
              && WindowFor(p, checkpoint)
                 == (if p.minIntervalMs <= I64_MAX then p.minIntervalMs else I64_MAX) * NANOS_PER_MS
  {
  }

  // ----- Antennas -----

  /** `map_antenna`. */
  function MapAntenna(m: AntennaMap, reader: string, antenna: U16, checkpoint: Uuid): AntennaMap
  {
    m.(exact := m.exact[(reader, antenna) := checkpoint])
  }

  /** `map_reader`. */
  function MapReader(m: AntennaMap, reader: string, checkpoint: Uuid): AntennaMap
  {
    m.(wildcard := m.wildcard[reader := checkpoint])
  }

  /** Mapping one antenna decides its own reads and no others. Mapping a reader decides the reads of all
      its antennas that are not mapped themselves. A reader nothing was said of is at no checkpoint. */
  lemma MappingsAreLocal(m: AntennaMap, reader: string, antenna: U16, checkpoint: Uuid, r: Read)
    ensures Checkpoint(MapAntenna(m, reader, antenna, checkpoint), r)
            == if r.source == reader && r.antenna == Some(antenna) then Some(checkpoint) else Checkpoint(m, r)
    ensures Checkpoint(MapReader(m, reader, checkpoint), r)
            == if r.source == reader && (r.antenna.None? || (reader, r.antenna.value) !in m.exact)
               then Some(checkpoint) else Checkpoint(m, r)
    ensures (r.antenna.Some? ==> (r.source, r.antenna.value) !in m.exact) && r.source !in m.wildcard ==>
              Checkpoint(m, r) == None
  {
  }

  // ----- Milliseconds -----

  /** Whole milliseconds lose what is left over, towards zero on either side of it. */
  lemma MillisecondsTruncate(d: int)
    ensures WholeMs(-d) == -WholeMs(d)
    ensures d >= 0 ==> 0 <= d - WholeMs(d) * NANOS_PER_MS < NANOS_PER_MS
  {
  }
}
