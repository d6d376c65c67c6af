/** The records the engine and the scorer share. Instants are nanoseconds from the Unix epoch. */
module Domain {
  import opened Ordering

  const NANOS_PER_MS := 1_000_000
  const I64_MAX := 0x7FFF_FFFF_FFFF_FFFF
  const I64_MIN := -0x8000_0000_0000_0000
  const I16_MIN := -0x8000
  const U16_MAX := 0xFFFF
  const U32_MAX := 0xFFFF_FFFF

  /** `OffsetDateTime` holds years -9999 to 9999 at an offset of under a day. */
  const TIME_LIMIT := 377_705_203_200_000_000_000

  type Time = t: int | -TIME_LIMIT <= t <= TIME_LIMIT
  type Uuid = u: int | 0 <= u < 0x1_0000_0000_0000_0000_0000_0000_0000_0000
  type U64 = n: int | 0 <= n <= 0xFFFF_FFFF_FFFF_FFFF
  type U16 = n: int | 0 <= n <= 0xFFFF
  type I16 = n: int | -0x8000 <= n <= 0x7FFF

  /** `Duration::whole_milliseconds`: truncated toward zero. */
  function WholeMs(d: int): int
  {
    if d >= 0 then d / NANOS_PER_MS else -((-d) / NANOS_PER_MS)
  }

  /** `i64::try_from(x).unwrap_or(i64::MAX)`. */
  function ToI64(x: int): int
  {
    if I64_MIN <= x <= I64_MAX then x else I64_MAX
  }

  lemma WholeMsMonotone(a: int, b: int)
    requires a <= b
    ensures WholeMs(a) <= WholeMs(b)
  {
    if 0 <= a {
      DivMonotone(a, b);
    } else if b < 0 {
      DivMonotone(-b, -a);
    }
  }

  lemma DivMonotone(a: nat, b: nat)
    requires a <= b
    ensures a / NANOS_PER_MS <= b / NANOS_PER_MS
  {
  }

  // ----- Evidence -----

  datatype Read = Read(
    id: Uuid,
    seqNo: U64,
    source: string,
    antenna: Option<U16>,
    chip: string,
    readerTimestamp: Option<Time>,
    receivedAt: Time,
    readerTimed: bool,
    rssi: Option<I16>)

  /** The timestamp that counts: the reader's own when it is trusted and present. */
  function At(r: Read): Time
  {
    if r.readerTimed && r.readerTimestamp.Some? then r.readerTimestamp.value else r.receivedAt
  }

  datatype ManualEntry = ManualEntry(id: Uuid, participant: Uuid, checkpoint: Uuid, at: Time)

  // ----- Timing policy -----

  datatype SelectionRule = First | FirstAboveRssi(floorDbm: I16) | PeakRssi

  datatype CheckpointPolicy = CheckpointPolicy(minIntervalMs: Option<U64>, rule: Option<SelectionRule>)

  datatype TimingPolicy = TimingPolicy(
    minIntervalMs: U64,
    rule: SelectionRule,
    minLapMs: Option<U64>,
    perCheckpoint: map<Uuid, CheckpointPolicy>)

  function MinIntervalMsFor(p: TimingPolicy, checkpoint: Uuid): U64
  {
    if checkpoint in p.perCheckpoint && p.perCheckpoint[checkpoint].minIntervalMs.Some?
    then p.perCheckpoint[checkpoint].minIntervalMs.value
    else p.minIntervalMs
  }

  function SelectionRuleFor(p: TimingPolicy, checkpoint: Uuid): SelectionRule
  {
    if checkpoint in p.perCheckpoint && p.perCheckpoint[checkpoint].rule.Some?
    then p.perCheckpoint[checkpoint].rule.value
    else p.rule
  }

  /** The deduplication window as a duration; a count of milliseconds past `i64` is clamped. */
  function WindowFor(p: TimingPolicy, checkpoint: Uuid): nat
  {
    ToI64(MinIntervalMsFor(p, checkpoint)) * NANOS_PER_MS
  }

  // ----- Configuration -----

  /** `wildcard` covers every antenna of a reader that `exact` does not name. */
  datatype AntennaMap = AntennaMap(exact: map<(string, U16), Uuid>, wildcard: map<string, Uuid>)

  function Checkpoint(m: AntennaMap, r: Read): Option<Uuid>
  {
    if r.antenna.Some? && (r.source, r.antenna.value) in m.exact
    then Some(m.exact[(r.source, r.antenna.value)])
    else if r.source in m.wildcard then Some(m.wildcard[r.source])
    else None
  }

  // ----- Conclusions -----

  datatype AcceptedRead = AcceptedRead(
    id: Uuid,
    checkpoint: Uuid,
    chip: string,
    participant: Option<Uuid>,
    at: Time,
    source: Uuid,
    burst: seq<Uuid>,
    rssi: Option<I16>)

  datatype Reason =
    | DuplicateWithinWindow(accepted: Uuid, intervalMs: int)
    | BelowRssiFloor(rssi: Option<I16>, floorDbm: I16)
    | BelowMinLap(minLapMs: U64, actualMs: int)
    | UnmappedReader(reader: string, antenna: Option<U16>)

  datatype RejectedRead = RejectedRead(rawRead: Uuid, reason: Reason)

  datatype Origin = FromCrossing(accepted: Uuid) | FromManual(entry: Uuid)

  datatype TimingEvent = TimingEvent(
    id: Uuid,
    participant: Uuid,
    checkpoint: Uuid,
    at: Time,
    lap: U16,
    origin: Origin)

  datatype Derivation = Derivation(
    accepted: seq<AcceptedRead>,
    rejected: seq<RejectedRead>,
    timingEvents: seq<TimingEvent>)
}
