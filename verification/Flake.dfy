/** storage/flake/flake.go: 128-bit k-ordered ids and the clock arithmetic around them.

    An instant is its offset from the Unix epoch in nanoseconds, unbounded; Go's 64-bit
    conversions are written out where the source makes them. */
module Flake {
  import opened Bytes

  type Id = s: seq<byte> | |s| == 16 witness seq(16, _ => 0)
  type WorkerId = s: seq<byte> | |s| == 6 witness seq(6, _ => 0)
  type uint16 = x: int | 0 <= x < 0x1_0000
  type uint64 = x: int | 0 <= x < 0x1_0000_0000_0000_0000
  type int64 = x: int | -0x8000_0000_0000_0000 <= x < 0x8000_0000_0000_0000
  type Time = int

  const SECOND := 1_000_000_000
  const MILLISECOND := 1_000_000

  /** time.Time{}: the first instant of year 1. */
  const ZERO_TIME: Time := -62135596800 * SECOND

  /** 2254-06-04T00:00:00Z. */
  const MAX_TIME_SECONDS := 8975491200
  const MAX_TIME: Time := MAX_TIME_SECONDS * SECOND

  /** The largest whole number of seconds in a time.Duration. */
  const MAX_DURATION_SECONDS := 9223372036

  const TWO_TO_53 := 0x20_0000_0000_0000

  // ------------------------------------------------------ Go arithmetic

  function ToInt64(n: int): int64 {
    (n + 0x8000_0000_0000_0000) % 0x1_0000_0000_0000_0000 - 0x8000_0000_0000_0000
  }

  function ToUint64(n: int): uint64 {
    n % 0x1_0000_0000_0000_0000
  }

  /** Go's `/` on integers truncates toward zero; `%` takes the dividend's sign. */
  function Quot(a: int, b: int): int
    requires b > 0
  {
    if a >= 0 then a / b else -((-a) / b)
  }

  function Rem(a: int, b: int): int
    requires b > 0
  {
    a - b * Quot(a, b)
  }

  function UnixNano(t: Time): int64 {
    ToInt64(t)
  }

  /** The 64 timestamp bits of an id made at t: uint64(t.UnixNano() / 1e6). */
  function Millis(t: Time): uint64 {
    ToUint64(Quot(UnixNano(t), MILLISECOND))
  }

  /** t.Sub(u) saturates at the ends of time.Duration. */
  function Sub(t: Time, u: Time): int64 {
    var d := t - u;
    if d >= 0x8000_0000_0000_0000 then 0x7fff_ffff_ffff_ffff
    else if d < -0x8000_0000_0000_0000 then -0x8000_0000_0000_0000
    else d
  }

  /** The largest power of two up to n. */
  function Binade(n: nat): (p: nat)
    requires n >= 1
    ensures p <= n < 2 * p
  {
    if n == 1 then 1 else 2 * Binade(n / 2)
  }

  /** int64(d.Seconds()): Go adds the seconds and the fraction as 64-bit floats and truncates.
      The sum has 53 bits, so it reaches the next second when the fraction is within half a
      unit of the last of them. */
  function WholeSeconds(d: int): int {
    if d >= 0 then RoundedSeconds(d) else -RoundedSeconds(-d)
  }

  function RoundedSeconds(d: nat): (n: int)
    ensures n >= 0
  {
    var sec, nsec := d / SECOND, d % SECOND;
    if sec > 0 && (SECOND - nsec) * TWO_TO_53 <= SECOND * Binade(sec) then sec + 1 else sec
  }

  function Unix(seconds: int, nanos: int): Time {
    seconds * SECOND + nanos
  }

  // ---------------------------------------------------------- generator

  datatype GenState = GenState(currentTime: Time, workerId: WorkerId, sequence: uint16)

  datatype NextResult = Issued(id: Id) | ClockMovingBackwards

  function MakeId(stamp: uint64, workerId: WorkerId, sequence: uint16): Id {
    BigEndian(stamp, 8) + workerId + BigEndian(sequence, 2)
  }

  /** The timestamp bits of an id. */
  function Stamp(id: Id): nat {
    FromBigEndian(id[..8])
  }

  function Fresh(workerId: WorkerId): GenState {
    GenState(ZERO_TIME, workerId, 0)
  }

  predicate Accepts(g: GenState, ts: Time) {
    g.currentTime == ZERO_TIME || Millis(ts) >= Millis(g.currentTime)
  }

  function After(g: GenState, ts: Time): GenState
    requires Accepts(g, ts)
  {
    if g.currentTime == ZERO_TIME || Millis(ts) > Millis(g.currentTime)
    then g.(currentTime := ts, sequence := 0)
    else g.(sequence := (g.sequence + 1) % 0x1_0000)
  }

  /** The id most recently issued by a generator that has issued one. */
  function LastId(g: GenState): Id {
    MakeId(Millis(g.currentTime), g.workerId, g.sequence)
  }

  class Generator {
    var currentTime: Time
    const workerId: WorkerId
    var sequence: uint16

    function State(): GenState
      reads this
    {
      GenState(currentTime, workerId, sequence)
    }

    constructor (workerId: WorkerId)
      ensures State() == Fresh(workerId) && this.workerId == workerId
    {
      this.workerId := workerId;
      currentTime, sequence := ZERO_TIME, 0;
    }

    /** `ts` is what the time source answers. A clock that stepped back is reported and
        leaves the generator as it was. */
    method NextId(ts: Time) returns (r: NextResult)
      modifies this
      ensures r.Issued? <==> Accepts(old(State()), ts)
      ensures r.Issued? ==> State() == After(old(State()), ts) && r.id == LastId(State()) && Stamp(r.id) == Millis(ts)
      ensures r.Issued? ==>
                && r.id[8..14] == workerId && FromBigEndian(r.id[14..]) == sequence
                && (if old(currentTime) != ZERO_TIME && Millis(ts) == Millis(old(currentTime))
                    then currentTime == old(currentTime) && sequence == (old(sequence) + 1) % 0x1_0000
                    else currentTime == ts && sequence == 0)
      ensures r.ClockMovingBackwards? ==> State() == old(State()) && Millis(ts) < Millis(old(currentTime))
    {
      var genTimeMs := ToUint64(Quot(UnixNano(currentTime), MILLISECOND));
      var currentTimeMs := ToUint64(Quot(UnixNano(ts), MILLISECOND));
      if currentTime == ZERO_TIME || currentTimeMs > genTimeMs {
        currentTime := ts;
        sequence := 0;
      } else if currentTimeMs == genTimeMs {
        sequence := (sequence + 1) % 0x1_0000;
      } else {
        return ClockMovingBackwards;
      }
      MakeIdStamp(currentTimeMs, workerId, sequence);
      MakeIdParts(currentTimeMs, workerId, sequence);
      return Issued(BigEndian(currentTimeMs, 8) + workerId + BigEndian(sequence, 2));
    }
  }

  // ------------------------------------------------------ order of ids

  lemma MakeIdParts(stamp: uint64, workerId: WorkerId, sequence: uint16)
    ensures var id := MakeId(stamp, workerId, sequence);
            id[8..14] == workerId && FromBigEndian(id[14..]) == sequence
  {
    PowersOf256();
    BigEndianValue(sequence, 2);
    assert MakeId(stamp, workerId, sequence)[14..] == BigEndian(sequence, 2);
  }

  lemma MakeIdStamp(stamp: uint64, workerId: WorkerId, sequence: uint16)
    ensures Stamp(MakeId(stamp, workerId, sequence)) == stamp
  {
    PowersOf256();
    BigEndianValue(stamp, 8);
    assert MakeId(stamp, workerId, sequence)[..8] == BigEndian(stamp, 8);
  }

  /** Ids of one worker sort by time, then by sequence number. */
  lemma MakeIdOrder(s1: uint64, q1: uint16, s2: uint64, q2: uint16, w: WorkerId)
    ensures LexLess(MakeId(s1, w, q1), MakeId(s2, w, q2)) <==> s1 < s2 || (s1 == s2 && q1 < q2)
  {
    PowersOf256();
    BigEndianOrder(s1, s2, 8);
    BigEndianOrder(q1, q2, 2);
    var a1, a2 := BigEndian(q1, 2), BigEndian(q2, 2);
    LexCommonPrefix(w, a1, a2);
    LexHeads(BigEndian(s1, 8), w + a1, BigEndian(s2, 8), w + a2);
    assert MakeId(s1, w, q1) == BigEndian(s1, 8) + (w + a1);
    assert MakeId(s2, w, q2) == BigEndian(s2, 8) + (w + a2);
  }

  /** The guard under which an accepted reading yields a larger id than the last one:
      the clock moved to a later millisecond, or it did not and there is a sequence number
      left in this one. */
  predicate Advances(g: GenState, ts: Time) {
    || Millis(ts) > Millis(g.currentTime)
    || (Millis(ts) == Millis(g.currentTime) && g.currentTime != ZERO_TIME && g.sequence < 0xffff)
  }

  lemma {:induction false} NextIdIncreases(g: GenState, ts: Time)
    requires Accepts(g, ts)
    ensures LexLess(LastId(g), LastId(After(g, ts))) <==> Advances(g, ts)
  {
    hide Millis, LexLess, MakeId;
    var h := After(g, ts);
    MakeIdOrder(Millis(g.currentTime), g.sequence, Millis(h.currentTime), h.sequence, g.workerId);
  }

  /** NextId answers: the reading is accepted, and is one for which the id is larger than
      the last (NextIdIncreases). */
  predicate CanIssue(g: GenState, ts: Time) {
    && ts != ZERO_TIME
    && Accepts(g, ts)
    && (g.currentTime != ZERO_TIME ==> Advances(g, ts))
  }

  /** An id the generator has given out. */
  predicate Used(g: GenState, id: Id) {
    g.currentTime != ZERO_TIME && (id == LastId(g) || LexLess(id, LastId(g)))
  }

  /** A new id is larger than all earlier ones, which stay used. */
  lemma {:induction false} NewId(g: GenState, ts: Time)
    requires CanIssue(g, ts)
    ensures var h := After(g, ts);
            && Used(h, LastId(h))
            && (forall id: Id :: Used(g, id) ==> Used(h, id) && LexLess(id, LastId(h)) && id != LastId(h))
  {
    var h := After(g, ts);
    if g.currentTime != ZERO_TIME {
      NextIdIncreases(g, ts);
      forall id: Id | Used(g, id) ensures Used(h, id) && LexLess(id, LastId(h)) && id != LastId(h) {
        if id != LastId(g) {
          LexTransitive(id, LastId(g), LastId(h));
        }
        LexTrichotomy(id, LastId(h));
      }
    }
  }

  // ------------------------------------------------------- whole runs

  /** The ids issued by a run of calls whose time source answers `readings`. */
  function Issue(g: GenState, readings: seq<Time>): seq<Id>
    decreases readings
  {
    if readings == [] then []
    else if Accepts(g, readings[0]) then
      var h := After(g, readings[0]);
      [LastId(h)] + Issue(h, readings[1..])
    else Issue(g, readings[1..])
  }

  /** Every reading the run accepts meets the guard. */
  predicate AllAdvance(g: GenState, readings: seq<Time>)
    decreases readings
  {
    readings != [] ==>
      if Accepts(g, readings[0])
      then Advances(g, readings[0]) && AllAdvance(After(g, readings[0]), readings[1..])
      else AllAdvance(g, readings[1..])
  }

  ghost predicate Increasing(ids: seq<Id>) {
    forall i, j :: 0 <= i < j < |ids| ==> LexLess(ids[i], ids[j])
  }

  lemma IncreasingCons(x: Id, ids: seq<Id>)
    ensures Increasing([x] + ids) <==> Increasing(ids) && (ids != [] ==> LexLess(x, ids[0]))
  {
    var s := [x] + ids;
    if Increasing(ids) && (ids != [] ==> LexLess(x, ids[0])) {
      forall i, j | 0 <= i < j < |s| ensures LexLess(s[i], s[j]) {
        if i == 0 && j > 1 {
          LexTransitive(x, ids[0], ids[j - 1]);
        }
      }
    }
    if Increasing(s) {
      forall i, j | 0 <= i < j < |ids| ensures LexLess(ids[i], ids[j]) {
        assert LexLess(s[i + 1], s[j + 1]);
      }
      if ids != [] {
        assert LexLess(s[0], s[1]);
      }
    }
  }

  lemma {:induction false} IncreasingFrom(g: GenState, readings: seq<Time>)
    ensures Increasing([LastId(g)] + Issue(g, readings)) <==> AllAdvance(g, readings)
    decreases readings
  {
    if readings != [] {
      var ts, rest := readings[0], readings[1..];
      if Accepts(g, ts) {
        var h := After(g, ts);
        IncreasingFrom(h, rest);
        NextIdIncreases(g, ts);
        IncreasingCons(LastId(g), Issue(g, readings));
      } else {
        IncreasingFrom(g, rest);
      }
    }
  }

  /** For any time source, the ids of a fresh generator increase strictly exactly when
      every accepted reading after the first met the guard. */
  lemma {:induction false} FreshRunIncreasing(w: WorkerId, readings: seq<Time>)
    ensures Increasing(Issue(Fresh(w), readings))
       <==> (readings != [] ==> AllAdvance(After(Fresh(w), readings[0]), readings[1..]))
  {
    if readings != [] {
      IncreasingFrom(After(Fresh(w), readings[0]), readings[1..]);
    }
  }

  // -------------------------------- 65536 ids per millisecond, exactly

  function CountStamp(ids: seq<Id>, m: nat): nat {
    if ids == [] then 0 else (if Stamp(ids[0]) == m then 1 else 0) + CountStamp(ids[1..], m)
  }

  ghost predicate AtMost65536PerStamp(ids: seq<Id>) {
    forall m: nat :: CountStamp(ids, m) <= 0x1_0000
  }

  lemma CountStampStep(g: GenState, readings: seq<Time>, m: nat)
    requires readings != [] && Accepts(g, readings[0])
    ensures CountStamp(Issue(g, readings), m)
         == CountStamp(Issue(After(g, readings[0]), readings[1..]), m) + if m == Millis(readings[0]) then 1 else 0
  {
    var h := After(g, readings[0]);
    MakeIdStamp(Millis(h.currentTime), h.workerId, h.sequence);
    assert Issue(g, readings)[1..] == Issue(h, readings[1..]);
  }

  lemma {:induction false} NoEarlierStamp(g: GenState, readings: seq<Time>, m: nat)
    requires g.currentTime != ZERO_TIME && ZERO_TIME !in readings
    requires m < Millis(g.currentTime)
    ensures CountStamp(Issue(g, readings), m) == 0
    decreases readings
  {
    if readings != [] {
      if Accepts(g, readings[0]) {
        CountStampStep(g, readings, m);
        NoEarlierStamp(After(g, readings[0]), readings[1..], m);
      } else {
        NoEarlierStamp(g, readings[1..], m);
      }
    }
  }

  /** Ids with timestamp m, counting those already issued in the current millisecond. */
  function InMillisecond(g: GenState, readings: seq<Time>, m: nat): nat {
    CountStamp(Issue(g, readings), m) + if m == Millis(g.currentTime) then g.sequence + 1 else 0
  }

  ghost predicate FitsSequence(g: GenState, readings: seq<Time>) {
    forall m: nat :: InMillisecond(g, readings, m) <= 0x1_0000
  }

  lemma InMillisecondStep(g: GenState, readings: seq<Time>, m: nat)
    requires readings != [] && Accepts(g, readings[0]) && Advances(g, readings[0])
    requires g.currentTime != ZERO_TIME
    ensures InMillisecond(g, readings, m)
         == InMillisecond(After(g, readings[0]), readings[1..], m)
            + if m == Millis(g.currentTime) < Millis(readings[0]) then g.sequence + 1 else 0
  {
    hide Millis;
    CountStampStep(g, readings, m);
  }

  lemma FitsStep(g: GenState, readings: seq<Time>)
    requires readings != [] && Accepts(g, readings[0]) && Advances(g, readings[0])
    requires g.currentTime != ZERO_TIME && ZERO_TIME !in readings
    ensures FitsSequence(g, readings) <==> FitsSequence(After(g, readings[0]), readings[1..])
  {
    var h, rest := After(g, readings[0]), readings[1..];
    if FitsSequence(g, readings) {
      forall m: nat ensures InMillisecond(h, rest, m) <= 0x1_0000 {
        InMillisecondStep(g, readings, m);
        assert InMillisecond(g, readings, m) <= 0x1_0000;
      }
    }
    if FitsSequence(h, rest) {
      forall m: nat ensures InMillisecond(g, readings, m) <= 0x1_0000 {
        InMillisecondStep(g, readings, m);
        assert InMillisecond(h, rest, m) <= 0x1_0000;
        if m == Millis(g.currentTime) < Millis(readings[0]) {
          NoEarlierStamp(h, rest, m);
        }
      }
    }
  }

  lemma {:induction false} AdvanceIffFits(g: GenState, readings: seq<Time>)
    requires g.currentTime != ZERO_TIME && ZERO_TIME !in readings
    ensures AllAdvance(g, readings) <==> FitsSequence(g, readings)
    decreases readings
  {
    if readings == [] {
      assert forall m: nat :: InMillisecond(g, readings, m) <= 0x1_0000;
    } else if !Accepts(g, readings[0]) {
      AdvanceIffFits(g, readings[1..]);
      assert forall m: nat :: InMillisecond(g, readings, m) == InMillisecond(g, readings[1..], m);
    } else if Advances(g, readings[0]) {
      FitsStep(g, readings);
      AdvanceIffFits(After(g, readings[0]), readings[1..]);
    } else {
      CountStampStep(g, readings, Millis(readings[0]));
      assert InMillisecond(g, readings, Millis(readings[0])) > 0x1_0000;
    }
  }

  /** Any time source, even one that steps backwards: the ids increase strictly exactly
      when no millisecond yields more than 65536 of them. The source must not answer the
      zero instant, which the generator takes for its own unset clock. */
  lemma IncreasingIffFitsSequence(w: WorkerId, readings: seq<Time>)
    requires ZERO_TIME !in readings
    ensures Increasing(Issue(Fresh(w), readings))
       <==> AtMost65536PerStamp(Issue(Fresh(w), readings))
  {
    FreshRunIncreasing(w, readings);
    if readings == [] {
      assert Issue(Fresh(w), readings) == [];
    } else {
      AdvanceIffFits(After(Fresh(w), readings[0]), readings[1..]);
      FirstReading(w, readings);
    }
  }

  lemma FirstReading(w: WorkerId, readings: seq<Time>)
    requires readings != []
    ensures FitsSequence(After(Fresh(w), readings[0]), readings[1..])
       <==> AtMost65536PerStamp(Issue(Fresh(w), readings))
  {
    var g, h, rest := Fresh(w), After(Fresh(w), readings[0]), readings[1..];
    var ids := Issue(g, readings);
    if FitsSequence(h, rest) {
      forall m: nat ensures CountStamp(ids, m) <= 0x1_0000 {
        CountStampStep(g, readings, m);
        assert InMillisecond(h, rest, m) <= 0x1_0000;
      }
    }
    if AtMost65536PerStamp(ids) {
      forall m: nat ensures InMillisecond(h, rest, m) <= 0x1_0000 {
        CountStampStep(g, readings, m);
        assert CountStamp(ids, m) <= 0x1_0000;
      }
    }
  }

  lemma {:induction false} SteadyCount(g: GenState, t: Time, n: nat, m: nat)
    requires g.currentTime == ZERO_TIME || Millis(g.currentTime) == Millis(t)
    ensures CountStamp(Issue(g, seq(n, _ => t)), m) == if m == Millis(t) then n else 0
    decreases n
  {
    hide Millis;
    var readings := seq(n, _ => t);
    if n > 0 {
      assert readings[1..] == seq(n - 1, _ => t);
      CountStampStep(g, readings, m);
      SteadyCount(After(g, t), t, n - 1, m);
    }
  }

  /** A clock that stands still: its ids increase exactly up to the 65536th. */
  lemma SteadyClockIncreases(w: WorkerId, t: Time, n: nat)
    requires t != ZERO_TIME
    ensures Increasing(Issue(Fresh(w), seq(n, _ => t))) <==> n <= 0x1_0000
  {
    hide Millis, Issue, Increasing;
    var ids := Issue(Fresh(w), seq(n, _ => t));
    IncreasingIffFitsSequence(w, seq(n, _ => t));
    forall m: nat ensures CountStamp(ids, m) == if m == Millis(t) then n else 0 {
      SteadyCount(Fresh(w), t, n, m);
    }
    assert CountStamp(ids, Millis(t)) == n;
  }

  /** A source stuck at the zero instant repeats one id. */
  lemma ZeroInstantRepeatsId(w: WorkerId)
    ensures var g := After(Fresh(w), ZERO_TIME);
            Accepts(g, ZERO_TIME) && LastId(After(g, ZERO_TIME)) == LastId(g)
  {
  }

  // ------------------------------------------- timestamps and their mirror

  /** NewGeneratorFromTime(t).NextId(): one id of a generator whose clock stands at t. */
  function TravelId(t: Time, w: WorkerId): Id {
    LastId(After(Fresh(w), t))
  }

  function ParseTimestamp(id: Id): Time {
    var ms := ToInt64(FromBigEndian(id[..8]));
    Unix(Quot(ms, 1000), Rem(ms, 1000) * MILLISECOND)
  }

  function ParseReverseTimestamp(id: Id): Time {
    var ms := ToInt64(FromBigEndian(id[..8]));
    var reverseTime := Unix(Quot(ms, 1000), 0);
    Unix(WholeSeconds(Sub(MAX_TIME, reverseTime)), 0)
  }

  /** The instant as far after the epoch as t is before MAX_TIME, to the second. */
  function ReverseTime(t: Time): Time {
    Unix(WholeSeconds(Sub(MAX_TIME, t)), 0)
  }

  function ReverseId(t: Time, w: WorkerId): Id {
    TravelId(ReverseTime(t), w)
  }

  /** The timestamp of an id gives back the clock reading exactly when the reading is a
      whole millisecond that 64 bits of nanoseconds can hold. */
  lemma {:induction false} ParseTimestampRecovers(id: Id, t: Time)
    requires Stamp(id) == Millis(t)
    ensures ParseTimestamp(id) == t <==> -0x8000_0000_0000_0000 <= t < 0x8000_0000_0000_0000 && t % MILLISECOND == 0
  {
    var q := Quot(UnixNano(t), MILLISECOND);
    assert ToInt64(ToUint64(q)) == q;
    assert ParseTimestamp(id) == q * MILLISECOND;
  }

  /** Seconds between an instant and MAX_TIME as the source computes them: clamped to
      what a Duration holds. */
  function SecondsToMax(s: int): (d: int)
    ensures -MAX_DURATION_SECONDS <= d <= MAX_DURATION_SECONDS
  {
    var d := MAX_TIME_SECONDS - s;
    if d > MAX_DURATION_SECONDS then MAX_DURATION_SECONDS
    else if d < -MAX_DURATION_SECONDS then -MAX_DURATION_SECONDS
    else d
  }

  /** The float sum is at most one second too large, and only in the last 1024 nanoseconds of
      a second. */
  lemma RoundsUpRarely(d: nat)
    requires d <= 0x8000_0000_0000_0000
    ensures d / SECOND <= RoundedSeconds(d) <= d / SECOND + 1
    ensures RoundedSeconds(d) == d / SECOND + 1 ==> d % SECOND >= SECOND - 1024
  {
    hide Binade;
  }

  function Pow2(e: nat): nat {
    if e == 0 then 1 else 2 * Pow2(e - 1)
  }

  lemma {:induction false} BinadeIs(n: nat, e: nat)
    requires Pow2(e) <= n < Pow2(e + 1)
    ensures n >= 1 && Binade(n) == Pow2(e)
  {
    if e == 0 {
      assert Pow2(1) == 2;
    } else {
      assert Pow2(e) == 2 * Pow2(e - 1) && Pow2(e + 1) == 2 * Pow2(e);
      BinadeIs(n / 2, e - 1);
    }
  }

  /** 64-bit floats from 2^e to 2^(e+1) are 2^(e-52) apart, so the sum goes up to the next second
      exactly when no more than half of that is missing. */
  lemma RoundsUpIff(d: nat, e: nat)
    requires Pow2(e) <= d / SECOND < Pow2(e + 1) && d <= 0x8000_0000_0000_0000
    ensures RoundedSeconds(d) == d / SECOND + 1 <==> (SECOND - d % SECOND) * TWO_TO_53 <= SECOND * Pow2(e)
  {
    BinadeIs(d / SECOND, e);
  }

  /** It never swaps two durations. */
  lemma WholeSecondsMonotone(d1: int, d2: int)
    requires d1 <= d2
    ensures WholeSeconds(d1) <= WholeSeconds(d2)
  {
    hide RoundedSeconds;
    if 0 <= d1 {
      RoundedMonotone(d1, d2);
    } else if d2 < 0 {
      RoundedMonotone(-d2, -d1);
    }
  }

  lemma RoundedMonotone(d1: nat, d2: nat)
    requires d1 <= d2
    ensures RoundedSeconds(d1) <= RoundedSeconds(d2)
  {
    hide Binade;
  }

  lemma SubExact(s: int)
    ensures WholeSeconds(Sub(MAX_TIME, s * SECOND)) == SecondsToMax(s)
  {
    hide Binade, RoundedSeconds;
    var d: int := Sub(MAX_TIME, s * SECOND);
    RoundsUpRarely(if d >= 0 then d else -d);
  }

  lemma ReverseTimeSeconds(s: int)
    ensures ReverseTime(s * SECOND) == SecondsToMax(s) * SECOND
  {
    hide WholeSeconds, Sub, SecondsToMax;
    SubExact(s);
  }

  /** A later instant, whole second or not, never gets the later mirror. */
  lemma ReverseTimeAntitone(t1: Time, t2: Time)
    requires t1 <= t2
    ensures ReverseTime(t2) <= ReverseTime(t1)
  {
    hide WholeSeconds;
    WholeSecondsMonotone(Sub(MAX_TIME, t2), Sub(MAX_TIME, t1));
  }

  lemma MillisOfSeconds(r: int)
    requires -MAX_DURATION_SECONDS <= r <= MAX_DURATION_SECONDS
    ensures Millis(r * SECOND) == ToUint64(r * 1000)
  {
    assert UnixNano(r * SECOND) == r * SECOND;
    assert r * SECOND == (r * 1000) * MILLISECOND;
    assert Quot((r * 1000) * MILLISECOND, MILLISECOND) == r * 1000;
  }

  lemma ReverseStamp(s: int, w: WorkerId)
    ensures Stamp(ReverseId(s * SECOND, w)) == ToUint64(SecondsToMax(s) * 1000)
  {
    hide Millis, ReverseTime, SecondsToMax, ToUint64;
    ReverseTimeSeconds(s);
    MillisOfSeconds(SecondsToMax(s));
    MakeIdStamp(Millis(ReverseTime(s * SECOND)), w, 0);
  }

  /** Reverse ids order whole seconds newest first exactly when neither instant is clamped
      onto the other's id and MAX_TIME does not lie between them. */
  lemma {:induction false} ReverseOrder(s1: int, w1: WorkerId, s2: int, w2: WorkerId)
    requires s1 < s2
    ensures Stamp(ReverseId(s2 * SECOND, w2)) < Stamp(ReverseId(s1 * SECOND, w1))
       <==> && MAX_TIME_SECONDS - MAX_DURATION_SECONDS < s2
            && s1 < MAX_TIME_SECONDS + MAX_DURATION_SECONDS
            && !(s1 <= MAX_TIME_SECONDS < s2)
  {
    hide ReverseId, Stamp;
    ReverseStamp(s1, w1);
    ReverseStamp(s2, w2);
  }

  /** Smaller timestamp bits sort first whatever the other ten bytes are. */
  lemma StampDecides(a: Id, b: Id)
    requires Stamp(a) < Stamp(b)
    ensures LexLess(a, b)
  {
    ValueOrder(a[..8], b[..8]);
    LexHeads(a[..8], a[8..], b[..8], b[8..]);
    assert a == a[..8] + a[8..] && b == b[..8] + b[8..];
  }

  /** From the epoch to MAX_TIME the duration is exact and newer sorts strictly first. */
  lemma {:induction false} ReverseOrderInRange(s1: int, w1: WorkerId, s2: int, w2: WorkerId)
    requires 0 <= s1 < s2 <= MAX_TIME_SECONDS
    ensures Sub(MAX_TIME, s1 * SECOND) == MAX_TIME - s1 * SECOND
    ensures LexLess(ReverseId(s2 * SECOND, w2), ReverseId(s1 * SECOND, w1))
  {
    ReverseOrder(s1, w1, s2, w2);
    StampDecides(ReverseId(s2 * SECOND, w2), ReverseId(s1 * SECOND, w1));
  }

  /** In range the id with the smaller mirrored time sorts first. */
  lemma {:induction false} ReverseIdFollowsTime(t1: Time, w1: WorkerId, t2: Time, w2: WorkerId)
    requires 0 <= t1 <= MAX_TIME && 0 <= t2 <= MAX_TIME
    ensures ReverseTime(t1) < ReverseTime(t2) ==> LexLess(ReverseId(t1, w1), ReverseId(t2, w2))
    ensures ReverseTime(t1) <= ReverseTime(t2) ==> Stamp(ReverseId(t1, w1)) <= Stamp(ReverseId(t2, w2))
  {
    hide ReverseTime, Millis, Stamp, LexLess;
    ReverseTimeBounds(t1);
    ReverseTimeBounds(t2);
    var r1, r2 := ReverseTime(t1), ReverseTime(t2);
    MakeIdStamp(Millis(r1), w1, 0);
    MakeIdStamp(Millis(r2), w2, 0);
    if r1 <= r2 {
      MillisMonotone(r1, r2);
    }
    if r1 < r2 {
      MillisStrict(t1, t2);
      StampDecides(ReverseId(t1, w1), ReverseId(t2, w2));
    }
  }

  /** Mirrored times are whole seconds, so different ones have different milliseconds. */
  lemma MillisStrict(t1: Time, t2: Time)
    requires 0 <= ReverseTime(t1) < ReverseTime(t2) <= MAX_TIME
    ensures Millis(ReverseTime(t1)) < Millis(ReverseTime(t2))
  {
    hide WholeSeconds, Millis, Sub;
    MillisInRange(ReverseTime(t1));
    MillisInRange(ReverseTime(t2));
  }

  /** For any dates between the epoch and MAX_TIME, fractions of seconds included, the later one
      never sorts behind: its timestamp bits are no larger. */
  lemma {:induction false} ReverseOrderWeak(t1: Time, w1: WorkerId, t2: Time, w2: WorkerId)
    requires 0 <= t1 <= t2 <= MAX_TIME
    ensures Stamp(ReverseId(t2, w2)) <= Stamp(ReverseId(t1, w1))
  {
    hide ReverseTime, ReverseId, Stamp;
    ReverseTimeAntitone(t1, t2);
    ReverseIdFollowsTime(t2, w2, t1, w1);
  }

  lemma {:induction false} BinadeGrows(n: nat)
    requires n >= 1
    ensures Binade(n) <= Binade(n + 1)
  {
    if n >= 2 && n % 2 == 1 {
      BinadeGrows(n / 2);
    }
  }

  /** One second later is at least one second more. */
  lemma WholeSecondsStep(d: int)
    requires 0 <= d
    ensures WholeSeconds(d) + 1 <= WholeSeconds(d + SECOND)
  {
    hide Binade;
    assert (d + SECOND) / SECOND == d / SECOND + 1 && (d + SECOND) % SECOND == d % SECOND;
    if d >= SECOND {
      BinadeGrows(d / SECOND);
    }
  }

  /** The mirror of an instant a second or more later is strictly smaller. */
  lemma ReverseTimeSecondLater(t1: Time, t2: Time)
    requires 0 <= t1 && t1 + SECOND <= t2 <= MAX_TIME
    ensures ReverseTime(t2) < ReverseTime(t1)
  {
    hide WholeSeconds;
    WholeSecondsStep(MAX_TIME - t2);
    WholeSecondsMonotone(MAX_TIME - t2 + SECOND, MAX_TIME - t1);
  }

  lemma ReverseTimeBounds(t: Time)
    requires 0 <= t <= MAX_TIME
    ensures 0 <= ReverseTime(t) <= MAX_TIME
  {
    hide WholeSeconds;
    WholeSecondsMonotone(Sub(MAX_TIME, t), Sub(MAX_TIME, 0));
    WholeSecondsMonotone(Sub(MAX_TIME, MAX_TIME), Sub(MAX_TIME, t));
    SubExact(0);
    SubExact(MAX_TIME_SECONDS);
  }

  lemma MillisMonotone(t1: Time, t2: Time)
    requires 0 <= t1 <= t2 <= MAX_TIME
    ensures Millis(t1) <= Millis(t2)
  {
    hide ToInt64, ToUint64;
    MillisInRange(t1);
    MillisInRange(t2);
  }

  lemma MillisInRange(t: Time)
    requires 0 <= t <= MAX_TIME
    ensures Millis(t) == t / MILLISECOND
  {
  }

  /** Two seconds share a reverse id exactly when both are clamped at one end: all dates up to
      1962-02-23 do. */
  lemma {:induction false} SameReverseId(s1: int, s2: int, w: WorkerId)
    ensures ReverseId(s1 * SECOND, w) == ReverseId(s2 * SECOND, w)
       <==> || s1 == s2
            || (s1 <= MAX_TIME_SECONDS - MAX_DURATION_SECONDS && s2 <= MAX_TIME_SECONDS - MAX_DURATION_SECONDS)
            || (s1 >= MAX_TIME_SECONDS + MAX_DURATION_SECONDS && s2 >= MAX_TIME_SECONDS + MAX_DURATION_SECONDS)
  {
    hide Millis, ReverseTime, Stamp;
    ReverseStamp(s1, w);
    ReverseStamp(s2, w);
    ReverseTimeSeconds(s1);
    ReverseTimeSeconds(s2);
  }

  lemma StampSecondsRecovered(r: int)
    requires -MAX_DURATION_SECONDS <= r <= MAX_DURATION_SECONDS
    ensures Quot(ToInt64(ToUint64(r * 1000)), 1000) == r
  {
    assert ToInt64(ToUint64(r * 1000)) == r * 1000;
  }

  /** A reverse id gives its second back exactly when both subtractions from MAX_TIME fit
      a Duration: from 1962-02-23 to 2262-04-11. */
  lemma {:induction false} ParseReverseTimestampRecovers(s: int, w: WorkerId)
    ensures ParseReverseTimestamp(ReverseId(s * SECOND, w)) == s * SECOND
       <==> MAX_TIME_SECONDS - MAX_DURATION_SECONDS <= s <= MAX_DURATION_SECONDS
  {
    hide ReverseId, ReverseTime, Sub, ToInt64, ToUint64, Quot;
    var id, r := ReverseId(s * SECOND, w), SecondsToMax(s);
    ReverseStamp(s, w);
    StampSecondsRecovered(r);
    ParseReverseIsReverseTime(id);
    ReverseTimeSeconds(r);
  }

  lemma ParseReverseIsReverseTime(id: Id)
    ensures ParseReverseTimestamp(id) == ReverseTime(Quot(ToInt64(Stamp(id)), 1000) * SECOND)
  {
    assert Unix(Quot(ToInt64(Stamp(id)), 1000), 0) == Quot(ToInt64(Stamp(id)), 1000) * SECOND;
  }
}
