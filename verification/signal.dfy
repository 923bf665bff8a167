/**
 The synthetic signal history: for every transmitter, seven days of 24
 hourly samples. Quality is a per-day base plus a per-hour jitter, forced to
 0 during the maintenance window, attenuated at night and clamped to
 [0, 100]. The random draws are explicit `DayDraw` parameters.
 */
module Signal {
  import opened Fleet
  import opened TableOps

  // The history covers 7 days of 24 hours: 168 samples per transmitter.

  /** Hours during which a transmitter under maintenance is off the air. */
  const BlackoutHours: set<int> := {2, 3, 4}

  /** Night hours, during which quality is multiplied by 0.9. */
  const NightHours: set<int> := {0, 1, 2, 3, 4, 5}

  /** `max(0, min(100, x))`. */
  function Clamp(x: real): (r: real)
    ensures 0.0 <= r <= 100.0
    ensures 0.0 <= x <= 100.0 ==> r == x
    ensures x <= 0.0 ==> r == 0.0
    ensures x >= 100.0 ==> r == 100.0
  {
    if x > 100.0 then 100.0 else if x < 0.0 then 0.0 else x
  }

  /** Clamping keeps the order of its arguments. */
  lemma ClampMonotone(x: real, y: real)
    requires x <= y
    ensures Clamp(x) <= Clamp(y)
  {
  }

  /**
   Quality (in %) at `hour` of a day whose base quality is `base`, with the
   hourly jitter `jitter`: in [0, 100], and exactly 0 during the maintenance
   window of a transmitter under maintenance, whatever the draws.
   */
  function HourlyQuality(status: Status, hour: int, base: real, jitter: real): (q: real)
    ensures 0.0 <= q <= 100.0
    ensures status == Maintenance && hour in BlackoutHours ==> q == 0.0
  {
    var raw := base + jitter;
    var afterBlackout := if status == Maintenance && hour in BlackoutHours then 0.0 else raw;
    var afterNight := if hour in NightHours then afterBlackout * 0.9 else afterBlackout;
    Clamp(afterNight)
  }

  /** With the same draws, a night hour never has better quality than a day hour. */
  lemma NightNeverBetter(status: Status, night: int, day: int, base: real, jitter: real)
    requires night in NightHours && day !in NightHours
    ensures HourlyQuality(status, night, base, jitter) <= HourlyQuality(status, day, base, jitter)
  {
    var raw := base + jitter;
    if !(status == Maintenance && night in BlackoutHours) {
      if raw >= 0.0 {
        ClampMonotone(raw * 0.9, raw);
      }
    }
  }

  /** The ranges of `random.uniform(70, 95)` and `random.uniform(-10, 10)`. */
  predicate ValidQualityDraw(base: real, jitter: real)
  {
    70.0 <= base <= 95.0 && -10.0 <= jitter <= 10.0
  }

  /**
   With draws in range, quality is 0 exactly in the maintenance window of a
   transmitter under maintenance; otherwise it lies in [60, 100] by day and
   in [54, 94.5] at night.
   */
  lemma QualityRanges(status: Status, hour: int, base: real, jitter: real)
    requires ValidQualityDraw(base, jitter)
    ensures HourlyQuality(status, hour, base, jitter) == 0.0 <==> status == Maintenance && hour in BlackoutHours
    ensures !(status == Maintenance && hour in BlackoutHours) && hour in NightHours
      ==> 54.0 <= HourlyQuality(status, hour, base, jitter) <= 94.5
    ensures hour !in NightHours ==> 60.0 <= HourlyQuality(status, hour, base, jitter) <= 100.0
  {
  }

  /** One hourly sample (`date` is kept as the number of days before now). */
  datatype Sample = Sample(emitterId: string, day: nat, hour: nat, quality: real, power: real)

  /** The draws for one transmitter and one day: a base quality, then per hour a jitter and a power factor. */
  datatype DayDraw = DayDraw(base: real, jitters: seq<real>, powerFactors: seq<real>)

  predicate Shaped(d: DayDraw)
  {
    |d.jitters| == 24 && |d.powerFactors| == 24
  }

  predicate ValidDayDraw(d: DayDraw)
  {
    && Shaped(d)
    && 70.0 <= d.base <= 95.0
    && (forall h :: 0 <= h < |d.jitters| ==> -10.0 <= d.jitters[h] <= 10.0)
    && (forall h :: 0 <= h < |d.powerFactors| ==> 0.9 <= d.powerFactors[h] <= 1.1)
  }

  /** The sample of transmitter `e` on `day` at `hour`. */
  function HourSample(e: Emitter, day: nat, d: DayDraw, hour: nat): Sample
    requires Shaped(d) && hour < 24
  {
    Sample(e.id, day, hour, HourlyQuality(e.status, hour, d.base, d.jitters[hour]), (e.power as real) * d.powerFactors[hour])
  }

  /** The 24 samples of one day, hour 0 first. */
  function DaySamples(e: Emitter, day: nat, d: DayDraw): seq<Sample>
    requires Shaped(d)
  {
    seq(24, h requires 0 <= h < 24 => HourSample(e, day, d, h))
  }

  /**
   The history of one transmitter, day after day: sample `i` is hour
   `i % 24` of day `i / 24`.
   */
  function EmitterHistory(e: Emitter, days: seq<DayDraw>): (r: seq<Sample>)
    requires forall k :: 0 <= k < |days| ==> Shaped(days[k])
    ensures |r| == 24 * |days|
    ensures forall i :: 0 <= i < |r| ==> r[i] == HourSample(e, i / 24, days[i / 24], i % 24)
  {
    if |days| == 0 then []
    else
      var n := |days| - 1;
      var prefix := EmitterHistory(e, days[..n]);
      var last := DaySamples(e, n, days[n]);
      assert forall i :: 0 <= i < |prefix| ==> prefix[i] == HourSample(e, i / 24, days[i / 24], i % 24);
      prefix + last
  }

  /** The draws for a fleet: seven well-shaped days per transmitter. */
  predicate ShapedDraws(es: seq<Emitter>, draws: seq<seq<DayDraw>>)
  {
    && |draws| == |es|
    && (forall k :: 0 <= k < |draws| ==> |draws[k]| == 7)
    && (forall k, d :: 0 <= k < |draws| && 0 <= d < |draws[k]| ==> Shaped(draws[k][d]))
  }

  /**
   The whole history table, transmitter after transmitter: 168 rows each,
   row `i` being row `i % 168` of transmitter `i / 168`'s history.
   */
  function History(es: seq<Emitter>, draws: seq<seq<DayDraw>>): (r: seq<Sample>)
    requires ShapedDraws(es, draws)
    ensures |r| == 168 * |es|
    ensures forall i :: 0 <= i < |r| ==> r[i] == EmitterHistory(es[i / 168], draws[i / 168])[i % 168]
  {
    if |es| == 0 then []
    else
      var n := |es| - 1;
      var prefix := History(es[..n], draws[..n]);
      HistoryStep(es, draws, prefix);
      prefix + EmitterHistory(es[n], draws[n])
  }

  /** The index formula of `History` carries over from all but the last transmitter to the whole fleet. */
  lemma HistoryStep(es: seq<Emitter>, draws: seq<seq<DayDraw>>, prefix: seq<Sample>)
    requires ShapedDraws(es, draws) && |es| > 0
    requires |prefix| == 168 * (|es| - 1)
    requires forall i :: 0 <= i < |prefix| ==> prefix[i] == EmitterHistory(es[i / 168], draws[i / 168])[i % 168]
    ensures var r := prefix + EmitterHistory(es[|es| - 1], draws[|es| - 1]);
      forall i :: 0 <= i < |r| ==> r[i] == EmitterHistory(es[i / 168], draws[i / 168])[i % 168]
  {
    var n := |es| - 1;
    var r := prefix + EmitterHistory(es[n], draws[n]);
    forall i | 0 <= i < |r|
      ensures r[i] == EmitterHistory(es[i / 168], draws[i / 168])[i % 168]
    {
      BlockIndex(i, n);
    }
  }

  /** Row `i` of a table of `n + 1` blocks of 168 lies in block `i / 168`, at offset `i % 168`. */
  lemma BlockIndex(i: nat, n: nat)
    requires i < 168 * (n + 1)
    ensures i < 168 * n ==> i / 168 < n
    ensures i >= 168 * n ==> i / 168 == n && i % 168 == i - 168 * n
  {
  }

  /** Every row of the history: day in 0..6, hour in 0..23, quality in [0, 100], and the row's transmitter. */
  lemma HistoryRows(es: seq<Emitter>, draws: seq<seq<DayDraw>>, i: nat)
    requires ShapedDraws(es, draws)
    requires i < |History(es, draws)|
    ensures var s := History(es, draws)[i];
      && s.emitterId == es[i / 168].id
      && s.day < 7 && s.hour < 24
      && 0.0 <= s.quality <= 100.0
      && (es[i / 168].status == Maintenance && s.hour in BlackoutHours ==> s.quality == 0.0)
  {
    var k, j := i / 168, i % 168;
    var h := EmitterHistory(es[k], draws[k]);
    assert History(es, draws)[i] == h[j];
    assert h[j] == HourSample(es[k], j / 24, draws[k][j / 24], j % 24);
  }

  /**
   With every draw in range, a history row has quality 0 exactly in the
   maintenance window of a transmitter under maintenance, at least 54
   otherwise, and a sampled power within 10 % of the transmitter's power.
   */
  lemma HistoryRanges(es: seq<Emitter>, draws: seq<seq<DayDraw>>, i: nat)
    requires ShapedDraws(es, draws)
    requires forall k, d :: 0 <= k < |draws| && 0 <= d < |draws[k]| ==> ValidDayDraw(draws[k][d])
    requires i < |History(es, draws)|
    ensures var s, e := History(es, draws)[i], es[i / 168];
      && (s.quality == 0.0 <==> e.status == Maintenance && s.hour in BlackoutHours)
      && (s.quality != 0.0 ==> s.quality >= 54.0)
      && (e.power >= 0 ==> 0.9 * (e.power as real) <= s.power <= 1.1 * (e.power as real))
  {
    var k, j := i / 168, i % 168;
    var day, hour := j / 24, j % 24;
    var h := EmitterHistory(es[k], draws[k]);
    assert History(es, draws)[i] == h[j];
    assert h[j] == HourSample(es[k], day, draws[k][day], hour);
    SampleRanges(es[k], day, draws[k][day], hour);
  }

  /** The ranges of one sample drawn in range. */
  lemma SampleRanges(e: Emitter, day: nat, d: DayDraw, hour: nat)
    requires ValidDayDraw(d) && hour < 24
    ensures var s := HourSample(e, day, d, hour);
      && (s.quality == 0.0 <==> e.status == Maintenance && s.hour in BlackoutHours)
      && (s.quality != 0.0 ==> s.quality >= 54.0)
      && (e.power >= 0 ==> 0.9 * (e.power as real) <= s.power <= 1.1 * (e.power as real))
  {
    QualityRanges(e.status, hour, d.base, d.jitters[hour]);
    PowerFactorBounds(e.power as real, d.powerFactors[hour]);
  }

  lemma PowerFactorBounds(power: real, factor: real)
    requires 0.9 <= factor <= 1.1
    ensures power >= 0.0 ==> 0.9 * power <= power * factor <= 1.1 * power
  {
    if power >= 0.0 {
      assert power * factor - 0.9 * power == power * (factor - 0.9);
      assert 1.1 * power - power * factor == power * (1.1 - factor);
    }
  }

  /** All identifiers of the fleet are distinct. */
  predicate DistinctIds(es: seq<Emitter>)
  {
    forall a, b :: 0 <= a < |es| && 0 <= b < |es| && a != b ==> es[a].id != es[b].id
  }

  /** Mask selecting the rows of one transmitter. */
  function OfEmitter(id: string): Sample -> bool
  {
    (s: Sample) => s.emitterId == id
  }

  /**
   With distinct identifiers, a transmitter under maintenance has quality 0
   in every history row at hours 2, 3 and 4, on every day.
   */
  lemma MaintenanceBlackout(es: seq<Emitter>, draws: seq<seq<DayDraw>>, k: nat, i: nat)
    requires ShapedDraws(es, draws) && DistinctIds(es)
    requires k < |es| && es[k].status == Maintenance
    requires i < |History(es, draws)|
    requires History(es, draws)[i].emitterId == es[k].id && History(es, draws)[i].hour in BlackoutHours
    ensures History(es, draws)[i].quality == 0.0
  {
    HistoryRows(es, draws, i);
  }

  /** Selecting a transmitter's own identifier from its history keeps every row. */
  lemma OwnRows(e: Emitter, days: seq<DayDraw>)
    requires forall k :: 0 <= k < |days| ==> Shaped(days[k])
    ensures |Select(EmitterHistory(e, days), OfEmitter(e.id))| == 24 * |days|
  {
    var r := EmitterHistory(e, days);
    assert forall i :: 0 <= i < |r| ==> OfEmitter(e.id)(r[i]);
    SelectKeepsAll(r, OfEmitter(e.id));
  }

  /** Selecting another identifier from a transmitter's history keeps nothing. */
  lemma ForeignRows(e: Emitter, days: seq<DayDraw>, id: string)
    requires forall k :: 0 <= k < |days| ==> Shaped(days[k])
    requires e.id != id
    ensures |Select(EmitterHistory(e, days), OfEmitter(id))| == 0
  {
    var r := EmitterHistory(e, days);
    assert forall i :: 0 <= i < |r| ==> !OfEmitter(id)(r[i]);
    SelectKeepsNone(r, OfEmitter(id));
  }

  /** A fleet's history holds no row of an identifier outside the fleet. */
  lemma {:induction false} HistoryForeignId(es: seq<Emitter>, draws: seq<seq<DayDraw>>, id: string)
    requires ShapedDraws(es, draws)
    requires forall k :: 0 <= k < |es| ==> es[k].id != id
    ensures |Select(History(es, draws), OfEmitter(id))| == 0
  {
    if |es| > 0 {
      var n := |es| - 1;
      HistoryUnfold(es, draws);
      HistoryForeignId(es[..n], draws[..n], id);
      ForeignRows(es[n], draws[n], id);
      SelectAppend(History(es[..n], draws[..n]), EmitterHistory(es[n], draws[n]), OfEmitter(id));
    }
  }

  /** The history of a non-empty fleet is the history of all but the last transmitter, then the last one's. */
  lemma HistoryUnfold(es: seq<Emitter>, draws: seq<seq<DayDraw>>)
    requires ShapedDraws(es, draws) && |es| > 0
    ensures ShapedDraws(es[..|es| - 1], draws[..|es| - 1])
    ensures History(es, draws) == History(es[..|es| - 1], draws[..|es| - 1]) + EmitterHistory(es[|es| - 1], draws[|es| - 1])
  {
  }

  /** With distinct identifiers, the last transmitter's rows all lie in its own history. */
  lemma LastEmitterRows(es: seq<Emitter>, draws: seq<seq<DayDraw>>)
    requires ShapedDraws(es, draws) && DistinctIds(es) && |es| > 0
    requires ShapedDraws(es[..|es| - 1], draws[..|es| - 1])
    ensures |Select(History(es[..|es| - 1], draws[..|es| - 1]), OfEmitter(es[|es| - 1].id))| == 0
    ensures |Select(EmitterHistory(es[|es| - 1], draws[|es| - 1]), OfEmitter(es[|es| - 1].id))| == 168
  {
    var n := |es| - 1;
    DistinctIdsPrefix(es);
    assert forall j :: 0 <= j < n ==> es[..n][j] == es[j];
    HistoryForeignId(es[..n], draws[..n], es[n].id);
    OwnRows(es[n], draws[n]);
  }

  /** The rows of `id` in the history: those before the last transmitter's, plus the last one's. */
  lemma HistorySplitCount(es: seq<Emitter>, draws: seq<seq<DayDraw>>, id: string)
    requires ShapedDraws(es, draws) && |es| > 0
    ensures ShapedDraws(es[..|es| - 1], draws[..|es| - 1])
    ensures |Select(History(es, draws), OfEmitter(id))| ==
              |Select(History(es[..|es| - 1], draws[..|es| - 1]), OfEmitter(id))| +
              |Select(EmitterHistory(es[|es| - 1], draws[|es| - 1]), OfEmitter(id))|
  {
    var n := |es| - 1;
    HistoryUnfold(es, draws);
    SelectAppend(History(es[..n], draws[..n]), EmitterHistory(es[n], draws[n]), OfEmitter(id));
  }

  /** Dropping the last transmitter keeps identifiers distinct, and none of the rest has the last one's. */
  lemma DistinctIdsPrefix(es: seq<Emitter>)
    requires DistinctIds(es) && |es| > 0
    ensures DistinctIds(es[..|es| - 1])
    ensures forall j :: 0 <= j < |es| - 1 ==> es[j].id != es[|es| - 1].id
  {
  }

  /** With distinct identifiers, every transmitter has exactly 7 × 24 = 168 rows in the history. */
  lemma {:induction false} RowsPerEmitter(es: seq<Emitter>, draws: seq<seq<DayDraw>>, k: nat)
    requires ShapedDraws(es, draws) && DistinctIds(es)
    requires k < |es|
    ensures |Select(History(es, draws), OfEmitter(es[k].id))| == 168
  {
    var n := |es| - 1;
    var id := es[k].id;
    HistorySplitCount(es, draws, id);
    DistinctIdsPrefix(es);
    if k == n {
      LastEmitterRows(es, draws);
    } else {
      assert es[..n][k] == es[k];
      RowsPerEmitter(es[..n], draws[..n], k);
      ForeignRows(es[n], draws[n], id);
    }
  }
}
