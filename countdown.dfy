/**
 * The countdown hook (src/hooks/useCountdown.ts) with the clock passed in: the
 * split of a millisecond difference into days, hours, minutes and seconds, the
 * multi-target loop, the expiry/change callbacks, and the two formatters.
 * Times are integer milliseconds.
 */
module Countdown {
  import opened Wrappers
  import Strings
  import Collections
  import opened Arith

  const MsPerSecond: int := 1000
  const MsPerMinute: int := 60 * 1000
  const MsPerHour: int := 60 * 60 * 1000
  const MsPerDay: int := 24 * 60 * 60 * 1000

  datatype CountdownResult = CountdownResult(
    days: int, hours: int, minutes: int, seconds: int, isExpired: bool, totalSeconds: int)

  /** The all-zero result returned once the target has been reached. */
  const Expired: CountdownResult := CountdownResult(0, 0, 0, 0, true, 0)

  /** Hours, minutes and seconds lie in their clock ranges and days are non-negative. */
  predicate InRange(c: CountdownResult) {
    c.days >= 0 && 0 <= c.hours < 24 && 0 <= c.minutes < 60 && 0 <= c.seconds < 60
  }

  /** The number of whole seconds the four fields add up to. */
  function SecondsOf(c: CountdownResult): int {
    c.days * 86400 + c.hours * 3600 + c.minutes * 60 + c.seconds
  }

  /**
   * Splitting `d` milliseconds with floor/mod by day, hour, minute and second
   * yields in-range fields that lose only the sub-second rest.
   */
  lemma Decompose(d: int)
    requires d >= 0
    ensures 0 <= (d % MsPerDay) / MsPerHour < 24
    ensures 0 <= (d % MsPerHour) / MsPerMinute < 60
    ensures 0 <= (d % MsPerMinute) / MsPerSecond < 60
    ensures (d / MsPerDay) * 86400 + ((d % MsPerDay) / MsPerHour) * 3600
            + ((d % MsPerHour) / MsPerMinute) * 60 + (d % MsPerMinute) / MsPerSecond == d / MsPerSecond
  {
    var t, ms := d / 1000, d % 1000;
    var D, r1 := t / 86400, t % 86400;
    var H, r2 := r1 / 3600, r1 % 3600;
    var M, S := r2 / 60, r2 % 60;
    assert t == 86400 * D + 3600 * H + 60 * M + S;
    var rest1 := 3600000 * H + 60000 * M + 1000 * S + ms;
    DivModUnique(d, 86400000, D, rest1);
    DivModUnique(rest1, 3600000, H, 60000 * M + 1000 * S + ms);
    DivModUnique(d, 3600000, 24 * D + H, 60000 * M + 1000 * S + ms);
    DivModUnique(60000 * M + 1000 * S + ms, 60000, M, 1000 * S + ms);
    DivModUnique(d, 60000, 1440 * D + 60 * H + M, 1000 * S + ms);
    DivModUnique(1000 * S + ms, 1000, S, ms);
  }

  /**
   * `calculateTimeLeft`: time from `now` to `target`.  At or after the target the
   * result is `Expired`; before it, the fields are the floor/mod split of the
   * difference and add up to `totalSeconds`, the whole seconds left.
   */
  function CalculateTimeLeft(target: int, now: int): (r: CountdownResult)
    ensures r.isExpired <==> target - now <= 0
    ensures r.isExpired ==> r == Expired
    ensures !r.isExpired ==> InRange(r) && r.totalSeconds == (target - now) / 1000 && SecondsOf(r) == r.totalSeconds
  {
    var difference := target - now;
    if difference <= 0 then Expired
    else
      Decompose(difference);
      CountdownResult(
        difference / MsPerDay,
        (difference % MsPerDay) / MsPerHour,
        (difference % MsPerHour) / MsPerMinute,
        (difference % MsPerMinute) / MsPerSecond,
        false,
        difference / MsPerSecond)
  }

  /** Less than a second before the target the countdown shows zeros but is not yet expired. */
  lemma LastSecondNotExpired(target: int, now: int)
    requires 0 < target - now < 1000
    ensures CalculateTimeLeft(target, now) == CountdownResult(0, 0, 0, 0, false, 0)
  {
  }

  // ---------------------------------------------------------------- useMultipleCountdowns

  datatype DatedId = DatedId(id: string, date: int)

  /** The `(id, result)` assignments `calculateAll` makes, in order. */
  function Assignments(dates: seq<DatedId>, now: int): seq<(string, CountdownResult)> {
    seq(|dates|, i requires 0 <= i < |dates| => (dates[i].id, CalculateTimeLeft(dates[i].date, now)))
  }

  /**
   * The `calculateAll` pass of `useMultipleCountdowns`: a record keyed by id.  Every
   * listed id has an entry, and an id's entry is the single-target result for the
   * last date listed under it.
   */
  method CalculateAll(dates: seq<DatedId>, now: int) returns (results: map<string, CountdownResult>)
    ensures results.Keys == set i | 0 <= i < |dates| :: dates[i].id
    ensures forall i :: 0 <= i < |dates| && (forall j :: i < j < |dates| ==> dates[j].id != dates[i].id) ==>
              results[dates[i].id] == CalculateTimeLeft(dates[i].date, now)
  {
    ghost var pairs := Assignments(dates, now);
    results := map[];
    var k := 0;
    while k < |dates|
      invariant 0 <= k <= |dates|
      invariant results == Collections.LastWins(pairs[..k])
    {
      var difference := dates[k].date - now;
      var r: CountdownResult;
      if difference <= 0 {
        r := Expired;
      } else {
        r := CountdownResult(
          difference / MsPerDay,
          (difference % MsPerDay) / MsPerHour,
          (difference % MsPerHour) / MsPerMinute,
          (difference % MsPerMinute) / MsPerSecond,
          false,
          difference / MsPerSecond);
      }
      assert r == CalculateTimeLeft(dates[k].date, now);
      assert pairs[..k + 1][..k] == pairs[..k];
      results := results[dates[k].id := r];
      k := k + 1;
    }
    assert pairs[..|dates|] == pairs;
    assert (set i | 0 <= i < |pairs| :: pairs[i].0) == (set i | 0 <= i < |dates| :: dates[i].id) by {
      forall i | 0 <= i < |dates| ensures pairs[i].0 == dates[i].id { }
    }
    forall i | 0 <= i < |dates| && (forall j :: i < j < |dates| ==> dates[j].id != dates[i].id)
      ensures results[dates[i].id] == CalculateTimeLeft(dates[i].date, now)
    {
      Collections.LastWinsAt(pairs, i);
    }
  }

  // ---------------------------------------------------------------- useCountdownWithCallbacks

  /** Which callbacks one run of the effect fires: `onExpire`, and the changed minute, hour and day values. */
  datatype Fired = Fired(expire: bool, minute: Option<int>, hour: Option<int>, day: Option<int>)

  const NothingFired: Fired := Fired(false, None, None, None)

  /**
   * One run of the effect in `useCountdownWithCallbacks`, given the previously
   * remembered result (`None` before the first run) and the current one.  The
   * first run only remembers; later runs compare with the remembered result.
   */
  function OnUpdate(prev: Option<CountdownResult>, cur: CountdownResult): (f: Fired)
    ensures prev.None? ==> f == NothingFired
    ensures f.expire <==> prev.Some? && cur.isExpired && !prev.value.isExpired
    ensures f.minute.Some? <==> prev.Some? && cur.minutes != prev.value.minutes
    ensures f.minute.Some? ==> f.minute.value == cur.minutes
    ensures f.hour.Some? <==> prev.Some? && cur.hours != prev.value.hours
    ensures f.hour.Some? ==> f.hour.value == cur.hours
    ensures f.day.Some? <==> prev.Some? && cur.days != prev.value.days
    ensures f.day.Some? ==> f.day.value == cur.days
  {
    match prev
    case None => NothingFired
    case Some(p) =>
      Fired(
        cur.isExpired && !p.isExpired,
        if cur.minutes != p.minutes then Some(cur.minutes) else None,
        if cur.hours != p.hours then Some(cur.hours) else None,
        if cur.days != p.days then Some(cur.days) else None)
  }

  /** How many times `onExpire` fires while the hook observes `trace`, having remembered `prev`. */
  function ExpireCount(prev: Option<CountdownResult>, trace: seq<CountdownResult>): (n: nat)
    ensures n <= |trace|
    ensures prev.None? && |trace| > 0 ==> n == ExpireCount(Some(trace[0]), trace[1..])
    decreases |trace|
  {
    if |trace| == 0 then 0
    else (if OnUpdate(prev, trace[0]).expire then 1 else 0) + ExpireCount(Some(trace[0]), trace[1..])
  }

  /** Once a result in the trace is expired, every later one is. */
  predicate StaysExpired(trace: seq<CountdownResult>) {
    forall i, j :: 0 <= i < j < |trace| && trace[i].isExpired ==> trace[j].isExpired
  }

  /**
   * Along a trace that stays expired once expired, `onExpire` fires exactly once
   * if the first result compared (the remembered one, else the trace's first) is
   * not expired and the last one is, and never otherwise.
   */
  lemma {:induction false} ExpireFiresOnTransition(prev: Option<CountdownResult>, trace: seq<CountdownResult>)
    requires StaysExpired(trace)
    requires |trace| > 0
    requires prev.Some? && prev.value.isExpired ==> trace[0].isExpired
    ensures var first := if prev.Some? then prev.value else trace[0];
            ExpireCount(prev, trace) == if !first.isExpired && trace[|trace| - 1].isExpired then 1 else 0
    decreases |trace|
  {
    if |trace| > 1 {
      ExpireFiresOnTransition(Some(trace[0]), trace[1..]);
    }
  }

  /** Observing one target at non-decreasing clock readings gives a trace that stays expired. */
  lemma ClockTraceStaysExpired(target: int, nows: seq<int>)
    requires forall i, j :: 0 <= i < j < |nows| ==> nows[i] <= nows[j]
    ensures StaysExpired(seq(|nows|, i requires 0 <= i < |nows| => CalculateTimeLeft(target, nows[i])))
  {
  }

  /**
   * Watching one target from the first render, with the clock never going back,
   * `onExpire` fires at most once, and exactly once when the first result was not
   * expired and the last one is.
   */
  lemma ExpireFiresAtMostOnce(target: int, nows: seq<int>)
    requires |nows| > 0
    requires forall i, j :: 0 <= i < j < |nows| ==> nows[i] <= nows[j]
    ensures var trace := seq(|nows|, i requires 0 <= i < |nows| => CalculateTimeLeft(target, nows[i]));
            ExpireCount(None, trace) == (if !trace[0].isExpired && trace[|nows| - 1].isExpired then 1 else 0)
  {
    var trace := seq(|nows|, i requires 0 <= i < |nows| => CalculateTimeLeft(target, nows[i]));
    ClockTraceStaysExpired(target, nows);
    ExpireFiresOnTransition(None, trace);
  }

  // ---------------------------------------------------------------- formatCountdown

  datatype Labels = Labels(days: Option<string>, hours: Option<string>, minutes: Option<string>, seconds: Option<string>)

  datatype FormatOptions = FormatOptions(showSeconds: Option<bool>, compact: Option<bool>, labels: Option<Labels>)

  datatype TimeUnit = Days | Hours | Minutes | Seconds

  /** Whether `formatCountdown` prints the part for `u`. */
  predicate Shown(u: TimeUnit, c: CountdownResult, showSeconds: bool, compact: bool) {
    match u
    case Days => compact || c.days > 0
    case Hours => compact || c.hours > 0 || c.days > 0
    case Minutes => true
    case Seconds => showSeconds
  }

  /** The units printed, largest first. */
  function ShownUnits(c: CountdownResult, showSeconds: bool, compact: bool): (units: seq<TimeUnit>)
  {
    var withDays := if Shown(Days, c, showSeconds, compact) then [Days] else [];
    var withHours := if Shown(Hours, c, showSeconds, compact) then withDays + [Hours] else withDays;
    var withMinutes := if Shown(Minutes, c, showSeconds, compact) then withHours + [Minutes] else withHours;
    if Shown(Seconds, c, showSeconds, compact) then withMinutes + [Seconds] else withMinutes
  }

  function ValueOf(c: CountdownResult, u: TimeUnit): int {
    match u
    case Days => c.days
    case Hours => c.hours
    case Minutes => c.minutes
    case Seconds => c.seconds
  }

  /** The label for `u`: the caller's, or the default for the chosen style. */
  function LabelOf(labels: Labels, u: TimeUnit, compact: bool): string {
    match u
    case Days => labels.days.GetOr(if compact then "d" else "hari")
    case Hours => labels.hours.GetOr(if compact then "h" else "jam")
    case Minutes => labels.minutes.GetOr(if compact then "m" else "menit")
    case Seconds => labels.seconds.GetOr(if compact then "s" else "detik")
  }

  /** One printed part: value and label, glued in the compact style, space-separated otherwise. */
  function PartOf(c: CountdownResult, labels: Labels, u: TimeUnit, compact: bool): string {
    if compact then Strings.IntToString(ValueOf(c, u)) + LabelOf(labels, u, compact)
    else Strings.IntToString(ValueOf(c, u)) + " " + LabelOf(labels, u, compact)
  }

  /** One part per unit of `units`, in the same order. */
  function PartsOf(c: CountdownResult, labels: Labels, units: seq<TimeUnit>, compact: bool): (parts: seq<string>)
    ensures |parts| == |units|
  {
    if |units| == 0 then [] else PartsOf(c, labels, units[..|units| - 1], compact) + [PartOf(c, labels, units[|units| - 1], compact)]
  }

  lemma PartsOfSnoc(c: CountdownResult, labels: Labels, units: seq<TimeUnit>, u: TimeUnit, compact: bool)
    ensures PartsOf(c, labels, units + [u], compact) == PartsOf(c, labels, units, compact) + [PartOf(c, labels, u, compact)]
  {
    assert (units + [u])[..|units|] == units;
  }

  /** The parts `formatCountdown` joins, one per shown unit. */
  function Parts(c: CountdownResult, labels: Labels, showSeconds: bool, compact: bool): (parts: seq<string>)
    ensures |parts| == |ShownUnits(c, showSeconds, compact)|
  {
    PartsOf(c, labels, ShownUnits(c, showSeconds, compact), compact)
  }

  /** The part for `u` when `shown` holds, nothing otherwise. */
  function OptPart(shown: bool, c: CountdownResult, labels: Labels, u: TimeUnit, compact: bool): seq<string> {
    if shown then [PartOf(c, labels, u, compact)] else []
  }

  lemma PartsOfOpt(c: CountdownResult, labels: Labels, units: seq<TimeUnit>, shown: bool, u: TimeUnit, compact: bool)
    ensures PartsOf(c, labels, if shown then units + [u] else units, compact)
            == PartsOf(c, labels, units, compact) + OptPart(shown, c, labels, u, compact)
  {
    if shown {
      PartsOfSnoc(c, labels, units, u, compact);
    }
  }

  /** The parts, unit by unit: each present exactly when it is shown, largest unit first. */
  lemma PartsSpelledOut(c: CountdownResult, labels: Labels, showSeconds: bool, compact: bool)
    ensures Parts(c, labels, showSeconds, compact)
            == OptPart(Shown(Days, c, showSeconds, compact), c, labels, Days, compact)
             + OptPart(Shown(Hours, c, showSeconds, compact), c, labels, Hours, compact)
             + [PartOf(c, labels, Minutes, compact)]
             + OptPart(showSeconds, c, labels, Seconds, compact)
  {
    var d := Shown(Days, c, showSeconds, compact);
    var h := Shown(Hours, c, showSeconds, compact);
    var withDays := if d then [Days] else [];
    var withHours := if h then withDays + [Hours] else withDays;
    var withMinutes := withHours + [Minutes];
    assert [] + [Days] == [Days];
    PartsOfOpt(c, labels, [], d, Days, compact);
    PartsOfOpt(c, labels, withDays, h, Hours, compact);
    PartsOfSnoc(c, labels, withHours, Minutes, compact);
    PartsOfOpt(c, labels, withMinutes, showSeconds, Seconds, compact);
    assert ShownUnits(c, showSeconds, compact) == if showSeconds then withMinutes + [Seconds] else withMinutes;
  }

  /**
   * `formatCountdown`.  Omitted options default to showing seconds, the long
   * style and the Indonesian labels; the parts are joined by a space in the
   * compact style and by a comma and a space otherwise.
   */
  method FormatCountdown(c: CountdownResult, options: Option<FormatOptions>) returns (s: string)
    ensures var o := options.GetOr(FormatOptions(None, None, None));
            var showSeconds := o.showSeconds.GetOr(true);
            var compact := o.compact.GetOr(false);
            var labels := o.labels.GetOr(Labels(None, None, None, None));
            s == Strings.Join(Parts(c, labels, showSeconds, compact), if compact then " " else ", ")
  {
    var o := options.GetOr(FormatOptions(None, None, None));
    var showSeconds := o.showSeconds.GetOr(true);
    var compact := o.compact.GetOr(false);
    var labels := o.labels.GetOr(Labels(None, None, None, None));
    if compact {
      var parts := CompactParts(c, labels, showSeconds);
      s := Strings.Join(parts, " ");
    } else {
      var parts := LongParts(c, labels, showSeconds);
      s := Strings.Join(parts, ", ");
    }
  }

  /** The compact style: days, hours and minutes always, then the seconds when asked for. */
  method CompactParts(c: CountdownResult, labels: Labels, showSeconds: bool) returns (parts: seq<string>)
    ensures parts == Parts(c, labels, showSeconds, true)
  {
    var days := Strings.IntToString(c.days) + LabelOf(labels, Days, true);
    var hours := Strings.IntToString(c.hours) + LabelOf(labels, Hours, true);
    var minutes := Strings.IntToString(c.minutes) + LabelOf(labels, Minutes, true);
    parts := [days, hours, minutes];
    if showSeconds {
      parts := parts + [Strings.IntToString(c.seconds) + LabelOf(labels, Seconds, true)];
    }
    PartsSpelledOut(c, labels, showSeconds, true);
    assert parts == [PartOf(c, labels, Days, true)] + [PartOf(c, labels, Hours, true)] + [PartOf(c, labels, Minutes, true)]
                    + OptPart(showSeconds, c, labels, Seconds, true);
  }

  /**
   * The long style: days only when there are some, hours when there are some
   * or there are days, minutes always, then the seconds when asked for.
   */
  method LongParts(c: CountdownResult, labels: Labels, showSeconds: bool) returns (parts: seq<string>)
    ensures parts == Parts(c, labels, showSeconds, false)
  {
    parts := [];
    if c.days > 0 {
      parts := parts + [Strings.IntToString(c.days) + " " + LabelOf(labels, Days, false)];
    }
    ghost var withDays := parts;
    if c.hours > 0 || c.days > 0 {
      parts := parts + [Strings.IntToString(c.hours) + " " + LabelOf(labels, Hours, false)];
    }
    ghost var withHours := parts;
    parts := parts + [Strings.IntToString(c.minutes) + " " + LabelOf(labels, Minutes, false)];
    ghost var withMinutes := parts;
    if showSeconds {
      parts := parts + [Strings.IntToString(c.seconds) + " " + LabelOf(labels, Seconds, false)];
    }
    PartsSpelledOut(c, labels, showSeconds, false);
    assert withDays == OptPart(Shown(Days, c, showSeconds, false), c, labels, Days, false);
    assert withHours == withDays + OptPart(Shown(Hours, c, showSeconds, false), c, labels, Hours, false);
    assert withMinutes == withHours + [PartOf(c, labels, Minutes, false)];
    assert parts == withMinutes + OptPart(showSeconds, c, labels, Seconds, false);
  }

  /** The compact style always prints days, hours and minutes, and seconds when asked: 3 or 4 parts. */
  lemma CompactPartCount(c: CountdownResult, labels: Labels, showSeconds: bool)
    ensures ShownUnits(c, showSeconds, true) == [Days, Hours, Minutes] + (if showSeconds then [Seconds] else [])
    ensures |Parts(c, labels, showSeconds, true)| == if showSeconds then 4 else 3
  {
  }

  /**
   * The long style always prints minutes, prints hours exactly when hours or days
   * are positive, and days exactly when days are positive.
   */
  lemma LongStyleParts(c: CountdownResult, showSeconds: bool)
    ensures Minutes in ShownUnits(c, showSeconds, false)
    ensures Hours in ShownUnits(c, showSeconds, false) <==> c.hours > 0 || c.days > 0
    ensures Days in ShownUnits(c, showSeconds, false) <==> c.days > 0
    ensures Seconds in ShownUnits(c, showSeconds, false) <==> showSeconds
  {
  }

  // ---------------------------------------------------------------- getCountdownSegments

  datatype CountdownSegment = CountdownSegment(value: int, unitLabel: string)

  /** The seconds per unit of each segment, in segment order. */
  const SegmentWeights: seq<int> := [86400, 3600, 60, 1]

  /** `getCountdownSegments`: days, hours, minutes and seconds, labelled Hari, Jam, Menit, Detik. */
  function CountdownSegments(c: CountdownResult): (segments: seq<CountdownSegment>)
    ensures |segments| == 4
    ensures segments[0].unitLabel == "Hari" && segments[1].unitLabel == "Jam" && segments[2].unitLabel == "Menit" && segments[3].unitLabel == "Detik"
    ensures segments[0].value == c.days && segments[1].value == c.hours && segments[2].value == c.minutes && segments[3].value == c.seconds
  {
    [CountdownSegment(c.days, "Hari"), CountdownSegment(c.hours, "Jam"),
     CountdownSegment(c.minutes, "Menit"), CountdownSegment(c.seconds, "Detik")]
  }

  /** Weighting the segments of a live countdown by their unit gives the whole seconds left. */
  lemma SegmentsAddUp(target: int, now: int)
    requires target - now > 0
    ensures var s := CountdownSegments(CalculateTimeLeft(target, now));
            s[0].value * SegmentWeights[0] + s[1].value * SegmentWeights[1]
            + s[2].value * SegmentWeights[2] + s[3].value * SegmentWeights[3]
            == (target - now) / 1000
  {
  }
}
