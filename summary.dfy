/**
 * The summary engine of calculate_summary: minutes tracked in sessions and
 * spent inactive, then reported time, overtime, missing time and whether the
 * day's target is met, over one day's record and the clock's minute of the day.
 */
module SummaryEngine {
  import opened Wrappers
  import opened TimeText
  import opened Records
  import opened Timeline

  /** max(0, end - start). */
  function Clamped(start: int, end: int): (r: nat)
    ensures r >= end - start && (r == 0 || r == end - start)
  {
    if end > start then end - start else 0
  }

  function Max0(x: int): (r: nat)
    ensures r >= x && (r == 0 || r == x)
  {
    if x > 0 then x else 0
  }

  // ---------------------------------------------------------------- sessions

  /**
   * The start and end minute one session's iteration computes: the end is the
   * clock when end_time is falsy; None where a strptime raises ValueError.
   */
  function SessionSpan(s: Session, now: int): Option<(int, int)> {
    match StrptimeHM(s.startTime)
    case None => None
    case Some(start) =>
      if Truthy(s.endTime) then
        match StrptimeHM(s.endTime.value)
        case None => None
        case Some(end) => Some((start, end))
      else Some((start, now))
  }

  function SessionMinutes(s: Session, now: int): nat {
    match SessionSpan(s, now)
    case None => 0
    case Some((start, end)) => Clamped(start, end)
  }

  /** total_tracked: the clamped durations of the sessions that parse. */
  function TrackedMinutes(sessions: seq<Session>, now: int): nat {
    if sessions == [] then 0
    else TrackedMinutes(sessions[..|sessions| - 1], now) + SessionMinutes(sessions[|sessions| - 1], now)
  }

  /** The value the loop variable `end` holds after the session loop: the end of the last session that parses. */
  function LastSessionEnd(sessions: seq<Session>, now: int): Option<int> {
    if sessions == [] then None
    else
      match SessionSpan(sessions[|sessions| - 1], now)
      case Some((_, end)) => Some(end)
      case None => LastSessionEnd(sessions[..|sessions| - 1], now)
  }

  // ---------------------------------------------------------------- inactive periods

  /** The exceptions calculate_summary does not catch. */
  datatype SummaryError =
    | UnboundEnd           // UnboundLocalError: an open period before any `end` was assigned
    | MissingEndTime       // KeyError: a period without an end_time key
    | BadManualAdjustments // ValueError from _hhmm_to_minutes on manual_adjustments
    | BadRequiredTime      // ValueError from _hhmm_to_minutes on required_time

  datatype Result<T> = Ok(value: T) | Err(error: SummaryError)

  /** A running total together with the value of the loop variable `end`. */
  datatype Fold = Fold(total: nat, end: Option<int>)

  /** An open period measures up to the `end` left behind by the previous iteration. */
  function Reuse(start: int, end: Option<int>): Result<Fold> {
    match end
    case None => Err(UnboundEnd)
    case Some(e) => Ok(Fold(Clamped(start, e), end))
  }

  /** One iteration of the inactive-period loop: its contribution and the new `end`. */
  function PeriodStep(p: Period, end: Option<int>): Result<Fold> {
    match StrptimeHM(p.startTime)
    case None => Ok(Fold(0, end))
    case Some(start) =>
      match p.endTime
      case Absent => Err(MissingEndTime)
      case Null => Reuse(start, end)
      case At(t) =>
        if t == "" then Reuse(start, end)
        else
          match StrptimeHM(t)
          case None => Ok(Fold(0, end))
          case Some(e) => Ok(Fold(Clamped(start, e), Some(e)))
  }

  /** The inactive-period loop from a given `end`: total_inactive and the final `end`, or the first uncaught error. */
  function InactiveFold(periods: seq<Period>, end: Option<int>): Result<Fold> {
    if periods == [] then Ok(Fold(0, end))
    else
      match InactiveFold(periods[..|periods| - 1], end)
      case Err(e) => Err(e)
      case Ok(f) =>
        match PeriodStep(periods[|periods| - 1], f.end)
        case Err(e) => Err(e)
        case Ok(step) => Ok(Fold(f.total + step.total, step.end))
  }

  /** A period whose end_time is a non-empty text. */
  predicate IsClosed(p: Period) { p.endTime.At? && p.endTime.time != "" }

  /** The clamped duration of a closed period, or 0 when one of its times does not parse. */
  function ClosedMinutes(p: Period): nat
    requires IsClosed(p)
  {
    match (StrptimeHM(p.startTime), StrptimeHM(p.endTime.time))
    case (Some(start), Some(end)) => Clamped(start, end)
    case _ => 0
  }

  /** Reference sum over closed periods, independent of the carried `end`. */
  function ClosedTotal(periods: seq<Period>): nat
    requires forall k | 0 <= k < |periods| :: IsClosed(periods[k])
  {
    if periods == [] then 0
    else ClosedTotal(periods[..|periods| - 1]) + ClosedMinutes(periods[|periods| - 1])
  }

  // ---------------------------------------------------------------- the loops

  /** The session loop of calculate_summary. */
  method SumTracked(sessions: seq<Session>, now: int) returns (total: nat, end: Option<int>)
    ensures total == TrackedMinutes(sessions, now)
    ensures end == LastSessionEnd(sessions, now)
  {
    total, end := 0, None;
    for i := 0 to |sessions|
      invariant total == TrackedMinutes(sessions[..i], now)
      invariant end == LastSessionEnd(sessions[..i], now)
    {
      assert sessions[..i + 1][..i] == sessions[..i];
      var s := sessions[i];
      var start := StrptimeHM(s.startTime);
      if start.None? {
        continue;
      }
      var stop := if Truthy(s.endTime) then StrptimeHM(s.endTime.value) else Some(now);
      if stop.None? {
        continue;
      }
      end := stop;
      total := total + Clamped(start.value, stop.value);
    }
    assert sessions[..|sessions|] == sessions;
  }

  /** The inactive-period loop of calculate_summary, starting from the `end` the session loop left. */
  method SumInactive(periods: seq<Period>, carried: Option<int>) returns (r: Result<Fold>)
    ensures r == InactiveFold(periods, carried)
  {
    var total: nat, end := 0, carried;
    for i := 0 to |periods|
      invariant InactiveFold(periods[..i], carried) == Ok(Fold(total, end))
    {
      FoldStep(periods, i, carried);
      var p := periods[i];
      var start := StrptimeHM(p.startTime);
      if start.None? {
        continue;
      }
      if p.endTime.Absent? {
        FoldErrorStays(periods, i + 1, carried);
        return Err(MissingEndTime);
      }
      if IsClosed(p) {
        var e := StrptimeHM(p.endTime.time);
        if e.None? {
          continue;
        }
        end := e;
      }
      if end.None? {
        FoldErrorStays(periods, i + 1, carried);
        return Err(UnboundEnd);
      }
      total := total + Clamped(start.value, end.value);
    }
    assert periods[..|periods|] == periods;
    return Ok(Fold(total, end));
  }

  // ---------------------------------------------------------------- the whole summary

  /** The minute values calculate_summary computes before formatting them. */
  datatype Totals = Totals(
    tracked: nat,
    inactive: nat,
    manual: int,
    required: int,
    reported: int,
    overtime: nat,
    missing: nat,
    metTarget: bool)

  /** Reported time and its comparison with the target, from the four inputs. */
  function TotalsOf(tracked: nat, inactive: nat, manual: int, required: int): Totals {
    var reported := tracked + manual;
    Totals(tracked, inactive, manual, required, reported,
           Max0(reported - required), Max0(required - reported), reported >= required)
  }

  function ManualText(s: Summary): string {
    match s.manualAdjustments
    case Some(t) => t
    case None => "00:00"
  }

  function ComputeTotals(day: DayLog, now: int): Result<Totals> {
    var tracked := TrackedMinutes(day.sessions, now);
    match InactiveFold(day.inactive, LastSessionEnd(day.sessions, now))
    case Err(e) => Err(e)
    case Ok(f) =>
      match HhmmToMinutes(ManualText(day.summary))
      case None => Err(BadManualAdjustments)
      case Some(manual) =>
        match HhmmToMinutes(day.requiredTime)
        case None => Err(BadRequiredTime)
        case Some(required) =>
          Ok(TotalsOf(tracked, f.total, manual, required))
  }

  /** The summary dict after summary.update(...): every field but manual_adjustments rewritten. */
  function ApplyTotals(day: DayLog, t: Totals): DayLog {
    day.(summary := day.summary.(
      missingTime := MinutesToHhmm(t.missing),
      totalTracked := MinutesToHhmm(t.tracked),
      totalInactive := MinutesToHhmm(t.inactive),
      totalReported := MinutesToHhmm(t.reported),
      overtime := MinutesToHhmm(t.overtime),
      metTarget := t.metTarget))
  }

  /** check_target_met: (reported >= required, max(0, required - reported)); None where a parse raises ValueError. */
  function TargetCheck(day: DayLog): Option<(bool, nat)> {
    match (HhmmToMinutes(day.requiredTime), HhmmToMinutes(day.summary.totalReported))
    case (Some(target), Some(total)) => Some((total >= target, Max0(target - total)))
    case _ => None
  }

  // ---------------------------------------------------------------- lemmas

  /** One more period extends the fold by that period's step. */
  lemma FoldStep(periods: seq<Period>, i: nat, end: Option<int>)
    requires i < |periods| && InactiveFold(periods[..i], end).Ok?
    ensures InactiveFold(periods[..i + 1], end) ==
      var f := InactiveFold(periods[..i], end).value;
      match PeriodStep(periods[i], f.end)
      case Err(e) => Err(e)
      case Ok(step) => Ok(Fold(f.total + step.total, step.end))
  {
    assert periods[..i + 1][..i] == periods[..i];
  }

  /** Once a prefix of the periods raises, the whole loop raises the same error. */
  lemma {:induction false} FoldErrorStays(periods: seq<Period>, k: nat, end: Option<int>)
    requires k <= |periods| && InactiveFold(periods[..k], end).Err?
    ensures InactiveFold(periods, end) == InactiveFold(periods[..k], end)
    decreases |periods| - k
  {
    if k < |periods| {
      assert periods[..k + 1][..k] == periods[..k];
      FoldErrorStays(periods, k + 1, end);
    } else {
      assert periods[..k] == periods;
    }
  }

  lemma {:induction false} TrackedAppend(a: seq<Session>, b: seq<Session>, now: int)
    ensures TrackedMinutes(a + b, now) == TrackedMinutes(a, now) + TrackedMinutes(b, now)
    decreases |b|
  {
    if b == [] {
      assert a + b == a;
    } else {
      var b' := b[..|b| - 1];
      TrackedAppend(a, b', now);
      assert (a + b)[..|a + b| - 1] == a + b';
      assert (a + b)[|a + b| - 1] == b[|b| - 1];
      assert TrackedMinutes(a + b, now) == TrackedMinutes(a + b', now) + SessionMinutes(b[|b| - 1], now);
      assert TrackedMinutes(b, now) == TrackedMinutes(b', now) + SessionMinutes(b[|b| - 1], now);
    }
  }

  lemma SessionMinutesBound(s: Session, now: int)
    requires 0 <= now < 24 * 60
    ensures SessionMinutes(s, now) < 24 * 60
  {
  }

  /** Every session contributes at most a day's worth of minutes. */
  lemma {:induction false} TrackedBounds(sessions: seq<Session>, now: int)
    requires 0 <= now < 24 * 60
    ensures TrackedMinutes(sessions, now) <= 1439 * |sessions|
  {
    if sessions != [] {
      var n := |sessions| - 1;
      TrackedBounds(sessions[..n], now);
      SessionMinutesBound(sessions[n], now);
      assert TrackedMinutes(sessions, now) == TrackedMinutes(sessions[..n], now) + SessionMinutes(sessions[n], now);
    }
  }

  /** The `end` after the session loop is unbound exactly when no session parses. */
  lemma {:induction false} LastSessionEndUnbound(sessions: seq<Session>, now: int)
    ensures LastSessionEnd(sessions, now).None? <==> forall j | 0 <= j < |sessions| :: SessionSpan(sessions[j], now).None?
  {
    if sessions != [] {
      var n := |sessions| - 1;
      var prefix := sessions[..n];
      if SessionSpan(sessions[n], now).None? {
        LastSessionEndUnbound(prefix, now);
        assert forall j | 0 <= j < n :: prefix[j] == sessions[j];
      }
    }
  }

  /** Otherwise it is the end of the last session that parses. */
  lemma {:induction false} LastSessionEndAt(sessions: seq<Session>, now: int, i: nat)
    requires i < |sessions| && SessionSpan(sessions[i], now).Some?
    requires forall j | i < j < |sessions| :: SessionSpan(sessions[j], now).None?
    ensures LastSessionEnd(sessions, now) == Some(SessionSpan(sessions[i], now).value.1)
    decreases |sessions|
  {
    var n := |sessions| - 1;
    if i < n {
      var prefix := sessions[..n];
      assert prefix[i] == sessions[i];
      assert forall j | i < j < n :: prefix[j] == sessions[j];
      LastSessionEndAt(prefix, now, i);
    }
  }

  /** When every period is closed, the loop never raises and the carried `end` does not matter. */
  lemma {:induction false} ClosedPeriodsSum(periods: seq<Period>, end: Option<int>)
    requires forall k | 0 <= k < |periods| :: IsClosed(periods[k])
    ensures InactiveFold(periods, end).Ok? && InactiveFold(periods, end).value.total == ClosedTotal(periods)
  {
    if periods != [] {
      ClosedPeriodsSum(periods[..|periods| - 1], end);
    }
  }

  /** An open period (end_time null or "") measures up to the `end` carried from before it; with none, an error. */
  lemma OpenPeriodReusesEnd(before: seq<Period>, p: Period, end: Option<int>, f: Fold, start: int)
    requires p.endTime == Null || p.endTime == At("")
    requires StrptimeHM(p.startTime) == Some(start)
    requires InactiveFold(before, end) == Ok(f)
    ensures f.end.None? ==> InactiveFold(before + [p], end) == Err(UnboundEnd)
    ensures f.end.Some? ==> InactiveFold(before + [p], end) == Ok(Fold(f.total + Clamped(start, f.end.value), f.end))
  {
    var q := before + [p];
    assert q[..|before|] == before && q[..|before| + 1] == q;
    FoldStep(q, |before|, end);
  }

  /** A period with no end_time key raises KeyError once reached, whatever `end` holds. */
  lemma MissingKeyRaises(before: seq<Period>, p: Period, end: Option<int>)
    requires p.endTime == Absent && StrptimeHM(p.startTime).Some?
    requires InactiveFold(before, end).Ok?
    ensures InactiveFold(before + [p], end) == Err(MissingEndTime)
  {
    var q := before + [p];
    assert q[..|before|] == before && q[..|before| + 1] == q;
    FoldStep(q, |before|, end);
  }

  /**
   * After a successful recomputation: reported = tracked + manual, overtime and
   * missing are the clamped differences, at most one is positive, the target is
   * met exactly when reported reaches required, and tracked is total_tracked.
   */
  lemma SummaryArithmetic(day: DayLog, now: int)
    requires ComputeTotals(day, now).Ok?
    ensures var t := ComputeTotals(day, now).value;
      t.tracked == TrackedMinutes(day.sessions, now) &&
      Some(t.manual) == HhmmToMinutes(ManualText(day.summary)) &&
      Some(t.required) == HhmmToMinutes(day.requiredTime) &&
      t.reported == t.tracked + t.manual &&
      t.overtime == Max0(t.reported - t.required) && t.missing == Max0(t.required - t.reported) &&
      (t.metTarget <==> t.reported >= t.required) &&
      (t.overtime == 0 || t.missing == 0) &&
      t.overtime - t.missing == t.reported - t.required &&
      (t.metTarget <==> t.missing == 0)
  {
  }

  /** The stored summary reads back to the computed minutes, and manual_adjustments is never written. */
  lemma SummaryReadsBack(day: DayLog, t: Totals)
    ensures var s := ApplyTotals(day, t).summary;
      HhmmToMinutes(s.missingTime) == Some(t.missing) &&
      HhmmToMinutes(s.totalTracked) == Some(t.tracked) &&
      HhmmToMinutes(s.totalInactive) == Some(t.inactive) &&
      HhmmToMinutes(s.totalReported) == Some(t.reported) &&
      HhmmToMinutes(s.overtime) == Some(t.overtime) &&
      s.metTarget == t.metTarget && s.manualAdjustments == day.summary.manualAdjustments
    ensures var d := ApplyTotals(day, t);
      d.sessions == day.sessions && d.inactive == day.inactive &&
      d.workLocation == day.workLocation && d.requiredTime == day.requiredTime
  {
    MinutesRoundTrip(t.missing);
    MinutesRoundTrip(t.tracked);
    MinutesRoundTrip(t.inactive);
    MinutesRoundTrip(t.reported);
    MinutesRoundTrip(t.overtime);
  }

  /** Recomputing at the same clock minute gives the same summary: calculate_summary is idempotent. */
  lemma SummaryIdempotent(day: DayLog, now: int)
    requires ComputeTotals(day, now).Ok?
    ensures var t := ComputeTotals(day, now).value;
      ComputeTotals(ApplyTotals(day, t), now) == Ok(t) &&
      ApplyTotals(ApplyTotals(day, t), t) == ApplyTotals(day, t)
  {
  }

  /** check_target_met compares the two texts it reads as minutes. */
  lemma TargetCheckReads(day: DayLog, required: int, reported: int)
    requires HhmmToMinutes(day.requiredTime) == Some(required)
    requires HhmmToMinutes(day.summary.totalReported) == Some(reported)
    ensures TargetCheck(day) == Some((reported >= required, Max0(required - reported)))
  {
  }

  /** After a recomputation check_target_met answers (met_target, missing minutes). */
  lemma TargetAfterSummary(day: DayLog, now: int)
    requires ComputeTotals(day, now).Ok?
    ensures var t := ComputeTotals(day, now).value;
      TargetCheck(ApplyTotals(day, t)) == Some((t.metTarget, t.missing))
  {
    SummaryArithmetic(day, now);
    TargetOfTotals(day, ComputeTotals(day, now).value);
  }

  /** Stored totals whose target fields agree with their minutes answer check_target_met with those fields. */
  lemma TargetOfTotals(day: DayLog, t: Totals)
    requires HhmmToMinutes(day.requiredTime) == Some(t.required)
    requires (t.metTarget <==> t.reported >= t.required) && t.missing == Max0(t.required - t.reported)
    ensures TargetCheck(ApplyTotals(day, t)) == Some((t.metTarget, t.missing))
  {
    SummaryReadsBack(day, t);
    TargetCheckReads(ApplyTotals(day, t), t.required, t.reported);
  }

  /** check_target_met reports no remaining minutes exactly when the target is met. */
  lemma TargetRemaining(day: DayLog)
    requires TargetCheck(day).Some?
    ensures var (met, remaining) := TargetCheck(day).value;
      (met <==> remaining == 0) &&
      HhmmToMinutes(day.summary.totalReported).value + remaining >= HhmmToMinutes(day.requiredTime).value
  {
  }

  /** A fresh day has nothing reported, so it still owes its whole (non-negative) target. */
  lemma NewDayTarget(requiredMinutes: nat)
    ensures TargetCheck(NewDay(MinutesToHhmm(requiredMinutes))) == Some((requiredMinutes == 0, requiredMinutes))
  {
    MinutesRoundTrip(requiredMinutes);
    ZeroReadsBack();
    TargetCheckReads(NewDay(MinutesToHhmm(requiredMinutes)), requiredMinutes, 0);
  }

  /** Resuming at minute t adds exactly the resumed session's provisional minutes to total_tracked. */
  lemma TrackedAfterActive(day: DayLog, t: int, now: int)
    requires 0 <= t < 24 * 60
    ensures TrackedMinutes(HandleActiveOn(day, ClockText(t)).sessions, now)
         == TrackedMinutes(day.sessions, now) + Clamped(t, now)
  {
    HandleActiveEffect(day, ClockText(t));
    TrackedAppend(day.sessions, [ResumedSession(ClockText(t))], now);
    ClockTextParses(t);
    assert [ResumedSession(ClockText(t))][..0] == [];
  }

  /** ComputeTotals from its parts, as calculate_summary assembles them. */
  lemma ComputeTotalsFromParts(day: DayLog, now: int, f: Fold, manual: int, required: int)
    requires InactiveFold(day.inactive, LastSessionEnd(day.sessions, now)) == Ok(f)
    requires HhmmToMinutes(ManualText(day.summary)) == Some(manual)
    requires HhmmToMinutes(day.requiredTime) == Some(required)
    ensures ComputeTotals(day, now) == Ok(TotalsOf(TrackedMinutes(day.sessions, now), f.total, manual, required))
  {
  }

  lemma TargetTextReads()
    ensures HhmmToMinutes("08:48") == Some(528)
  {
    MinutesRoundTrip(528);
    ScenarioTexts();
  }

  /** A closed 09:00-17:00 session against the 08:48 target leaves 00:48 missing. */
  lemma EightHourDay()
    ensures var day := NewDay("08:48").(sessions := [Session("09:00", Some("17:00"), "auto", "start", None)]);
      ComputeTotals(day, 17 * 60) == Ok(Totals(480, 0, 0, 528, 480, 0, 48, false))
  {
    var day := NewDay("08:48").(sessions := [Session("09:00", Some("17:00"), "auto", "start", None)]);
    assert StrptimeHM("09:00") == Some(540);
    assert StrptimeHM("17:00") == Some(1020);
    assert TrackedMinutes(day.sessions, 17 * 60) == 480;
    ZeroReadsBack();
    TargetTextReads();
  }

  lemma TwoSessions(s1: Session, s2: Session, now: int)
    requires SessionSpan(s1, now) == Some((540, 1020)) && SessionSpan(s2, now) == Some((1035, 1065))
    ensures TrackedMinutes([s1, s2], now) == 510 && LastSessionEnd([s1, s2], now) == Some(1065)
  {
    assert [s1, s2][..1] == [s1];
    assert [s1][..0] == [];
    assert SessionMinutes(s1, now) == 480 && SessionMinutes(s2, now) == 30;
    assert TrackedMinutes([s1], now) == 480;
  }

  /** A second, 30-minute activity session brings the same day to 510 tracked minutes and 00:18 missing. */
  lemma EightHourDayWithActivity()
    ensures var day := NewDay("08:48").(sessions := [
        Session("09:00", Some("17:00"), "auto", "start", None),
        Session("17:15", Some("17:45"), "auto", "activity", None)]);
      ComputeTotals(day, 18 * 60) == Ok(Totals(510, 0, 0, 528, 510, 0, 18, false))
  {
    var s1 := Session("09:00", Some("17:00"), "auto", "start", None);
    var s2 := Session("17:15", Some("17:45"), "auto", "activity", None);
    var day := NewDay("08:48").(sessions := [s1, s2]);
    assert SessionSpan(s1, 18 * 60) == Some((540, 1020)) by {
      assert StrptimeHM("09:00") == Some(540);
      assert StrptimeHM("17:00") == Some(1020);
    }
    assert SessionSpan(s2, 18 * 60) == Some((1035, 1065)) by {
      assert StrptimeHM("17:15") == Some(1035);
      assert StrptimeHM("17:45") == Some(1065);
    }
    TwoSessions(s1, s2, 18 * 60);
    ZeroReadsBack();
    TargetTextReads();
    ComputeTotalsFromParts(day, 18 * 60, Fold(0, Some(1065)), 0, 528);
  }

  /** The texts of the two scenarios: the 08:48 target, 00:48 and 00:18 missing. */
  lemma ScenarioTexts()
    ensures MinutesToHhmm(528) == "08:48" && MinutesToHhmm(48) == "00:48" && MinutesToHhmm(18) == "00:18"
  {
    assert Decimal(0) == "0";
    assert Decimal(8) == "8";
    assert Decimal(48) == "48";
    assert Decimal(18) == "18";
  }

  /** Going idle with no earlier session leaves an open period with no `end` before it: the summary raises. */
  lemma IdleBeforeAnySession(requiredTime: string)
    ensures ComputeTotals(NewDay(requiredTime).(inactive := [Period("12:00", Null, Some("idle"))]), 12 * 60 + 5)
         == Err(UnboundEnd)
  {
    assert StrptimeHM("12:00") == Some(720);
  }

  /** Idle right after a session closed at 12:00: the open period measures from 12:00 to the carried 12:00. */
  lemma IdlePeriodAfterSession(requiredTime: string)
    ensures var day := NewDay(requiredTime).(
        sessions := [Session("09:00", Some("12:00"), "auto", "start", None)],
        inactive := [Period("12:00", Null, Some("idle"))]);
      InactiveFold(day.inactive, LastSessionEnd(day.sessions, 12 * 60 + 30)) == Ok(Fold(0, Some(720)))
  {
    assert StrptimeHM("09:00") == Some(540);
    assert StrptimeHM("12:00") == Some(720);
  }
}
