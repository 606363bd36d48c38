/**
 * WorkLogManager: the in-memory log keyed by date, always working on today's
 * entry, writing the whole log through to storage after each change.
 * `stored` is the log as the last save wrote it; the file itself, the clock and
 * logging are outside the model (today's date and the clock are parameters).
 */
module Manager {
  import opened Wrappers
  import opened TimeText
  import opened Records
  import opened Timeline
  import opened SummaryEngine

  class WorkLogManager {
    const today: string
    const requiredTime: string
    var data: map<string, DayLog>
    var stored: map<string, DayLog>

    ghost predicate Valid()
      reads this
    {
      today in data
    }

    function Today(): DayLog
      reads this
      requires Valid()
    {
      data[today]
    }

    /**
     * The log starts as what was loaded (an empty map when there is no file);
     * required_time is formatted from the configured minutes; today's entry is
     * created in memory but not saved.
     */
    constructor (loaded: map<string, DayLog>, date: string, requiredMinutes: int)
      ensures Valid()
      ensures today == date && requiredTime == MinutesToHhmm(requiredMinutes)
      ensures data == EnsureToday(loaded, date, requiredTime)
      ensures stored == loaded
    {
      today := date;
      requiredTime := MinutesToHhmm(requiredMinutes);
      data := loaded;
      stored := loaded;
      new;
      EnsureTodayEntry();
    }

    method EnsureTodayEntry()
      modifies this
      ensures Valid()
      ensures data == EnsureToday(old(data), today, requiredTime)
      ensures stored == old(stored)
    {
      if today !in data {
        data := data[today := NewDay(requiredTime)];
      }
    }

    /** update_field on the one path the design names: today's manual_adjustments. */
    method UpdateManualAdjustments(value: string)
      requires Valid()
      modifies this
      ensures Valid()
      ensures data == old(data)[today := old(Today()).(summary := old(Today()).summary.(manualAdjustments := Some(value)))]
      ensures stored == data
    {
      var day := data[today];
      data := data[today := day.(summary := day.summary.(manualAdjustments := Some(value)))];
      stored := data;
    }

    method AddSession(startTime: string, endTime: Option<string>, note: Option<string>,
                      source: string, kind: string, location: Option<string>)
      requires Valid()
      modifies this
      ensures Valid()
      ensures data == old(data)[today := AddSessionTo(old(Today()), startTime, endTime, note, source, kind, location)]
      ensures stored == if SkipsAdd(old(Today()), startTime, source, kind) then old(stored) else data
    {
      var sessions := data[today].sessions;
      if kind == "start" {
        for i := 0 to |sessions|
          invariant forall j | 0 <= j < i ::
            !(sessions[j].kind == "start" && sessions[j].startTime == startTime && sessions[j].source == source)
        {
          if sessions[i].kind == "start" && sessions[i].startTime == startTime && sessions[i].source == source {
            return;
          }
        }
      }
      var session := Session(startTime, endTime, source, kind, None);
      if Truthy(note) {
        session := session.(note := note);
      }
      data := data[today := data[today].(sessions := sessions + [session])];
      if Truthy(location) {
        data := data[today := data[today].(workLocation := location)];
      }
      stored := data;
    }

    method AddInactivePeriod(start: string, end: Option<string>, note: Option<string>)
      requires Valid()
      modifies this
      ensures Valid()
      ensures data == old(data)[today := AddInactivePeriodTo(old(Today()), start, end, note)]
      ensures stored == data
    {
      var period := Period(start, if end.Some? then At(end.value) else Null, None);
      if Truthy(note) {
        period := period.(note := note);
      }
      data := data[today := data[today].(inactive := data[today].inactive + [period])];
      stored := data;
    }

    /** Scans the sessions most recent first and closes the first open one; saves either way. */
    method EndLastSession(endTime: string, kind: Option<string>)
      requires Valid()
      modifies this
      ensures Valid()
      ensures data == old(data)[today := EndLastSessionIn(old(Today()), endTime, kind)]
      ensures stored == data
    {
      var sessions := data[today].sessions;
      ghost var found := false;
      var i := |sessions|;
      while i > 0
        invariant 0 <= i <= |sessions|
        invariant forall j | i <= j < |sessions| :: !IsOpen(sessions[j])
        invariant data == old(data) && !found
      {
        i := i - 1;
        if IsOpen(sessions[i]) {
          LastOpenAt(sessions, i);
          var closed := sessions[i].(endTime := Some(endTime));
          if Truthy(kind) {
            closed := closed.(kind := kind.value);
          }
          data := data[today := data[today].(sessions := sessions[i := closed])];
          found := true;
          break;
        }
      }
      if !found {
        LastOpenIsLast(sessions);
      }
      stored := data;
    }

    /** Going idle at the clock's minute of the day, for the given reason. */
    method HandleIdle(reason: string, clock: int)
      requires Valid() && 0 <= clock < 24 * 60
      modifies this
      ensures Valid()
      ensures data == old(data)[today := HandleIdleOn(old(Today()), ClockText(clock), reason)]
      ensures stored == data
    {
      var now := ClockText(clock);
      EndLastSession(now, None);
      AddInactivePeriod(now, None, Some(reason));
    }

    /** Coming back at the clock's minute of the day. */
    method HandleActive(clock: int)
      requires Valid() && 0 <= clock < 24 * 60
      modifies this
      ensures Valid()
      ensures data == old(data)[today := HandleActiveOn(old(Today()), ClockText(clock))]
      ensures stored == data
    {
      var now := ClockText(clock);
      var periods := data[today].inactive;
      if periods != [] {
        var last := |periods| - 1;
        data := data[today := data[today].(inactive := periods[last := periods[last].(endTime := At(now))])];
      }
      stored := data;
      AddSession(now, None, Some("back from break"), "auto", "activity", None);
    }

    /**
     * Recomputes today's summary at the clock's minute of the day. On an uncaught
     * error nothing changes and nothing is saved.
     */
    method CalculateSummary(clock: int) returns (error: Option<SummaryError>)
      requires Valid() && 0 <= clock < 24 * 60
      modifies this
      ensures Valid()
      ensures match ComputeTotals(old(Today()), clock)
        case Ok(t) => error == None && data == old(data)[today := ApplyTotals(old(Today()), t)] && stored == data
        case Err(e) => error == Some(e) && data == old(data) && stored == old(stored)
    {
      var day := data[today];
      var tracked, end := SumTracked(day.sessions, clock);
      var inactive := SumInactive(day.inactive, end);
      if inactive.Err? {
        return Some(inactive.error);
      }
      var manual := HhmmToMinutes(ManualText(day.summary));
      if manual.None? {
        return Some(BadManualAdjustments);
      }
      var required := HhmmToMinutes(day.requiredTime);
      if required.None? {
        return Some(BadRequiredTime);
      }
      var totals := TotalsOf(tracked, inactive.value.total, manual.value, required.value);
      ComputeTotalsFromParts(day, clock, inactive.value, manual.value, required.value);
      data := data[today := ApplyTotals(day, totals)];
      stored := data;
      return None;
    }

    predicate HasTodaySession(kind: string)
      reads this
      requires Valid()
    {
      HasSession(Today(), kind)
    }

    function CheckTargetMet(): Option<(bool, nat)>
      reads this
      requires Valid()
    {
      TargetCheck(Today())
    }

    function GetValue(key: Key, convert: bool): Option<Value>
      reads this
      requires Valid()
    {
      GetTodayValue(Today(), key, convert)
    }
  }

  /** The idle-then-active scenario: idle at 12:00 with a session open since 09:00, back at 12:10. */
  method IdleScenario()
  {
    var log := new WorkLogManager(map[], "2024-05-06", 528);
    log.AddSession("09:00", None, None, "auto", "start", Some("Office"));
    ScenarioDays(log.requiredTime);
    assert log.Today() == ScenarioMorning(log.requiredTime);
    log.HandleIdle("idle", 12 * 60);
    assert log.Today() == ScenarioIdle(log.requiredTime);
    log.HandleActive(12 * 60 + 10);
    assert log.Today() == ScenarioBack(log.requiredTime);
    assert log.Today().inactive == [Period("12:00", At("12:10"), Some("idle"))];
    assert log.Today().sessions[1] == ResumedSession("12:10");
  }

  function ScenarioMorning(requiredTime: string): DayLog {
    NewDay(requiredTime).(workLocation := Some("Office"), sessions := [Session("09:00", None, "auto", "start", None)])
  }

  function ScenarioIdle(requiredTime: string): DayLog {
    ScenarioMorning(requiredTime).(
      sessions := [Session("09:00", Some("12:00"), "auto", "start", None)],
      inactive := [Period("12:00", Null, Some("idle"))])
  }

  function ScenarioBack(requiredTime: string): DayLog {
    ScenarioIdle(requiredTime).(
      sessions := [Session("09:00", Some("12:00"), "auto", "start", None), ResumedSession("12:10")],
      inactive := [Period("12:00", At("12:10"), Some("idle"))])
  }

  /** The three states of the scenario: a start at 09:00, idle at 12:00, back at 12:10. */
  lemma ScenarioDays(requiredTime: string)
    ensures AddSessionTo(NewDay(requiredTime), "09:00", None, None, "auto", "start", Some("Office"))
         == ScenarioMorning(requiredTime)
    ensures HandleIdleOn(ScenarioMorning(requiredTime), ClockText(12 * 60), "idle") == ScenarioIdle(requiredTime)
    ensures HandleActiveOn(ScenarioIdle(requiredTime), ClockText(12 * 60 + 10)) == ScenarioBack(requiredTime)
  {
    assert ClockText(12 * 60) == "12:00";
    assert ClockText(12 * 60 + 10) == "12:10";
    LastOpenAt(ScenarioMorning(requiredTime).sessions, 0);
  }
}
