/**
 * The day-log store's operations on one day's record, as values: what each
 * operation of the work-log manager does to today's entry. The manager's
 * methods are proved to leave exactly these values behind.
 */
module Timeline {
  import opened Wrappers
  import opened TimeText
  import opened Records

  // ---------------------------------------------------------------- add_session

  /** A start session with this start time and source is already in the list. */
  predicate IsDuplicateStart(sessions: seq<Session>, startTime: string, source: string) {
    exists i | 0 <= i < |sessions| ::
      sessions[i].kind == "start" && sessions[i].startTime == startTime && sessions[i].source == source
  }

  /** add_session skips only a start whose start time and source are already logged as a start. */
  predicate SkipsAdd(day: DayLog, startTime: string, source: string, kind: string) {
    kind == "start" && IsDuplicateStart(day.sessions, startTime, source)
  }

  function AddSessionTo(day: DayLog, startTime: string, endTime: Option<string>, note: Option<string>,
                        source: string, kind: string, location: Option<string>): DayLog
  {
    if SkipsAdd(day, startTime, source, kind) then day
    else
      day.(sessions := day.sessions + [Session(startTime, endTime, source, kind, NoteIf(note))],
           workLocation := if Truthy(location) then location else day.workLocation)
  }

  // ---------------------------------------------------------------- end_last_session

  /** end_last_session's test: end_time missing, null, "" or "null". */
  predicate IsOpen(s: Session) {
    s.endTime == None || s.endTime == Some("") || s.endTime == Some("null")
  }

  /** The index of the most recent open session, if any. */
  function LastOpen(sessions: seq<Session>): (r: Option<nat>)
    ensures r.Some? ==> r.value < |sessions|
  {
    if sessions == [] then None
    else if IsOpen(sessions[|sessions| - 1]) then Some(|sessions| - 1)
    else LastOpen(sessions[..|sessions| - 1])
  }

  function CloseSession(s: Session, endTime: string, kind: Option<string>): Session {
    s.(endTime := Some(endTime), kind := if Truthy(kind) then kind.value else s.kind)
  }

  function EndLastSessionIn(day: DayLog, endTime: string, kind: Option<string>): DayLog {
    match LastOpen(day.sessions)
    case None => day
    case Some(i) => day.(sessions := day.sessions[i := CloseSession(day.sessions[i], endTime, kind)])
  }

  // ---------------------------------------------------------------- add_inactive_period, handle_idle, handle_active

  function AddInactivePeriodTo(day: DayLog, start: string, end: Option<string>, note: Option<string>): DayLog {
    day.(inactive := day.inactive + [Period(start, if end.Some? then At(end.value) else Null, NoteIf(note))])
  }

  /** handle_idle(reason) at the clock text now. */
  function HandleIdleOn(day: DayLog, now: string, reason: string): DayLog {
    AddInactivePeriodTo(EndLastSessionIn(day, now, None), now, None, Some(reason))
  }

  /** The session handle_active opens. */
  function ResumedSession(now: string): Session {
    Session(now, None, "auto", "activity", Some("back from break"))
  }

  /** handle_active at the clock text now. */
  function HandleActiveOn(day: DayLog, now: string): DayLog {
    var closed :=
      if day.inactive != [] then
        var last := |day.inactive| - 1;
        day.(inactive := day.inactive[last := day.inactive[last].(endTime := At(now))])
      else day;
    AddSessionTo(closed, now, None, Some("back from break"), "auto", "activity", None)
  }

  // ---------------------------------------------------------------- queries

  predicate HasSession(day: DayLog, kind: string) {
    exists i | 0 <= i < |day.sessions| :: day.sessions[i].kind == kind
  }

  /** The start time of the first start session, if there is one. */
  function FirstStartTime(sessions: seq<Session>): Option<string> {
    if sessions == [] then None
    else if sessions[0].kind == "start" then Some(sessions[0].startTime)
    else FirstStartTime(sessions[1..])
  }

  /** The keys get_today_value is called with. */
  datatype Key = StartTime | WorkLocation | RequiredTime

  /** What get_today_value returns: None, a text, or a minute count. */
  datatype Value = NoValue | Text(text: string) | Minutes(minutes: int)

  function RawValue(day: DayLog, key: Key): Value {
    match key
    case StartTime => (match FirstStartTime(day.sessions) case Some(t) => Text(t) case None => NoValue)
    case WorkLocation => (match day.workLocation case Some(l) => Text(l) case None => NoValue)
    case RequiredTime => Text(day.requiredTime)
  }

  /** get_today_value(key, convert); None where the HH:MM conversion raises ValueError. */
  function GetTodayValue(day: DayLog, key: Key, convert: bool): Option<Value> {
    var v := RawValue(day, key);
    if convert && v.Text? && ':' in v.text then
      match HhmmToMinutes(v.text)
      case Some(m) => Some(Minutes(m))
      case None => None
    else Some(v)
  }

  // ---------------------------------------------------------------- open sessions

  predicate NoneOpen(sessions: seq<Session>) {
    forall j | 0 <= j < |sessions| :: !IsOpen(sessions[j])
  }

  /** Every session except possibly the most recent one is closed. */
  predicate OnlyLastOpen(sessions: seq<Session>) {
    forall j | 0 <= j < |sessions| - 1 :: !IsOpen(sessions[j])
  }

  // ---------------------------------------------------------------- lemmas: add_session

  /** A duplicate start changes nothing at all. */
  lemma DuplicateStartIsNoOp(day: DayLog, startTime: string, endTime: Option<string>, note: Option<string>,
                             source: string, location: Option<string>)
    requires IsDuplicateStart(day.sessions, startTime, source)
    ensures AddSessionTo(day, startTime, endTime, note, source, "start", location) == day
  {
  }

  /**
   * Otherwise exactly one session is appended with the given fields, earlier
   * sessions are kept, and the location is overwritten exactly when it is truthy.
   */
  lemma AddSessionAppends(day: DayLog, startTime: string, endTime: Option<string>, note: Option<string>,
                          source: string, kind: string, location: Option<string>)
    requires !SkipsAdd(day, startTime, source, kind)
    ensures var r := AddSessionTo(day, startTime, endTime, note, source, kind, location);
      |r.sessions| == |day.sessions| + 1 && r.sessions[..|day.sessions|] == day.sessions &&
      r.sessions[|day.sessions|] == Session(startTime, endTime, source, kind, NoteIf(note)) &&
      (r.sessions[|day.sessions|].note.Some? <==> Truthy(note)) &&
      r.workLocation == (if Truthy(location) then location else day.workLocation) &&
      r.inactive == day.inactive && r.summary == day.summary && r.requiredTime == day.requiredTime
  {
    var r := AddSessionTo(day, startTime, endTime, note, source, kind, location);
    assert r.sessions[..|day.sessions|] == day.sessions;
  }

  /** Adding a start twice records it once: add_session of a start is idempotent. */
  lemma AddStartTwice(day: DayLog, startTime: string, endTime: Option<string>, note: Option<string>,
                      source: string, location: Option<string>)
    ensures var once := AddSessionTo(day, startTime, endTime, note, source, "start", location);
      AddSessionTo(once, startTime, endTime, note, source, "start", location) == once
  {
    var once := AddSessionTo(day, startTime, endTime, note, source, "start", location);
    if !IsDuplicateStart(day.sessions, startTime, source) {
      assert once.sessions[|day.sessions|].startTime == startTime;
      assert IsDuplicateStart(once.sessions, startTime, source);
    }
  }

  /** After add_session, has_session of that type holds. */
  lemma AddedSessionIsFound(day: DayLog, startTime: string, endTime: Option<string>, note: Option<string>,
                            source: string, kind: string, location: Option<string>)
    ensures HasSession(AddSessionTo(day, startTime, endTime, note, source, kind, location), kind)
  {
    var r := AddSessionTo(day, startTime, endTime, note, source, kind, location);
    if !SkipsAdd(day, startTime, source, kind) {
      assert r.sessions[|day.sessions|].kind == kind;
    }
  }

  // ---------------------------------------------------------------- lemmas: end_last_session

  /** LastOpen finds the most recent open session, and None means no session is open. */
  lemma {:induction false} LastOpenIsLast(sessions: seq<Session>)
    ensures LastOpen(sessions).None? <==> NoneOpen(sessions)
    ensures LastOpen(sessions).Some? ==>
      var i := LastOpen(sessions).value;
      IsOpen(sessions[i]) && forall j | i < j < |sessions| :: !IsOpen(sessions[j])
  {
    if sessions != [] && !IsOpen(sessions[|sessions| - 1]) {
      var prefix := sessions[..|sessions| - 1];
      LastOpenIsLast(prefix);
      assert forall j | 0 <= j < |prefix| :: prefix[j] == sessions[j];
    }
  }

  /** Any index that is open with nothing open after it is the one LastOpen finds. */
  lemma LastOpenAt(sessions: seq<Session>, i: nat)
    requires i < |sessions| && IsOpen(sessions[i])
    requires forall j | i < j < |sessions| :: !IsOpen(sessions[j])
    ensures LastOpen(sessions) == Some(i)
  {
    LastOpenIsLast(sessions);
  }

  /**
   * end_last_session sets end_time on the most recent open session, overwrites its
   * type only when a truthy type is given, and leaves every other session and the
   * length alone; with no open session it changes nothing.
   */
  lemma EndLastSessionEffect(day: DayLog, endTime: string, kind: Option<string>)
    ensures var r := EndLastSessionIn(day, endTime, kind);
      |r.sessions| == |day.sessions| && r.inactive == day.inactive &&
      r.workLocation == day.workLocation && r.summary == day.summary && r.requiredTime == day.requiredTime
    ensures NoneOpen(day.sessions) ==> EndLastSessionIn(day, endTime, kind) == day
    ensures !NoneOpen(day.sessions) ==>
      var r := EndLastSessionIn(day, endTime, kind);
      exists i | 0 <= i < |day.sessions| ::
        IsOpen(day.sessions[i]) && (forall j | i < j < |day.sessions| :: !IsOpen(day.sessions[j])) &&
        r.sessions[i].endTime == Some(endTime) &&
        r.sessions[i].kind == (if Truthy(kind) then kind.value else day.sessions[i].kind) &&
        r.sessions[i].startTime == day.sessions[i].startTime &&
        r.sessions[i].source == day.sessions[i].source && r.sessions[i].note == day.sessions[i].note &&
        forall j | 0 <= j < |day.sessions| && j != i :: r.sessions[j] == day.sessions[j]
  {
    LastOpenIsLast(day.sessions);
  }

  /** With only the last session open, ending it at a closing text leaves no session open. */
  lemma EndLastSessionClosesAll(day: DayLog, endTime: string, kind: Option<string>)
    requires OnlyLastOpen(day.sessions)
    requires endTime != "" && endTime != "null"
    ensures NoneOpen(EndLastSessionIn(day, endTime, kind).sessions)
  {
    LastOpenIsLast(day.sessions);
  }

  // ---------------------------------------------------------------- lemmas: idle and active

  /** The clock's text never reads as open. */
  lemma ClockTextCloses(t: int)
    requires 0 <= t < 24 * 60
    ensures ClockText(t) != "" && ClockText(t) != "null"
  {
    assert |ClockText(t)| == 5;
  }

  /** handle_idle ends the open session at now and opens an inactive period {now, null, reason}. */
  lemma HandleIdleEffect(day: DayLog, now: string, reason: string)
    ensures var r := HandleIdleOn(day, now, reason);
      r.sessions == EndLastSessionIn(day, now, None).sessions &&
      r.inactive == day.inactive + [Period(now, Null, NoteIf(Some(reason)))] &&
      r.workLocation == day.workLocation && r.summary == day.summary && r.requiredTime == day.requiredTime
  {
    EndLastSessionEffect(day, now, None);
  }

  /**
   * handle_active overwrites the end of the last inactive period with now, even an
   * already closed one, and appends an "activity" session from "auto" at now.
   */
  lemma HandleActiveEffect(day: DayLog, now: string)
    ensures var r := HandleActiveOn(day, now);
      r.sessions == day.sessions + [ResumedSession(now)] &&
      |r.inactive| == |day.inactive| &&
      (forall j | 0 <= j < |day.inactive| - 1 :: r.inactive[j] == day.inactive[j]) &&
      (day.inactive != [] ==>
        r.inactive[|day.inactive| - 1] == day.inactive[|day.inactive| - 1].(endTime := At(now))) &&
      r.workLocation == day.workLocation && r.summary == day.summary && r.requiredTime == day.requiredTime
  {
  }

  /** An idle period followed by resumption: one session closed, one period opened and closed, one session opened. */
  lemma IdleThenActive(day: DayLog, idleAt: string, backAt: string, reason: string)
    ensures var r := HandleActiveOn(HandleIdleOn(day, idleAt, reason), backAt);
      r.sessions == EndLastSessionIn(day, idleAt, None).sessions + [ResumedSession(backAt)] &&
      r.inactive == day.inactive + [Period(idleAt, At(backAt), NoteIf(Some(reason)))] &&
      r.workLocation == day.workLocation && r.summary == day.summary && r.requiredTime == day.requiredTime
  {
    var idle := HandleIdleOn(day, idleAt, reason);
    HandleIdleEffect(day, idleAt, reason);
    HandleActiveEffect(idle, backAt);
    var r := HandleActiveOn(idle, backAt);
    assert r.inactive == day.inactive + [Period(idleAt, At(backAt), NoteIf(Some(reason)))];
  }

  /** Going idle at the clock time leaves no session open, when at most the last one was. */
  lemma IdleClosesAll(day: DayLog, t: int, reason: string)
    requires 0 <= t < 24 * 60
    requires OnlyLastOpen(day.sessions)
    ensures NoneOpen(HandleIdleOn(day, ClockText(t), reason).sessions)
  {
    ClockTextCloses(t);
    EndLastSessionClosesAll(day, ClockText(t), None);
  }

  /** Resuming with no session open leaves only the new session open. */
  lemma ActiveOpensOnlyLast(day: DayLog, now: string)
    requires NoneOpen(day.sessions)
    ensures OnlyLastOpen(HandleActiveOn(day, now).sessions)
    ensures IsOpen(HandleActiveOn(day, now).sessions[|day.sessions|])
  {
    HandleActiveEffect(day, now);
  }

  /** add_session itself does not keep "at most one open session": two plain adds leave two open. */
  lemma AddSessionCanLeaveTwoOpen(requiredTime: string)
    ensures var one := AddSessionTo(NewDay(requiredTime), "09:00", None, None, "auto", "start", Some("Office"));
      var two := AddSessionTo(one, "10:00", None, None, "manual", "activity", None);
      |two.sessions| == 2 && IsOpen(two.sessions[0]) && IsOpen(two.sessions[1]) && !OnlyLastOpen(two.sessions)
  {
    var one := AddSessionTo(NewDay(requiredTime), "09:00", None, None, "auto", "start", Some("Office"));
    assert !IsDuplicateStart([], "09:00", "auto");
    var two := AddSessionTo(one, "10:00", None, None, "manual", "activity", None);
    assert !OnlyLastOpen(two.sessions) by {
      assert IsOpen(two.sessions[0]) && 0 < |two.sessions| - 1;
    }
  }

  // ---------------------------------------------------------------- lemmas: queries

  /** FirstStartTime is the start time of the earliest start session. */
  lemma {:induction false} FirstStartTimeIsFirst(sessions: seq<Session>)
    ensures FirstStartTime(sessions).None? <==> forall i | 0 <= i < |sessions| :: sessions[i].kind != "start"
    ensures FirstStartTime(sessions).Some? ==>
      exists i | 0 <= i < |sessions| ::
        sessions[i].kind == "start" && sessions[i].startTime == FirstStartTime(sessions).value &&
        forall j | 0 <= j < i :: sessions[j].kind != "start"
  {
    if sessions != [] && sessions[0].kind != "start" {
      var rest := sessions[1..];
      FirstStartTimeIsFirst(rest);
      assert forall j | 0 <= j < |rest| :: rest[j] == sessions[j + 1];
      if FirstStartTime(rest).Some? {
        var k :| 0 <= k < |rest| && rest[k].kind == "start" && rest[k].startTime == FirstStartTime(rest).value &&
                 forall j | 0 <= j < k :: rest[j].kind != "start";
        assert sessions[k + 1] == rest[k];
        assert forall j | 0 <= j < k + 1 :: sessions[j].kind != "start" by {
          forall j | 0 <= j < k + 1 ensures sessions[j].kind != "start" {
            if j > 0 { assert sessions[j] == rest[j - 1]; }
          }
        }
      }
    }
  }

  /** has_session("start") holds exactly when get_today_value("start_time") finds a text. */
  lemma HasStartIffStartTime(day: DayLog)
    ensures HasSession(day, "start") <==> RawValue(day, StartTime).Text?
  {
    FirstStartTimeIsFirst(day.sessions);
  }

  /** get_today_value("required_time", True) of a new day gives back the configured minutes. */
  lemma RequiredTimeReadsBack(requiredMinutes: int)
    ensures GetTodayValue(NewDay(MinutesToHhmm(requiredMinutes)), RequiredTime, true) == Some(Minutes(requiredMinutes))
  {
    MinutesRoundTrip(requiredMinutes);
    var t := MinutesToHhmm(requiredMinutes);
    assert t[|Format02(requiredMinutes / 60)|] == ':';
  }
}
