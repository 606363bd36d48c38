/**
 * The persisted record of one calendar day, as the work-log manager keeps it
 * under its date key. Times are the "HH:MM" texts the record holds; the summary
 * engine parses them.
 */
module Records {
  import opened Wrappers

  /**
   * A tracked work interval. endTime None stands for a missing or null end_time
   * (the core treats the two alike everywhere); note is present only when given truthy.
   */
  datatype Session = Session(
    startTime: string,
    endTime: Option<string>,
    source: string,
    kind: string,
    note: Option<string>)

  /** The end_time slot of an inactive period: key absent, null, or a text. */
  datatype EndField = Absent | Null | At(time: string)

  datatype Period = Period(startTime: string, endTime: EndField, note: Option<string>)

  /** The summary dict; manualAdjustments None stands for a missing key (read as "00:00"). */
  datatype Summary = Summary(
    missingTime: string,
    totalTracked: string,
    totalInactive: string,
    manualAdjustments: Option<string>,
    totalReported: string,
    overtime: string,
    metTarget: bool)

  datatype DayLog = DayLog(
    workLocation: Option<string>,
    requiredTime: string,
    sessions: seq<Session>,
    inactive: seq<Period>,
    summary: Summary)

  /** Python truthiness of an optional text: present and non-empty. */
  predicate Truthy(o: Option<string>) { o.Some? && o.value != "" }

  /** The optional note as stored: kept only when truthy. */
  function NoteIf(note: Option<string>): (r: Option<string>)
    ensures r.Some? <==> Truthy(note)
    ensures r.Some? ==> r == note
  {
    if Truthy(note) then note else None
  }

  /** The entry _ensure_today_entry creates for a day not yet in the log. */
  function NewDay(requiredTime: string): DayLog {
    DayLog(None, requiredTime, [], [],
           Summary(requiredTime, "00:00", "00:00", Some("00:00"), "00:00", "00:00", false))
  }

  /** _ensure_today_entry on the whole log: add a fresh entry for today when there is none. */
  function EnsureToday(data: map<string, DayLog>, today: string, requiredTime: string): (r: map<string, DayLog>)
    ensures today in r && r.Keys == data.Keys + {today}
    ensures today in data ==> r == data
    ensures today !in data ==> r[today] == NewDay(requiredTime)
    ensures forall d | d in data :: d in r && r[d] == data[d]
  {
    if today in data then data else data[today := NewDay(requiredTime)]
  }

  lemma EnsureTodayIdempotent(data: map<string, DayLog>, today: string, requiredTime: string)
    ensures EnsureToday(EnsureToday(data, today, requiredTime), today, requiredTime)
         == EnsureToday(data, today, requiredTime)
  {
  }

  /** A new day owes its whole target and has every other minute field at "00:00". */
  lemma NewDayDefaults(requiredTime: string)
    ensures var s := NewDay(requiredTime).summary;
      s.missingTime == requiredTime && !s.metTarget && s.manualAdjustments == Some("00:00") &&
      s.totalTracked == s.totalInactive == s.totalReported == s.overtime == "00:00"
    ensures NewDay(requiredTime).sessions == [] && NewDay(requiredTime).inactive == []
    ensures NewDay(requiredTime).workLocation == None && NewDay(requiredTime).requiredTime == requiredTime
  {
  }
}
