/**
 * `GET /api/exercise/log`: a user's entries, optionally limited to a range
 * of days and to a number of entries. The handler only reads the arrays,
 * so it is a function of them.
 */
module LogQuery {
  import opened Wrappers
  import opened JsCoercion
  import opened Sequences
  import opened Records

  /** The query string: `userId`, `from`, `to` and `limit`, each possibly absent. */
  datatype LogRequest = LogRequest(
    userId: Option<string>,
    from: Option<string>,
    to: Option<string>,
    limit: Option<string>)

  /** One element of the answer's `log`: `{description, duration, date}`. */
  datatype LogLine = LogLine(description: string, duration: int, date: string)

  /** The answer: `{_id, username, count, log}`. */
  datatype LogReport = LogReport(id: string, username: string, count: nat, log: seq<LogLine>)

  /** A `from` or `to` field as a day bound: absent, empty and invalid dates
      (`isValidDate` fails on `new Date(field)`) all give no bound. */
  function Bound(cal: Calendar, field: Option<string>): Option<int>
  {
    match Truthy(field)
    case None => None
    case Some(text) => cal.dateDay(text)
  }

  /** `fromCondition`: `isSameOrAfter(from, 'day')`, which an entry with an
      invalid date never satisfies. */
  predicate OnOrAfter(cal: Calendar, e: Entry, from: Option<int>)
  {
    from.None? || (DayOf(cal, e.date).Some? && DayOf(cal, e.date).value >= from.value)
  }

  /** `toCondition`: `isSameOrBefore(to, 'day')`. */
  predicate OnOrBefore(cal: Calendar, e: Entry, to: Option<int>)
  {
    to.None? || (DayOf(cal, e.date).Some? && DayOf(cal, e.date).value <= to.value)
  }

  /** The test `exerciseLogs.filter` applies to each entry. */
  predicate Matches(cal: Calendar, userId: string, from: Option<int>, to: Option<int>, e: Entry)
  {
    e.userId == userId && OnOrAfter(cal, e, from) && OnOrBefore(cal, e, to)
  }

  /** `matchingLogs`: the user's entries within the bounds, oldest first. */
  function MatchingLogs(logs: seq<Entry>, cal: Calendar, userId: string, q: LogRequest): seq<Entry>
  {
    var from, to := Bound(cal, q.from), Bound(cal, q.to);
    Filter(logs, e => Matches(cal, userId, from, to, e))
  }

  /** `limit && limit > 0 ? matches.slice(0, limit) : matches`. */
  function Limit(matches: seq<Entry>, limit: Option<int>): seq<Entry>
  {
    if limit.Some? && limit.value > 0 then Take(matches, limit.value) else matches
  }

  /** The entries the answer lists. */
  function Selected(logs: seq<Entry>, cal: Calendar, userId: string, q: LogRequest): seq<Entry>
  {
    Limit(MatchingLogs(logs, cal, userId, q), ParseIntOrNull(q.limit))
  }

  function Line(cal: Calendar, e: Entry): LogLine
  {
    LogLine(e.description, e.duration, FormatDate(cal, e.date))
  }

  /** The whole handler: an unknown user is an error, otherwise the report. */
  function QueryLog(users: seq<User>, logs: seq<Entry>, q: LogRequest, cal: Calendar): (r: Result<LogReport>)
    ensures r.Err? <==> LookupUser(users, q.userId).None?
    ensures r.Err? ==> r.error == UnknownUserId
    ensures r.Ok? ==> && q.userId.Some?
                      && r.value.id == q.userId.value
                      && r.value.username == LookupUser(users, q.userId).value.username
    ensures r.Ok? ==> r.value.count == |r.value.log|
    ensures r.Ok? ==> var sel := Selected(logs, cal, r.value.id, q);
                      |r.value.log| == |sel| &&
                      forall i :: 0 <= i < |sel| ==> r.value.log[i] == Line(cal, sel[i])
  {
    match LookupUser(users, q.userId)
    case None => Err(UnknownUserId)
    case Some(user) =>
      var sel := Selected(logs, cal, q.userId.value, q);
      var log := seq(|sel|, i requires 0 <= i < |sel| => Line(cal, sel[i]));
      Ok(LogReport(q.userId.value, user.username, |log|, log))
  }

  /** The listed entries come from `exerciseLogs` in insertion order, and each
      belongs to the user and lies within the valid bounds. */
  lemma SelectedIsOrderedSubsequence(logs: seq<Entry>, cal: Calendar, userId: string, q: LogRequest)
    ensures IsSubsequence(Selected(logs, cal, userId, q), logs)
    ensures forall i :: 0 <= i < |Selected(logs, cal, userId, q)| ==>
              Matches(cal, userId, Bound(cal, q.from), Bound(cal, q.to), Selected(logs, cal, userId, q)[i])
  {
    var matches := MatchingLogs(logs, cal, userId, q);
    var sel := Selected(logs, cal, userId, q);
    FilterIsSubsequence(logs, e => Matches(cal, userId, Bound(cal, q.from), Bound(cal, q.to), e));
    assert sel == matches[..|sel|];
    PrefixOfSubsequence(matches, logs, |sel|);
  }

  /** With no positive limit, every matching entry is listed. */
  lemma UnlimitedListsEveryMatch(logs: seq<Entry>, cal: Calendar, userId: string, q: LogRequest)
    requires ParseIntOrNull(q.limit).None? || ParseIntOrNull(q.limit).value < 0
    ensures Selected(logs, cal, userId, q) == MatchingLogs(logs, cal, userId, q)
    ensures forall i :: 0 <= i < |logs| && Matches(cal, userId, Bound(cal, q.from), Bound(cal, q.to), logs[i]) ==>
              logs[i] in Selected(logs, cal, userId, q)
  {
  }

  /** A positive limit `n` lists the first min(n, |matches|) matches. */
  lemma LimitListsFirstMatches(logs: seq<Entry>, cal: Calendar, userId: string, q: LogRequest, n: int)
    requires ParseIntOrNull(q.limit) == Some(n) && n > 0
    ensures var matches := MatchingLogs(logs, cal, userId, q);
            |Selected(logs, cal, userId, q)| == (if n < |matches| then n else |matches|)
    ensures forall i :: 0 <= i < |Selected(logs, cal, userId, q)| ==>
              Selected(logs, cal, userId, q)[i] == MatchingLogs(logs, cal, userId, q)[i]
  {
  }

  /** Without valid bounds the query keeps exactly the user's entries. */
  lemma NoBoundsListsAllOfUser(logs: seq<Entry>, cal: Calendar, userId: string, q: LogRequest)
    requires Bound(cal, q.from).None? && Bound(cal, q.to).None?
    ensures MatchingLogs(logs, cal, userId, q) == Filter(logs, (e: Entry) => e.userId == userId)
  {
    FilterAgreeing(logs, e => Matches(cal, userId, None, None, e), (e: Entry) => e.userId == userId);
  }

  /** An invalid `from` or `to` date answers exactly as if it were absent. */
  lemma InvalidBoundIsAbsent(users: seq<User>, logs: seq<Entry>, q: LogRequest, cal: Calendar)
    ensures q.from.Some? && cal.dateDay(q.from.value).None? ==>
              QueryLog(users, logs, q, cal) == QueryLog(users, logs, q.(from := None), cal)
    ensures q.to.Some? && cal.dateDay(q.to.value).None? ==>
              QueryLog(users, logs, q, cal) == QueryLog(users, logs, q.(to := None), cal)
  {
  }

  /** Recording an entry adds it at the end of every query's matches that it meets. */
  lemma MatchingAfterRecord(logs: seq<Entry>, e: Entry, cal: Calendar, userId: string, q: LogRequest)
    ensures MatchingLogs(logs + [e], cal, userId, q) ==
              MatchingLogs(logs, cal, userId, q) +
              (if Matches(cal, userId, Bound(cal, q.from), Bound(cal, q.to), e) then [e] else [])
  {
    FilterAppend(logs, e, x => Matches(cal, userId, Bound(cal, q.from), Bound(cal, q.to), x));
  }
}
