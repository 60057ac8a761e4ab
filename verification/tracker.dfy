/**
 * The exercise tracker's state, the module-level arrays `users` and
 * `exerciseLogs`, and its four request handlers.
 */
module Tracker {
  import opened Wrappers
  import opened JsCoercion
  import opened Records
  import opened LogQuery

  /** The answer to a successful add: `{username, _id, description, duration, date}`. */
  datatype Exercise = Exercise(username: string, id: string, description: string, duration: int, date: string)

  /** The stored date of a new entry: `request.body.date || new Date()`. */
  function Stamp(date: Option<string>, today: int): (d: EntryDate)
    ensures Truthy(date).Some? ==> d == Given(date.value)
    ensures Truthy(date).None? ==> d == Now(today)
  {
    match Truthy(date)
    case Some(text) => Given(text)
    case None => Now(today)
  }

  class Store {
    var users: seq<User>
    var logs: seq<Entry>

    ghost predicate Valid()
      reads this
    {
      Consistent(users, logs)
    }

    /** Both arrays start empty. */
    constructor ()
      ensures Valid() && users == [] && logs == []
    {
      users := [];
      logs := [];
    }

    /**
     * `POST /api/exercise/new-user`. `id` stands for `shortId.generate()`;
     * nothing checks that it is unused.
     */
    method NewUser(username: Option<string>, id: string) returns (r: Result<User>)
      requires Valid()
      modifies this
      ensures Valid() && logs == old(logs)
      ensures Truthy(username).None? ==> r == Err(UsernameRequired) && users == old(users)
      ensures Truthy(username).Some? && HasUsername(old(users), username.value) ==>
                r == Err(UsernameTaken) && users == old(users)
      ensures Truthy(username).Some? && !HasUsername(old(users), username.value) ==>
                r == Ok(User(username.value, id)) && users == old(users) + [r.value]
    {
      var name := Truthy(username);
      if name.Some? {
        if HasUsername(users, name.value) {
          r := Err(UsernameTaken);
        } else {
          var user := User(name.value, id);
          RegisterKeepsConsistent(users, logs, user);
          users := users + [user];
          r := Ok(user);
        }
      } else {
        r := Err(UsernameRequired);
      }
    }

    /** `GET /api/exercise/users`: every user, in registration order. */
    method ListUsers() returns (all: seq<User>)
      ensures all == users
    {
      all := users;
    }

    /**
     * `POST /api/exercise/add`. `today` stands for `new Date()`. The checks
     * run in a fixed order and the first that fails decides the answer:
     * known user, duration present, description present, duration at least 1.
     * Since `parseInt(duration) || null` is never 0, the source's test
     * `duration === 0` can never hold, and "0" is a missing duration.
     */
    method AddExercise(userId: Option<string>, description: Option<string>, duration: Option<string>,
                       date: Option<string>, today: int, cal: Calendar)
      returns (r: Result<Exercise>)
      requires Valid()
      modifies this
      ensures Valid() && users == old(users)
      ensures r.Err? ==> logs == old(logs)
      ensures LookupUser(users, userId).None? <==> r == Err(UnknownId)
      ensures LookupUser(users, userId).Some? ==>
                (ParseIntOrNull(duration).None? <==> r == Err(DurationRequired))
      ensures LookupUser(users, userId).Some? && ParseIntOrNull(duration).Some? ==>
                (Truthy(description).None? <==> r == Err(DescriptionRequired))
      ensures LookupUser(users, userId).Some? && ParseIntOrNull(duration).Some? && Truthy(description).Some? ==>
                (ParseIntOrNull(duration).value < 1 <==> r == Err(DurationTooShort))
      ensures r.Ok? <==>
                && LookupUser(users, userId).Some?
                && ParseIntOrNull(duration).Some? && ParseIntOrNull(duration).value >= 1
                && Truthy(description).Some?
      ensures r.Ok? ==>
                && logs == old(logs) + [Entry(userId.value, description.value, ParseIntOrNull(duration).value, Stamp(date, today))]
                && r.value == Exercise(LookupUser(users, userId).value.username, userId.value, description.value,
                                       ParseIntOrNull(duration).value, FormatDate(cal, Stamp(date, today)))
    {
      var id := Truthy(userId);
      var text := Truthy(description);
      var minutes := ParseIntOrNull(duration);
      var stamp := Stamp(date, today);
      var existing := LookupUser(users, userId);
      if existing.Some? {
        if minutes.Some? {
          if text.Some? {
            if minutes.value < 1 {
              r := Err(DurationTooShort);
            } else {
              var entry := Entry(id.value, text.value, minutes.value, stamp);
              RecordKeepsConsistent(users, logs, entry);
              logs := logs + [entry];
              r := Ok(Exercise(existing.value.username, id.value, text.value, minutes.value, FormatDate(cal, stamp)));
            }
          } else {
            r := Err(DescriptionRequired);
          }
        } else {
          r := Err(DurationRequired);
        }
      } else {
        r := Err(UnknownId);
      }
    }

    /** `GET /api/exercise/log`, over the current arrays. */
    function Log(q: LogRequest, cal: Calendar): Result<LogReport>
      reads this
    {
      QueryLog(users, logs, q, cal)
    }
  }

  /** The form value "30" is a duration of 30 minutes. */
  lemma ThirtyMinutes()
    ensures ParseIntOrNull(Some("30")) == Some(30)
  {
    ParseIntOrNullOfText(30, []);
    assert IntText(30) + [] == "30";
  }

  /** Asking, without bounds or limit, for the log of the user owning the only entry. */
  lemma LoneEntryReport(users: seq<User>, entry: Entry, q: LogRequest, cal: Calendar)
    requires q == LogRequest(Some(entry.userId), None, None, None)
    requires LookupUser(users, q.userId).Some?
    ensures QueryLog(users, [entry], q, cal) ==
              Ok(LogReport(entry.userId, LookupUser(users, q.userId).value.username, 1, [Line(cal, entry)]))
  {
    assert Selected([entry], cal, entry.userId, q) == [entry];
    var r := QueryLog(users, [entry], q, cal);
    assert r.Ok? && |r.value.log| == 1 && r.value.log[0] == Line(cal, entry);
    assert r.value.log == [Line(cal, entry)];
  }

  /**
   * A fresh store: register "alice", record a 30-minute "run" with no date,
   * and ask for that user's log. It lists that one entry, dated today.
   */
  method AliceRuns(id: string, today: int, cal: Calendar) returns (report: Result<LogReport>)
    requires id != ""
    ensures report == Ok(LogReport(id, "alice", 1, [LogLine("run", 30, cal.format(today))]))
  {
    var store := new Store();
    var created := store.NewUser(Some("alice"), id);
    assert store.users == [User("alice", id)];
    assert LookupUser(store.users, Some(id)) == Some(User("alice", id));
    ThirtyMinutes();
    assert Truthy(Some("run")) == Some("run");
    var added := store.AddExercise(Some(id), Some("run"), Some("30"), None, today, cal);
    assert added.Ok?;
    var entry := Entry(id, "run", 30, Now(today));
    assert store.logs == [entry];
    var q := LogRequest(Some(id), None, None, None);
    LoneEntryReport(store.users, entry, q, cal);
    report := store.Log(q, cal);
  }
}
