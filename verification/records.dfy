/**
 * The values the exercise tracker keeps and answers with: users, exercise
 * entries, the errors its handlers send, and the date services it leans on.
 */
module Records {
  import opened Wrappers
  import opened JsCoercion

  /** A registered user, `{username, _id}`. */
  datatype User = User(username: string, id: string)

  /** The date of an entry as stored: the form's `date` text verbatim, or
      the instant of the request (here: its day) when the form gave none. */
  datatype EntryDate = Given(text: string) | Now(day: int)

  /** One element of `exerciseLogs`: `{userId, description, duration, date}`. */
  datatype Entry = Entry(userId: string, description: string, duration: int, date: EntryDate)

  /** The failures the handlers answer with status 400. */
  datatype Error =
    | UsernameRequired
    | UsernameTaken
    | UnknownId
    | DurationRequired
    | DescriptionRequired
    | DurationTooShort
    | UnknownUserId
  {
    /** The exact plain-text body of the 400 response. */
    function Message(): string
    {
      match this
      case UsernameRequired => "Path `username` is required."
      case UsernameTaken => "username already taken"
      case UnknownId => "unknown _id"
      case DurationRequired => "Path `duration` is required."
      case DescriptionRequired => "Path `description` is required."
      case DurationTooShort => "duration too short"
      case UnknownUserId => "unknown userId"
    }
  }

  datatype Result<T> = Ok(value: T) | Err(error: Error)

  /**
   * The date libraries, as day numbers in the server's time zone:
   * `dateDay(s)` is the day of `new Date(s)`, `None` when `isValidDate`
   * rejects it; `momentDay(s)` is the day of `moment(s)`, `None` when that
   * moment is invalid; `format(d)` is `format('ddd MMM DD YYYY')` of day `d`.
   */
  datatype Calendar = Calendar(
    dateDay: string -> Option<int>,
    momentDay: string -> Option<int>,
    format: int -> string)

  /** The day of `moment(date)` for a stored entry date. */
  function DayOf(cal: Calendar, date: EntryDate): Option<int>
  {
    match date
    case Given(text) => cal.momentDay(text)
    case Now(day) => Some(day)
  }

  /** `moment(date).format('ddd MMM DD YYYY')`; an invalid moment formats as "Invalid date". */
  function FormatDate(cal: Calendar, date: EntryDate): (r: string)
    ensures DayOf(cal, date).None? ==> r == "Invalid date"
    ensures DayOf(cal, date).Some? ==> r == cal.format(DayOf(cal, date).value)
  {
    match DayOf(cal, date)
    case Some(day) => cal.format(day)
    case None => "Invalid date"
  }

  /** `users.find((user) => (user._id === id))`: the first user with that id. */
  function FindUser(users: seq<User>, id: string): (r: Option<User>)
    ensures r.None? <==> forall i :: 0 <= i < |users| ==> users[i].id != id
    ensures r.Some? ==> exists i :: 0 <= i < |users| && users[i] == r.value &&
                          forall j :: 0 <= j < i ==> users[j].id != id
    ensures r.Some? ==> r.value.id == id
  {
    if |users| == 0 then None
    else if users[0].id == id then Some(users[0])
    else FindUser(users[1..], id)
  }

  /** `userId && existingUser`: the user that a truthy `userId` field names, if any. */
  function LookupUser(users: seq<User>, userId: Option<string>): (r: Option<User>)
    ensures r.Some? <==> userId.Some? && userId.value != "" &&
                         exists i :: 0 <= i < |users| && users[i].id == userId.value
    ensures r.Some? ==> r.value.id == userId.value
    ensures r.Some? ==> exists i :: 0 <= i < |users| && users[i] == r.value &&
                          forall j :: 0 <= j < i ==> users[j].id != userId.value
    ensures r.Some? ==> Truthy(userId).Some? && r == FindUser(users, userId.value)
  {
    match Truthy(userId)
    case None => None
    case Some(id) => FindUser(users, id)
  }

  /** Some user is already registered under `name`. */
  predicate HasUsername(users: seq<User>, name: string)
  {
    exists i :: 0 <= i < |users| && users[i].username == name
  }

  predicate UsernamesDistinct(users: seq<User>)
  {
    forall i, j :: 0 <= i < j < |users| ==> users[i].username != users[j].username
  }

  /**
   * What the two append-only arrays satisfy at all times: usernames are
   * non-empty and pairwise distinct, and every entry names a registered
   * user and has a non-empty description and a duration of at least 1.
   */
  predicate Consistent(users: seq<User>, logs: seq<Entry>)
  {
    && UsernamesDistinct(users)
    && (forall i :: 0 <= i < |users| ==> users[i].username != "")
    && (forall i :: 0 <= i < |logs| ==>
          && logs[i].userId != ""
          && FindUser(users, logs[i].userId).Some?
          && logs[i].description != ""
          && logs[i].duration >= 1)
  }

  /** Appending a user leaves every earlier lookup as it was; the new user is
      found only by an id nobody had before. */
  lemma {:induction false} FindUserAppend(users: seq<User>, u: User, id: string)
    ensures FindUser(users + [u], id) ==
              if FindUser(users, id).Some? then FindUser(users, id)
              else if u.id == id then Some(u)
              else None
  {
    if |users| > 0 {
      assert (users + [u])[1..] == users[1..] + [u];
      FindUserAppend(users[1..], u, id);
    }
  }

  /** Registering a user under a new, non-empty name keeps the store consistent. */
  lemma RegisterKeepsConsistent(users: seq<User>, logs: seq<Entry>, u: User)
    requires Consistent(users, logs)
    requires u.username != "" && !HasUsername(users, u.username)
    ensures Consistent(users + [u], logs)
  {
    forall i | 0 <= i < |logs|
      ensures FindUser(users + [u], logs[i].userId).Some?
    {
      FindUserAppend(users, u, logs[i].userId);
    }
  }

  /** Recording an entry for a registered user, with a description and a
      positive duration, keeps the store consistent. */
  lemma RecordKeepsConsistent(users: seq<User>, logs: seq<Entry>, e: Entry)
    requires Consistent(users, logs)
    requires e.userId != "" && FindUser(users, e.userId).Some?
    requires e.description != "" && e.duration >= 1
    ensures Consistent(users, logs + [e])
  {
    assert forall i :: 0 <= i < |logs| ==> (logs + [e])[i] == logs[i];
  }
}
