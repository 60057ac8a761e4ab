# Exercise tracker: a Dafny model of its request handlers

The exercise tracker is a small Express service that keeps two append-only
arrays in memory, `users` and `exerciseLogs`, and answers four requests:
register a user (`POST /api/exercise/new-user`), list the users
(`GET /api/exercise/users`), record an exercise (`POST /api/exercise/add`)
and query a user's log, optionally bounded by a day range and a count
(`GET /api/exercise/log`).

This project models those handlers and proves what they promise.

- `wrappers.dfy` (`Wrappers`): `Option`, standing for `null` / `undefined`.
- `js_coercion.dfy` (`JsCoercion`): the coercions the handlers apply to
  form fields. `field || null` is `Truthy`. `parseInt(field) || null` is
  `ParseIntOrNull`, built on a model of `parseInt`: JavaScript whitespace,
  one sign, a `0x` prefix for radix 16, and the longest digit prefix.
  Lemmas show that the decimal text of any integer reads back as itself,
  also with a non-digit tail ("30 minutes"), and that "0" reads as absent.
- `sequences.dfy` (`Sequences`): `filter` and `slice(0, n)`, with proofs
  that filtering yields an order-preserving subsequence, that prefixes of
  subsequences are subsequences, and how filtering treats an appended
  element.
- `records.dfy` (`Records`): users, entries, the error cases with their
  exact 400 messages, the date services as a `Calendar` value, `users.find`,
  and `Consistent`, the invariant of the two arrays. Usernames are non-empty
  and pairwise distinct. Every entry names a registered user and has a
  description and a duration of at least 1.
- `log_query.dfy` (`LogQuery`): the log query as a function of the two
  arrays. It reads the arrays and cannot change them.
- `tracker.dfy` (`Tracker`): class `Store` with the two arrays as fields.
  `NewUser` and `AddExercise` are methods that append and keep `Valid()`.
  `ListUsers` and the `Log` function only read; `Log` answers with
  `LogQuery.QueryLog` over the current arrays. `AliceRuns` is an
  end-to-end client: register, record, query.

External pieces become parameters:

- the fresh id from `shortId.generate()` is the `id` argument of `NewUser`;
- the current day (`new Date()`) is the `today` argument of `AddExercise`;
- the date libraries are a `Calendar`. Its `dateDay` is `new Date(s)`
  checked by `isValidDate`. Its `momentDay` is `moment(s)`. Its `format`
  is `format('ddd MMM DD YYYY')`. All work on day numbers in the server's
  time zone.

Behaviour of the code that is easy to misread:

- A duration of "0" is reported as "Path `duration` is required.", not as
  too short. `parseInt(...) || null` turns 0 into `null`, so the test
  `duration === 0` at index.js:60 can never hold. "duration too short"
  only answers negative durations.
- An unknown user is "unknown _id" when adding and "unknown userId" when
  querying.
- A supplied `date` is stored verbatim even when it is no date. Such an
  entry formats as "Invalid date". Any active `from` or `to` bound drops it,
  because moment's comparisons with an invalid moment are false.
- Nothing checks that a generated id is unused. The model allows
  duplicates, and lookups return the first user with the id, as `find`
  does.

## Model

| member | source | states |
|---|---|---|
| `JsCoercion.LeadingWhitespace` | index.js:55 | `parseInt` skips exactly the leading run of JavaScript whitespace |
| `JsCoercion.DigitPrefix` | index.js:55 | the digits `parseInt` reads are the longest prefix of radix digits |
| `JsCoercion.ParseIntOrNull` | index.js:55 | `parseInt` with the `or null` fallback is never 0; it is a number exactly when `parseInt` gives a nonzero number, and then that number |
| `JsCoercion.ParseIntReadsLeadingInteger` | index.js:55 | `parseInt` reads back the decimal text of every integer and stops at the first non-digit, except "0x…", which is a hex prefix |
| `JsCoercion.ParseIntOrNullOfText` | index.js:99 | a numeric field with nonzero integer text gives that integer; "0" gives `null` like an absent field |
| `JsCoercion.ParseIntRejectsNonNumeric` | index.js:55 | a field whose first character cannot start a number is NaN |
| `Sequences.Filter` | index.js:127 | `filter` keeps exactly the accepted elements and never lengthens the sequence |
| `Sequences.Take` | index.js:129 | `slice(0, n)` is the first min(n, length) elements |
| `Sequences.FilterIsSubsequence` | index.js:127 | the filtered sequence is a subsequence of the input, in the input's order |
| `Sequences.PrefixOfSubsequence` | index.js:129 | head-truncating a subsequence leaves a subsequence |
| `Sequences.FilterAppend` | index.js:72 | filtering after a `push` gives the old result, plus the new element if it is accepted |
| `Records.FindUser` | index.js:58 | `users.find` returns the first user with the id, and none exactly when no user has it |
| `Records.LookupUser` | index.js:101-102 | a user is found exactly when `userId` is present, non-empty and some registered user has it; the user found is the first with that id |
| `Records.FindUserAppend` | index.js:39 | pushing a user leaves every earlier lookup unchanged; the new user is found only by an id nobody had |
| `Records.RegisterKeepsConsistent` | index.js:29-40 | registering a non-empty, untaken username keeps usernames distinct and every entry's user registered |
| `Records.RecordKeepsConsistent` | index.js:66-72 | appending an entry for a registered user with a description and a duration of at least 1 keeps the store consistent |
| `LogQuery.QueryLog` | index.js:95-156 | the query fails with "unknown userId" exactly when the user is missing or unknown; otherwise it answers with that id and username, one line per selected entry, and `count` equal to the number of lines; `Tracker.Store.Log` answers the request with this function over the store's current arrays |
| `LogQuery.SelectedIsOrderedSubsequence` | index.js:103-129 | the listed entries are a subsequence of `exerciseLogs` in insertion order, each of the user and within the valid bounds |
| `LogQuery.UnlimitedListsEveryMatch` | index.js:140-150 | with no positive limit every matching entry is listed |
| `LogQuery.LimitListsFirstMatches` | index.js:128-139 | a positive limit n lists exactly the first min(n, matches) matches |
| `LogQuery.NoBoundsListsAllOfUser` | index.js:103-127 | without valid bounds the matches are all of the user's entries |
| `LogQuery.InvalidBoundIsAbsent` | index.js:104-125 | an invalid `from` or `to` date gives the same answer as omitting it |
| `LogQuery.MatchingAfterRecord` | index.js:127 | an entry added later appears at the end of every query it matches |
| `Tracker.Store.constructor` | index.js:24 | the store starts with no users and no entries |
| `Tracker.Store.NewUser` | index.js:25-46 | a missing or empty username fails with "Path `username` is required."; a taken one fails with "username already taken"; both leave `users` unchanged; otherwise `{username, _id}` is appended and returned; the invariant holds |
| `Tracker.Store.ListUsers` | index.js:47-49 | all users in registration order |
| `Tracker.Store.AddExercise` | index.js:52-93 | the checks run in order and the first failure answers: unknown user, missing duration (also "0"), missing description, duration below 1; a failure leaves `exerciseLogs` unchanged; success appends exactly one entry and returns the username, id, description, the same duration and the formatted date |
| `Tracker.ThirtyMinutes` | index.js:55 | the form value "30" is a duration of 30 |
| `Tracker.AliceRuns` | index.js:25-156 | registering "alice", adding a 30-minute "run" and querying gives `count` 1 and that one entry dated today |

## Left out

- Express setup, body parsing, CORS, the static page and `listen` (index.js:3-18, 158-160): HTTP plumbing with no decision logic.
- HTTP status codes and JSON serialisation: outcomes are a `Result` whose error case carries the exact message (`Error.Message`).
- `shortId.generate()`: a random-id library; the id is a parameter and may collide, as in the source.
- `Date`, `moment`, parsing, formatting and day comparison: foreign date libraries, abstracted as the `Calendar` functions on day numbers; time zones and times of day are not modelled.
- Fields given more than once or with bracketed names, which the body and query parsers turn into arrays or objects: every field is an optional string.
- JsCoercion.ParseInt: does not model the rounding of magnitudes above 2^53 to the nearest double, because Dafny integers are unbounded.
