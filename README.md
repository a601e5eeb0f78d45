# URL shortener and exercise tracker, modelled in Dafny

This project models the logic of two small record-keeping web services:

- **The URL shortener** (`projects/boilerplate-project-urlshortener/index.js`).
  `POST /api/shorturl` checks the submitted URL against the case-insensitive
  regular expression `^https?://[\w.-]+\.[a-z]{2,}(/.*)?$`. A URL that fails
  gets `{error: 'invalid url'}`. A URL already stored gets its existing code
  back. A new URL gets one more than the largest code in the table, or 1 in
  an empty table, and is saved.
  `GET /api/shorturl/:short_url` looks the code up. It redirects to the
  stored URL, or answers `{error: 'No short URL found'}`. A code that does
  not parse as an integer makes the lookup throw, and the handler answers
  `{error: 'Server error'}`.
- **The exercise tracker** (`projects/boilerplate-project-exercisetracker/index.js`).
  It keeps users with unique usernames and exercises that point at a user by
  id. The handlers create a user, list the users, add an exercise for a
  known user (the date defaults to now), and fetch a user's log. The log is
  filtered by an optional inclusive `[from, to]` date window, cut by an
  optional limit, and reported with its count.

Each service's document store is a Dafny class whose collections are
sequences: `UrlShortener.UrlStore` and `ExerciseTracker.Tracker`.
Operations that save documents are methods. Each is proved against pure
functions on those sequences, and the properties are proved about those
functions as lemmas. Responses are datatype values, not JSON bodies, status
codes or redirects.

Files:

- `wrappers.dfy`: `Option` and `Result`.
- `url_validator.dfy`: the URL check. `IsValidUrl` is a hand-written
  recogniser. `MatchesUrlPattern` is a reference definition of the language
  of the regular expression, piece by piece. `ValidUrlIffPattern` proves that
  the two agree on every string.
- `url_shortener.dfy`: the Url table, shortening and resolving, the table
  invariant, and the sequential-call properties.
- `exercise_tracker.dfy`: users, exercises, the log query and the four
  handlers.

Decisions about behaviour that the handler code leaves to its libraries:

- **Case-insensitive matching.** The regular expression has the `i` flag but
  not the `u` flag. So case folding relates ASCII letters only, and `\w` is
  `[A-Za-z0-9_]`. The host class `[\w.-]` is `\w` plus `.` and `-`. `.` in the path
  excludes the four line terminators (LF, CR, U+2028, U+2029).
- **Failed saves.** The tracker's `catch` branches answer a generic error
  when a save fails. Three such failures follow from the input, and they are
  modelled:
  - an empty username fails the schema's `required` check;
  - a taken username fails the unique index on `username` (index.js line 21);
  - a duration for which `parseInt` gives NaN fails the store's Number
    cast.
  Each answers the handler's error message and stores nothing. For the NaN
  duration, `save()` at index.js line 68 rejects, and the `catch` at lines
  77-78 answers "Exercise add failed.".
- **The limit.** `if (limit)` tests the query string, so `"0"` passes the
  test. `parseInt` then gives 0, and a limit of 0 means no limit. A negative
  limit `n` returns at most `-n` documents. The limit is `None` when absent.
- **Ids.** Ids are natural numbers handed out by a counter in the store.
  They stand for the generated document ids.

## Model

| member | source | states |
|---|---|---|
| `UrlValidator.IsValidUrl` | projects/boilerplate-project-urlshortener/index.js:39-40 | The handler's URL test: a scheme, then an authority up to the first `/` made of host characters whose text after the last dot is two or more letters with something before that dot, then an empty path or `/` and text without line terminators. By `ValidUrlIffPattern` it accepts exactly the strings the regular expression matches. |
| `UrlValidator.MatchesUrlPattern` | projects/boilerplate-project-urlshortener/index.js:39 | Reference definition of the regular expression's language: the strings that split as `https?://` in any letter case, a non-empty run of `[\w.-]`, a literal dot, two or more ASCII letters, and nothing or `/` followed by text without line terminators. |
| `UrlValidator.IsScheme` | projects/boilerplate-project-urlshortener/index.js:39 | `https?://` under the `i` flag: `http` or `https` in any ASCII letter case, then `://`. |
| `UrlValidator.IsHostText` | projects/boilerplate-project-urlshortener/index.js:39 | `[\w.-]+`: one or more ASCII letters, digits, `_`, `.` or `-`. |
| `UrlValidator.IsTld` | projects/boilerplate-project-urlshortener/index.js:39 | `[a-z]{2,}` under the `i` flag: two or more ASCII letters of either case. |
| `UrlValidator.IsPathText` | projects/boilerplate-project-urlshortener/index.js:39 | `(\/.*)?$`: nothing, or `/` followed by characters none of which is LF, CR, U+2028 or U+2029. |
| `UrlValidator.FirstSlash` | projects/boilerplate-project-urlshortener/index.js:39 | The position where the authority ends: no `/` before it, and a `/` at it unless it is the end of the string. |
| `UrlValidator.LastDot` | projects/boilerplate-project-urlshortener/index.js:39 | The position of a dot with no dot after it, or nothing exactly when the string holds no dot. |
| `UrlValidator.IsAuthority` | projects/boilerplate-project-urlshortener/index.js:39 | The text between scheme and path: host characters only, with a last dot that has at least one character before it and a label of two or more letters after it. |
| `UrlValidator.SchemeLength` | projects/boilerplate-project-urlshortener/index.js:39 | The leading `http://` or `https://`, in any letter case, is recognised and measured (7 or 8). No other prefix is a scheme. |
| `UrlValidator.ValidUrlMatchesPattern` | projects/boilerplate-project-urlshortener/index.js:39 | Every string the validator accepts splits as scheme, host of `[\w.-]+`, a dot, a label of two or more letters, and an empty path or `/` followed by text without line terminators. |
| `UrlValidator.PatternMatchIsValidUrl` | projects/boilerplate-project-urlshortener/index.js:39 | Every string with such a split is accepted. The authority ends at the first `/`, and the dot before the label is the authority's last dot. |
| `UrlValidator.ValidUrlIffPattern` | projects/boilerplate-project-urlshortener/index.js:39 | The validator accepts exactly the language of the regular expression. |
| `UrlValidator.AcceptsPlainUrl` | projects/boilerplate-project-urlshortener/index.js:39 | `https://www.freecodecamp.org` is accepted. |
| `UrlValidator.AcceptsLooseUrl` | projects/boilerplate-project-urlshortener/index.js:39 | `HTTP://-.Co/a b` is accepted: any case, a host of a single dash, a space in the path. |
| `UrlValidator.RejectsOtherScheme` | projects/boilerplate-project-urlshortener/index.js:39 | `ftp://example.com` is rejected. |
| `UrlValidator.RejectsPort` | projects/boilerplate-project-urlshortener/index.js:39 | `http://localhost:3000` is rejected, because `:` is not a host character. |
| `UrlValidator.RejectsOneLetterTld` | projects/boilerplate-project-urlshortener/index.js:39 | `http://example.c` is rejected, because the label after the last dot is one letter. |
| `UrlShortener.FindByOriginal` | projects/boilerplate-project-urlshortener/index.js:46 | It returns a stored record holding exactly that URL, and nothing exactly when no record holds it. |
| `UrlShortener.FindByShort` | projects/boilerplate-project-urlshortener/index.js:76 | It returns a stored record holding that code, and nothing exactly when no record holds it. |
| `UrlShortener.MaxCode` | projects/boilerplate-project-urlshortener/index.js:55 | In a non-empty table, the result is a stored code that no stored code exceeds. |
| `UrlShortener.NextCode` | projects/boilerplate-project-urlshortener/index.js:56 | The next code is 1 for an empty table. Otherwise it is one more than a stored code, and it exceeds every stored code. |
| `UrlShortener.ShortenOn` | projects/boilerplate-project-urlshortener/index.js:35-69 | A rejected URL gives `invalid url` and leaves the table as it was. An accepted URL is echoed with a code under which it is now stored. A URL already stored leaves the table as it was. A new valid URL gets 1 in an empty table, otherwise one more than the largest code. It is appended as exactly one record, and every earlier record is kept. |
| `UrlShortener.Resolve` | projects/boilerplate-project-urlshortener/index.js:72-83 | It redirects exactly when the code parsed and some record holds it, and then to that record's URL. A code that did not parse (NaN) answers `Server error`, because the store's Number cast of the filter throws and the `catch` answers. A parsed code that no record holds answers `No short URL found`. |
| `UrlShortener.ShortenPreservesWellFormed` | projects/boilerplate-project-urlshortener/index.js:46-60 | Shortening keeps codes positive and strictly increasing in insertion order, so they stay distinct. It also keeps every URL stored at most once. |
| `UrlShortener.StoredRecordIsUnique` | projects/boilerplate-project-urlshortener/index.js:46-60 | In a table satisfying that invariant, two records with the same URL, or with the same code, are the same record. |
| `UrlShortener.ShortenIdempotent` | projects/boilerplate-project-urlshortener/index.js:46-52 | Shortening the same URL a second time returns the same response and leaves the table as the first call left it. |
| `UrlShortener.ResolveShortened` | projects/boilerplate-project-urlshortener/index.js:56-79 | Round trip: for every valid URL, resolving the code that shortening returns redirects to that URL. |
| `UrlShortener.DistinctUrlsGetIncreasingCodes` | projects/boilerplate-project-urlshortener/index.js:55-56 | Two distinct valid URLs are shortened in turn, and the second is not yet stored. Then the second gets a strictly larger code than the first. |
| `UrlShortener.FindByShortAppend` | projects/boilerplate-project-urlshortener/index.js:76 | The lookup returns the first record holding the code, so records appended after one that holds it do not change the answer. |
| `UrlShortener.ShortenKeepsResolution` | projects/boilerplate-project-urlshortener/index.js:59-60 | Shortening never alters an existing record and only appends, so an assigned code resolves to the same URL afterwards. This holds in every table, including one that holds a code twice. |
| `UrlShortener.UrlStore.constructor` | projects/boilerplate-project-urlshortener/index.js:23-27 | The Url collection starts empty, which satisfies the table invariant. |
| `UrlShortener.UrlStore.Shorten` | projects/boilerplate-project-urlshortener/index.js:35-69 | The handler's early returns and its save produce exactly `ShortenOn`'s response and new table, and the table invariant is kept. |
| `UrlShortener.ShortenTwiceThenResolve` | projects/boilerplate-project-urlshortener/index.js:35-83 | Against the store: two calls with the same valid URL return the same code, and that code redirects to the URL. |
| `ExerciseTracker.TrackerError.Message` | projects/boilerplate-project-exercisetracker/index.js:43-86 | The error bodies of the handlers: `User creation failed.`, `User not found` and `Exercise add failed.`. |
| `ExerciseTracker.UsernameInUse` | projects/boilerplate-project-exercisetracker/index.js:21 | The unique index on `username`: some stored user already has the name. |
| `ExerciseTracker.FindUser` | projects/boilerplate-project-exercisetracker/index.js:56 | It returns a stored user with that id, and nothing exactly when no user has it. |
| `ExerciseTracker.FindStoredUser` | projects/boilerplate-project-exercisetracker/index.js:85 | With unique ids, looking up a stored user's id finds that very user. |
| `ExerciseTracker.InWindow` | projects/boilerplate-project-exercisetracker/index.js:91-95 | The date filter: at least `from` (`$gte`) when `from` is given, and at most `to` (`$lte`) when `to` is given. No bound applies when neither is given. |
| `ExerciseTracker.Selected` | projects/boilerplate-project-exercisetracker/index.js:89-95 | The whole filter: the exercise's `userId` is the requested id and its date is inside the window. |
| `ExerciseTracker.Matching` | projects/boilerplate-project-exercisetracker/index.js:89-97 | The find returns every exercise owned by the id and inside the inclusive window, as often as it is stored, and nothing else. |
| `ExerciseTracker.ApplyLimit` | projects/boilerplate-project-exercisetracker/index.js:98 | The limit keeps a sub-multiset. With no limit or a limit of 0 it keeps everything. Otherwise it keeps min(count, \|n\|) documents. |
| `ExerciseTracker.Project` | projects/boilerplate-project-exercisetracker/index.js:97 | `select('-_id description duration date')`: an exercise's description, duration and date, without its owner. |
| `ExerciseTracker.ProjectAll` | projects/boilerplate-project-exercisetracker/index.js:97-106 | The projection of every selected document, one entry per document, in the same order. |
| `ExerciseTracker.ProjectAllAppend` | projects/boilerplate-project-exercisetracker/index.js:102-106 | Projecting two runs of documents one after the other gives the two projections one after the other. |
| `ExerciseTracker.QueryLog` | projects/boilerplate-project-exercisetracker/index.js:88-106 | Every entry is the projection of a stored exercise of the requested user. Every entry's date is at least `from` when `from` is given, and at most `to` when `to` is given. A non-zero limit n caps the log at \|n\| entries. Each exercise's entry appears at most as often as the selection holds that exercise, so the log is a sub-multiset of the projected selection. Without a limit, or with a limit of 0, the log is exactly the projected selection as a multiset. No order is promised. |
| `ExerciseTracker.ChosenAreSelected` | projects/boilerplate-project-exercisetracker/index.js:89-98 | Whatever a limit draws from the selection is a stored exercise of the user inside the window. |
| `ExerciseTracker.LimitKeepsSubMultiset` | projects/boilerplate-project-exercisetracker/index.js:98 | Projecting after a limit gives a sub-multiset of projecting the whole selection. |
| `ExerciseTracker.LogIsComplete` | projects/boilerplate-project-exercisetracker/index.js:91-97 | Without a limit, every stored exercise of the user inside the window appears in the log. |
| `ExerciseTracker.UnfilteredLogHasAllExercises` | projects/boilerplate-project-exercisetracker/index.js:89-97 | With neither bound and no limit, every exercise of the user appears. |
| `ExerciseTracker.LogLengthUnderLimit` | projects/boilerplate-project-exercisetracker/index.js:98 | With a limit n > 0, the log holds exactly min(n, number of selected exercises) entries. |
| `ExerciseTracker.NothingSelected` | projects/boilerplate-project-exercisetracker/index.js:89-97 | A user none of whose exercises is stored gets an empty selection. |
| `ExerciseTracker.MatchingAppend` | projects/boilerplate-project-exercisetracker/index.js:97 | Selecting from a table with one more exercise gives the old selection, plus that exercise when it is selected. |
| `ExerciseTracker.LogAfterAdd` | projects/boilerplate-project-exercisetracker/index.js:61-68 | Saving one exercise adds its entry to the unlimited log exactly when it is the requested user's and inside the window. Other logs are unchanged, as multisets. |
| `ExerciseTracker.FirstExerciseLog` | projects/boilerplate-project-exercisetracker/index.js:97-106 | A user's first exercise is that user's whole unfiltered log. |
| `ExerciseTracker.Tracker.constructor` | projects/boilerplate-project-exercisetracker/index.js:20-32 | The user and exercise collections start empty, which satisfies the store invariant. |
| `ExerciseTracker.Tracker.CreateUser` | projects/boilerplate-project-exercisetracker/index.js:37-45 | An empty or taken username answers `User creation failed.` and stores nothing. Any other username is stored as exactly one new user with a fresh id. The reply echoes the new user, and looking up that id finds it. Usernames and ids stay unique. |
| `ExerciseTracker.Tracker.ListUsers` | projects/boilerplate-project-exercisetracker/index.js:48-51 | It lists every stored user (id and username) and nothing else, with distinct usernames. |
| `ExerciseTracker.Tracker.AddExercise` | projects/boilerplate-project-exercisetracker/index.js:54-80 | An unknown id answers `User not found` and stores nothing. A NaN duration answers `Exercise add failed.` and stores nothing. Otherwise exactly one exercise is stored with the user's id, the description, the duration, and the given date or now. The reply echoes the user's id and username. Users are unchanged, and every exercise still belongs to a stored user. |
| `ExerciseTracker.Tracker.GetLog` | projects/boilerplate-project-exercisetracker/index.js:83-117 | An unknown id answers `User not found`. Otherwise the reply carries the user's id and username and the log of `QueryLog`, and `count` equals the number of log entries. |
| `ExerciseTracker.AddThenLog` | projects/boilerplate-project-exercisetracker/index.js:37-117 | Against the store: a new user's first exercise, without a date, makes a log of count 1 holding that exercise's description, duration and the current time. |

## Left out

- HTTP and server plumbing: Express setup, CORS, body parsing, static files, the index page and `listen`. This is I/O with no logic. Responses are datatype values.
- The database driver: connecting, schema declarations, and executing queries and sorts. The collections are sequences held by a class.
- The `catch` branches for failures of the store itself (lost connection and the like). They depend on nothing the model has. The three failures caused by the input (empty username, taken username, NaN duration) are modelled.
- Request bodies that are not strings. A missing `url` is the string `"undefined"` by the time the regular expression tests it, and the validator rejects that. A missing `description` is modelled as a string.
- Concurrency: two simultaneous shortens can read the same largest code and save duplicates. The model is sequential, and its invariants hold for sequential calls only.
- Date parsing and `toDateString`. Dates are integers (milliseconds since the epoch) supplied already parsed, and "now" is a parameter. Replies carry the integer date, not the formatted day. A date string that does not parse makes the store's Date cast fail, and this is not modelled.
- `parseInt`. Durations, limits and short codes arrive already parsed, with NaN as `None`. A `None` short code answers a server error, as the lookup with a NaN filter does. A NaN limit is treated as no limit.
- Malformed id strings. `findById` would fail to cast them, which gives the generic error. Ids are natural numbers in the model.
- Tracker.GetLog: does not model id spellings. The log filter at index.js line 89 compares `userId` with the raw path string. Exercises store the canonical `user._id` (line 62) in a String field (line 25). `findById` (line 85) also accepts other spellings of an id, such as upper-case hex. For such a spelling the source finds the user but returns an empty log with count 0. The model has one spelling per id, so it returns the user's exercises.
- NextCode: uses unbounded integers. In the source, `last.short + 1` (index.js line 56) is a JavaScript Number, which stops increasing at 2^53. From there on the "new" code equals an existing one. The model's codes keep increasing.
- `projects/boilerplate-project-exercisetracker/models/Exercise.js` is a schema declaration only, and nothing imports it. It is not part of this model.
- QueryLog: does not say which entries a limit keeps or in what order the entries come. The query has no sort, so the code promises neither. The function picks store order, but its contract and lemmas speak only of membership, multiplicities and sizes.
