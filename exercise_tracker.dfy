/** The exercise tracker service: a User collection whose usernames are
    unique, an Exercise collection whose records point at a user by id, and
    four handlers: create a user, list the users, add an exercise for a user,
    and fetch a user's exercise log filtered by an optional inclusive date
    window and an optional limit.

    The document store is the class Tracker holding the two collections as
    sequences and a counter standing for the store's id generator. Dates are
    integers (milliseconds since the epoch) already parsed by the caller;
    the current time is a parameter. */
module ExerciseTracker {
  import opened Wrappers

  /** A document id. The store generates them; here they come from a counter. */
  type Id = nat

  /** A point in time, in milliseconds since the epoch. */
  type Date = int

  datatype User = User(id: Id, username: string)

  datatype Exercise = Exercise(userId: Id, description: string, duration: int, date: Date)

  /** An exercise as the log shows it: without its owner and its id. */
  datatype LogEntry = LogEntry(description: string, duration: int, date: Date)

  /** The error bodies of the four handlers. */
  datatype TrackerError = UserCreationFailed | UserNotFound | ExerciseAddFailed {
    function Message(): string {
      match this
      case UserCreationFailed => "User creation failed."
      case UserNotFound => "User not found"
      case ExerciseAddFailed => "Exercise add failed."
    }
  }

  /** Body of a successful add: {_id, username, date, duration, description}. */
  datatype ExerciseReport = ExerciseReport(id: Id, username: string, date: Date, duration: int, description: string)

  /** Body of a successful log fetch: {username, count, _id, log}. */
  datatype LogReport = LogReport(username: string, count: nat, id: Id, log: seq<LogEntry>)

  // ---------------------------------------------------------------------
  // Users
  // ---------------------------------------------------------------------

  /** Some user has this id. */
  ghost predicate HasUser(users: seq<User>, id: Id) {
    exists i :: 0 <= i < |users| && users[i].id == id
  }

  /** Ids are below the next id to hand out; ids and usernames are unique. */
  ghost predicate UsersWellFormed(users: seq<User>, nextId: Id) {
    && (forall i :: 0 <= i < |users| ==> users[i].id < nextId)
    && (forall i, j :: 0 <= i < j < |users| ==> users[i].id != users[j].id)
    && (forall i, j :: 0 <= i < j < |users| ==> users[i].username != users[j].username)
  }

  /** The unique index on username: some user already has this name. */
  predicate UsernameInUse(users: seq<User>, username: string) {
    exists i :: 0 <= i < |users| && users[i].username == username
  }

  /** findById(id): the user with this id, if any. */
  function FindUser(users: seq<User>, id: Id): (r: Option<User>)
    ensures r.Some? ==> r.value in users && r.value.id == id
    ensures r.None? <==> !HasUser(users, id)
  {
    if users == [] then None
    else if users[0].id == id then Some(users[0])
    else
      var r := FindUser(users[1..], id);
      assert r.None? ==> forall i :: 1 <= i < |users| ==> users[i] == users[1..][i - 1];
      r
  }

  /** With unique ids, looking up a stored user's id finds that user. */
  lemma FindStoredUser(users: seq<User>, nextId: Id, u: User)
    requires UsersWellFormed(users, nextId)
    requires u in users
    ensures FindUser(users, u.id) == Some(u)
  {
  }

  // ---------------------------------------------------------------------
  // The log query
  // ---------------------------------------------------------------------

  /** The date filter: $gte when `from` is given, $lte when `to` is given. */
  predicate InWindow(d: Date, from: Option<Date>, to: Option<Date>) {
    (from.None? || from.value <= d) && (to.None? || d <= to.value)
  }

  /** The whole filter: the exercise belongs to `id` and lies in the window. */
  predicate Selected(e: Exercise, id: Id, from: Option<Date>, to: Option<Date>) {
    e.userId == id && InWindow(e.date, from, to)
  }

  /** Exercise.find(filter): exactly the selected exercises, each as often as
      it is stored. */
  function Matching(exs: seq<Exercise>, id: Id, from: Option<Date>, to: Option<Date>): (r: seq<Exercise>)
    ensures forall e :: multiset(r)[e] == if Selected(e, id, from, to) then multiset(exs)[e] else 0
  {
    if exs == [] then []
    else
      var rest := Matching(exs[1..], id, from, to);
      assert exs == [exs[0]] + exs[1..];
      if Selected(exs[0], id, from, to) then [exs[0]] + rest else rest
  }

  function Abs(n: int): nat {
    if n < 0 then -n else n
  }

  function Min(a: nat, b: nat): nat {
    if a <= b then a else b
  }

  /** query.limit(n): no limit when absent or 0; otherwise at most |n|
      documents (a negative limit asks for |n| documents in one batch). */
  function ApplyLimit(s: seq<Exercise>, limit: Option<int>): (r: seq<Exercise>)
    ensures multiset(r) <= multiset(s)
    ensures limit.None? || limit.value == 0 ==> r == s
    ensures limit.Some? && limit.value != 0 ==> |r| == Min(|s|, Abs(limit.value))
  {
    if limit.Some? && limit.value != 0 && Abs(limit.value) < |s| then
      var r := s[..Abs(limit.value)];
      assert s == r + s[Abs(limit.value)..];
      r
    else s
  }

  /** select('description duration date'), applied to every document. */
  function Project(e: Exercise): LogEntry {
    LogEntry(e.description, e.duration, e.date)
  }

  function ProjectAll(exs: seq<Exercise>): seq<LogEntry> {
    seq(|exs|, i requires 0 <= i < |exs| => Project(exs[i]))
  }

  lemma ProjectAllAppend(a: seq<Exercise>, b: seq<Exercise>)
    ensures ProjectAll(a + b) == ProjectAll(a) + ProjectAll(b)
  {
  }

  /** Whatever is drawn from the selection is a stored, selected exercise. */
  lemma ChosenAreSelected(exs: seq<Exercise>, id: Id, from: Option<Date>, to: Option<Date>, chosen: seq<Exercise>)
    requires multiset(chosen) <= multiset(Matching(exs, id, from, to))
    ensures forall k :: 0 <= k < |chosen| ==> chosen[k] in exs && Selected(chosen[k], id, from, to)
  {
    forall k | 0 <= k < |chosen|
      ensures chosen[k] in exs && Selected(chosen[k], id, from, to)
    {
      assert chosen[k] in multiset(chosen);
    }
  }

  /** Limiting before projecting keeps a sub-multiset of the projections. */
  lemma LimitKeepsSubMultiset(m: seq<Exercise>, limit: Option<int>)
    ensures multiset(ProjectAll(ApplyLimit(m, limit))) <= multiset(ProjectAll(m))
  {
    var chosen := ApplyLimit(m, limit);
    assert m == chosen + m[|chosen|..];
    ProjectAllAppend(chosen, m[|chosen|..]);
  }

  /** The log of the GET /api/users/:_id/logs handler. The query has no sort,
      so only the set of entries and their number are specified, not their
      order. */
  function QueryLog(exs: seq<Exercise>, id: Id, from: Option<Date>, to: Option<Date>, limit: Option<int>)
    : (log: seq<LogEntry>)
    // Every entry is the projection of a stored exercise of this user.
    ensures forall k :: 0 <= k < |log| ==>
              exists e :: e in exs && Selected(e, id, from, to) && log[k] == Project(e)
    // Both bounds are inclusive.
    ensures forall k :: 0 <= k < |log| && from.Some? ==> from.value <= log[k].date
    ensures forall k :: 0 <= k < |log| && to.Some? ==> log[k].date <= to.value
    // A non-zero limit n caps the log at |n| entries.
    ensures limit.Some? && limit.value != 0 ==> |log| <= Abs(limit.value)
    ensures |log| <= |Matching(exs, id, from, to)|
    // Each selected exercise appears at most as often as it is stored, and
    // without a limit exactly as often.
    ensures multiset(log) <= multiset(ProjectAll(Matching(exs, id, from, to)))
    ensures limit.None? || limit.value == 0 ==>
              multiset(log) == multiset(ProjectAll(Matching(exs, id, from, to)))
  {
    var m := Matching(exs, id, from, to);
    var chosen := ApplyLimit(m, limit);
    ChosenAreSelected(exs, id, from, to, chosen);
    LimitKeepsSubMultiset(m, limit);
    ProjectAll(chosen)
  }

  /** Without a limit, no selected exercise is missing from the log. */
  lemma LogIsComplete(exs: seq<Exercise>, id: Id, from: Option<Date>, to: Option<Date>, limit: Option<int>, e: Exercise)
    requires limit.None? || limit.value == 0
    requires e in exs && Selected(e, id, from, to)
    ensures Project(e) in QueryLog(exs, id, from, to, limit)
  {
    var m := Matching(exs, id, from, to);
    assert multiset(exs)[e] > 0;
    assert e in multiset(m);
    var k :| 0 <= k < |m| && m[k] == e;
    assert QueryLog(exs, id, from, to, limit)[k] == Project(e);
  }

  /** Without a window and without a limit, the log holds every exercise of
      the user. */
  lemma UnfilteredLogHasAllExercises(exs: seq<Exercise>, id: Id, e: Exercise)
    requires e in exs && e.userId == id
    ensures Project(e) in QueryLog(exs, id, None, None, None)
  {
    LogIsComplete(exs, id, None, None, None, e);
  }

  /** A limit n > 0 keeps exactly min(n, number of selected exercises) entries. */
  lemma LogLengthUnderLimit(exs: seq<Exercise>, id: Id, from: Option<Date>, to: Option<Date>, n: int)
    requires n > 0
    ensures |QueryLog(exs, id, from, to, Some(n))| == Min(n, |Matching(exs, id, from, to)|)
  {
  }

  /** Selecting from a table with one more exercise at the end. */
  lemma {:induction false} MatchingAppend(exs: seq<Exercise>, e: Exercise, id: Id, from: Option<Date>, to: Option<Date>)
    ensures Matching(exs + [e], id, from, to)
         == Matching(exs, id, from, to) + (if Selected(e, id, from, to) then [e] else [])
  {
    if exs == [] {
      assert exs + [e] == [e];
      assert [e][1..] == [];
    } else {
      assert (exs + [e])[1..] == exs[1..] + [e];
      MatchingAppend(exs[1..], e, id, from, to);
    }
  }

  /** Storing one more exercise adds its entry to the unlimited log exactly
      when it is selected, and leaves every other user's log as it was. */
  lemma LogAfterAdd(exs: seq<Exercise>, e: Exercise, id: Id, from: Option<Date>, to: Option<Date>)
    ensures multiset(QueryLog(exs + [e], id, from, to, None))
         == multiset(QueryLog(exs, id, from, to, None))
            + (if Selected(e, id, from, to) then multiset{Project(e)} else multiset{})
  {
    MatchingAppend(exs, e, id, from, to);
    var m := Matching(exs, id, from, to);
    var extra := if Selected(e, id, from, to) then [e] else [];
    ProjectAllAppend(m, extra);
    assert ProjectAll(extra) == if Selected(e, id, from, to) then [Project(e)] else [];
  }

  // ---------------------------------------------------------------------
  // The store and its handlers
  // ---------------------------------------------------------------------

  class Tracker {
    var users: seq<User>
    var exercises: seq<Exercise>
    /** The store's id generator: the id the next user receives. */
    var nextId: Id

    /** Usernames and ids are unique, and, since nothing is ever deleted,
        every stored exercise belongs to a stored user. */
    ghost predicate Valid()
      reads this
    {
      && UsersWellFormed(users, nextId)
      && forall k :: 0 <= k < |exercises| ==> HasUser(users, exercises[k].userId)
    }

    constructor ()
      ensures Valid() && users == [] && exercises == []
    {
      users, exercises, nextId := [], [], 0;
    }

    /** POST /api/users: save a user. The username is required (an empty
        one fails validation) and unique (a taken one fails the index); both
        failures answer "User creation failed." and store nothing. */
    method CreateUser(username: string) returns (r: Result<User, TrackerError>)
      requires Valid()
      modifies this
      ensures Valid()
      ensures exercises == old(exercises)
      ensures r.Failure? <==> username == "" || UsernameInUse(old(users), username)
      ensures r.Failure? ==> r.error == UserCreationFailed && users == old(users) && nextId == old(nextId)
      ensures r.Success? ==>
                && r.value == User(old(nextId), username)
                && !HasUser(old(users), r.value.id)
                && users == old(users) + [r.value]
                && FindUser(users, r.value.id) == Some(r.value)
    {
      if username == "" || UsernameInUse(users, username) {
        return Failure(UserCreationFailed);
      }
      var user := User(nextId, username);
      users := users + [user];
      nextId := nextId + 1;
      assert forall k :: 0 <= k < |exercises| ==> HasUser(old(users), exercises[k].userId);
      assert forall i :: 0 <= i < |old(users)| ==> users[i] == old(users)[i];
      FindStoredUser(users, nextId, user);
      return Success(user);
    }

    /** GET /api/users: every stored user with its id and username. */
    function ListUsers(): (r: seq<User>)
      reads this
      requires Valid()
      ensures |r| == |users|
      ensures forall u :: u in r <==> u in users
      ensures forall i, j :: 0 <= i < j < |r| ==> r[i].username != r[j].username
    {
      users
    }

    /** POST /api/users/:_id/exercises. An unknown id answers "User not
        found"; a duration that did not parse (NaN) fails the Number cast on
        save. Otherwise exactly one exercise is stored, dated `date` or, when
        no date was given, `now`, and echoed with the user's id and name. */
    method AddExercise(id: Id, description: string, duration: Option<int>, date: Option<Date>, now: Date)
      returns (r: Result<ExerciseReport, TrackerError>)
      requires Valid()
      modifies this
      ensures Valid()
      ensures users == old(users) && nextId == old(nextId)
      ensures !HasUser(users, id) ==> r == Failure(UserNotFound) && exercises == old(exercises)
      ensures HasUser(users, id) && duration.None? ==>
                r == Failure(ExerciseAddFailed) && exercises == old(exercises)
      ensures HasUser(users, id) && duration.Some? ==>
                var when := if date.Some? then date.value else now;
                && exercises == old(exercises) + [Exercise(id, description, duration.value, when)]
                && r.Success?
                && User(id, r.value.username) in users
                && r.value == ExerciseReport(id, r.value.username, when, duration.value, description)
    {
      var user := FindUser(users, id);
      if user.None? {
        return Failure(UserNotFound);
      }
      if duration.None? {
        return Failure(ExerciseAddFailed);
      }
      var when := if date.Some? then date.value else now;
      var exercise := Exercise(user.value.id, description, duration.value, when);
      exercises := exercises + [exercise];
      return Success(ExerciseReport(user.value.id, user.value.username, exercise.date, exercise.duration, exercise.description));
    }

    /** GET /api/users/:_id/logs. An unknown id answers "User not found";
        otherwise the user's name and id, the log, and its length. */
    function GetLog(id: Id, from: Option<Date>, to: Option<Date>, limit: Option<int>)
      : (r: Result<LogReport, TrackerError>)
      reads this
      ensures r.Failure? <==> !HasUser(users, id)
      ensures r.Failure? ==> r.error == UserNotFound
      ensures r.Success? ==>
                && User(id, r.value.username) in users
                && r.value.id == id
                && r.value.log == QueryLog(exercises, id, from, to, limit)
                && r.value.count == |r.value.log|
    {
      match FindUser(users, id)
      case None => Failure(UserNotFound)
      case Some(user) =>
        var log := QueryLog(exercises, id, from, to, limit);
        Success(LogReport(user.username, |log|, user.id, log))
    }
  }

  /** A user none of whose exercises is stored has an empty selection. */
  lemma NothingSelected(exs: seq<Exercise>, id: Id, from: Option<Date>, to: Option<Date>)
    requires forall k :: 0 <= k < |exs| ==> exs[k].userId != id
    ensures Matching(exs, id, from, to) == []
  {
  }

  /** The first exercise of a user is that user's whole unfiltered log. */
  lemma FirstExerciseLog(exs: seq<Exercise>, e: Exercise)
    requires forall k :: 0 <= k < |exs| ==> exs[k].userId != e.userId
    ensures QueryLog(exs + [e], e.userId, None, None, None) == [Project(e)]
  {
    NothingSelected(exs, e.userId, None, None);
    MatchingAppend(exs, e, e.userId, None, None);
  }

  /** A client: a new user's first exercise is that user's whole unfiltered
      log. */
  method AddThenLog(tracker: Tracker, username: string, description: string, duration: int, now: Date)
    returns (log: Result<LogReport, TrackerError>)
    requires tracker.Valid()
    requires username != "" && !UsernameInUse(tracker.users, username)
    modifies tracker
    ensures tracker.Valid()
    ensures log.Success? && log.value.count == 1
    ensures log.value.log == [LogEntry(description, duration, now)]
  {
    var created := tracker.CreateUser(username);
    var user := created.value;
    ghost var before := tracker.exercises;
    assert forall k :: 0 <= k < |before| ==> HasUser(tracker.users[..|tracker.users| - 1], before[k].userId);
    assert forall k :: 0 <= k < |before| ==> before[k].userId != user.id;
    var added := tracker.AddExercise(user.id, description, Some(duration), None, now);
    FirstExerciseLog(before, Exercise(user.id, description, duration, now));
    log := tracker.GetLog(user.id, None, None, None);
  }
}
