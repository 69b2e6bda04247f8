/**
 * GameData.store_activity_data of models/activity.py: one closed session
 * becomes additive updates on the usage record of its game. The ORM table is
 * a map from game name to record; get_or_create inserts a fresh record.
 */
module Games {

  import opened Activities

  type UserId = int

  /** A row of the GameData table: `name` is the primary key. */
  datatype GameData = GameData(name: string, overallTime: int, users: map<UserId, int>)

  /** Time is counted in microseconds, the resolution of datetime. */
  const MicrosPerSecond: int := 1_000_000
  const SecondsPerDay: int := 86400
  /** The one activity name that is never stored. */
  const Untracked: string := "Spotify"

  /**
   * The `.seconds` attribute of a timedelta of `elapsed` microseconds: whole
   * seconds, reduced modulo one day (days and microseconds are separate fields).
   */
  function SecondsField(elapsed: int): (s: nat)
    ensures s < SecondsPerDay
    ensures elapsed >= 0 && elapsed < SecondsPerDay * MicrosPerSecond ==> s == elapsed / MicrosPerSecond
  {
    (elapsed / MicrosPerSecond) % SecondsPerDay
  }

  /**
   * round(seconds / 60) on the exact quotient: the nearest whole minute, and
   * on an exact half minute the even one (Python rounds half to even).
   */
  function RoundedMinutes(seconds: nat): (m: nat)
    ensures 60 * m - 30 <= seconds <= 60 * m + 30
    ensures (seconds == 60 * m - 30 || seconds == 60 * m + 30) ==> m % 2 == 0
  {
    var q, r := seconds / 60, seconds % 60;
    if r < 30 then q else if r > 30 then q + 1 else q + q % 2
  }

  /** The two properties above pin the minute count down uniquely. */
  lemma RoundedMinutesUnique(seconds: nat, m: int)
    requires 60 * m - 30 <= seconds <= 60 * m + 30
    requires (seconds == 60 * m - 30 || seconds == 60 * m + 30) ==> m % 2 == 0
    ensures m == RoundedMinutes(seconds)
  {
  }

  /** The minutes a session started at `start` and closed at `now` adds. */
  function SessionMinutes(start: int, now: int): (m: nat)
    ensures m <= 1440
    ensures m == RoundedMinutes(SecondsField(now - start))
  {
    RoundedMinutes(SecondsField(now - start))
  }

  /** Some user of a non-empty map. */
  ghost function PickUser(users: map<UserId, int>): (u: UserId)
    requires users != map[]
    ensures u in users
  {
    KeysNotEmpty(users);
    var u :| u in users.Keys;
    u
  }

  lemma KeysNotEmpty(users: map<UserId, int>)
    requires users != map[]
    ensures exists u :: u in users.Keys
  {
    if forall u :: u !in users.Keys {
      assert false;
    }
  }

  /** The sum of the per-user minutes. */
  ghost function Total(users: map<UserId, int>): int
    decreases |users|
  {
    if users == map[] then 0
    else
      var u := PickUser(users);
      assert |users - {u}| < |users| by { assert (users - {u}).Keys == users.Keys - {u}; }
      users[u] + Total(users - {u})
  }

  lemma {:induction false} TotalRemove(users: map<UserId, int>, u: UserId)
    requires u in users
    ensures Total(users) == users[u] + Total(users - {u})
    decreases |users|
  {
    var v := PickUser(users);
    if v != u {
      assert (users - {v}).Keys == users.Keys - {v};
      assert (users - {u}).Keys == users.Keys - {u};
      TotalRemove(users - {v}, u);
      TotalRemove(users - {u}, v);
      assert users - {u} - {v} == users - {v} - {u};
    }
  }

  lemma TotalUpdate(users: map<UserId, int>, u: UserId, x: int)
    ensures Total(users[u := x]) == Total(users) - (if u in users then users[u] else 0) + x
  {
    TotalRemove(users[u := x], u);
    assert users[u := x] - {u} == users - {u};
    if u in users {
      TotalRemove(users, u);
    } else {
      assert users - {u} == users;
    }
  }

  /** Minutes credited to the game that no user entry accounts for. */
  ghost function Unattributed(g: GameData): int
  {
    g.overallTime - Total(g.users)
  }

  /** The design invariant of a record: its total is the sum of its users' minutes. */
  ghost predicate Balanced(g: GameData)
  {
    g.overallTime == Total(g.users)
  }

  ghost predicate AllBalanced(records: map<string, GameData>)
  {
    forall n :: n in records ==> Balanced(records[n])
  }

  /** The record get_or_create makes for a game that has none. */
  function NewRecord(name: string): GameData
  {
    GameData(name, 0, map[])
  }

  /**
   * The record update of store_activity_data: the total grows by `minutes`;
   * the user's entry is (re)set to 0 when missing or 0, then grows by `minutes`.
   */
  function AddUsage(g: GameData, user: UserId, minutes: int): (r: GameData)
    ensures r.name == g.name && r.overallTime == g.overallTime + minutes
    ensures r.users.Keys == g.users.Keys + {user}
    ensures r.users[user] == UserMinutes(g, user) + minutes
    ensures forall u :: u in g.users && u != user ==> r.users[u] == g.users[u]
  {
    var users := if user !in g.users || g.users[user] == 0 then g.users[user := 0] else g.users;
    GameData(g.name, g.overallTime + minutes, users[user := users[user] + minutes])
  }

  /** The record get_or_create returns for `name`. */
  function Fetched(records: map<string, GameData>, name: string): GameData
  {
    if name in records then records[name] else NewRecord(name)
  }

  /** The minutes a record holds for a user, 0 when the user has no entry. */
  function UserMinutes(g: GameData, user: UserId): int
  {
    if user in g.users then g.users[user] else 0
  }

  /** The table after store_activity_data(user, session) at time `now`. */
  function Stored(records: map<string, GameData>, user: UserId, session: ActivityData, now: int): (r: map<string, GameData>)
    ensures r.Keys == records.Keys + (if session.name == Untracked then {} else {session.name})
    ensures forall n :: n in records && n != session.name ==> r[n] == records[n]
  {
    if session.name == Untracked then records
    else
      records[session.name := AddUsage(Fetched(records, session.name), user, SessionMinutes(session.start, now))]
  }

  /** The table after storing every session of `closed`, in order. */
  function StoredAll(records: map<string, GameData>, user: UserId, closed: seq<ActivityData>, now: int): map<string, GameData>
  {
    if closed == [] then records
    else Stored(StoredAll(records, user, closed[..|closed| - 1], now), user, closed[|closed| - 1], now)
  }

  /** A Spotify session changes nothing and stores nothing. */
  lemma StoredUntracked(records: map<string, GameData>, user: UserId, session: ActivityData, now: int)
    requires session.name == Untracked
    ensures Stored(records, user, session, now) == records
  {
  }

  /**
   * Any other session leaves a record for its game, whose total and whose
   * user entry (0 when missing) both grow by exactly the rounded minutes, and
   * changes nothing else.
   */
  lemma StoredAddsMinutes(records: map<string, GameData>, user: UserId, session: ActivityData, now: int)
    requires session.name != Untracked
    ensures Stored(records, user, session, now).Keys == records.Keys + {session.name}
    ensures Stored(records, user, session, now)[session.name].overallTime ==
      Fetched(records, session.name).overallTime + SessionMinutes(session.start, now)
    ensures Stored(records, user, session, now)[session.name].users ==
      Fetched(records, session.name).users[user := UserMinutes(Fetched(records, session.name), user) + SessionMinutes(session.start, now)]
    ensures forall n :: n in records && n != session.name ==> Stored(records, user, session, now)[n] == records[n]
  {
    var g := Fetched(records, session.name);
    var m := SessionMinutes(session.start, now);
    var users := if user !in g.users || g.users[user] == 0 then g.users[user := 0] else g.users;
    assert users[user] == UserMinutes(g, user);
    assert users[user := users[user] + m] == g.users[user := UserMinutes(g, user) + m];
  }

  /** Every call keeps the part of the total that no user accounts for. */
  lemma AddUsageKeepsUnattributed(g: GameData, user: UserId, minutes: int)
    ensures Unattributed(AddUsage(g, user, minutes)) == Unattributed(g)
  {
    var users := if user !in g.users || g.users[user] == 0 then g.users[user := 0] else g.users;
    TotalUpdate(g.users, user, 0);
    TotalUpdate(users, user, users[user] + minutes);
  }

  /** A fresh record is balanced, and storing keeps every record balanced. */
  lemma StoredKeepsBalance(records: map<string, GameData>, user: UserId, session: ActivityData, now: int)
    requires AllBalanced(records)
    ensures AllBalanced(Stored(records, user, session, now))
  {
    if session.name != Untracked {
      var g := Fetched(records, session.name);
      assert Total(map[]) == 0;
      AddUsageKeepsUnattributed(g, user, SessionMinutes(session.start, now));
    }
  }

  lemma {:induction false} StoredAllKeepsBalance(records: map<string, GameData>, user: UserId, closed: seq<ActivityData>, now: int)
    requires AllBalanced(records)
    ensures AllBalanced(StoredAll(records, user, closed, now))
  {
    if closed != [] {
      StoredAllKeepsBalance(records, user, closed[..|closed| - 1], now);
      StoredKeepsBalance(StoredAll(records, user, closed[..|closed| - 1], now), user, closed[|closed| - 1], now);
    }
  }

  /** No store ever lowers a game's total, nor drops a record. */
  lemma {:induction false} StoredAllNeverDecreases(records: map<string, GameData>, user: UserId, closed: seq<ActivityData>, now: int)
    ensures forall n :: n in records ==>
      n in StoredAll(records, user, closed, now) && StoredAll(records, user, closed, now)[n].overallTime >= records[n].overallTime
  {
    if closed != [] {
      var prev := StoredAll(records, user, closed[..|closed| - 1], now);
      StoredAllNeverDecreases(records, user, closed[..|closed| - 1], now);
      var session := closed[|closed| - 1];
      if session.name != Untracked {
        StoredAddsMinutes(prev, user, session, now);
      }
    }
  }

  /** An untouched game keeps its record through any number of stores. */
  lemma {:induction false} StoredAllOtherGames(records: map<string, GameData>, user: UserId, closed: seq<ActivityData>, now: int, game: string)
    requires forall s :: s in closed ==> s.name != game
    ensures game in StoredAll(records, user, closed, now) <==> game in records
    ensures game in records ==> StoredAll(records, user, closed, now)[game] == records[game]
  {
    if closed != [] {
      assert closed[|closed| - 1] in closed;
      StoredAllOtherGames(records, user, closed[..|closed| - 1], now, game);
    }
  }

  /** The GameData table. */
  class GameStore {
    var records: map<string, GameData>

    /** Every record is stored under its own name. */
    ghost predicate Valid()
      reads this
    {
      forall n :: n in records ==> records[n].name == n
    }

    constructor ()
      ensures Valid() && records == map[]
    {
      records := map[];
    }

    /** get_or_create(name=...): the existing record, or a fresh one inserted now. */
    method GetOrCreate(name: string) returns (record: GameData, created: bool)
      modifies this
      ensures created <==> name !in old(records)
      ensures records == if created then old(records)[name := NewRecord(name)] else old(records)
      ensures name in records && record == records[name]
    {
      created := name !in records;
      if created {
        records := records[name := NewRecord(name)];
      }
      record := records[name];
    }

    /** record.save(): writes the record back under its primary key. */
    method Save(record: GameData)
      modifies this
      ensures records == old(records)[record.name := record]
    {
      records := records[record.name := record];
    }

    method StoreActivityData(user: UserId, activity: ActivityData, now: int)
      requires Valid()
      modifies this
      ensures Valid()
      ensures records == Stored(old(records), user, activity, now)
      ensures AllBalanced(old(records)) ==> AllBalanced(records)
    {
      var gameName := activity.name;
      var started := activity.start;
      if gameName == Untracked {
        return;
      }
      var elapsed := now - started;
      ghost var before := Fetched(records, gameName);
      var record, _ := GetOrCreate(gameName);
      assert record == before;
      // round(elapsed.seconds / 60), evaluated twice in the source with the same value
      var minutes := RoundedMinutes(SecondsField(elapsed));
      record := record.(overallTime := record.overallTime + minutes);
      if user !in record.users || record.users[user] == 0 {
        record := record.(users := record.users[user := 0]);
      }
      record := record.(users := record.users[user := record.users[user] + minutes]);
      assert record == AddUsage(before, user, minutes);
      Save(record);
      if AllBalanced(old(records)) {
        StoredKeepsBalance(old(records), user, activity, now);
      }
    }
  }
}
