/** The Redis store, one command sequence at a time, over an abstract key/value database.

    The methods accept any ids, as the source does; what they then do to the database is stated
    outright. Agreement with the in-memory store is a matter of the ids, and the condition on
    them is exact. A cached state is kept as a value, since encoding it as JSON and back is not
    part of the model. */
module Redis {
  import opened Core
  import opened Memory
  import opened Splitting
  import opened RedisKeys

  datatype Value = Num(n: int64) | Members(members: set<string>) | Cached(state: UserState)

  type Database = map<string, Value>

  type Matcher = (string, string) -> bool

  function Lookup(db: Database, n: Name): Option<Value> {
    if KeyOf(n) in db then Some(db[KeyOf(n)]) else None
  }

  // ----- What the commands do, for any ids -----

  /** A write to one name followed by the invalidation of that user's cached state. */
  function WriteAndInvalidate(db: Database, n: Name, v: Value): Database {
    db[KeyOf(n) := v] - {KeyOf(State(n.user))}
  }

  /** The result of adding to what the key holds; a key of another type is an error. */
  function AddOutcome(db: Database, user: UserID, metric: Metric, delta: int64): Result<int64> {
    if delta == 0 then Err(ZeroDelta)
    else
      match Lookup(db, Number(PointsKind, user, metric))
      case None => AddSafe(0, delta)
      case Some(Num(n)) => AddSafe(n, delta)
      case Some(_) => Err(WrongType)
  }

  /** The keys that listing a user's numbers yields. */
  predicate Listed(db: Database, glob: Matcher, user: UserID, kind: Kind, key: string) {
    key in db && glob(Pattern(kind, user), key)
  }

  /** `m` is what a loop over the listed keys, in some order, can have read: every entry comes
      from a listed number parsed to its metric, and no such metric is missing. */
  ghost predicate Collected(db: Database, glob: Matcher, user: UserID, kind: Kind, m: map<string, int>) {
    && (forall x :: x in m ==>
          exists key :: Listed(db, glob, user, kind, key) && MetricOf(kind, key) == Some(x) &&
                        db[key].Num? && db[key].n == m[x])
    && (forall key :: Listed(db, glob, user, kind, key) && db[key].Num? && MetricOf(kind, key).Some? ==>
          MetricOf(kind, key).value in m)
  }

  function BadgesHeld(db: Database, user: UserID): set<string> {
    match Lookup(db, Name.Badges(user))
    case Some(Members(s)) => s
    case _ => {}
  }

  /** `state` is a rebuild of the user's state from the keys. */
  ghost predicate Rebuilt(db: Database, glob: Matcher, user: UserID, state: UserState) {
    && state.userID == user && state.badges == BadgesHeld(db, user)
    && Collected(db, glob, user, PointsKind, state.points)
    && Collected(db, glob, user, LevelsKind, state.levels)
  }

  class Store {
    const glob: Matcher

    var db: Database

    constructor (glob: Matcher)
      ensures this.glob == glob && db == map[]
    {
      this.glob := glob;
      db := map[];
    }

    /** The cached state goes: after a write, or because its time has run out. */
    method Invalidate(user: UserID)
      modifies `db
      ensures db == old(db) - {KeyOf(State(user))}
    {
      db := db - {KeyOf(State(user))};
    }

    method AddPoints(user: UserID, metric: Metric, delta: int64) returns (r: Result<int64>)
      modifies `db
      ensures r == AddOutcome(old(db), user, metric, delta)
      ensures delta == 0 ==> r == Err(ZeroDelta)
      ensures delta != 0 ==>
                var key := KeyOf(Number(PointsKind, user, metric));
                if key !in old(db) then r == Ok(delta)
                else if !old(db)[key].Num? then r == Err(WrongType)
                else
                  var sum := old(db)[key].n + delta;
                  r == if -0x8000_0000_0000_0000 <= sum <= 0x7fff_ffff_ffff_ffff then Ok(sum) else Err(IntegerOverflow)
      ensures r.Err? ==> db == old(db)
      ensures r.Ok? ==> db == WriteAndInvalidate(old(db), Number(PointsKind, user, metric), Num(r.value))
    {
      if delta == 0 {
        return Err(ZeroDelta);
      }
      var key := KeyOf(Number(PointsKind, user, metric));
      if key in db && !db[key].Num? {
        return Err(WrongType);
      }
      r := AddSafe(if key in db then db[key].n else 0, delta);
      if r.Ok? {
        db := db[key := Num(r.value)];
        Invalidate(user);
      }
    }

    method AwardBadge(user: UserID, badge: Badge) returns (r: Result<()>)
      modifies `db
      ensures var held := Lookup(old(db), Name.Badges(user));
              if held.Some? && !held.value.Members?
              then r == Err(WrongType) && db == old(db)
              else && r == Ok(())
                   && db == WriteAndInvalidate(old(db), Name.Badges(user),
                                               Members(BadgesHeld(old(db), user) + {badge}))
      ensures r.Ok? ==>
                var key := KeyOf(Name.Badges(user));
                && key in db && db[key].Members?
                && db[key].members == (if key in old(db) && old(db)[key].Members? then old(db)[key].members else {})
                                      + {badge}
    {
      var key := KeyOf(Name.Badges(user));
      if key in db && !db[key].Members? {
        return Err(WrongType);
      }
      var members := if key in db then db[key].members else {};
      db := db[key := Members(members + {badge})];
      Invalidate(user);
      r := Ok(());
    }

    method SetLevel(user: UserID, metric: Metric, level: int64)
      modifies `db
      ensures db == WriteAndInvalidate(old(db), Number(LevelsKind, user, metric), Num(level))
    {
      db := db[KeyOf(Number(LevelsKind, user, metric)) := Num(level)];
      Invalidate(user);
    }

    /** The loop over the keys of one kind: list by pattern, parse, read. */
    method CollectNumbers(user: UserID, kind: Kind) returns (m: map<string, int64>)
      ensures Collected(db, glob, user, kind, m)
    {
      hide Fields, Pattern, KeyOf;
      var pattern := Pattern(kind, user);
      var rest := set k | k in db && glob(pattern, k);
      m := map[];
      while rest != {}
        invariant forall k :: k in rest ==> Listed(db, glob, user, kind, k)
        invariant forall x :: x in m ==>
                    exists key :: Listed(db, glob, user, kind, key) && MetricOf(kind, key) == Some(x) &&
                                  db[key].Num? && db[key].n == m[x]
        invariant forall key :: (Listed(db, glob, user, kind, key) && key !in rest && db[key].Num? &&
                                 MetricOf(kind, key).Some?) ==> MetricOf(kind, key).value in m
        decreases |rest|
      {
        var key :| key in rest;
        var parts := KeyParts(key);
        if |parts| >= 4 && parts[2] == KindText(kind) {
          var metric := parts[3];
          assert MetricOf(kind, key) == Some(metric);
          if db[key].Num? {
            m := m[metric := db[key].n];
          }
        }
        rest := rest - {key};
      }
    }

    method BuildStateFromKeys(user: UserID) returns (state: UserState)
      ensures Rebuilt(db, glob, user, state)
    {
      var points := CollectNumbers(user, PointsKind);
      var badgesKey := KeyOf(Name.Badges(user));
      var badges := if badgesKey in db && db[badgesKey].Members? then db[badgesKey].members else {};
      var levels := CollectNumbers(user, LevelsKind);
      state := UserState(user, points, badges, levels);
    }

    /** A cached state is returned as it is; otherwise the state is rebuilt and cached. */
    method GetState(user: UserID) returns (state: UserState)
      modifies `db
      ensures var cached := Lookup(old(db), State(user));
              if cached.Some? && cached.value.Cached?
              then state == cached.value.state && db == old(db)
              else && Rebuilt(old(db), glob, user, state)
                   && db == old(db)[KeyOf(State(user)) := Cached(state)]
    {
      var key := KeyOf(State(user));
      if key in db && db[key].Cached? {
        return db[key].state;
      }
      state := BuildStateFromKeys(user);
      db := db[key := Cached(state)];
    }
  }

  // ----- The database holds what the in-memory store would -----

  /** What the database must hold under a name of a user in state `st`, the cache apart. */
  ghost function Held(st: UserState, n: Name): Option<Value>
    requires !n.State?
  {
    match n
    case Number(PointsKind, _, m) => if m in st.points then Some(Num(st.points[m])) else None
    case Number(LevelsKind, _, m) =>
      if m in st.levels && MIN_INT64 <= st.levels[m] <= MAX_INT64 then Some(Num(st.levels[m])) else None
    case Badges(_) => if st.badges == {} then None else Some(Members(st.badges))
  }

  ghost function Expected(users: Users, n: Name): Option<Value>
    requires !n.State?
  {
    Held(View(users, n.user), n)
  }

  ghost predicate DataAgrees(db: Database, users: Users) {
    forall n :: NameOk(n) && !n.State? ==> Lookup(db, n) == Expected(users, n)
  }

  /** A cached state is absent or current. */
  ghost predicate CacheAgrees(db: Database, users: Users) {
    forall u :: OneField(u) && Lookup(db, State(u)).Some? ==>
      Lookup(db, State(u)).value == Cached(View(users, u))
  }

  ghost predicate KeysKnown(db: Database) {
    forall k :: k in db ==> exists n :: NameOk(n) && KeyOf(n) == k
  }

  /** A state that was built with such ids. */
  ghost predicate UserOk(u: UserID, st: UserState) {
    && OneField(u) && st.userID == u
    && (forall m :: m in st.points ==> Clean(m, ':'))
    && (forall m :: m in st.levels ==> Clean(m, ':') && MIN_INT64 <= st.levels[m] <= MAX_INT64)
  }

  ghost predicate UsersOk(users: Users) {
    forall u :: u in users ==> UserOk(u, users[u])
  }

  ghost predicate Agrees(db: Database, users: Users) {
    DataAgrees(db, users) && CacheAgrees(db, users) && KeysKnown(db) && UsersOk(users)
  }

  lemma ViewOk(users: Users, u: UserID)
    requires UsersOk(users) && OneField(u)
    ensures UserOk(u, View(users, u))
  {
    hide OneField;
  }

  /** Creating a record first makes no difference. */
  lemma TouchAgrees(db: Database, users: Users, u: UserID)
    requires Agrees(db, users) && OneField(u)
    ensures Agrees(db, Touch(users, u))
  {
    hide OneField, KeyOf, NameOk, Held;
    ViewOk(users, u);
    assert forall v :: View(Touch(users, u), v) == View(users, v);
    forall n | NameOk(n) && !n.State? ensures Lookup(db, n) == Expected(Touch(users, u), n) {
      assert Lookup(db, n) == Expected(users, n);
    }
  }

  lemma LookupAfterWrite(db: Database, n: Name, v: Value, n': Name)
    requires NameOk(n) && NameOk(n') && !n.State?
    ensures Lookup(WriteAndInvalidate(db, n, v), n') ==
            if n' == n then Some(v) else if n' == State(n.user) then None else Lookup(db, n')
  {
    hide KeyOf, OneField;
    KeyInjective(n, n');
    KeyInjective(n, State(n.user));
    KeyInjective(n', State(n.user));
  }

  /** A write keeps the agreement when the in-memory state changes in the same place. */
  lemma WriteAgrees(db: Database, users: Users, n: Name, v: Value, st: UserState)
    requires Agrees(db, users) && NameOk(n) && !n.State?
    requires UserOk(n.user, st)
    requires forall n': Name :: !n'.State? && n'.user == n.user ==>
               Held(st, n') == if n' == n then Some(v) else Held(View(users, n.user), n')
    ensures Agrees(WriteAndInvalidate(db, n, v), users[n.user := st])
  {
    hide KeyOf, Held, Lookup, UserOk, OneField;
    var db', users' := WriteAndInvalidate(db, n, v), users[n.user := st];
    forall n' | NameOk(n') && !n'.State? ensures Lookup(db', n') == Expected(users', n') {
      LookupAfterWrite(db, n, v, n');
    }
    forall u | OneField(u) && Lookup(db', State(u)).Some?
      ensures Lookup(db', State(u)).value == Cached(View(users', u))
    {
      LookupAfterWrite(db, n, v, State(u));
    }
    forall k | k in db' ensures exists m :: NameOk(m) && KeyOf(m) == k {
      assert k == KeyOf(n) || k in db;
    }
  }

  lemma CacheFillAgrees(db: Database, users: Users, u: UserID)
    requires Agrees(db, users) && OneField(u)
    ensures Agrees(db[KeyOf(State(u)) := Cached(View(users, u))], users)
  {
    hide KeyOf, OneField, Held;
    var db' := db[KeyOf(State(u)) := Cached(View(users, u))];
    assert NameOk(State(u));
    forall n | NameOk(n)
      ensures Lookup(db', n) == if n == State(u) then Some(Cached(View(users, u))) else Lookup(db, n)
    {
      KeyInjective(n, State(u));
    }
    forall v | OneField(v) ensures NameOk(State(v)) {
    }
  }

  /** Losing a cached state at any time keeps the agreement. */
  lemma ExpireAgrees(db: Database, users: Users, u: UserID)
    requires Agrees(db, users) && OneField(u)
    ensures Agrees(db - {KeyOf(State(u))}, users)
  {
    hide KeyOf, OneField, Held;
    var db' := db - {KeyOf(State(u))};
    forall n | NameOk(n) ensures Lookup(db', n) == if n == State(u) then None else Lookup(db, n) {
      KeyInjective(n, State(u));
    }
    forall v | OneField(v) ensures NameOk(State(v)) {
    }
  }

  lemma AddAgrees(db: Database, users: Users, u: UserID, m: Metric, delta: int64)
    requires Agrees(db, users) && OneField(u) && Clean(m, ':') && delta != 0
    ensures var st, r := View(users, u), AddOutcome(db, u, m, delta);
            && r == AddSafe(Get(st.points, m), delta)
            && (r.Ok? ==> Agrees(WriteAndInvalidate(db, Number(PointsKind, u, m), Num(r.value)),
                                 users[u := st.(points := st.points[m := r.value])]))
  {
    hide KeyOf, CacheAgrees, KeysKnown, UsersOk, Clean, OneField;
    var n, st, r := Number(PointsKind, u, m), View(users, u), AddOutcome(db, u, m, delta);
    assert NameOk(n) && Lookup(db, n) == Expected(users, n);
    if r.Ok? {
      ViewOk(users, u);
      WriteAgrees(db, users, n, Num(r.value), st.(points := st.points[m := r.value]));
    }
  }

  lemma AwardAgrees(db: Database, users: Users, u: UserID, badge: Badge)
    requires Agrees(db, users) && OneField(u)
    ensures var st, held := View(users, u), Lookup(db, Name.Badges(u));
            && (held.Some? ==> held.value.Members?) && BadgesHeld(db, u) == st.badges
            && Agrees(WriteAndInvalidate(db, Name.Badges(u), Members(st.badges + {badge})),
                      users[u := st.(badges := st.badges + {badge})])
  {
    hide KeyOf, CacheAgrees, KeysKnown, UsersOk, Clean, OneField;
    var n, st := Name.Badges(u), View(users, u);
    assert NameOk(n) && Lookup(db, n) == Expected(users, n);
    ViewOk(users, u);
    WriteAgrees(db, users, n, Members(st.badges + {badge}), st.(badges := st.badges + {badge}));
  }

  lemma LevelAgrees(db: Database, users: Users, u: UserID, m: Metric, level: int64)
    requires Agrees(db, users) && OneField(u) && Clean(m, ':')
    ensures var st := View(users, u);
            Agrees(WriteAndInvalidate(db, Number(LevelsKind, u, m), Num(level)),
                   users[u := st.(levels := st.levels[m := level])])
  {
    hide KeyOf, DataAgrees, CacheAgrees, KeysKnown, UsersOk, Clean, OneField;
    var st := View(users, u);
    ViewOk(users, u);
    WriteAgrees(db, users, Number(LevelsKind, u, m), Num(level), st.(levels := st.levels[m := level]));
  }

  // ----- The rebuild is the in-memory state -----

  /** A listed key parses into a metric of this user, and holds its number. */
  lemma ListedIsOwn(db: Database, glob: Matcher, users: Users, kind: Kind, user: UserID, key: string)
    requires Agrees(db, users) && IsRedisGlob(glob)
    requires OneField(user) && Literal(user) && Simple(user) && Listed(db, glob, user, kind, key)
    ensures var x := MetricOf(kind, key);
            && x.Some? && Clean(x.value, ':') && key == KeyOf(Number(kind, user, x.value))
            && db[key].Num? && Expected(users, Number(kind, user, x.value)) == Some(db[key])
  {
    hide KeyOf, GlobMatch, Fields, Pattern, OneField, MetricOf, Literal, CacheAgrees, UsersOk;
    var n: Name :| NameOk(n) && KeyOf(n) == key;
    PatternSelects(glob, kind, user, n);
    MetricReadsBack(kind, user, n.metric);
    assert Lookup(db, n) == Expected(users, n);
  }

  /** A number held for the user is listed. */
  lemma HeldIsListed(db: Database, glob: Matcher, users: Users, kind: Kind, user: UserID, x: Metric)
    requires Agrees(db, users) && IsRedisGlob(glob)
    requires OneField(user) && Literal(user) && Simple(user) && Clean(x, ':')
    requires Expected(users, Number(kind, user, x)).Some?
    ensures var key := KeyOf(Number(kind, user, x));
            Listed(db, glob, user, kind, key) && db[key].Num? && MetricOf(kind, key) == Some(x)
  {
    hide KeyOf, GlobMatch, Fields, Pattern, OneField, MetricOf, Literal, CacheAgrees, UsersOk, KeysKnown;
    var n := Number(kind, user, x);
    assert NameOk(n) && Lookup(db, n) == Expected(users, n);
    PatternSelects(glob, kind, user, n);
    MetricReadsBack(kind, user, x);
  }

  lemma CollectedIsHeld(db: Database, glob: Matcher, users: Users, kind: Kind, user: UserID, m: map<string, int>)
    requires Agrees(db, users) && IsRedisGlob(glob) && Collected(db, glob, user, kind, m)
    requires OneField(user) && Literal(user) && Simple(user)
    ensures forall x :: x in m <==> Clean(x, ':') && Expected(users, Number(kind, user, x)).Some?
    ensures forall x :: x in m ==>
              var v := Expected(users, Number(kind, user, x)); v.Some? && v.value.Num? && v.value.n == m[x]
  {
    hide KeyOf, OneField, MetricOf, Literal, Pattern, Agrees, Expected, Clean;
    forall x | x in m
      ensures Clean(x, ':')
      ensures var v := Expected(users, Number(kind, user, x)); v.Some? && v.value.Num? && v.value.n == m[x]
    {
      var key :| Listed(db, glob, user, kind, key) && MetricOf(kind, key) == Some(x) &&
                 db[key].Num? && db[key].n == m[x];
      ListedIsOwn(db, glob, users, kind, user, key);
    }
    forall x | Clean(x, ':') && Expected(users, Number(kind, user, x)).Some? ensures x in m {
      HeldIsListed(db, glob, users, kind, user, x);
    }
  }

  lemma SamePoints(user: UserID, st: UserState, m: map<string, int>)
    requires UserOk(user, st)
    requires forall x :: x in m <==> Clean(x, ':') && Held(st, Number(PointsKind, user, x)).Some?
    requires forall x :: x in m ==>
               var v := Held(st, Number(PointsKind, user, x)); v.Some? && v.value.Num? && v.value.n == m[x]
    ensures m == st.points
  {
    hide Clean, OneField;
    forall x ensures x in m <==> x in st.points {
      assert Held(st, Number(PointsKind, user, x)).Some? <==> x in st.points;
    }
  }

  lemma SameLevels(user: UserID, st: UserState, m: map<string, int>)
    requires UserOk(user, st)
    requires forall x :: x in m <==> Clean(x, ':') && Held(st, Number(LevelsKind, user, x)).Some?
    requires forall x :: x in m ==>
               var v := Held(st, Number(LevelsKind, user, x)); v.Some? && v.value.Num? && v.value.n == m[x]
    ensures m == st.levels
  {
    hide Clean, OneField;
    forall x | Clean(x, ':') ensures x in m <==> x in st.levels {
      assert Held(st, Number(LevelsKind, user, x)).Some? <==> x in st.levels;
    }
    assert forall x :: x in m <==> x in st.levels;
  }

  lemma RebuiltIsView(db: Database, glob: Matcher, users: Users, user: UserID, state: UserState)
    requires Agrees(db, users) && IsRedisGlob(glob) && Rebuilt(db, glob, user, state)
    requires OneField(user) && Literal(user) && Simple(user)
    ensures state == View(users, user)
  {
    hide KeyOf, OneField, Literal, Collected, CacheAgrees, KeysKnown, Clean;
    var st := View(users, user);
    assert UserOk(user, st) by {
      ViewOk(users, user);
    }
    assert state.points == st.points by {
      CollectedIsHeld(db, glob, users, PointsKind, user, state.points);
      SamePoints(user, st, state.points);
    }
    assert state.levels == st.levels by {
      CollectedIsHeld(db, glob, users, LevelsKind, user, state.levels);
      SameLevels(user, st, state.levels);
    }
    assert state.badges == st.badges by {
      var n := Name.Badges(user);
      assert NameOk(n) && Lookup(db, n) == Expected(users, n);
    }
  }

  // ----- Side by side with the in-memory store -----

  datatype Op =
    | Add(user: UserID, metric: Metric, delta: int64)
    | Award(user: UserID, badge: Badge)
    | Level(user: UserID, metric: Metric, level: int64)
    | Read(user: UserID)
    | LetExpire(user: UserID)

  datatype Answer = Added(result: Result<int64>) | Seen(state: UserState) | Silent | Failed

  /** User ids of one piece, without glob characters where a state is read; metrics non-empty and
      free of ':'; no zero delta, which the service never passes on. */
  predicate OpOk(op: Op) {
    && OneField(op.user)
    && (op.Add? || op.Level? ==> Clean(op.metric, ':'))
    && (op.Add? ==> op.delta != 0)
    && (op.Read? ==> Literal(op.user) && Simple(op.user))
  }

  /** Cache transparency: cached or rebuilt, the state is the in-memory one. */
  lemma ReadAgrees(db: Database, glob: Matcher, users: Users, user: UserID, state: UserState)
    requires Agrees(db, users) && IsRedisGlob(glob)
    requires OneField(user) && Literal(user) && Simple(user)
    requires var cached := Lookup(db, State(user));
             if cached.Some? && cached.value.Cached? then state == cached.value.state
             else Rebuilt(db, glob, user, state)
    ensures state == View(users, user)
  {
    hide KeyOf, OneField, Literal, Rebuilt, IsRedisGlob;
    var cached := Lookup(db, State(user));
    if !(cached.Some? && cached.value.Cached?) {
      RebuiltIsView(db, glob, users, user, state);
    }
  }

  method RunOne(m: Memory.Store, r: Store, op: Op) returns (a: Answer, b: Answer)
    requires IsRedisGlob(r.glob)
    modifies m, r
    ensures OpOk(op) && old(Agrees(r.db, m.users)) ==> Agrees(r.db, m.users) && a == b
  {
    hide Agrees, OneField, Literal, Rebuilt, AddOutcome, WriteAndInvalidate, IsRedisGlob, KeyOf, BadgesHeld;
    ghost var ok := OpOk(op) && Agrees(r.db, m.users);
    a, b := Silent, Silent;
    match op {
      case Add(u, metric, delta) =>
        if ok {
          AddAgrees(r.db, m.users, u, metric, delta);
          TouchAgrees(r.db, m.users, u);
        }
        var x := m.AddPoints(u, metric, delta);
        var y := r.AddPoints(u, metric, delta);
        a, b := Added(x), Added(y);
      case Award(u, badge) =>
        if ok {
          AwardAgrees(r.db, m.users, u, badge);
        }
        m.AwardBadge(u, badge);
        var y := r.AwardBadge(u, badge);
        b := if y.Ok? then Silent else Failed;
      case Level(u, metric, level) =>
        if ok {
          LevelAgrees(r.db, m.users, u, metric, level);
        }
        m.SetLevel(u, metric, level);
        r.SetLevel(u, metric, level);
      case Read(u) =>
        ghost var db, users := r.db, m.users;
        var x := m.GetState(u);
        var y := r.GetState(u);
        if ok {
          ReadAgrees(db, r.glob, users, u, y);
          TouchAgrees(db, users, u);
          CacheFillAgrees(db, Touch(users, u), u);
        }
        a, b := Seen(x), Seen(y);
      case LetExpire(u) =>
        if ok {
          ExpireAgrees(r.db, m.users, u);
        }
        r.Invalidate(u);
    }
  }

  /** Any run, with cached states running out at any time: if the ids are proper, the two stores
      give the same answers throughout. */
  method RunBoth(glob: Matcher, ops: seq<Op>) returns (memory: seq<Answer>, redis: seq<Answer>)
    requires IsRedisGlob(glob)
    ensures |memory| == |redis| == |ops|
    ensures (forall k :: 0 <= k < |ops| ==> OpOk(ops[k])) ==> memory == redis
  {
    hide OpOk, IsRedisGlob;
    var m := new Memory.Store();
    var r := new Store(glob);
    memory, redis := [], [];
    ghost var proper := forall k :: 0 <= k < |ops| ==> OpOk(ops[k]);
    for k := 0 to |ops|
      invariant fresh(m) && fresh(r) && r.glob == glob && |memory| == |redis| == k
      invariant proper ==> Agrees(r.db, m.users) && memory == redis
    {
      var a, b := RunOne(m, r, ops[k]);
      memory, redis := memory + [a], redis + [b];
    }
  }

  // ----- The conditions on ids are exact -----

  /** After one add to an empty store only that key can be there, and no cached state. */
  lemma OneKeyOnly(user: UserID, metric: Metric, n: int64)
    ensures var name := Number(PointsKind, user, metric);
            var db := WriteAndInvalidate(map[], name, Num(n));
            && (forall k :: k in db ==> k == KeyOf(name)) && Lookup(db, State(user)) == None
  {
  }

  /** A metric that is empty or has a ':' in it is lost, whatever the user id. */
  method ImproperMetricIsLost(glob: Matcher, user: UserID, metric: Metric)
    returns (inMemory: UserState, inRedis: UserState)
    requires !Clean(metric, ':')
    ensures metric in inMemory.points && metric !in inRedis.points
  {
    hide KeyOf, Fields, WriteAndInvalidate;
    var m := new Memory.Store();
    var r := new Store(glob);
    var x := m.AddPoints(user, metric, 1);
    var y := r.AddPoints(user, metric, 1);
    OneKeyOnly(user, metric, 1);
    ghost var db := r.db;
    inMemory := m.GetState(user);
    inRedis := r.GetState(user);
    forall key | MetricOf(PointsKind, key).Some? ensures Clean(MetricOf(PointsKind, key).value, ':') {
      FieldsAreClean(key, ':');
    }
  }

  /** A user id of several pieces, or of none, loses a proper metric. */
  method ImproperUserLoses(glob: Matcher, user: UserID)
    returns (metric: Metric, inMemory: UserState, inRedis: UserState)
    requires !OneField(user)
    ensures Clean(metric, ':') && metric in inMemory.points && metric !in inRedis.points
  {
    hide KeyOf, Fields, WriteAndInvalidate, MetricOf;
    metric := LostMetric(PointsKind, user);
    MetricIsLost(PointsKind, user);
    var m := new Memory.Store();
    var r := new Store(glob);
    var x := m.AddPoints(user, metric, 1);
    var y := r.AddPoints(user, metric, 1);
    OneKeyOnly(user, metric, 1);
    inMemory := m.GetState(user);
    inRedis := r.GetState(user);
  }

  /** A user id with a wildcard sees the points of a user who has nothing to do with it. */
  method WildcardUserSeesOthers(glob: Matcher, user: UserID, k: nat)
    returns (inMemory: UserState, inRedis: UserState)
    requires IsRedisGlob(glob) && OneField(user) && Simple(user) && k < |user| && Wild(user[k])
    ensures inMemory == EmptyState(user) && "xp" in inRedis.points
  {
    hide KeyOf, Fields, GlobMatch, Pattern, MetricOf, OneField;
    var other := user[k := 'x'];
    WildcardLeaks(glob, PointsKind, user, "xp", k);
    ghost var n := Number(PointsKind, other, "xp");
    KeyInjective(n, State(other));
    KeyInjective(n, State(user));
    MetricReadsBack(PointsKind, other, "xp");
    var m := new Memory.Store();
    var r := new Store(glob);
    var x := m.AddPoints(other, "xp", 1);
    var y := r.AddPoints(other, "xp", 1);
    assert Listed(r.db, glob, user, PointsKind, KeyOf(n));
    inMemory := m.GetState(user);
    inRedis := r.GetState(user);
  }

  /** A zero delta is an error here and an entry of zero in memory. */
  method ZeroDeltaDiffers(glob: Matcher, user: UserID, metric: Metric)
    returns (inMemory: Result<int64>, inRedis: Result<int64>)
    ensures inMemory == Ok(0) && inRedis == Err(ZeroDelta)
  {
    var m := new Memory.Store();
    var r := new Store(glob);
    inMemory := m.AddPoints(user, metric, 0);
    inRedis := r.AddPoints(user, metric, 0);
  }
}
