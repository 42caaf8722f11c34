/** The in-memory storage: one record per user, created on first use. */
module Memory {
  import opened Core

  type Users = map<UserID, UserState>

  /** What a reader sees of a user, whether or not a record exists yet. */
  function View(users: Users, user: UserID): UserState {
    if user in users then users[user] else EmptyState(user)
  }

  /** `getOrCreate` */
  function Touch(users: Users, user: UserID): Users {
    users[user := View(users, user)]
  }

  class Store {
    var users: Users

    constructor ()
      ensures users == map[]
    {
      users := map[];
    }

    method GetOrCreate(user: UserID) returns (rec: UserState)
      modifies this
      ensures users == Touch(old(users), user) && user in users && rec == users[user]
      ensures rec == View(old(users), user)
      ensures rec == if user in old(users) then old(users)[user] else UserState(user, map[], {}, map[])
    {
      if user !in users {
        users := users[user := EmptyState(user)];
      }
      rec := users[user];
    }

    method AddPoints(user: UserID, metric: Metric, delta: int64) returns (r: Result<int64>)
      modifies this
      ensures r == AddSafe(Get(View(old(users), user).points, metric), delta)
      ensures r.Ok? ==> r.value == Get(View(old(users), user).points, metric) + delta
      ensures r.Err? ==> users == Touch(old(users), user)
      ensures r.Ok? ==>
                var st := View(old(users), user);
                users == old(users)[user := st.(points := st.points[metric := r.value])]
    {
      var rec := GetOrCreate(user);
      r := AddSafe(Get(rec.points, metric), delta);
      if r.Ok? {
        users := users[user := rec.(points := rec.points[metric := r.value])];
      }
    }

    method AwardBadge(user: UserID, badge: Badge)
      modifies this
      ensures var st := View(old(users), user);
              users == old(users)[user := st.(badges := st.badges + {badge})]
    {
      var rec := GetOrCreate(user);
      users := users[user := rec.(badges := rec.badges + {badge})];
    }

    method GetState(user: UserID) returns (state: UserState)
      modifies this
      ensures users == Touch(old(users), user) && state == View(old(users), user)
      ensures state == if user in old(users) then old(users)[user] else UserState(user, map[], {}, map[])
      ensures forall v :: View(users, v) == View(old(users), v)
    {
      state := GetOrCreate(user);
    }

    method SetLevel(user: UserID, metric: Metric, level: int)
      modifies this
      ensures var st := View(old(users), user);
              users == old(users)[user := st.(levels := st.levels[metric := level])]
    {
      var rec := GetOrCreate(user);
      users := users[user := rec.(levels := rec.levels[metric := level])];
    }
  }
}
