/** The key names of the Redis store, how they are parsed back, and which keys a pattern lists. */
module RedisKeys {
  import opened Core
  import opened Splitting

  datatype Kind = PointsKind | LevelsKind

  function KindText(kind: Kind): string {
    if kind.PointsKind? then "points" else "levels"
  }

  /** What a key stands for. */
  datatype Name =
    | Number(kind: Kind, user: UserID, metric: Metric)
    | Badges(user: UserID)
    | State(user: UserID)

  function NumberPrefix(kind: Kind, user: UserID): string {
    "user:" + user + ":" + KindText(kind) + ":"
  }

  /** The key builders. */
  function KeyOf(n: Name): string {
    match n
    case Number(kind, user, metric) => NumberPrefix(kind, user) + metric
    case Badges(user) => "user:" + user + ":badges"
    case State(user) => "user:" + user + ":state"
  }

  /** The pattern that lists a user's keys of one kind. */
  function Pattern(kind: Kind, user: UserID): string {
    NumberPrefix(kind, user) + "*"
  }

  /** The texts of the keys and of the listing patterns. */
  lemma KeyTexts(user: UserID, metric: Metric)
    ensures KeyOf(Number(PointsKind, user, metric)) == "user:" + user + ":points:" + metric
    ensures KeyOf(Number(LevelsKind, user, metric)) == "user:" + user + ":levels:" + metric
    ensures KeyOf(Badges(user)) == "user:" + user + ":badges"
    ensures KeyOf(State(user)) == "user:" + user + ":state"
    ensures Pattern(PointsKind, user) == "user:" + user + ":points:*"
    ensures Pattern(LevelsKind, user) == "user:" + user + ":levels:*"
  {
    assert ":" + "points" + ":" == ":points:" && ":" + "levels" + ":" == ":levels:";
    assert ":points:" + "*" == ":points:*" && ":levels:" + "*" == ":levels:*";
  }

  function PartsOf(n: Name): seq<string> {
    match n
    case Number(kind, user, metric) => ["user", user, KindText(kind), metric]
    case Badges(user) => ["user", user, "badges"]
    case State(user) => ["user", user, "state"]
  }

  /** User ids that leave one piece when split at ':', such as any without a ':'. */
  predicate OneField(user: UserID) {
    |Fields(user, ':')| == 1
  }

  /** Names whose keys the store can tell apart and read back. */
  predicate NameOk(n: Name) {
    OneField(n.user) && (n.Number? ==> Clean(n.metric, ':'))
  }

  // ----- Parsing -----

  lemma FieldsOfUser(user: UserID, rest: string)
    ensures Fields("user:" + user + ":" + rest, ':') == ["user"] + Fields(user, ':') + Fields(rest, ':')
  {
    hide Scan;
    ScanConcat("user", user + ":" + rest, ':', "");
    ScanConcat(user, rest, ':', "");
    FieldsOfClean("user", ':');
    assert "user:" + user + ":" + rest == "user" + ":" + (user + ":" + rest);
  }

  /** The pieces of any key. */
  lemma FieldsOfNumber(kind: Kind, user: UserID, rest: string)
    ensures Fields(NumberPrefix(kind, user) + rest, ':') ==
            ["user"] + Fields(user, ':') + [KindText(kind)] + Fields(rest, ':')
  {
    hide Scan;
    FieldsOfUser(user, KindText(kind) + ":" + rest);
    ScanConcat(KindText(kind), rest, ':', "");
    FieldsOfClean(KindText(kind), ':');
    assert NumberPrefix(kind, user) + rest == "user:" + user + ":" + (KindText(kind) + ":" + rest);
  }

  lemma FieldsOfKey(n: Name)
    ensures Fields(KeyOf(n), ':') ==
            ["user"] + Fields(n.user, ':') +
            (match n
             case Number(kind, _, metric) => [KindText(kind)] + Fields(metric, ':')
             case Badges(_) => ["badges"]
             case State(_) => ["state"])
  {
    match n
    case Number(kind, user, metric) =>
      FieldsOfNumber(kind, user, metric);
    case Badges(user) =>
      FieldsOfUser(user, "badges");
      FieldsOfClean("badges", ':');
      assert KeyOf(n) == "user:" + user + ":" + "badges";
    case State(user) =>
      FieldsOfUser(user, "state");
      FieldsOfClean("state", ':');
      assert KeyOf(n) == "user:" + user + ":" + "state";
  }

  /** Parsing a key gives back what it was built from, exactly when the ids are non-empty and
      free of ':'. */
  lemma KeyRoundTrip(n: Name)
    ensures Fields(KeyOf(n), ':') == PartsOf(n) <==>
            Clean(n.user, ':') && (n.Number? ==> Clean(n.metric, ':'))
  {
    hide Fields, KeyOf;
    FieldsOfKey(n);
    if Clean(n.user, ':') {
      FieldsOfClean(n.user, ':');
    }
    if n.Number? && Clean(n.metric, ':') {
      FieldsOfClean(n.metric, ':');
    }
    if Fields(KeyOf(n), ':') == PartsOf(n) {
      FieldsAreClean(KeyOf(n), ':');
      assert Clean(PartsOf(n)[1], ':');
      assert n.Number? ==> Clean(PartsOf(n)[3], ':');
    }
  }

  /** What the rebuild loop takes a listed key to be about. */
  function MetricOf(kind: Kind, key: string): Option<Metric> {
    var parts := Fields(key, ':');
    if |parts| >= 4 && parts[2] == KindText(kind) then Some(parts[3]) else None
  }

  predicate ReadsBack(kind: Kind, user: UserID, metric: Metric) {
    MetricOf(kind, KeyOf(Number(kind, user, metric))) == Some(metric)
  }

  /** For a user id of one piece, a metric is read back exactly when it is non-empty and free
      of ':'. */
  lemma MetricReadsBack(kind: Kind, user: UserID, metric: Metric)
    requires OneField(user)
    ensures ReadsBack(kind, user, metric) <==> Clean(metric, ':')
  {
    hide Fields, KeyOf;
    FieldsOfKey(Number(kind, user, metric));
    FieldsAreClean(KeyOf(Number(kind, user, metric)), ':');
    if Clean(metric, ':') {
      FieldsOfClean(metric, ':');
    }
  }

  /** A metric that a user id of several pieces, or none, loses. */
  function LostMetric(kind: Kind, user: UserID): Metric {
    if ReadsBack(kind, user, "a") then "b" else "a"
  }

  lemma MetricIsLost(kind: Kind, user: UserID)
    requires !OneField(user)
    ensures Clean(LostMetric(kind, user), ':') && !ReadsBack(kind, user, LostMetric(kind, user))
  {
    hide Fields, KeyOf;
    FieldsOfClean("a", ':');
    FieldsOfClean("b", ':');
    FieldsOfKey(Number(kind, user, "a"));
    FieldsOfKey(Number(kind, user, "b"));
  }

  /** All proper metrics of a user are read back exactly when the user id is of one piece. */
  lemma UserReadsBack(kind: Kind, user: UserID)
    ensures (forall m :: Clean(m, ':') ==> ReadsBack(kind, user, m)) <==> OneField(user)
  {
    if OneField(user) {
      forall m | Clean(m, ':') ensures ReadsBack(kind, user, m) {
        MetricReadsBack(kind, user, m);
      }
    } else {
      MetricIsLost(kind, user);
    }
  }

  // ----- Telling keys apart -----

  lemma SameNumberKey(kind: Kind, u: UserID, v: UserID, metric: Metric)
    requires NumberPrefix(kind, u) + metric == NumberPrefix(kind, v) + metric
    ensures u == v
  {
    var p, q := NumberPrefix(kind, u) + metric, NumberPrefix(kind, v) + metric;
    assert |u| == |v|;
    assert p[5..5 + |u|] == u && q[5..5 + |v|] == v;
  }

  lemma SameUserKey(u: UserID, v: UserID, tail: string)
    requires "user:" + u + tail == "user:" + v + tail
    ensures u == v
  {
    var p, q := "user:" + u + tail, "user:" + v + tail;
    assert |u| == |v|;
    assert p[5..5 + |u|] == u && q[5..5 + |v|] == v;
  }

  /** Keys of such names never collide, across kinds too. */
  lemma KeyInjective(n: Name, n': Name)
    requires NameOk(n) && NameOk(n')
    ensures KeyOf(n) == KeyOf(n') <==> n == n'
  {
    hide Fields, NumberPrefix;
    FieldsOfKey(n);
    FieldsOfKey(n');
    var p, q := Fields(KeyOf(n), ':'), Fields(KeyOf(n'), ':');
    if n.Number? {
      FieldsOfClean(n.metric, ':');
    }
    if n'.Number? {
      FieldsOfClean(n'.metric, ':');
    }
    if KeyOf(n) == KeyOf(n') {
      assert p[2] == q[2] && |p| == |q|;
      match n
      case Number(kind, u, m) =>
        assert n'.Number? && n'.kind == kind && p[3] == q[3];
        SameNumberKey(kind, u, n'.user, m);
      case Badges(u) =>
        assert n'.Badges?;
        SameUserKey(u, n'.user, ":badges");
      case State(u) =>
        assert n'.State?;
        SameUserKey(u, n'.user, ":state");
    }
  }

  // ----- KEYS patterns -----

  /** Redis glob matching, for patterns without '[' classes and '\\' escapes. */
  predicate GlobMatch(p: string, s: string)
    decreases |p| + |s|
  {
    if p == "" then s == ""
    else if p[0] == '*' then GlobMatch(p[1..], s) || (s != "" && GlobMatch(p, s[1..]))
    else s != "" && (p[0] == '?' || p[0] == s[0]) && GlobMatch(p[1..], s[1..])
  }

  /** What the characters of a pattern match: '*' any text, '?' any one character, and anything
      else itself. */
  lemma {:induction false} GlobMeaning(c: char, p: string, s: string)
    ensures GlobMatch("", s) <==> s == ""
    ensures GlobMatch([c] + p, s) <==>
            if c == '*' then exists k :: 0 <= k <= |s| && GlobMatch(p, s[k..])
            else s != "" && (c == '?' || c == s[0]) && GlobMatch(p, s[1..])
    decreases |s|
  {
    assert ([c] + p)[1..] == p;
    if c == '*' {
      assert s[0..] == s;
      if s == "" {
      } else {
        GlobMeaning(c, p, s[1..]);
        assert forall k :: 0 <= k < |s| ==> s[1..][k..] == s[k + 1..];
        assert forall k :: 0 < k <= |s| ==> s[k..] == s[1..][k - 1..];
      }
    }
  }

  predicate Simple(p: string) {
    '[' !in p && '\\' !in p
  }

  /** Whatever else it does, the matcher is the above on patterns without classes and escapes. */
  ghost predicate IsRedisGlob(glob: (string, string) -> bool) {
    forall p, s :: Simple(p) ==> glob(p, s) == GlobMatch(p, s)
  }

  predicate Wild(c: char) {
    c == '*' || c == '?'
  }

  predicate Literal(w: string) {
    forall i :: 0 <= i < |w| ==> !Wild(w[i])
  }

  lemma PatternSimple(kind: Kind, user: UserID)
    requires Simple(user)
    ensures Simple(Pattern(kind, user))
  {
  }

  lemma {:induction false} StarMatchesAll(s: string)
    ensures GlobMatch("*", s)
  {
    if s == "" {
      assert GlobMatch("*"[1..], "");
    } else {
      StarMatchesAll(s[1..]);
    }
  }

  /** A literal followed by '*' matches exactly the texts with that prefix. */
  lemma {:induction false} GlobPrefix(w: string, s: string)
    requires Literal(w)
    ensures GlobMatch(w + "*", s) <==> w <= s
  {
    if w == "" {
      assert w + "*" == "*";
      StarMatchesAll(s);
    } else {
      assert (w + "*")[1..] == w[1..] + "*";
      assert !Wild(w[0]);
      if s != "" {
        GlobPrefix(w[1..], s[1..]);
      }
    }
  }

  /** A pattern matches any text that differs from it only at wildcards. */
  lemma {:induction false} GlobLikeness(w: string, v: string, p: string, s: string)
    requires |w| == |v| && GlobMatch(p, s)
    requires forall i :: 0 <= i < |w| ==> w[i] == v[i] || Wild(w[i])
    ensures GlobMatch(w + p, v + s)
    decreases |w|
  {
    if w == "" {
      assert w + p == p && v + s == s;
    } else {
      GlobLikeness(w[1..], v[1..], p, s);
      assert (w + p)[1..] == w[1..] + p && (v + s)[1..] == v[1..] + s;
      if w[0] == '*' {
        assert GlobMatch(w + p, (v + s)[1..]);
      }
    }
  }

  lemma PrefixLiteral(kind: Kind, user: UserID)
    requires Literal(user)
    ensures Literal(NumberPrefix(kind, user))
    ensures Simple(user) ==> Simple(NumberPrefix(kind, user))
  {
    var w := NumberPrefix(kind, user);
    forall i | 0 <= i < |w| ensures !Wild(w[i]) {
      if 5 <= i < 5 + |user| {
        assert w[i] == user[i - 5];
      }
    }
  }

  /** A key that starts with a longer user's prefix has a ':' in its metric. */
  lemma LongerPrefix(kind: Kind, u: UserID, v: UserID, metric: Metric)
    requires |u| > |v| && NumberPrefix(kind, u) <= NumberPrefix(kind, v) + metric
    ensures ':' in metric
  {
    var w, key := NumberPrefix(kind, u), NumberPrefix(kind, v) + metric;
    var i := |w| - 1;
    assert w[i] == ':' && key[i] == ':';
    assert key[i] == metric[i - |NumberPrefix(kind, v)|];
  }

  lemma FieldsIsScan(a: string, b: string, c: string)
    ensures Fields(a, ':') == Scan(a, ':', "") && Fields(b, ':') == Scan(b, ':', "")
    ensures Fields(c, ':') == Scan(c, ':', "")
  {
  }

  /** A key that starts with a shorter user's prefix leaves more than one piece after it. */
  lemma ShorterPrefix(kind: Kind, u: UserID, v: UserID, metric: Metric)
    requires |u| < |v| && Clean(metric, ':') && NumberPrefix(kind, u) <= NumberPrefix(kind, v) + metric
    ensures var rest := (NumberPrefix(kind, v) + metric)[|NumberPrefix(kind, u)|..];
            |Fields(rest, ':')| >= 2
  {
    hide Fields;
    var w, w', key := NumberPrefix(kind, u), NumberPrefix(kind, v), NumberPrefix(kind, v) + metric;
    var d := |v| - |u|;
    var rest := key[|w|..];
    assert w'[|w'| - 1] == ':' && w'[|w'| - 2] == 's' && w[|w| - 1] == ':';
    assert key[|w'| - 1] == ':' && key[|w'| - 2] == 's' && key[|w| - 1] == ':';
    assert d >= 2;
    var front := rest[..d - 1];
    assert rest == front + ":" + metric;
    assert front[d - 2] == 's';
    ScanConcat(front, metric, ':', "");
    ScanFinds(front, ':', "", d - 2);
    FieldsOfClean(metric, ':');
    FieldsIsScan(front, metric, rest);
  }

  lemma SameLengthPrefix(kind: Kind, u: UserID, v: UserID, metric: Metric)
    requires |u| == |v| && NumberPrefix(kind, u) <= NumberPrefix(kind, v) + metric
    ensures u == v
  {
    var p, q := NumberPrefix(kind, u), NumberPrefix(kind, v) + metric;
    assert p[5..5 + |u|] == u && q[5..5 + |v|] == v;
  }

  /** A key that starts with a user's prefix is that user's. */
  lemma PrefixOwner(kind: Kind, user: UserID, n: Name)
    requires OneField(user) && NameOk(n)
    ensures NumberPrefix(kind, user) <= KeyOf(n) <==> n.Number? && n.kind == kind && n.user == user
  {
    hide Fields, NumberPrefix;
    var w, key := NumberPrefix(kind, user), KeyOf(n);
    if w <= key {
      var rest := key[|w|..];
      assert key == w + rest;
      FieldsOfNumber(kind, user, rest);
      FieldsOfKey(n);
      var parts := Fields(key, ':');
      assert parts[2] == KindText(kind);
      assert n.Number? && n.kind == kind;
      FieldsOfClean(n.metric, ':');
      assert |Fields(rest, ':')| == 1;
      if |user| > |n.user| {
        LongerPrefix(kind, user, n.user, n.metric);
      } else if |user| < |n.user| {
        ShorterPrefix(kind, user, n.user, n.metric);
      } else {
        SameLengthPrefix(kind, user, n.user, n.metric);
      }
    }
  }

  /** A literal followed by '*' lists exactly the keys with that prefix. */
  lemma PrefixListed(glob: (string, string) -> bool, w: string, s: string)
    requires IsRedisGlob(glob) && Simple(w) && Literal(w)
    ensures glob(w + "*", s) <==> w <= s
  {
    hide GlobMatch;
    assert Simple(w + "*");
    GlobPrefix(w, s);
  }

  /** The pattern lists the key of `n` exactly when `n` is a number of that kind and user. */
  ghost predicate Selects(glob: (string, string) -> bool, kind: Kind, user: UserID, n: Name) {
    glob(Pattern(kind, user), KeyOf(n)) <==> n.Number? && n.kind == kind && n.user == user
  }

  lemma PatternSelects(glob: (string, string) -> bool, kind: Kind, user: UserID, n: Name)
    requires IsRedisGlob(glob) && OneField(user) && Simple(user) && Literal(user) && NameOk(n)
    ensures Selects(glob, kind, user, n)
  {
    hide IsRedisGlob, Fields, NumberPrefix, Literal, Simple;
    PrefixLiteral(kind, user);
    PrefixListed(glob, NumberPrefix(kind, user), KeyOf(n));
    PrefixOwner(kind, user, n);
  }

  /** Replacing a wildcard by a letter gives another id, as well-formed. */
  lemma OtherUser(user: UserID, k: nat)
    requires OneField(user) && k < |user| && Wild(user[k])
    ensures var other := user[k := 'x'];
            other != user && OneField(other) && (Clean(user, ':') ==> Clean(other, ':'))
  {
    var other := user[k := 'x'];
    ScanCount(user, other, ':', "", "");
    assert other[k] == 'x';
    assert Clean(user, ':') ==> ':' !in other by {
      assert forall i :: 0 <= i < |user| ==> other[i] == user[i] || other[i] == 'x';
    }
  }

  /** For every user id with a wildcard in it, the pattern also lists the keys of another user,
      whose id is as well-formed. */
  lemma WildcardLeaks(glob: (string, string) -> bool, kind: Kind, user: UserID, metric: Metric, k: nat)
    requires IsRedisGlob(glob) && OneField(user) && Simple(user) && k < |user| && Wild(user[k])
    ensures var other := user[k := 'x'];
            && other != user && OneField(other) && (Clean(user, ':') ==> Clean(other, ':'))
            && glob(Pattern(kind, user), KeyOf(Number(kind, other, metric)))
  {
    hide GlobMatch, OneField, Simple;
    OtherUser(user, k);
    var other := user[k := 'x'];
    var w, v := NumberPrefix(kind, user), NumberPrefix(kind, other);
    forall i | 0 <= i < |w| ensures w[i] == v[i] || Wild(w[i]) {
      if 5 <= i < 5 + |user| {
        assert w[i] == user[i - 5] && v[i] == other[i - 5];
      }
    }
    StarMatchesAll(metric);
    GlobLikeness(w, v, "*", metric);
    PatternSimple(kind, user);
  }

  /** Of the user ids of one piece without classes and escapes, exactly those without wildcards
      have a pattern that lists their own keys only. */
  lemma PatternExact(glob: (string, string) -> bool, kind: Kind, user: UserID)
    requires IsRedisGlob(glob) && OneField(user) && Simple(user)
    ensures (forall n :: NameOk(n) ==> Selects(glob, kind, user, n)) <==> Literal(user)
  {
    hide IsRedisGlob, KeyOf, OneField, Simple;
    if Literal(user) {
      forall n | NameOk(n) ensures Selects(glob, kind, user, n) {
        PatternSelects(glob, kind, user, n);
      }
    } else {
      var k :| 0 <= k < |user| && Wild(user[k]);
      WildcardLeaks(glob, kind, user, "xp", k);
      var n := Number(kind, user[k := 'x'], "xp");
      assert NameOk(n) && !Selects(glob, kind, user, n);
    }
  }
}
