/** What a leaderboard is, independently of any data structure: a map from users to scores and
    its one listing by (score descending, user ascending). */
module Board {
  import Core

  type UserID = Core.UserID

  datatype Entry = Entry(user: UserID, score: int)

  type Scores = map<UserID, int>

  /** Go's `<` on strings. */
  predicate StringLess(a: string, b: string) {
    if b == "" then false
    else if a == "" then true
    else a[0] < b[0] || (a[0] == b[0] && StringLess(a[1..], b[1..]))
  }

  /** The texts agree up to `k`, where `a` ends first or has the smaller character. */
  predicate BeforeAt(a: string, b: string, k: nat) {
    && k <= |a| && k < |b| && a[..k] == b[..k]
    && (k < |a| ==> a[k] < b[k])
  }

  /** Text order spelled out. */
  predicate TextBefore(a: string, b: string) {
    exists k: nat :: k <= |a| && BeforeAt(a, b, k)
  }

  lemma BeforeAtCons(c: char, a: string, b: string, k: nat)
    ensures BeforeAt([c] + a, [c] + b, k + 1) <==> BeforeAt(a, b, k)
  {
    if k <= |a| && k <= |b| {
      var ca, cb := [c] + a, [c] + b;
      assert ca[..k + 1] == [c] + a[..k] && cb[..k + 1] == [c] + b[..k];
      assert a[..k] == ca[..k + 1][1..] && b[..k] == cb[..k + 1][1..];
    }
  }

  lemma TextBeforeCons(c: char, a: string, b: string)
    ensures TextBefore([c] + a, [c] + b) <==> TextBefore(a, b)
  {
    if TextBefore(a, b) {
      var k: nat :| k <= |a| && BeforeAt(a, b, k);
      BeforeAtCons(c, a, b, k);
    }
    if TextBefore([c] + a, [c] + b) {
      var k: nat :| k <= |a| + 1 && BeforeAt([c] + a, [c] + b, k);
      assert k > 0;
      BeforeAtCons(c, a, b, k - 1);
    }
  }

  lemma {:induction false} StringLessIsTextOrder(a: string, b: string)
    ensures StringLess(a, b) <==> TextBefore(a, b)
  {
    if a == "" || b == "" || a[0] != b[0] {
      assert BeforeAt(a, b, 0) <==> StringLess(a, b);
      forall k: nat | 0 < k <= |a| && k <= |b| ensures !BeforeAt(a, b, k) {
        assert a[..k][0] == a[0] && b[..k][0] == b[0];
      }
    } else {
      StringLessIsTextOrder(a[1..], b[1..]);
      TextBeforeCons(a[0], a[1..], b[1..]);
      assert a == [a[0]] + a[1..] && b == [b[0]] + b[1..];
    }
  }

  /** `less` of the skip list: higher score first, ties by user. */
  predicate Less(a: Entry, b: Entry) {
    if a.score == b.score then StringLess(a.user, b.user) else a.score > b.score
  }

  lemma {:induction false} StringLessTransitive(a: string, b: string, c: string)
    requires StringLess(a, b) && StringLess(b, c)
    ensures StringLess(a, c)
  {
    if a == "" || !(a[0] == b[0] == c[0]) {
    } else {
      StringLessTransitive(a[1..], b[1..], c[1..]);
    }
  }

  lemma {:induction false} StringLessTotal(a: string, b: string)
    ensures !(StringLess(a, b) && StringLess(b, a))
    ensures a == b <==> !StringLess(a, b) && !StringLess(b, a)
  {
    if a == "" || b == "" {
    } else {
      StringLessTotal(a[1..], b[1..]);
      if a[0] == b[0] && a[1..] == b[1..] {
        assert a == [a[0]] + a[1..] && b == [b[0]] + b[1..];
      }
    }
  }

  lemma LessTransitive(a: Entry, b: Entry, c: Entry)
    requires Less(a, b) && Less(b, c)
    ensures Less(a, c)
  {
    if a.score == b.score == c.score {
      StringLessTransitive(a.user, b.user, c.user);
    }
  }

  lemma LessTotal(a: Entry, b: Entry)
    ensures !(Less(a, b) && Less(b, a))
    ensures a == b <==> !Less(a, b) && !Less(b, a)
  {
    StringLessTotal(a.user, b.user);
  }

  /** `Less` is a strict total order on entries. */
  lemma LessIsStrictTotalOrder()
    ensures forall a, b, c :: Less(a, b) && Less(b, c) ==> Less(a, c)
    ensures forall a, b :: Less(a, b) ==> !Less(b, a)
    ensures forall a, b :: a != b ==> Less(a, b) || Less(b, a)
  {
    forall a, b, c | Less(a, b) && Less(b, c) ensures Less(a, c) {
      LessTransitive(a, b, c);
    }
    forall a, b
      ensures Less(a, b) ==> !Less(b, a)
      ensures a != b ==> Less(a, b) || Less(b, a)
    {
      LessTotal(a, b);
    }
  }

  predicate Sorted(s: seq<Entry>) {
    forall i, j :: 0 <= i < j < |s| ==> Less(s[i], s[j])
  }

  predicate Holds(m: Scores, e: Entry) {
    e.user in m && m[e.user] == e.score
  }

  /** `s` lists exactly the entries of `m`, best first. */
  ghost predicate IsListing(m: Scores, s: seq<Entry>) {
    && Sorted(s)
    && forall e :: e in s <==> Holds(m, e)
  }

  lemma SortedRanks(s: seq<Entry>, i: nat, j: nat)
    requires Sorted(s) && i < j < |s|
    ensures s[i].score > s[j].score || (s[i].score == s[j].score && TextBefore(s[i].user, s[j].user))
  {
    hide StringLess, TextBefore;
    StringLessIsTextOrder(s[i].user, s[j].user);
  }

  /** A listing runs from the highest score to the lowest, and among equal scores in the text
      order of the users. */
  lemma ListingOrder(m: Scores, s: seq<Entry>, i: nat, j: nat)
    requires IsListing(m, s) && i < j < |s|
    ensures s[i].score > s[j].score
            || (s[i].score == s[j].score &&
                var a, b := s[i].user, s[j].user;
                exists k :: 0 <= k <= |a| && k < |b| && a[..k] == b[..k] && (k == |a| || a[k] < b[k]))
  {
    hide Sorted;
    SortedRanks(s, i, j);
  }

  lemma {:induction false} SortedSameElements(s: seq<Entry>, t: seq<Entry>)
    requires Sorted(s) && Sorted(t)
    requires forall e :: e in s <==> e in t
    ensures s == t
  {
    if s != [] {
      assert s[0] in t;
    }
    if t != [] {
      assert t[0] in s;
    }
    if s == [] {
    } else {
      LessTotal(s[0], t[0]);
      assert s[0] == t[0];
      LessTotal(s[0], s[0]);
      forall e ensures e in s[1..] <==> e in t[1..] {
        assert e in s <==> e == s[0] || e in s[1..];
        assert e in t <==> e == t[0] || e in t[1..];
        assert s[0] !in s[1..];
        assert t[0] !in t[1..];
      }
      SortedSameElements(s[1..], t[1..]);
      assert s == [s[0]] + s[1..] && t == [t[0]] + t[1..];
    }
  }

  lemma {:induction false} ListingUnique(m: Scores, s: seq<Entry>, t: seq<Entry>)
    requires IsListing(m, s) && IsListing(m, t)
    ensures s == t
  {
    SortedSameElements(s, t);
  }

  function Insert(s: seq<Entry>, e: Entry): seq<Entry> {
    if s == [] || Less(e, s[0]) then [e] + s else [s[0]] + Insert(s[1..], e)
  }

  lemma {:induction false} InsertSorted(s: seq<Entry>, e: Entry)
    requires Sorted(s) && e !in s
    ensures Sorted(Insert(s, e))
    ensures forall x :: x in Insert(s, e) <==> x == e || x in s
  {
    LessIsStrictTotalOrder();
    if s == [] || Less(e, s[0]) {
    } else {
      InsertSorted(s[1..], e);
      assert s == [s[0]] + s[1..];
      var rest := Insert(s[1..], e);
      forall k | 0 <= k < |rest| ensures Less(s[0], rest[k]) {
        assert rest[k] in rest;
      }
    }
  }

  /** The listing of a score map, built by repeated insertion. */
  ghost function Listing(m: Scores): (s: seq<Entry>)
    ensures IsListing(m, s)
  {
    if m == map[] then []
    else
      var u :| u in m;
      var rest := Listing(m - {u});
      InsertSorted(rest, Entry(u, m[u]));
      assert forall e :: Holds(m, e) <==> e == Entry(u, m[u]) || Holds(m - {u}, e);
      Insert(rest, Entry(u, m[u]))
  }

  lemma {:induction false} ListingLength(m: Scores, s: seq<Entry>)
    requires IsListing(m, s)
    ensures |s| == |m|
  {
    forall u | u in m ensures Entry(u, m[u]) in s {
      assert Holds(m, Entry(u, m[u]));
    }
    if s == [] {
    } else {
      LessTotal(s[0], s[0]);
      assert Holds(m, s[0]);
      var u := s[0].user;
      forall e ensures e in s[1..] <==> Holds(m - {u}, e) {
        assert e in s <==> e == s[0] || e in s[1..];
        assert s[0] !in s[1..];
        if e.user == u && Holds(m, e) {
          assert e == s[0];
        }
      }
      ListingLength(m - {u}, s[1..]);
      assert (m - {u}).Keys == m.Keys - {u};
    }
  }

  /** A sorted run of entries that nothing left out precedes is a prefix of the listing. */
  lemma PrefixOfListing(m: Scores, out: seq<Entry>)
    requires Sorted(out)
    requires forall e :: e in out ==> Holds(m, e)
    requires forall x, e :: x in out && Holds(m, e) && e !in out ==> Less(x, e)
    ensures out <= Listing(m)
  {
    var users := set k | 0 <= k < |out| :: out[k].user;
    var rest := m - users;
    var tail := Listing(rest);
    forall e ensures Holds(rest, e) <==> Holds(m, e) && e !in out {
      if Holds(m, e) && e.user in users {
        var k :| 0 <= k < |out| && out[k].user == e.user;
        assert Holds(m, out[k]);
      }
    }
    assert Sorted(out + tail);
    assert IsListing(m, out + tail);
    ListingUnique(m, out + tail, Listing(m));
  }

  /** The first `n` entries of the listing; none when `n` is not positive. */
  ghost function Top(m: Scores, n: int): seq<Entry> {
    var s := Listing(m);
    if n <= 0 then [] else if n < |s| then s[..n] else s
  }

  lemma TopLength(m: Scores, n: int)
    ensures |Top(m, n)| == if n <= 0 then 0 else if n < |m| then n else |m|
  {
    ListingLength(m, Listing(m));
  }

  lemma LeftOutRanksAfter(m: Scores, n: int, i: nat, u: UserID)
    requires i < |Top(m, n)| && u in m && Entry(u, m[u]) !in Top(m, n)
    ensures var e := Top(m, n)[i];
            e.score > m[u] || (e.score == m[u] && TextBefore(e.user, u))
  {
    hide Sorted, TextBefore;
    var s := Listing(m);
    assert Holds(m, Entry(u, m[u]));
    assert forall k :: 0 <= k < |Top(m, n)| ==> s[k] == Top(m, n)[k];
    var j :| 0 <= j < |s| && s[j] == Entry(u, m[u]);
    SortedRanks(s, i, j);
  }

  lemma TopSorted(m: Scores, n: int)
    ensures Sorted(Top(m, n)) && forall e :: e in Top(m, n) ==> Holds(m, e)
  {
    hide Less;
    assert forall e :: e in Top(m, n) ==> e in Listing(m);
  }

  /** What a caller of the leaderboard gets: entries of the map, best first, and nobody left out
      ranks before anybody listed. */
  lemma TopRanks(m: Scores, n: int)
    ensures var top := Top(m, n);
            && (forall e :: e in top ==> e.user in m && m[e.user] == e.score)
            && (forall i, j :: 0 <= i < j < |top| ==>
                 top[i].score > top[j].score
                 || (top[i].score == top[j].score && TextBefore(top[i].user, top[j].user)))
            && (forall e, u :: e in top && u in m && Entry(u, m[u]) !in top ==>
                 e.score > m[u] || (e.score == m[u] && TextBefore(e.user, u)))
  {
    hide Sorted, Top, TextBefore;
    var top := Top(m, n);
    TopSorted(m, n);
    forall i, j | 0 <= i < j < |top|
      ensures top[i].score > top[j].score
              || (top[i].score == top[j].score && TextBefore(top[i].user, top[j].user))
    {
      SortedRanks(top, i, j);
    }
    forall e, u | e in top && u in m && Entry(u, m[u]) !in top
      ensures e.score > m[u] || (e.score == m[u] && TextBefore(e.user, u))
    {
      var i :| 0 <= i < |top| && top[i] == e;
      LeftOutRanksAfter(m, n, i, u);
    }
  }

  datatype Op = Update(user: UserID, score: int) | Remove(user: UserID)

  function Apply(m: Scores, op: Op): Scores {
    match op
    case Update(u, x) => m[u := x]
    case Remove(u) => m - {u}
  }

  function ApplyAll(m: Scores, ops: seq<Op>): Scores
    decreases |ops|
  {
    if ops == [] then m else ApplyAll(Apply(m, ops[0]), ops[1..])
  }

  lemma {:induction false} OthersKeepScore(m: Scores, ops: seq<Op>, u: UserID)
    requires forall k :: 0 <= k < |ops| ==> ops[k].user != u
    ensures u in ApplyAll(m, ops) <==> u in m
    ensures u in m ==> ApplyAll(m, ops)[u] == m[u]
    decreases |ops|
  {
    if ops == [] {
    } else {
      OthersKeepScore(Apply(m, ops[0]), ops[1..], u);
    }
  }

  /** After any history, a user stands where the last operation on that user left it. */
  lemma {:induction false} LastOperationDecides(m: Scores, ops: seq<Op>, k: nat)
    requires k < |ops| && forall j :: k < j < |ops| ==> ops[j].user != ops[k].user
    ensures var u, after := ops[k].user, ApplyAll(m, ops);
            match ops[k]
            case Update(_, score) => u in after && after[u] == score
            case Remove(_) => u !in after
    decreases |ops|
  {
    if k == 0 {
      OthersKeepScore(Apply(m, ops[0]), ops[1..], ops[0].user);
    } else {
      LastOperationDecides(Apply(m, ops[0]), ops[1..], k - 1);
    }
  }
}
