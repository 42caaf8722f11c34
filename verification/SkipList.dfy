/** The in-memory leaderboard: a skip list of at most sixteen levels over heap nodes.

    A node carries its entry and, as specification only, its height. "Live" nodes are the ones
    the user index holds. `next` is a Go array, which is a value inside its node, so it is a
    sequence of sixteen links that the methods replace one slot at a time. */
module SkipLists {
  import opened Board

  const MAX_LEVEL: nat := 16

  class Node {
    const entry: Entry

    ghost const height: nat

    var next: seq<Node?>

    constructor (entry: Entry, ghost height: nat)
      ensures this.entry == entry && this.height == height
      ensures next == seq(MAX_LEVEL, _ => null)
    {
      this.entry := entry;
      this.height := height;
      this.next := seq(MAX_LEVEL, _ => null);
    }
  }

  // ----- Pure facts about linking: nothing below reads the heap -----

  /** List order, with the head sentinel in front of every node. */
  ghost predicate Before(head: Node, a: Node, b: Node) {
    b != head && (a == head || Less(a.entry, b.entry))
  }

  ghost predicate Distinct(live: set<Node>) {
    forall x, y :: x in live && y in live && x != y ==> x.entry != y.entry
  }

  /** `m` is what `x.next[i]` must be: the first live node after `x` on level `i`. */
  ghost predicate FirstAfter(head: Node, live: set<Node>, x: Node, i: nat, m: Node?) {
    && (m != null ==> m in live && m.height > i && Before(head, x, m))
    && forall y :: y in live && y.height > i && Before(head, x, y) ==>
         m != null && (y == m || Before(head, m, y))
  }

  /** `p` is what the search must leave in `update[i]`: the last node on level `i` that
      precedes `e`. */
  ghost predicate LastBefore(head: Node, live: set<Node>, p: Node, i: nat, e: Entry) {
    && (p == head || (p in live && p.height > i && Less(p.entry, e)))
    && forall y :: y in live && y.height > i && Less(y.entry, e) ==> y == p || Before(head, y, p)
  }

  /** What a walk along a level still has in front of it. */
  ghost function Ahead(head: Node, live: set<Node>, x: Node): set<Node> {
    set y | y in live && Before(head, x, y)
  }

  lemma AheadShrinks(head: Node, live: set<Node>, x: Node, y: Node)
    requires y in live && Before(head, x, y)
    ensures Ahead(head, live, y) < Ahead(head, live, x)
  {
    LessIsStrictTotalOrder();
    assert y in Ahead(head, live, x) && y !in Ahead(head, live, y);
  }

  /** Where the walk along a level stops is the predecessor on that level. */
  lemma StopIsLastBefore(head: Node, live: set<Node>, p: Node, i: nat, e: Entry, m: Node?)
    requires p == head || (p in live && p.height > i && Less(p.entry, e))
    requires head !in live && Distinct(live) && FirstAfter(head, live, p, i, m)
    requires m == null || !Less(m.entry, e)
    ensures LastBefore(head, live, p, i, e)
  {
    LessIsStrictTotalOrder();
  }

  /** What is after `x` on a level is the first node after it and what is after that one. */
  lemma AfterSplits(head: Node, live: set<Node>, x: Node, i: nat, m: Node?)
    requires head !in live && FirstAfter(head, live, x, i, m)
    ensures m == null ==> forall y :: y in live && y.height > i ==> !Before(head, x, y)
    ensures m != null ==>
              && m in live && m.height > i && Before(head, x, m)
              && forall y :: y in live && y.height > i ==> (Before(head, x, y) <==> y == m || Before(head, m, y))
  {
    LessIsStrictTotalOrder();
  }

  lemma InsertAfterPredecessor(head: Node, live: set<Node>, p: Node, i: nat, n: Node, m: Node?)
    requires head !in live && n !in live && n != head && Distinct(live + {n}) && n.height > i
    requires LastBefore(head, live, p, i, n.entry) && FirstAfter(head, live, p, i, m)
    ensures FirstAfter(head, live + {n}, p, i, n)
    ensures FirstAfter(head, live + {n}, n, i, m)
  {
    LessIsStrictTotalOrder();
    forall y | y in live && y.height > i
      ensures Before(head, p, y) <==> Before(head, n, y)
    {
      assert y.entry != n.entry;
    }
  }

  lemma InsertElsewhere(head: Node, live: set<Node>, p: Node, i: nat, n: Node, x: Node, m: Node?)
    requires head !in live && n !in live && n != head && Distinct(live + {n})
    requires LastBefore(head, live, p, i, n.entry)
    requires x == head || (x in live && x.height > i)
    requires x != p && FirstAfter(head, live, x, i, m)
    ensures FirstAfter(head, live + {n}, x, i, m)
  {
    LessIsStrictTotalOrder();
    if Before(head, x, n) {
      assert Before(head, x, p);
      assert m == p || Before(head, m, p);
    }
  }

  lemma InsertBelow(head: Node, live: set<Node>, i: nat, n: Node, x: Node, m: Node?)
    requires n.height <= i && FirstAfter(head, live, x, i, m)
    ensures FirstAfter(head, live + {n}, x, i, m)
  {
  }

  lemma RemoveAfterPredecessor(head: Node, live: set<Node>, p: Node, i: nat, t: Node, m: Node?)
    requires head !in live && t in live && Distinct(live)
    requires p != t && FirstAfter(head, live, p, i, t) && FirstAfter(head, live, t, i, m)
    ensures FirstAfter(head, live - {t}, p, i, m)
  {
    LessIsStrictTotalOrder();
  }

  /** Only the node found by the search links to the target on a level. */
  lemma PredecessorUnique(head: Node, live: set<Node>, p: Node, i: nat, t: Node, x: Node)
    requires head !in live && t in live && t.height > i && Distinct(live)
    requires LastBefore(head, live, p, i, t.entry)
    requires x == head || (x in live && x.height > i)
    ensures FirstAfter(head, live, x, i, t) ==> x == p
  {
    LessIsStrictTotalOrder();
  }

  lemma PredecessorLinks(head: Node, live: set<Node>, p: Node, i: nat, t: Node, m: Node?)
    requires head !in live && t in live && t.height > i && Distinct(live)
    requires LastBefore(head, live, p, i, t.entry) && FirstAfter(head, live, p, i, m)
    ensures m == t
  {
    LessIsStrictTotalOrder();
    assert Before(head, p, t);
  }

  /** What the head's link says about the tallest node. */
  lemma HeadLink(head: Node, live: set<Node>, i: nat, m: Node?)
    requires head !in live && FirstAfter(head, live, head, i, m)
    ensures m == null ==> forall x :: x in live ==> x.height <= i
    ensures m != null ==> m in live && m.height > i
  {
    forall x | x in live && x.height > i ensures m != null {
      assert Before(head, head, x);
    }
  }

  // ----- Node heights -----

  /** One read of eight bytes from the system's random source. */
  datatype Draw = Bits(bits: nat) | Failed

  /** How many of the lowest `cap` base-4 digits of `bits`, from the right, are zero. */
  function ZeroPairs(bits: nat, cap: nat): nat {
    if cap == 0 || bits % 4 != 0 then 0 else 1 + ZeroPairs(bits / 4, cap - 1)
  }

  function Pow4(n: nat): nat {
    if n == 0 then 1 else 4 * Pow4(n - 1)
  }

  /** The height that a series of draws leads to from level `lvl` on: a word that is not zero
      settles it, a zero word raises it by one and calls for another, a failure ends it. */
  function HeightFrom(draws: seq<Draw>, lvl: nat): nat
    requires lvl <= MAX_LEVEL
    decreases |draws|
  {
    if lvl == MAX_LEVEL || draws == [] || draws[0].Failed? then lvl
    else if draws[0].bits == 0 then HeightFrom(draws[1..], lvl + 1)
    else lvl + ZeroPairs(draws[0].bits, MAX_LEVEL - lvl)
  }

  /** A zero pair shifted out of a word that stays non-zero raises the height by one. */
  lemma ShiftOut(bits: nat, rest: seq<Draw>, lvl: nat)
    requires lvl < MAX_LEVEL && bits % 4 == 0 && bits / 4 > 0
    ensures HeightFrom([Bits(bits)] + rest, lvl) == HeightFrom([Bits(bits / 4)] + rest, lvl + 1)
  {
    assert ZeroPairs(bits, MAX_LEVEL - lvl) == 1 + ZeroPairs(bits / 4, MAX_LEVEL - (lvl + 1));
  }

  /** A zero word raises the height by one and calls for the next draw. */
  lemma ZeroWord(rest: seq<Draw>, lvl: nat)
    requires lvl < MAX_LEVEL
    ensures HeightFrom([Bits(0)] + rest, lvl) == HeightFrom(rest, lvl + 1)
  {
    assert ([Bits(0)] + rest)[1..] == rest;
  }

  /** Where the walk ends: at the top, at a pair that is not zero, or at a failure. */
  lemma WalkEnds(draws: seq<Draw>, lvl: nat)
    requires lvl <= MAX_LEVEL
    requires lvl == MAX_LEVEL || draws == [] || draws[0].Failed? || draws[0].bits % 4 != 0
    ensures HeightFrom(draws, lvl) == lvl
  {
  }

  /** A height between 1 and 16, whatever the random source returns. */
  method RandomLevel(draws: seq<Draw>) returns (lvl: nat)
    ensures 1 <= lvl <= 16 && lvl == HeightFrom(draws, 1)
  {
    hide HeightFrom;
    lvl := 1;
    if draws == [] || draws[0].Failed? {
      WalkEnds(draws, lvl);
      return;
    }
    var bits, used := draws[0].bits, 1;
    assert draws == [Bits(bits)] + draws[used..];
    while lvl < MAX_LEVEL
      invariant 1 <= lvl <= MAX_LEVEL && 1 <= used <= |draws|
      invariant HeightFrom(draws, 1) == HeightFrom([Bits(bits)] + draws[used..], lvl)
    {
      ghost var rest := draws[used..];
      if bits % 4 != 0 {
        break;
      }
      if bits / 4 > 0 {
        ShiftOut(bits, rest, lvl);
      } else {
        ZeroWord(rest, lvl);
      }
      lvl := lvl + 1;
      bits := bits / 4;
      if bits == 0 {
        if used >= |draws| || draws[used].Failed? {
          WalkEnds(rest, lvl);
          return;
        }
        bits, used := draws[used].bits, used + 1;
        assert rest == [Bits(bits)] + draws[used..];
      }
    }
    WalkEnds([Bits(bits)] + draws[used..], lvl);
  }

  lemma ShiftedWord(w: nat, cap: nat)
    ensures ZeroPairs(4 * w, cap) == if cap == 0 then 0 else 1 + ZeroPairs(w, cap - 1)
  {
    assert (4 * w) % 4 == 0 && 4 * w / 4 == w;
  }

  lemma Pow4Step(k: nat, q: nat)
    requires k > 0
    ensures Pow4(k) * q == 4 * (Pow4(k - 1) * q)
  {
    assert 4 * Pow4(k - 1) * q == 4 * (Pow4(k - 1) * q);
  }

  lemma {:induction false} ZeroPairsOfWord(k: nat, q: nat, cap: nat)
    requires q % 4 != 0
    ensures Pow4(k) * q > 0
    ensures ZeroPairs(Pow4(k) * q, cap) == if k < cap then k else cap
    decreases k
  {
    if k == 0 {
    } else {
      hide Pow4, ZeroPairs;
      ZeroPairsOfWord(k - 1, q, if cap == 0 then 0 else cap - 1);
      Pow4Step(k, q);
      ShiftedWord(Pow4(k - 1) * q, cap);
    }
  }

  /** A word that ends in exactly `k` zero pairs of bits gives height k + 1, and 16 at most. */
  lemma HeightOfWord(k: nat, q: nat, rest: seq<Draw>)
    requires q % 4 != 0
    ensures HeightFrom([Bits(Pow4(k) * q)] + rest, 1) == if k < 15 then k + 1 else 16
  {
    hide ZeroPairs, Pow4;
    ZeroPairsOfWord(k, q, 15);
  }

  /** Every height is drawn by some random word, so the heights range over all of 1..16. */
  lemma EveryHeightIsDrawn(h: nat)
    requires 1 <= h <= 16
    ensures HeightFrom([Bits(Pow4(h - 1))], 1) == h
  {
    hide HeightFrom, Pow4;
    assert Pow4(h - 1) * 1 == Pow4(h - 1) && [Bits(Pow4(h - 1))] + [] == [Bits(Pow4(h - 1))];
    HeightOfWord(h - 1, 1, []);
  }

  // ----- The skip list -----

  type Index = map<UserID, Node>

  /** The index holds exactly the live nodes, each under its own user. */
  ghost predicate Indexes(m: Index, live: set<Node>) {
    && (forall u :: u in m ==> m[u] in live && m[u].entry.user == u)
    && forall x :: x in live ==> x.entry.user in m && m[x.entry.user] == x
  }

  ghost function ScoresOf(m: Index): Scores {
    map u | u in m :: m[u].entry.score
  }

  lemma IndexDelete(m: Index, live: set<Node>, u: UserID)
    requires Indexes(m, live) && u in m
    ensures Indexes(m - {u}, live - {m[u]})
    ensures ScoresOf(m - {u}) == ScoresOf(m) - {u}
  {
    assert forall v :: v in m && v != u ==> (m - {u})[v] == m[v];
  }

  lemma IndexPut(m: Index, live: set<Node>, u: UserID, n: Node)
    requires Indexes(m, live) && u !in m && n.entry.user == u
    ensures Indexes(m[u := n], live + {n}) && n !in live
    ensures Distinct(live + {n})
    ensures ScoresOf(m[u := n]) == ScoresOf(m)[u := n.entry.score]
  {
  }

  /** A walk along level 0 that has reached `last` has taken exactly the entries up to it. */
  ghost predicate TakenUpTo(head: Node, live: set<Node>, last: Node, out: seq<Entry>) {
    && Sorted(out)
    && (forall e :: e in out ==> exists x :: x in live && x.entry == e)
    && forall x :: x in live ==> (x.entry in out <==> !Before(head, last, x))
  }

  lemma TakeNext(head: Node, live: set<Node>, last: Node, out: seq<Entry>, m: Node)
    requires head !in live && Distinct(live) && (last == head || last in live)
    requires forall x :: x in live ==> x.height > 0
    requires TakenUpTo(head, live, last, out) && FirstAfter(head, live, last, 0, m)
    ensures TakenUpTo(head, live, m, out + [m.entry])
  {
    LessIsStrictTotalOrder();
    forall k | 0 <= k < |out| ensures Less(out[k], m.entry) {
      assert out[k] in out;
      var x :| x in live && x.entry == out[k];
      assert !Before(head, last, x);
    }
    var out' := out + [m.entry];
    forall x | x in live ensures x.entry in out' <==> !Before(head, m, x) {
      assert x.entry in out' <==> x.entry in out || x.entry == m.entry;
    }
  }

  lemma TakenIsTop(head: Node, m: Index, live: set<Node>, last: Node, out: seq<Entry>, next: Node?, n: int)
    requires Indexes(m, live) && head !in live && (last == head || last in live)
    requires forall x :: x in live ==> x.height > 0
    requires TakenUpTo(head, live, last, out) && FirstAfter(head, live, last, 0, next)
    requires 0 < n && |out| <= n && (next == null || |out| == n)
    ensures out == Top(ScoresOf(m), n)
  {
    LessIsStrictTotalOrder();
    forall e | Holds(ScoresOf(m), e) ensures m[e.user] in live && m[e.user].entry == e {
    }
    forall x, e | x in out && Holds(ScoresOf(m), e) && e !in out ensures Less(x, e) {
      var y :| y in live && y.entry == x;
      assert !Before(head, last, y);
      assert Before(head, last, m[e.user]);
    }
    PrefixOfListing(ScoresOf(m), out);
    if next == null {
      ListingUnique(ScoresOf(m), out, Listing(ScoresOf(m)));
    }
  }

  function Entries(ns: seq<Node>): seq<Entry> {
    seq(|ns|, k requires 0 <= k < |ns| => ns[k].entry)
  }

  class SkipList {
    const head: Node

    var lvl: nat
    var byUser: map<UserID, Node>
    /** The nodes in the list. */
    ghost var live: set<Node>

    /** Every link of every node, on every level the node occupies, is the right one. */
    ghost predicate LinkedOver(live: set<Node>)
      reads head, live
    {
      forall x :: x in live + {head} ==>
        |x.next| == MAX_LEVEL &&
        forall i :: 0 <= i < x.height && i < MAX_LEVEL ==> FirstAfter(head, live, x, i, x.next[i])
    }

    ghost predicate Valid()
      reads this, head, live
    {
      && head !in live && head.height == MAX_LEVEL
      && Indexes(byUser, live)
      && LinkedOver(live)
      && 1 <= lvl <= MAX_LEVEL
      && (forall x :: x in live ==> 1 <= x.height <= lvl)
      && (lvl == 1 || exists x :: x in live && x.height == lvl)
    }

    /** The abstract value: who has which score. */
    ghost function Contents(): Scores
      reads this
    {
      ScoresOf(byUser)
    }

    constructor ()
      ensures Valid() && fresh(head) && Contents() == map[] && live == {}
    {
      head := new Node(Entry("", 0), MAX_LEVEL);
      lvl := 1;
      byUser, live := map[], {};
    }

    /** The search shared by insertion and removal. */
    method FindPredecessors(e: Entry) returns (update: seq<Node?>)
      requires Valid()
      ensures |update| == MAX_LEVEL
      ensures forall i :: 0 <= i < lvl ==>
                update[i] != null && LastBefore(head, live, update[i], i, e)
    {
      update := seq(MAX_LEVEL, _ => null);
      var cur := head;
      var i := lvl;
      while i > 0
        invariant 0 <= i <= lvl && |update| == MAX_LEVEL
        invariant cur == head || (cur in live && cur.height >= i && Less(cur.entry, e))
        invariant forall j :: i <= j < lvl ==>
                    update[j] != null && LastBefore(head, live, update[j], j, e)
      {
        i := i - 1;
        while cur.next[i] != null && Less(cur.next[i].entry, e)
          invariant cur == head || (cur in live && cur.height > i && Less(cur.entry, e))
          decreases Ahead(head, live, cur)
        {
          var step := cur.next[i];
          assert FirstAfter(head, live, cur, i, step);
          AheadShrinks(head, live, cur, step);
          cur := step;
        }
        StopIsLastBefore(head, live, cur, i, e, cur.next[i]);
        update := update[i := cur];
      }
    }

    lemma InsertOnLevel(p: Node, i: nat, n: Node)
      requires head !in live && n !in live && n != head && Distinct(live + {n}) && n.height > i
      requires i < MAX_LEVEL == head.height
      requires forall x :: x in live + {head} ==> |x.next| == MAX_LEVEL
      requires forall x :: x in live + {head} && x.height > i ==> FirstAfter(head, live, x, i, x.next[i])
      requires LastBefore(head, live, p, i, n.entry)
      ensures p in live + {head} && p.height > i
      ensures FirstAfter(head, live + {n}, p, i, n)
      ensures FirstAfter(head, live + {n}, n, i, p.next[i])
      ensures forall x :: x in live + {head} && x.height > i && x != p ==>
                FirstAfter(head, live + {n}, x, i, x.next[i])
    {
      InsertAfterPredecessor(head, live, p, i, n, p.next[i]);
      forall x | x in live + {head} && x.height > i && x != p
        ensures FirstAfter(head, live + {n}, x, i, x.next[i])
      {
        InsertElsewhere(head, live, p, i, n, x, x.next[i]);
      }
    }

    /** Splices `n` in after its predecessor on each of its `h` levels. */
    method Link(n: Node, h: nat, update: seq<Node?>)
      requires head !in live && n !in live && n != head && Distinct(live + {n})
      requires head.height == MAX_LEVEL && n.height == h <= MAX_LEVEL && |n.next| == MAX_LEVEL
      requires LinkedOver(live) && |update| == MAX_LEVEL
      requires forall i :: 0 <= i < h ==>
                 update[i] != null && LastBefore(head, live, update[i], i, n.entry)
      modifies n`next, head`next, live`next
      ensures LinkedOver(live + {n})
    {
      hide FirstAfter, LastBefore;
      var i := 0;
      while i < h
        invariant 0 <= i <= h && |n.next| == MAX_LEVEL
        invariant forall x :: x in live + {head} ==> |x.next| == MAX_LEVEL
        invariant forall x, j :: x in live + {head} && i <= j < x.height && j < MAX_LEVEL ==>
                    FirstAfter(head, live, x, j, x.next[j])
        invariant forall x, j :: x in live + {head} && 0 <= j < i && j < x.height ==>
                    FirstAfter(head, live + {n}, x, j, x.next[j])
        invariant forall j :: 0 <= j < i ==> FirstAfter(head, live + {n}, n, j, n.next[j])
      {
        var p := update[i];
        InsertOnLevel(p, i, n);
        n.next := n.next[i := p.next[i]];
        p.next := p.next[i := n];
        i := i + 1;
      }
      forall x, j | x in live + {head} && h <= j < x.height && j < MAX_LEVEL
        ensures FirstAfter(head, live + {n}, x, j, x.next[j])
      {
        InsertBelow(head, live, j, n, x, x.next[j]);
      }
    }

    /** Takes `t` out of every level on which its predecessor links to it. */
    method Unlink(t: Node, update: seq<Node?>)
      requires head !in live && t in live && Distinct(live)
      requires head.height == MAX_LEVEL && lvl <= MAX_LEVEL
      requires forall x :: x in live ==> x.height <= lvl
      requires LinkedOver(live) && |update| == MAX_LEVEL
      requires forall i :: 0 <= i < lvl ==>
                 update[i] != null && LastBefore(head, live, update[i], i, t.entry)
      modifies head`next, live`next
      ensures LinkedOver(live - {t})
    {
      LessTotal(t.entry, t.entry);
      var i := 0;
      while i < lvl
        invariant 0 <= i <= lvl
        invariant forall x :: x in live + {head} ==> |x.next| == MAX_LEVEL
        invariant forall x, j :: x in live + {head} && i <= j < x.height && j < MAX_LEVEL ==>
                    FirstAfter(head, live, x, j, x.next[j])
        invariant forall x, j :: x in live - {t} + {head} && 0 <= j < i && j < x.height ==>
                    FirstAfter(head, live - {t}, x, j, x.next[j])
      {
        ghost var p := update[i];
        forall x | x in live - {t} + {head} && x.height > i
          ensures x != p ==> FirstAfter(head, live - {t}, x, i, x.next[i])
        {
          if t.height > i {
            PredecessorUnique(head, live, p, i, t, x);
          }
        }
        if update[i].next[i] == t {
          RemoveAfterPredecessor(head, live, p, i, t, t.next[i]);
          update[i].next := update[i].next[i := t.next[i]];
        } else if t.height > i {
          PredecessorLinks(head, live, p, i, t, p.next[i]);
          assert false;
        }
        i := i + 1;
      }
    }

    /** Above the current top level the predecessor is the head. */
    method Raise(update: seq<Node?>, h: nat, e: Entry) returns (update': seq<Node?>)
      requires Valid() && h <= MAX_LEVEL && |update| == MAX_LEVEL
      requires forall i :: 0 <= i < lvl ==>
                 update[i] != null && LastBefore(head, live, update[i], i, e)
      ensures |update'| == MAX_LEVEL
      ensures forall i :: 0 <= i < lvl || 0 <= i < h ==>
                update'[i] != null && LastBefore(head, live, update'[i], i, e)
    {
      update' := update;
      var i := lvl;
      while i < h
        invariant lvl <= i && (i <= h || i == lvl) && |update'| == MAX_LEVEL
        invariant forall j :: 0 <= j < i ==>
                    update'[j] != null && LastBefore(head, live, update'[j], j, e)
      {
        update' := update'[i := head];
        i := i + 1;
      }
    }

    /** Every node is linked and no level is missing: all but the index is in place. */
    ghost predicate LinkedUpTo(nodes: set<Node>)
      reads this, head, nodes
    {
      && head !in nodes && head.height == MAX_LEVEL && LinkedOver(nodes)
      && 1 <= lvl <= MAX_LEVEL
      && forall x :: x in nodes ==> 1 <= x.height <= lvl
    }

    method Register(n: Node)
      requires Indexes(byUser, live) && n.entry.user !in byUser && LinkedUpTo(live + {n})
      requires lvl == 1 || exists x :: x in live + {n} && x.height == lvl
      modifies `byUser, `live
      ensures Valid() && live == old(live) + {n}
      ensures Contents() == old(Contents())[n.entry.user := n.entry.score]
    {
      IndexPut(byUser, live, n.entry.user, n);
      byUser := byUser[n.entry.user := n];
      live := live + {n};
    }

    method Unregister(user: UserID)
      requires Indexes(byUser, live) && user in byUser && LinkedUpTo(live - {byUser[user]})
      modifies `byUser, `live
      ensures Indexes(byUser, live) && LinkedUpTo(live) && live == old(live) - {old(byUser)[user]}
      ensures byUser == old(byUser) - {user} && Contents() == old(Contents()) - {user}
    {
      IndexDelete(byUser, live, user);
      live := live - {byUser[user]};
      byUser := byUser - {user};
    }

    /** Drops the levels that no node reaches any more. */
    method Lower()
      requires Indexes(byUser, live) && LinkedUpTo(live)
      modifies `lvl
      ensures Valid()
    {
      while lvl > 1 && head.next[lvl - 1] == null
        invariant LinkedUpTo(live)
      {
        HeadLink(head, live, lvl - 1, null);
        lvl := lvl - 1;
      }
      if lvl > 1 {
        HeadLink(head, live, lvl - 1, head.next[lvl - 1]);
      }
    }

    /** `removeLocked`, whose callers pass an indexed user and that user's entry. The early
        return is unreachable: the search always ends in front of the user's own node. */
    method RemoveLocked(user: UserID, e: Entry)
      requires Valid() && user in byUser && e == byUser[user].entry
      modifies this, head, live
      ensures Valid() && live <= old(live)
      ensures Contents() == old(Contents()) - {user}
      ensures byUser == old(byUser) - {user}
    {
      var update := FindPredecessors(e);
      var target := update[0].next[0];
      PredecessorLinks(head, live, update[0], 0, byUser[user], target);
      if target == null || target.entry.user != user {
        assert false;
        return;
      }
      Unlink(target, update);
      Unregister(user);
      Lower();
    }

    /** Makes the new node, links it and enters it into the index. */
    method Attach(e: Entry, h: nat, update: seq<Node?>)
      requires Indexes(byUser, live) && LinkedUpTo(live) && e.user !in byUser && 1 <= h <= lvl
      requires lvl == 1 || lvl == h || exists x :: x in live && x.height == lvl
      requires |update| == MAX_LEVEL
      requires forall i :: 0 <= i < h ==>
                 update[i] != null && LastBefore(head, live, update[i], i, e)
      modifies this, head, live
      ensures Valid() && fresh(live - old(live))
      ensures Contents() == old(Contents())[e.user := e.score]
    {
      hide FirstAfter, LastBefore, Less;
      var n := new Node(e, h);
      IndexPut(byUser, live, e.user, n);
      Link(n, h, update);
      Register(n);
    }

    /** The part of `Update` after the user's old node, if any, is gone. */
    method Insert(user: UserID, score: int, draws: seq<Draw>)
      requires Valid() && user !in byUser
      modifies this, head, live
      ensures Valid() && fresh(live - old(live))
      ensures Contents() == old(Contents())[user := score]
    {
      hide HeightFrom, FirstAfter, LastBefore, Less;
      var e := Entry(user, score);
      var update := FindPredecessors(e);
      var h := RandomLevel(draws);
      update := Raise(update, h, e);
      if h > lvl {
        lvl := h;
      }
      Attach(e, h, update);
    }

    /** `Update`: insert the user, or move it to its new score. `draws` is the randomness spent
        on the height of the new node. */
    method Update(user: UserID, score: int, draws: seq<Draw>)
      requires Valid()
      modifies this, head, live
      ensures Valid() && fresh(live - old(live))
      ensures Contents() == old(Contents())[user := score]
    {
      if user in byUser {
        RemoveLocked(user, byUser[user].entry);
      }
      assert Contents()[user := score] == old(Contents())[user := score];
      Insert(user, score, draws);
    }

    method Remove(user: UserID)
      requires Valid()
      modifies this, head, live
      ensures Valid() && live <= old(live)
      ensures Contents() == old(Contents()) - {user}
    {
      if user in byUser {
        RemoveLocked(user, byUser[user].entry);
      }
    }

    method Get(user: UserID) returns (e: Entry, found: bool)
      requires Valid()
      ensures found <==> user in Contents()
      ensures found ==> e == Entry(user, Contents()[user])
      ensures !found ==> e == Entry("", 0)
    {
      if user in byUser {
        return byUser[user].entry, true;
      }
      return Entry("", 0), false;
    }

    /** Walks level 0 from the head, taking entries until there are `n` of them. */
    method TopN(n: int) returns (out: seq<Entry>)
      requires Valid()
      ensures out == Top(Contents(), n)
      ensures |out| == if n <= 0 then 0 else if n < |Contents()| then n else |Contents()|
      ensures forall e :: e in out ==> e.user in Contents() && Contents()[e.user] == e.score
      ensures forall i, j :: 0 <= i < j < |out| ==>
                out[i].score > out[j].score
                || (out[i].score == out[j].score && TextBefore(out[i].user, out[j].user))
      ensures forall e, u :: e in out && u in Contents() && Entry(u, Contents()[u]) !in out ==>
                e.score > Contents()[u] || (e.score == Contents()[u] && TextBefore(e.user, u))
    {
      hide TextBefore, Top;
      TopLength(Contents(), n);
      TopRanks(Contents(), n);
      if n <= 0 {
        return [];
      }
      out := [];
      var cur := head.next[0];
      ghost var last := head;
      assert FirstAfter(head, live, last, 0, cur);
      while cur != null && |out| < n
        invariant |out| <= n && last in live + {head}
        invariant FirstAfter(head, live, last, 0, cur) && TakenUpTo(head, live, last, out)
        decreases n - |out|
      {
        TakeNext(head, live, last, out, cur);
        out := out + [cur.entry];
        last := cur;
        cur := cur.next[0];
      }
      TakenIsTop(head, byUser, live, last, out, cur, n);
    }

    /** The nodes reached by following level `i` from `x`. */
    ghost function Walk(x: Node, i: nat): seq<Node>
      requires Valid() && x in live + {head} && i < x.height && i < MAX_LEVEL
      reads this, head, live
      decreases Ahead(head, live, x)
    {
      var m := x.next[i];
      assert FirstAfter(head, live, x, i, m);
      if m == null then [] else
        AheadShrinks(head, live, x, m);
        [m] + Walk(m, i)
    }

    /** Level `i` as scores: the live users whose node is taller than `i`. */
    ghost function Tall(i: nat): Scores
      reads this
    {
      map u | u in byUser && byUser[u].height > i :: byUser[u].entry.score
    }

    lemma {:induction false} WalkVisits(x: Node, i: nat)
      requires Valid() && x in live + {head} && i < x.height && i < MAX_LEVEL
      ensures forall y :: y in Walk(x, i) <==> y in live && y.height > i && Before(head, x, y)
      ensures Sorted(Entries(Walk(x, i)))
      decreases Ahead(head, live, x)
    {
      hide FirstAfter, Less;
      var m := x.next[i];
      assert FirstAfter(head, live, x, i, m);
      AfterSplits(head, live, x, i, m);
      if m == null {
      } else {
        AheadShrinks(head, live, x, m);
        WalkVisits(m, i);
        var rest := Entries(Walk(m, i));
        assert Entries(Walk(x, i)) == [m.entry] + rest;
        forall k | 0 <= k < |rest| ensures Less(m.entry, rest[k]) {
          assert Walk(m, i)[k] in Walk(m, i);
        }
      }
    }

    /** Following level `i` from the head meets exactly the live nodes taller than `i`, in the
        order of the listing; level 0 is the listing itself. */
    lemma LevelIsListing(i: nat)
      requires Valid() && i < MAX_LEVEL
      ensures forall y :: y in Walk(head, i) <==> y in live && y.height > i
      ensures Entries(Walk(head, i)) == Listing(Tall(i))
      ensures Tall(0) == Contents()
    {
      WalkVisits(head, i);
      var w := Walk(head, i);
      forall e ensures e in Entries(w) <==> Holds(Tall(i), e) {
        if e in Entries(w) {
          var k :| 0 <= k < |w| && Entries(w)[k] == e;
          assert w[k] in w;
        }
        if Holds(Tall(i), e) {
          assert byUser[e.user] in w;
          var k :| 0 <= k < |w| && w[k] == byUser[e.user];
          assert Entries(w)[k] == e;
        }
      }
      ListingUnique(Tall(i), Entries(w), Listing(Tall(i)));
    }
  }

  // ----- Whole histories -----

  /** Runs any history of updates and removals, with any randomness, on a fresh skip list. */
  method Replay(ops: seq<Op>, draws: seq<seq<Draw>>) returns (s: SkipList)
    requires |draws| == |ops|
    ensures fresh(s) && fresh(s.head) && fresh(s.live)
    ensures s.Valid() && s.Contents() == ApplyAll(map[], ops)
  {
    s := new SkipList();
    var k := 0;
    while k < |ops|
      invariant 0 <= k <= |ops|
      invariant fresh(s) && fresh(s.head) && fresh(s.live) && s.Valid()
      invariant ApplyAll(s.Contents(), ops[k..]) == ApplyAll(map[], ops)
    {
      assert ops[k..][1..] == ops[k + 1..];
      match ops[k] {
        case Update(u, x) => s.Update(u, x, draws[k]);
        case Remove(u) => s.Remove(u);
      }
      k := k + 1;
    }
  }

  /** Two histories that end in the same scores show the same top entries, for every `n`,
      whatever the heights were. */
  method HistoryIndependence(ops: seq<Op>, draws: seq<seq<Draw>>,
                             ops': seq<Op>, draws': seq<seq<Draw>>, n: int)
    returns (top: seq<Entry>, top': seq<Entry>)
    requires |draws| == |ops| && |draws'| == |ops'|
    ensures top == Top(ApplyAll(map[], ops), n)
    ensures ApplyAll(map[], ops) == ApplyAll(map[], ops') ==> top == top'
  {
    var s := Replay(ops, draws);
    var s' := Replay(ops', draws');
    top := s.TopN(n);
    top' := s'.TopN(n);
  }
}
