/** The per-client token bucket of the HTTP API. Tokens and minutes are exact reals; the clock
    reading, taken before the lock, is a parameter, so successive readings need not be ordered. */
module RateLimits {
  type Key = string

  datatype Config = Config(rpm: real, burst: real)

  datatype Bucket = Bucket(tokens: real, last: real)

  datatype Request = Request(key: Key, now: real)

  // ----- One key: the clock readings of its requests -----

  /** What `rpm` pays out between two readings. */
  function Credit(c: Config, from: real, to: real): real {
    (to - from) * c.rpm
  }

  lemma CreditAdds(c: Config, x: real, y: real, z: real)
    ensures Credit(c, x, z) == Credit(c, x, y) + Credit(c, y, z)
    ensures Credit(c, x, x) == 0.0
    ensures x <= y && 0.0 <= c.rpm ==> 0.0 <= Credit(c, x, y)
  {
    assert z - x == (y - x) + (z - y);
  }

  /** The product that the limiter computes. */
  lemma EarnedIsCredit(c: Config, from: real, to: real, elapsed: real)
    requires elapsed == to - from
    ensures elapsed * c.rpm == Credit(c, from, to)
  {
  }

  /** Tokens in the bucket when request `j` asks for one. */
  function Available(c: Config, ts: seq<real>, j: nat): real
    requires j < |ts|
    decreases j, 0
  {
    if j == 0 then c.burst
    else
      var refilled := TokensAfter(c, ts, j - 1) + Credit(c, ts[j - 1], ts[j]);
      if refilled > c.burst then c.burst else refilled
  }

  /** The decision on request `j`: a key's first request always passes. */
  predicate Admits(c: Config, ts: seq<real>, j: nat)
    requires j < |ts|
    decreases j, 1
  {
    j == 0 || Available(c, ts, j) >= 1.0
  }

  function TokensAfter(c: Config, ts: seq<real>, j: nat): real
    requires j < |ts|
    decreases j, 2
  {
    Available(c, ts, j) - if Admits(c, ts, j) then 1.0 else 0.0
  }

  /** How many of the requests `i..j-1` were admitted. */
  function Admissions(c: Config, ts: seq<real>, i: nat, j: nat): nat
    requires i <= j <= |ts|
  {
    if i == j then 0 else Admissions(c, ts, i, j - 1) + if Admits(c, ts, j - 1) then 1 else 0
  }

  /** The allowance of request `j`, seen from request `i`: after the admissions since `i`, one
      more still fits into a full bucket plus what was paid out since `i`. */
  predicate Fits(c: Config, ts: seq<real>, i: nat, j: nat)
    requires i <= j < |ts|
  {
    Admissions(c, ts, i, j) as real + 1.0 <= c.burst + (ts[j] - ts[i]) * c.rpm
  }

  lemma FitsByCredit(c: Config, ts: seq<real>, i: nat, j: nat)
    requires i <= j < |ts|
    ensures Fits(c, ts, i, j) <==> Admissions(c, ts, i, j) as real + 1.0 <= c.burst + Credit(c, ts[i], ts[j])
  {
  }

  /** The bucket holds the smallest of the allowances, seen from some request `k`. */
  lemma {:induction false} AvailableIsLeastAllowance(c: Config, ts: seq<real>, j: nat) returns (k: nat)
    requires j < |ts|
    ensures k <= j
    ensures Available(c, ts, j) ==
            c.burst + Credit(c, ts[k], ts[j]) - Admissions(c, ts, k, j) as real
    ensures forall i :: 0 <= i <= j ==>
              Available(c, ts, j) <=
              c.burst + Credit(c, ts[i], ts[j]) - Admissions(c, ts, i, j) as real
  {
    CreditAdds(c, ts[j], ts[j], ts[j]);
    k := j;
    if j == 0 {
    } else {
      var k' := AvailableIsLeastAllowance(c, ts, j - 1);
      if Available(c, ts, j) != c.burst {
        k := k';
        CreditAdds(c, ts[k], ts[j - 1], ts[j]);
      }
      forall i | 0 <= i <= j
        ensures Available(c, ts, j) <=
                c.burst + Credit(c, ts[i], ts[j]) - Admissions(c, ts, i, j) as real
      {
        if i < j {
          CreditAdds(c, ts[i], ts[j - 1], ts[j]);
        }
      }
    }
  }

  lemma FirstAvailable(c: Config, ts: seq<real>)
    ensures ts != [] ==> Available(c, ts, 0) == c.burst
  {
  }

  /** The exact token-bucket law, for any rate and any clock readings: a request is admitted if
      and only if it fits as seen from every earlier request. The one exception is a bucket
      smaller than one token, whose first request the code still lets through. */
  lemma ExactAdmission(c: Config, ts: seq<real>, j: nat)
    requires j < |ts|
    ensures (Admits(c, ts, j) <==> forall i :: 0 <= i <= j ==> Fits(c, ts, i, j))
            <==> (j > 0 || c.burst >= 1.0)
  {
    hide Credit, Fits, Admissions, Available;
    var k := AvailableIsLeastAllowance(c, ts, j);
    assert j == 0 ==> Available(c, ts, j) == c.burst by {
      FirstAvailable(c, ts);
    }
    if Available(c, ts, j) >= 1.0 {
      forall i | 0 <= i <= j ensures Fits(c, ts, i, j) {
        FitsByCredit(c, ts, i, j);
      }
    } else {
      FitsByCredit(c, ts, k, j);
      assert !Fits(c, ts, k, j);
    }
  }

  /** The stretch of requests `i .. j` stays within burst plus payout. */
  predicate Within(c: Config, ts: seq<real>, i: nat, j: nat)
    requires i <= j < |ts|
  {
    Admissions(c, ts, i, j + 1) as real <= c.burst + (ts[j] - ts[i]) * c.rpm
  }

  lemma WithinByCredit(c: Config, ts: seq<real>, i: nat, j: nat)
    requires i <= j < |ts|
    ensures Within(c, ts, i, j) <==>
            Admissions(c, ts, i, j) as real + (if Admits(c, ts, j) then 1.0 else 0.0)
            <= c.burst + Credit(c, ts[i], ts[j])
  {
    hide Admits;
  }

  /** The exact window law, for any rate, burst and clock readings: every stretch that ends in
      request `j` stays within burst plus payout if and only if that request does not leave the
      bucket overdrawn. */
  lemma StretchesWithinBound(c: Config, ts: seq<real>, j: nat)
    requires j < |ts|
    ensures (forall i :: 0 <= i <= j ==> Within(c, ts, i, j)) <==> TokensAfter(c, ts, j) >= 0.0
  {
    hide Credit, Within, Admissions, Admits, Available;
    var k := AvailableIsLeastAllowance(c, ts, j);
    WithinByCredit(c, ts, k, j);
    assert Within(c, ts, k, j) ==> TokensAfter(c, ts, j) >= 0.0;
    if TokensAfter(c, ts, j) >= 0.0 {
      forall i | 0 <= i <= j ensures Within(c, ts, i, j) {
        WithinByCredit(c, ts, i, j);
      }
    }
  }

  /** For a burst of at least one the same is known before the decision: the bucket, refilled from
      what it held and the new reading, is not below zero. */
  lemma StretchesWithinBoundBefore(c: Config, ts: seq<real>, j: nat)
    requires j < |ts| && c.burst >= 1.0
    ensures (forall i :: 0 <= i <= j ==> Within(c, ts, i, j)) <==> Available(c, ts, j) >= 0.0
  {
    StretchesWithinBound(c, ts, j);
  }

  /** An admitted request never overdraws the bucket, so a stretch that ends in one is within the
      bound even if clock readings are out of order. */
  lemma WindowBound(c: Config, ts: seq<real>, i: nat, j: nat)
    requires i <= j < |ts| && c.burst >= 1.0 && Admits(c, ts, j)
    ensures Within(c, ts, i, j)
  {
    StretchesWithinBound(c, ts, j);
  }

  predicate Ordered(ts: seq<real>) {
    forall i, j :: 0 <= i <= j < |ts| ==> ts[i] <= ts[j]
  }

  lemma {:induction false} TokensStayInRange(c: Config, ts: seq<real>, j: nat)
    requires j < |ts| && c.burst >= 1.0 && c.rpm >= 0.0 && Ordered(ts)
    ensures 0.0 <= TokensAfter(c, ts, j) <= c.burst
  {
    if j == 0 {
    } else {
      TokensStayInRange(c, ts, j - 1);
      CreditAdds(c, ts[j - 1], ts[j], ts[j]);
    }
  }

  /** With ordered readings every stretch is within the bound. */
  lemma OrderedWindowBound(c: Config, ts: seq<real>, i: nat, j: nat)
    requires i <= j < |ts| && c.burst >= 1.0 && c.rpm >= 0.0 && Ordered(ts)
    ensures Within(c, ts, i, j)
  {
    TokensStayInRange(c, ts, j);
    StretchesWithinBound(c, ts, j);
  }

  /** Without order the bound can fail, for every rate and burst: of two requests the second
      exceeds it exactly when its reading is stale enough, and then it is refused and overdraws
      the bucket. */
  lemma UnorderedStretchExceedsBound(c: Config, t: real, stale: real)
    requires c.burst >= 1.0
    ensures var ts := [t, stale];
            && (!Within(c, ts, 0, 1) <==> (stale - t) * c.rpm < 1.0 - c.burst)
            && (!Within(c, ts, 0, 1) ==> !Admits(c, ts, 1) && TokensAfter(c, ts, 1) < 0.0)
  {
    hide Credit;
    var ts := [t, stale];
    EarnedIsCredit(c, t, stale, stale - t);
    assert TokensAfter(c, ts, 0) == c.burst - 1.0;
    assert Admissions(c, ts, 0, 1) == Admissions(c, ts, 0, 0) + 1 == 1;
    assert Admissions(c, ts, 0, 2) == Admissions(c, ts, 0, 1) + if Admits(c, ts, 1) then 1 else 0;
  }

  lemma GapPaysOneToken(c: Config, x: real, y: real)
    requires c.rpm > 0.0 && y - x >= 1.0 / c.rpm
    ensures Credit(c, x, y) >= 1.0
  {
    assert (y - x) * c.rpm >= (1.0 / c.rpm) * c.rpm == 1.0;
  }

  /** A client whose requests are at least 1/rpm minutes apart is never refused. */
  lemma {:induction false} PacedClientNeverRefused(c: Config, ts: seq<real>, j: nat)
    requires j < |ts| && c.burst >= 1.0 && c.rpm > 0.0
    requires forall i :: 0 < i <= j ==> ts[i] - ts[i - 1] >= 1.0 / c.rpm
    ensures Admits(c, ts, j) && TokensAfter(c, ts, j) >= 0.0
  {
    if j == 0 {
    } else {
      PacedClientNeverRefused(c, ts, j - 1);
      GapPaysOneToken(c, ts[j - 1], ts[j]);
    }
  }

  /** Decisions on a prefix stay when requests follow. */
  lemma {:induction false} AdmitsOfPrefix(c: Config, ts: seq<real>, more: seq<real>, j: nat)
    requires j < |ts| && ts <= more
    ensures Available(c, more, j) == Available(c, ts, j)
    ensures Admits(c, more, j) == Admits(c, ts, j) && TokensAfter(c, more, j) == TokensAfter(c, ts, j)
  {
    if j == 0 {
    } else {
      AdmitsOfPrefix(c, ts, more, j - 1);
    }
  }

  // ----- All keys: the limiter -----

  /** The readings of one key's requests, in order. */
  function Times(rs: seq<Request>, key: Key): seq<real> {
    if rs == [] then []
    else
      var r, before := rs[|rs| - 1], Times(rs[..|rs| - 1], key);
      if r.key == key then before + [r.now] else before
  }

  lemma TimesAppend(rs: seq<Request>, r: Request, key: Key)
    ensures Times(rs + [r], key) == if r.key == key then Times(rs, key) + [r.now] else Times(rs, key)
  {
    assert (rs + [r])[..|rs|] == rs;
  }

  /** What the map stores for a key is what the key's own requests alone would have left. */
  ghost predicate Stores(c: Config, m: map<Key, Bucket>, key: Key, ts: seq<real>) {
    && (key in m <==> ts != [])
    && (ts != [] ==> m[key] == Bucket(TokensAfter(c, ts, |ts| - 1), ts[|ts| - 1]))
  }

  /** What one more request finds in the bucket its predecessors left, and what it leaves. */
  lemma NextRequest(c: Config, ts: seq<real>, now: real)
    requires ts != []
    ensures var b, n := Bucket(TokensAfter(c, ts, |ts| - 1), ts[|ts| - 1]), |ts|;
            var refilled := b.tokens + Credit(c, b.last, now);
            var tokens := if refilled > c.burst then c.burst else refilled;
            && Admits(c, ts + [now], n) == (tokens >= 1.0)
            && TokensAfter(c, ts + [now], n) == if tokens >= 1.0 then tokens - 1.0 else tokens
  {
    hide Credit;
    var more, n := ts + [now], |ts|;
    AdmitsOfPrefix(c, ts, more, n - 1);
    assert more[n - 1] == ts[n - 1] && more[n] == now;
  }

  lemma FirstRequest(c: Config, now: real)
    ensures Admits(c, [now], 0) && TokensAfter(c, [now], 0) == c.burst - 1.0
  {
  }

  class RateLimiter {
    const rpm: real

    const burst: real

    var buckets: map<Key, Bucket>
    ghost var history: seq<Request>

    ghost function Conf(): Config {
      Config(rpm, burst)
    }

    ghost predicate Valid()
      reads this
    {
      forall k :: Stores(Conf(), buckets, k, Times(history, k))
    }

    constructor (rpm: int, burst: int)
      ensures Valid() && history == [] && Conf() == Config(rpm as real, burst as real)
    {
      this.rpm := rpm as real;
      this.burst := burst as real;
      buckets := map[];
      history := [];
    }

    /** Key isolation: the decision is the one of the run projected to this key. */
    method Allow(key: Key, now: real) returns (ok: bool)
      requires Valid()
      modifies this
      ensures Valid() && history == old(history) + [Request(key, now)]
      ensures Times(history, key) == old(Times(history, key)) + [now]
      ensures ok == Admits(Conf(), Times(history, key), |Times(history, key)| - 1)
      ensures if key !in old(buckets) then ok && buckets == old(buckets)[key := Bucket(burst - 1.0, now)]
              else
                var refilled := old(buckets)[key].tokens + (now - old(buckets)[key].last) * rpm;
                var tokens := if refilled > burst then burst else refilled;
                && ok == (tokens >= 1.0)
                && buckets == old(buckets)[key := Bucket(if ok then tokens - 1.0 else tokens, now)]
    {
      hide Times, Admits, TokensAfter, Credit;
      ghost var ts := Times(history, key);
      assert Stores(Conf(), buckets, key, ts);
      history := history + [Request(key, now)];
      forall k ensures Times(history, k) == if k == key then ts + [now] else old(Times(history, k)) {
        TimesAppend(old(history), Request(key, now), k);
      }
      if ts == [] {
        FirstRequest(Conf(), now);
        assert ts + [now] == [now];
      } else {
        NextRequest(Conf(), ts, now);
      }
      if key !in buckets {
        buckets := buckets[key := Bucket(burst - 1.0, now)];
        ok := true;
      } else {
        var b := buckets[key];
        var elapsed := now - b.last;
        var earned := elapsed * rpm;
        EarnedIsCredit(Conf(), b.last, now, elapsed);
        assert earned == (now - old(buckets)[key].last) * rpm;
        b := b.(tokens := b.tokens + earned);
        if b.tokens > burst {
          b := b.(tokens := burst);
        }
        if b.tokens < 1.0 {
          b := b.(last := now);
          ok := false;
        } else {
          b := Bucket(b.tokens - 1.0, now);
          ok := true;
        }
        buckets := buckets[key := b];
      }
      assert Stores(Conf(), buckets, key, ts + [now]);
      forall k ensures Stores(Conf(), buckets, k, Times(history, k)) {
        assert old(Stores(Conf(), buckets, k, Times(history, k)));
      }
    }
  }

  /** `ok` is the decision on request `i` of an interleaved run when only the requests of the
      same key are looked at. */
  ghost predicate Decided(c: Config, rs: seq<Request>, i: nat, ok: bool)
    requires i < |rs|
  {
    var ts := Times(rs[..i + 1], rs[i].key);
    ts != [] && ok == Admits(c, ts, |ts| - 1)
  }

  /** How many requests of `key` among `rs[i..j]` were granted. */
  function Granted(rs: seq<Request>, ds: seq<bool>, key: Key, i: nat, j: nat): nat
    requires i <= j <= |rs| == |ds|
  {
    if i == j then 0
    else Granted(rs, ds, key, i, j - 1) + if rs[j - 1].key == key && ds[j - 1] then 1 else 0
  }

  /** Where a position of an interleaved run falls among the requests of one key. */
  function Rank(rs: seq<Request>, key: Key, i: nat): nat
    requires i <= |rs|
  {
    |Times(rs[..i], key)|
  }

  lemma {:induction false} TimesOfPrefix(rs: seq<Request>, key: Key, i: nat)
    requires i <= |rs|
    ensures Times(rs[..i], key) <= Times(rs, key)
  {
    if i == |rs| {
      assert rs[..i] == rs;
    } else {
      var n := |rs| - 1;
      TimesOfPrefix(rs[..n], key, i);
      assert rs[..n][..i] == rs[..i];
    }
  }

  lemma TimesStep(rs: seq<Request>, key: Key, i: nat)
    requires i < |rs|
    ensures Times(rs[..i + 1], key) ==
            if rs[i].key == key then Times(rs[..i], key) + [rs[i].now] else Times(rs[..i], key)
  {
    assert rs[..i + 1] == rs[..i] + [rs[i]];
    TimesAppend(rs[..i], rs[i], key);
  }

  lemma RankMonotone(rs: seq<Request>, key: Key, i: nat, j: nat)
    requires i <= j <= |rs|
    ensures Rank(rs, key, i) <= Rank(rs, key, j) <= |Times(rs, key)|
  {
    TimesOfPrefix(rs, key, j);
    TimesOfPrefix(rs[..j], key, i);
    assert rs[..j][..i] == rs[..i];
  }

  /** What the limiter granted a key in any stretch of an interleaved run is what the one-key
      theorems count. */
  lemma {:induction false} GrantedAreAdmissions(c: Config, rs: seq<Request>, ds: seq<bool>, key: Key, i: nat, j: nat)
    requires i <= j <= |rs| == |ds|
    requires forall k :: 0 <= k < |rs| ==> Decided(c, rs, k, ds[k])
    ensures Rank(rs, key, i) <= Rank(rs, key, j) <= |Times(rs, key)|
    ensures Granted(rs, ds, key, i, j) == Admissions(c, Times(rs, key), Rank(rs, key, i), Rank(rs, key, j))
    decreases j
  {
    hide Times, Admits, Available, TokensAfter;
    RankMonotone(rs, key, i, j);
    if i == j {
    } else {
      GrantedAreAdmissions(c, rs, ds, key, i, j - 1);
      TimesStep(rs, key, j - 1);
      if rs[j - 1].key == key {
        var ts := Times(rs[..j], key);
        TimesOfPrefix(rs, key, j);
        AdmitsOfPrefix(c, ts, Times(rs, key), |ts| - 1);
        assert Decided(c, rs, j - 1, ds[j - 1]);
      }
    }
  }

  /** The window bound at the limiter: with ordered readings a key is never granted more, in any
      stretch of any interleaved run, than burst plus payout between its first and last request
      there. */
  lemma GrantsWithinBound(c: Config, rs: seq<Request>, ds: seq<bool>, key: Key, i: nat, j: nat)
    requires i <= j <= |rs| == |ds| && c.burst >= 1.0 && c.rpm >= 0.0
    requires forall k :: 0 <= k < |rs| ==> Decided(c, rs, k, ds[k])
    requires Ordered(Times(rs, key))
    ensures var ts, a, b := Times(rs, key), Rank(rs, key, i), Rank(rs, key, j);
            && a <= b <= |ts|
            && if a == b then Granted(rs, ds, key, i, j) == 0
               else Granted(rs, ds, key, i, j) as real <= c.burst + (ts[b - 1] - ts[a]) * c.rpm
  {
    hide Times, Admits, Decided, Ordered, Granted;
    GrantedAreAdmissions(c, rs, ds, key, i, j);
    var ts, a, b := Times(rs, key), Rank(rs, key, i), Rank(rs, key, j);
    if a < b {
      OrderedWindowBound(c, ts, a, b - 1);
    }
  }

  /** A key whose requests are at least 1/rpm minutes apart is granted every one of them, whatever
      other keys do in between. */
  lemma PacedKeyAlwaysGranted(c: Config, rs: seq<Request>, ds: seq<bool>, k: nat)
    requires k < |rs| == |ds| && Decided(c, rs, k, ds[k]) && c.burst >= 1.0 && c.rpm > 0.0
    requires var ts := Times(rs, rs[k].key);
             forall i :: 0 < i < |ts| ==> ts[i] - ts[i - 1] >= 1.0 / c.rpm
    ensures ds[k]
  {
    hide Times, Admits;
    var ts := Times(rs[..k + 1], rs[k].key);
    TimesOfPrefix(rs, rs[k].key, k + 1);
    PacedClientNeverRefused(c, ts, |ts| - 1);
  }

  /** Any interleaved run: each decision is the one its key's own requests determine, and what a
      key is granted in any stretch is its admissions there. */
  method Serve(rpm: int, burst: int, rs: seq<Request>) returns (decisions: seq<bool>)
    ensures |decisions| == |rs|
    ensures forall i :: 0 <= i < |rs| ==>
              Decided(Config(rpm as real, burst as real), rs, i, decisions[i])
    ensures forall key, i, j :: 0 <= i <= j <= |rs| ==>
              && Rank(rs, key, i) <= Rank(rs, key, j) <= |Times(rs, key)|
              && Granted(rs, decisions, key, i, j) ==
                 Admissions(Config(rpm as real, burst as real), Times(rs, key),
                            Rank(rs, key, i), Rank(rs, key, j))
  {
    var l := new RateLimiter(rpm, burst);
    decisions := [];
    for n := 0 to |rs|
      invariant fresh(l) && l.Valid() && l.history == rs[..n] && |decisions| == n
      invariant l.Conf() == Config(rpm as real, burst as real)
      invariant forall i :: 0 <= i < n ==> Decided(l.Conf(), rs, i, decisions[i])
    {
      var ok := l.Allow(rs[n].key, rs[n].now);
      assert rs[..n + 1] == rs[..n] + [rs[n]];
      decisions := decisions + [ok];
    }
    forall key, i, j | 0 <= i <= j <= |rs|
      ensures && Rank(rs, key, i) <= Rank(rs, key, j) <= |Times(rs, key)|
              && Granted(rs, decisions, key, i, j) ==
                 Admissions(l.Conf(), Times(rs, key), Rank(rs, key, i), Rank(rs, key, j))
    {
      GrantedAreAdmissions(l.Conf(), rs, decisions, key, i, j);
    }
  }
}
