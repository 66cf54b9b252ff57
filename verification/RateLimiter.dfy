/** The fixed-window rate limiter: one bucket a key, kept in insertion order, and a clean-up that
    drops expired buckets, oldest first, once there are too many. */
module RateLimiter {
  import opened Wrappers

  datatype Entry = Entry(count: nat, resetAt: int)

  type Buckets = map<string, Entry>

  /** A limit or window that is missing or not finite is `None`. */
  datatype Options = Options(max: Option<real>, windowMs: Option<real>)

  datatype Reply = Reply(allowed: bool, limit: int, remaining: int, resetAt: int)

  const DEFAULT_MAX := 30
  const DEFAULT_WINDOW_MS := 60000
  const MAX_BUCKETS := 10000

  function Max(a: int, b: int): int {
    if a < b then b else a
  }

  /** The limit rounded down, at least 1; 30 if there is none. */
  function MaxOf(options: Options): (r: int)
    ensures r >= 1
    ensures options.max.None? ==> r == 30
    ensures options.max.Some? && options.max.value >= 1.0 ==> (r as real) <= options.max.value < (r as real) + 1.0
    ensures options.max.Some? && options.max.value < 1.0 ==> r == 1
  {
    if options.max.Some? then Max(1, options.max.value.Floor) else DEFAULT_MAX
  }

  /** The window rounded down, at least a second; a minute if there is none. */
  function WindowOf(options: Options): (r: int)
    ensures r >= 1000
    ensures options.windowMs.None? ==> r == 60000
    ensures options.windowMs.Some? && options.windowMs.value >= 1000.0 ==> (r as real) <= options.windowMs.value < (r as real) + 1.0
    ensures options.windowMs.Some? && options.windowMs.value < 1000.0 ==> r == 1000
  {
    if options.windowMs.Some? then Max(1000, options.windowMs.value.Floor) else DEFAULT_WINDOW_MS
  }

  predicate Live(b: Buckets, key: string, now: int) {
    key in b && b[key].resetAt > now
  }

  /** One more request counted: in the running window, or in a new one. */
  function Charged(b: Buckets, key: string, windowMs: int, now: int): Buckets {
    b[key := if Live(b, key, now) then b[key].(count := b[key].count + 1) else Entry(1, now + windowMs)]
  }

  /** What the caller is told once its request is counted in `e`. */
  function ReplyOf(e: Entry, max: int): Reply {
    Reply(e.count <= max, max, Max(0, max - e.count), e.resetAt)
  }

  /** `after` lacks nothing of `before` but expired buckets. */
  ghost predicate Evicts(before: Buckets, after: Buckets, now: int) {
    && (forall k :: k in after ==> k in before && after[k] == before[k])
    && (forall k :: k in before && k !in after ==> before[k].resetAt <= now)
  }

  /** As many expired buckets are gone as it takes to have 10,000 left, the oldest of them. */
  ghost predicate CleanedUp(before: Buckets, order: seq<string>, after: Buckets, now: int) {
    && Evicts(before, after, now)
    && (|after| > 10_000 ==> forall k :: k in after ==> after[k].resetAt > now)
    && (|after| < |before| ==> |after| >= 10_000)
    && (forall i, j :: 0 <= i < j < |order| && order[j] in before && order[j] !in after && order[i] in before && before[order[i]].resetAt <= now ==>
          order[i] !in after)
  }

  /** `order` lists every key of `b` once. */
  ghost predicate Lists(order: seq<string>, b: Buckets) {
    && (forall i, j :: 0 <= i < j < |order| ==> order[i] != order[j])
    && (forall k :: k in order <==> k in b)
  }

  /** The keys of `order` that `b` has, in the same order. */
  function Kept(order: seq<string>, b: Buckets): seq<string> {
    if |order| == 0 then []
    else (if order[0] in b then [order[0]] else []) + Kept(order[1..], b)
  }

  function Dropped(order: seq<string>, key: string): seq<string> {
    if |order| == 0 then []
    else if order[0] == key then order[1..]
    else [order[0]] + Dropped(order[1..], key)
  }

  /** Setting a key that is there keeps its place. */
  function Touched(order: seq<string>, key: string): seq<string> {
    if key in order then order else order + [key]
  }

  /** `b` without the expired buckets among `keys`. */
  ghost function Swept(b: Buckets, keys: seq<string>, now: int): Buckets {
    map k | k in b && !(k in keys && b[k].resetAt <= now) :: b[k]
  }

  lemma {:induction false} KeptAll(order: seq<string>, b: Buckets)
    requires forall k :: k in order ==> k in b
    ensures Kept(order, b) == order
    decreases |order|
  {
    if |order| > 0 {
      assert order == [order[0]] + order[1..];
      KeptAll(order[1..], b);
    }
  }

  lemma {:induction false} KeptIn(order: seq<string>, b: Buckets, k: string)
    ensures k in Kept(order, b) <==> k in order && k in b
    decreases |order|
  {
    if |order| > 0 {
      assert order == [order[0]] + order[1..];
      KeptIn(order[1..], b, k);
    }
  }

  lemma {:induction false} KeptLists(order: seq<string>, b: Buckets)
    requires forall i, j :: 0 <= i < j < |order| ==> order[i] != order[j]
    requires forall k :: k in b ==> k in order
    ensures Lists(Kept(order, b), b)
  {
    KeptDistinct(order, b);
    forall k ensures k in Kept(order, b) <==> k in b { KeptIn(order, b, k); }
  }

  lemma {:induction false} KeptDistinct(order: seq<string>, b: Buckets)
    requires forall i, j :: 0 <= i < j < |order| ==> order[i] != order[j]
    ensures forall i, j :: 0 <= i < j < |Kept(order, b)| ==> Kept(order, b)[i] != Kept(order, b)[j]
    decreases |order|
  {
    if |order| > 0 {
      KeptDistinct(order[1..], b);
      var rest := Kept(order[1..], b);
      forall j | 0 <= j < |rest| ensures rest[j] != order[0] { KeptIn(order[1..], b, rest[j]); }
    }
  }

  lemma {:induction false} DropKept(order: seq<string>, b: Buckets, key: string)
    requires forall i, j :: 0 <= i < j < |order| ==> order[i] != order[j]
    ensures Dropped(Kept(order, b), key) == Kept(order, b - {key})
    decreases |order|
  {
    if |order| > 0 {
      DropKept(order[1..], b, key);
      var rest, left := Kept(order[1..], b), Kept(order[1..], b - {key});
      if order[0] !in b {
        assert Kept(order, b) == rest && Kept(order, b - {key}) == left;
      } else if order[0] == key {
        KeptWithout(order[1..], b, key);
        assert Kept(order, b) == [key] + rest && Kept(order, b - {key}) == left;
      } else {
        assert Kept(order, b) == [order[0]] + rest && Kept(order, b - {key}) == [order[0]] + left;
        assert ([order[0]] + rest)[1..] == rest;
      }
    }
  }

  lemma {:induction false} KeptWithout(order: seq<string>, b: Buckets, key: string)
    requires key !in order
    ensures Kept(order, b - {key}) == Kept(order, b)
    decreases |order|
  {
    if |order| > 0 {
      assert order[0] in order;
      KeptWithout(order[1..], b, key);
    }
  }

  lemma {:induction false} TouchedLists(order: seq<string>, b: Buckets, key: string, e: Entry)
    requires Lists(order, b)
    ensures Lists(Touched(order, key), b[key := e])
    ensures key in b ==> Touched(order, key) == order
  {
  }

  lemma {:induction false} ListsMeans(order: seq<string>, b: Buckets)
    requires Lists(order, b)
    ensures forall i, j :: 0 <= i < j < |order| ==> order[i] != order[j]
    ensures forall k :: k in order <==> k in b
  {
  }

  lemma {:induction false} NothingCleanedUp(b: Buckets, order: seq<string>, now: int)
    requires |b| <= MAX_BUCKETS
    ensures CleanedUp(b, order, b, now)
  {
  }

  lemma {:induction false} SweptFrom(b: Buckets, keys: seq<string>, now: int)
    ensures forall k :: k in Swept(b, keys, now) ==> k in b
    ensures keys == [] ==> Swept(b, keys, now) == b
  {
  }

  /** The next key of the sweep: dropped if its bucket left expired. */
  lemma {:induction false} SweepOne(b: Buckets, order: seq<string>, i: nat, now: int)
    requires Lists(order, b) && i < |order|
    ensures var key, was, left := order[i], Swept(b, order[..i], now), Swept(b, order[..i + 1], now);
            && key in was
            && (if was[key].resetAt <= now then
                  left == was - {key} && |left| == |was| - 1 && Dropped(Kept(order, was), key) == Kept(order, left)
                else left == was)
  {
    hide Kept, Dropped, Lists;
    ListsMeans(order, b);
    var key, was, left := order[i], Swept(b, order[..i], now), Swept(b, order[..i + 1], now);
    assert key in order && key !in order[..i];
    assert forall k :: k in order[..i + 1] <==> k in order[..i] || k == key;
    if was[key].resetAt <= now {
      assert left == was - {key};
      DropKept(order, was, key);
    } else {
      assert left == was;
    }
  }

  class Limiter {
    var buckets: Buckets
    var order: seq<string>

    ghost predicate Valid()
      reads this
    {
      Lists(order, buckets)
    }

    constructor ()
      ensures Valid() && buckets == map[]
    {
      buckets, order := map[], [];
    }

    method CleanupExpired(timestamp: int)
      requires Valid()
      modifies this
      ensures Valid()
      ensures CleanedUp(old(buckets), old(order), buckets, timestamp)
      ensures order == Kept(old(order), buckets)
    {
      hide Lists, Kept, Dropped, Swept, CleanedUp;
      assert (forall i, j :: 0 <= i < j < |order| ==> order[i] != order[j]) && (forall k :: k in order <==> k in buckets) by {
        assert Valid();
        ListsMeans(order, buckets);
      }
      KeptAll(order, buckets);
      if |buckets| <= MAX_BUCKETS {
        NothingCleanedUp(buckets, order, timestamp);
        return;
      }
      ghost var all, before := order, buckets;
      var keys := order;
      var i := 0;
      SweptFrom(before, keys[..0], timestamp);
      while i < |keys|
        invariant 0 <= i <= |keys| && keys == all
        invariant |buckets| > MAX_BUCKETS
        invariant buckets == Swept(before, keys[..i], timestamp)
        invariant order == Kept(all, buckets)
      {
        var key := keys[i];
        SweepOne(before, all, i, timestamp);
        if buckets[key].resetAt <= timestamp {
          buckets := buckets - {key};
          order := Dropped(order, key);
        }
        i := i + 1;
        if |buckets| <= MAX_BUCKETS { break; }
      }
      SweptCleanedUp(before, all, i, timestamp);
      SweptFrom(before, keys[..i], timestamp);
      KeptLists(all, buckets);
    }

    method RateLimit(key: string, options: Options, timestamp: int) returns (reply: Reply)
      requires Valid()
      modifies this
      ensures Valid()
      ensures var charged := Charged(old(buckets), key, WindowOf(options), timestamp);
              && reply == ReplyOf(charged[key], MaxOf(options))
              && Evicts(charged, buckets, timestamp)
              && (if Live(old(buckets), key, timestamp)
                  then buckets == charged && order == old(order)
                  else CleanedUp(charged, Touched(old(order), key), buckets, timestamp)
                       && order == Kept(Touched(old(order), key), buckets))
    {
      hide Lists, Kept;
      assert Lists(order, buckets);
      var max, windowMs := MaxOf(options), WindowOf(options);
      if key !in buckets || buckets[key].resetAt <= timestamp {
        TouchedLists(order, buckets, key, Entry(1, timestamp + windowMs));
        buckets := buckets[key := Entry(1, timestamp + windowMs)];
        order := Touched(order, key);
        CleanupExpired(timestamp);
        return Reply(true, max, max - 1, timestamp + windowMs);
      }
      var current := buckets[key];
      current := current.(count := current.count + 1);
      TouchedLists(order, buckets, key, current);
      buckets := buckets[key := current];
      reply := Reply(current.count <= max, max, Max(0, max - current.count), current.resetAt);
    }
  }

  /** A sweep that stopped at the first moment few enough buckets were left did what it had to. */
  lemma {:induction false} SweptCleanedUp(before: Buckets, order: seq<string>, n: nat, now: int)
    requires Lists(order, before) && n <= |order|
    requires n < |order| ==> |Swept(before, order[..n], now)| <= MAX_BUCKETS
    requires |Swept(before, order[..n], now)| >= MAX_BUCKETS
    ensures CleanedUp(before, order, Swept(before, order[..n], now), now)
  {
    var after := Swept(before, order[..n], now);
    if n == |order| { assert order[..n] == order; }
    forall i, j | 0 <= i < j < |order| && order[j] !in after && before[order[i]].resetAt <= now ensures order[i] !in after {
      assert order[j] in order;
      assert order[j] in order[..n];
      var m :| 0 <= m < n && order[m] == order[j];
      assert m == j;
      assert order[i] == order[..n][i];
    }
  }

  /** If `a` kept `k` so did `b`: otherwise `a` lost nothing that `b` kept, so `b` went too far or
      `a` not far enough. */
  lemma {:induction false} KeepsAsMuch(before: Buckets, order: seq<string>, a: Buckets, b: Buckets, now: int, k: string)
    requires Lists(order, before) && CleanedUp(before, order, a, now) && CleanedUp(before, order, b, now)
    requires k in a
    ensures k in b
  {
    if k !in b {
      forall d | d in b ensures d in a { LostInOrder(before, order, a, b, now, k, d); }
      assert b.Keys <= a.Keys && k in a.Keys && k !in b.Keys;
      SmallerMap(b.Keys, a.Keys, k);
      SubsetSize(a.Keys, before.Keys);
    }
  }

  lemma {:induction false} LostInOrder(before: Buckets, order: seq<string>, a: Buckets, b: Buckets, now: int, k: string, d: string)
    requires Lists(order, before) && CleanedUp(before, order, a, now) && CleanedUp(before, order, b, now)
    requires k in a && k !in b && d in b
    ensures d in a
  {
    assert d in order && k in order;
    var i :| 0 <= i < |order| && order[i] == d;
    var j :| 0 <= j < |order| && order[j] == k;
  }

  /** The clean-up has only one possible outcome. */
  lemma {:induction false} CleanedUpOnce(before: Buckets, order: seq<string>, a: Buckets, b: Buckets, now: int)
    requires Lists(order, before) && CleanedUp(before, order, a, now) && CleanedUp(before, order, b, now)
    ensures a == b
  {
    forall k ensures k in a <==> k in b {
      if k in a { KeepsAsMuch(before, order, a, b, now, k); }
      if k in b { KeepsAsMuch(before, order, b, a, now, k); }
    }
  }

  lemma {:induction false} SubsetSize<T>(a: set<T>, b: set<T>)
    requires a <= b
    ensures |a| <= |b|
  {
    assert b == a + (b - a);
  }

  lemma {:induction false} SmallerMap<T>(a: set<T>, b: set<T>, k: T)
    requires a <= b && k in b && k !in a
    ensures |a| < |b|
  {
    SubsetSize(a + {k}, b);
  }
}
