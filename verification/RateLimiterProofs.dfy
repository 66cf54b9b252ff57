/** What the rate limiter promises over whole request sequences. */
module RateLimiterProofs {
  import opened Wrappers
  import opened RateLimiter

  datatype Request = Request(key: string, options: Options, now: int)

  ghost predicate Clocked(reqs: seq<Request>) {
    forall i, j :: 0 <= i < j < |reqs| ==> reqs[i].now <= reqs[j].now
  }

  /** The buckets of a limiter that never evicts, after `reqs`. */
  function After(reqs: seq<Request>): Buckets
    decreases |reqs|
  {
    if |reqs| == 0 then map[]
    else var r := reqs[|reqs| - 1]; Charged(After(reqs[..|reqs| - 1]), r.key, WindowOf(r.options), r.now)
  }

  /** Its reply to the last of `reqs`. */
  function LastReply(reqs: seq<Request>): Reply
    requires |reqs| > 0
  {
    var r := reqs[|reqs| - 1];
    ReplyOf(After(reqs)[r.key], MaxOf(r.options))
  }

  /** A run of the limiter: after each request it may evict, and evicts only expired buckets. */
  ghost predicate EvictingRun(states: seq<Buckets>, reqs: seq<Request>, replies: seq<Reply>) {
    && |states| == |reqs| + 1 && |replies| == |reqs| && states[0] == map[]
    && forall i :: 0 <= i < |reqs| ==> Answers(states[i], reqs[i], replies[i], states[i + 1])
  }

  ghost predicate Answers(b: Buckets, r: Request, reply: Reply, b': Buckets) {
    var charged := Charged(b, r.key, WindowOf(r.options), r.now);
    reply == ReplyOf(charged[r.key], MaxOf(r.options)) && Evicts(charged, b', r.now)
  }

  /** The two tables have the same buckets running after `now`. */
  ghost predicate SameLive(a: Buckets, b: Buckets, now: int) {
    forall k :: (Live(a, k, now) <==> Live(b, k, now)) && (Live(a, k, now) ==> a[k] == b[k])
  }

  lemma {:induction false} StepKeepsSameLive(a: Buckets, a': Buckets, b: Buckets, r: Request, reply: Reply, was: int)
    requires SameLive(a, b, was) && was <= r.now && Answers(a, r, reply, a')
    ensures var b' := Charged(b, r.key, WindowOf(r.options), r.now);
            SameLive(a', b', r.now) && reply == ReplyOf(b'[r.key], MaxOf(r.options))
  {
    assert Live(a, r.key, was) <==> Live(b, r.key, was);
    var charged := Charged(a, r.key, WindowOf(r.options), r.now);
    var b' := Charged(b, r.key, WindowOf(r.options), r.now);
    forall k ensures (Live(a', k, r.now) <==> Live(b', k, r.now)) && (Live(a', k, r.now) ==> a'[k] == b'[k]) {
      assert Live(a, k, was) <==> Live(b, k, was);
      assert Live(a', k, r.now) <==> Live(charged, k, r.now);
    }
  }

  lemma {:induction false} RunKeepsSameLive(states: seq<Buckets>, reqs: seq<Request>, replies: seq<Reply>, n: nat, now: int)
    requires EvictingRun(states, reqs, replies) && Clocked(reqs) && n <= |reqs|
    requires n > 0 ==> reqs[n - 1].now <= now
    ensures SameLive(states[n], After(reqs[..n]), now)
    ensures n > 0 ==> replies[n - 1] == LastReply(reqs[..n])
  {
    if n > 0 {
      RunKeepsSameLive(states, reqs, replies, n - 1, reqs[n - 1].now);
      assert reqs[..n][..n - 1] == reqs[..n - 1];
      StepKeepsSameLive(states[n - 1], states[n], After(reqs[..n - 1]), reqs[n - 1], replies[n - 1], reqs[n - 1].now);
      LaterSameLive(states[n], After(reqs[..n]), reqs[n - 1].now, now);
    }
  }

  lemma {:induction false} LaterSameLive(a: Buckets, b: Buckets, now: int, later: int)
    requires SameLive(a, b, now) && now <= later
    ensures SameLive(a, b, later)
  {
    forall k ensures (Live(a, k, later) <==> Live(b, k, later)) && (Live(a, k, later) ==> a[k] == b[k]) {
      assert Live(a, k, now) <==> Live(b, k, now);
    }
  }

  /** Evicting changes no answer, whatever the options of each request. */
  lemma {:induction false} EvictionInvisible(states: seq<Buckets>, reqs: seq<Request>, replies: seq<Reply>, i: nat)
    requires EvictingRun(states, reqs, replies) && Clocked(reqs) && i < |reqs|
    ensures replies[i] == LastReply(reqs[..i + 1])
  {
    RunKeepsSameLive(states, reqs, replies, i + 1, reqs[i].now);
  }

  // ---------- how much one key can get ----------

  /** How many of `reqs` from `key` were granted and meet `which`. */
  function Granted(reqs: seq<Request>, key: string, which: (Request, Reply) -> bool): nat
    decreases |reqs|
  {
    if |reqs| == 0 then 0
    else
      var last, reply := reqs[|reqs| - 1], LastReply(reqs);
      Granted(reqs[..|reqs| - 1], key, which) + if last.key == key && reply.allowed && which(last, reply) then 1 else 0
  }

  /** Granted in the window that ends at `reset`. */
  function GrantedUntil(reqs: seq<Request>, key: string, reset: int): nat {
    Granted(reqs, key, (r: Request, reply: Reply) => reply.resetAt == reset)
  }

  /** Granted at a time in the half-open interval from `from`, `length` long. */
  function GrantedFrom(reqs: seq<Request>, key: string, from: int, length: int): nat {
    Granted(reqs, key, (r: Request, reply: Reply) => from <= r.now < from + length)
  }

  ghost predicate FixedMax(reqs: seq<Request>, key: string, max: int) {
    forall r :: r in reqs && r.key == key ==> MaxOf(r.options) == max
  }

  ghost predicate FixedWindow(reqs: seq<Request>, key: string, windowMs: int) {
    forall r :: r in reqs && r.key == key ==> WindowOf(r.options) == windowMs
  }

  function Min(a: int, b: int): int {
    if a < b then a else b
  }

  /** The bucket counts what was granted in its window, up to the limit. */
  ghost predicate WindowCounted(reqs: seq<Request>, key: string, max: int, reset: int) {
    var b, g := After(reqs), GrantedUntil(reqs, key, reset);
    && 0 <= g <= max
    && (key !in b || reset > b[key].resetAt ==> g == 0)
    && (key in b && reset == b[key].resetAt ==> g == Min(b[key].count, max) && b[key].count >= 1)
  }

  lemma {:induction false} GrantedUntilCounted(reqs: seq<Request>, key: string, max: int, reset: int)
    requires FixedMax(reqs, key, max) && max >= 1
    ensures WindowCounted(reqs, key, max, reset)
    decreases |reqs|
  {
    if |reqs| > 0 {
      var n := |reqs| - 1;
      assert forall r :: r in reqs[..n] ==> r in reqs;
      GrantedUntilCounted(reqs[..n], key, max, reset);
      assert reqs[n] in reqs;
    }
  }

  /** With a fixed limit: at most `max` requests are granted in one window, a request is granted
      exactly if fewer than `max` were before it, and `remaining` says how many more will be. */
  lemma {:induction false} WindowQuota(reqs: seq<Request>, key: string, max: int)
    requires FixedMax(reqs, key, max) && max >= 1
    ensures forall reset :: GrantedUntil(reqs, key, reset) <= max
    ensures |reqs| > 0 && reqs[|reqs| - 1].key == key ==>
              var reply := LastReply(reqs);
              && reply.limit == max
              && reply.remaining == max - GrantedUntil(reqs, key, reply.resetAt)
              && (reply.allowed <==> GrantedUntil(reqs[..|reqs| - 1], key, reply.resetAt) < max)
  {
    forall reset ensures GrantedUntil(reqs, key, reset) <= max { GrantedUntilCounted(reqs, key, max, reset); }
    if |reqs| > 0 && reqs[|reqs| - 1].key == key {
      var reset := LastReply(reqs).resetAt;
      assert reqs[|reqs| - 1] in reqs;
      assert forall r :: r in reqs[..|reqs| - 1] ==> r in reqs;
      GrantedUntilCounted(reqs, key, max, reset);
      GrantedUntilCounted(reqs[..|reqs| - 1], key, max, reset);
    }
  }

  /** The window a request is answered for: the one its key's previous request was in, if that still
      runs, otherwise a new one that starts now. */
  lemma {:induction false} WindowOfReply(reqs: seq<Request>, j: nat)
    requires j < |reqs| - 1 && reqs[j].key == reqs[|reqs| - 1].key
    requires forall i :: j < i < |reqs| - 1 ==> reqs[i].key != reqs[j].key
    ensures var last, previous := reqs[|reqs| - 1], LastReply(reqs[..j + 1]);
            LastReply(reqs).resetAt == if previous.resetAt > last.now then previous.resetAt else last.now + WindowOf(last.options)
  {
    UntouchedBetween(reqs, j, |reqs| - 1);
    assert reqs[..j + 1][j] == reqs[j];
  }

  lemma {:induction false} UntouchedBetween(reqs: seq<Request>, j: nat, n: nat)
    requires j < n < |reqs| && forall i :: j < i < n ==> reqs[i].key != reqs[j].key
    ensures reqs[j].key in After(reqs[..n]) && reqs[j].key in After(reqs[..j + 1])
    ensures After(reqs[..n])[reqs[j].key] == After(reqs[..j + 1])[reqs[j].key]
    decreases n
  {
    assert reqs[..n][..n - 1] == reqs[..n - 1];
    if j + 1 < n {
      UntouchedBetween(reqs, j, n - 1);
    }
  }

  /** A key's first request opens a window that starts now. */
  lemma {:induction false} FirstWindow(reqs: seq<Request>)
    requires |reqs| > 0 && forall i :: 0 <= i < |reqs| - 1 ==> reqs[i].key != reqs[|reqs| - 1].key
    ensures LastReply(reqs).resetAt == reqs[|reqs| - 1].now + WindowOf(reqs[|reqs| - 1].options)
  {
    NeverSeen(reqs[..|reqs| - 1], reqs[|reqs| - 1].key);
  }

  lemma {:induction false} NeverSeen(reqs: seq<Request>, key: string)
    requires forall i :: 0 <= i < |reqs| ==> reqs[i].key != key
    ensures key !in After(reqs)
    decreases |reqs|
  {
    if |reqs| > 0 {
      NeverSeen(reqs[..|reqs| - 1], key);
    }
  }

  /** Where the running window stands against the interval decides how much can have been granted in it. */
  ghost predicate IntervalCounted(reqs: seq<Request>, key: string, max: int, windowMs: int, from: int) {
    var b, g := After(reqs), GrantedFrom(reqs, key, from, windowMs);
    if key !in b || b[key].resetAt <= from then g == 0
    else
      var begun := b[key].resetAt - windowMs;
      && begun <= reqs[|reqs| - 1].now
      && (if begun < from then g < Min(b[key].count, max)
          else if begun < from + windowMs then g < max + Min(b[key].count, max)
          else g < 2 * max)
  }

  lemma {:induction false} GrantedFromCounted(reqs: seq<Request>, key: string, max: int, windowMs: int, from: int)
    requires FixedMax(reqs, key, max) && FixedWindow(reqs, key, windowMs) && max >= 1 && windowMs >= 1000 && Clocked(reqs)
    ensures After(reqs) != map[] ==> |reqs| > 0
    ensures IntervalCounted(reqs, key, max, windowMs, from)
    decreases |reqs|
  {
    if |reqs| > 0 {
      var n := |reqs| - 1;
      assert forall r :: r in reqs[..n] ==> r in reqs;
      GrantedFromCounted(reqs[..n], key, max, windowMs, from);
      assert reqs[n] in reqs;
    }
  }

  /** With fixed options every key is granted fewer than `2 * max` requests in any interval as long as a
      window: the interval touches two windows at most, and a window opened before it spent at least
      one grant there. */
  lemma {:induction false} IntervalQuota(reqs: seq<Request>, key: string, max: int, windowMs: int, from: int)
    requires FixedMax(reqs, key, max) && FixedWindow(reqs, key, windowMs) && max >= 1 && windowMs >= 1000 && Clocked(reqs)
    ensures GrantedFrom(reqs, key, from, windowMs) < 2 * max
  {
    GrantedFromCounted(reqs, key, max, windowMs, from);
  }

  /** `n` more requests like `r`. */
  function Repeated(reqs: seq<Request>, r: Request, n: nat): (more: seq<Request>)
    ensures |more| == |reqs| + n && reqs <= more
    ensures forall i :: |reqs| <= i < |more| ==> more[i] == r
    decreases n
  {
    if n == 0 then reqs else Repeated(reqs, r, n - 1) + [r]
  }

  /** In a running window with room for `n` more, `n` requests at once are all granted. */
  lemma {:induction false} BurstGranted(reqs: seq<Request>, r: Request, n: nat, from: int, length: int)
    requires Live(After(reqs), r.key, r.now) && After(reqs)[r.key].count + n <= MaxOf(r.options)
    requires from <= r.now < from + length
    ensures r.key in After(Repeated(reqs, r, n))
    ensures After(Repeated(reqs, r, n))[r.key] == Entry(After(reqs)[r.key].count + n, After(reqs)[r.key].resetAt)
    ensures GrantedFrom(Repeated(reqs, r, n), r.key, from, length) == GrantedFrom(reqs, r.key, from, length) + n
    decreases n
  {
    hide After, Granted;
    if n > 0 {
      BurstGranted(reqs, r, n - 1, from, length);
      GrantOne(Repeated(reqs, r, n - 1), r, from, length);
    }
  }

  lemma {:induction false} GrantOne(reqs: seq<Request>, r: Request, from: int, length: int)
    ensures After(reqs + [r]) == Charged(After(reqs), r.key, WindowOf(r.options), r.now)
    ensures var e := After(reqs + [r])[r.key];
            GrantedFrom(reqs + [r], r.key, from, length) ==
            GrantedFrom(reqs, r.key, from, length) + if e.count <= MaxOf(r.options) && from <= r.now < from + length then 1 else 0
  {
    assert (reqs + [r])[..|reqs|] == reqs;
  }

  /** The bound is reached for every limit and window: one grant before the interval opens a
      window, the rest of its quota goes at the start of the interval, the whole next quota at the end. */
  lemma {:induction false} IntervalQuotaReached(max: nat, windowMs: int) returns (reqs: seq<Request>)
    requires max >= 1 && windowMs >= 1000
    ensures Clocked(reqs) && FixedMax(reqs, "k", max) && FixedWindow(reqs, "k", windowMs)
    ensures GrantedFrom(reqs, "k", windowMs - 1, windowMs) == 2 * max - 1
  {
    hide After, Granted, Repeated;
    var options := Options(Some(max as real), Some(windowMs as real));
    var first, late, next := Request("k", options, 0), Request("k", options, windowMs - 1), Request("k", options, windowMs);
    assert MaxOf(options) == max && WindowOf(options) == windowMs;
    var from := windowMs - 1;
    Nothing("k", from, windowMs);
    GrantOne([], first, from, windowMs);
    var one := [] + [first];
    BurstGranted(one, late, max - 1, from, windowMs);
    var two := Repeated(one, late, max - 1);
    GrantOne(two, next, from, windowMs);
    var three := two + [next];
    BurstGranted(three, next, max - 1, from, windowMs);
    reqs := Repeated(three, next, max - 1);
    assert forall i :: 0 <= i < |reqs| ==> reqs[i] == if i == 0 then first else if i < max then late else next;
  }

  lemma {:induction false} Nothing(key: string, from: int, length: int)
    ensures After([]) == map[] && GrantedFrom([], key, from, length) == 0
  {
  }
}
