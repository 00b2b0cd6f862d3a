/** The token-bucket rate limiter: one stored bucket per key, refilled by the
    time that has passed, one token a call, forgotten after two minutes. */
module TokenBucket {

  datatype Option<+T> = None | Some(value: T)

  datatype Bucket = Bucket(tokens: real, lastRefill: real)

  /** The stored key: its hash and the time it expires. */
  datatype Key = Absent | Present(bucket: Bucket, expiresAt: real)

  /** What the script returns; `retryAfter` is -1 on an admission. */
  datatype Reply = Reply(allowed: bool, remaining: int, resetAt: int, retryAfter: int)

  const EXPIRY: real := 120.0

  function Ceil(x: real): int { -((-x).Floor) }

  function Min(a: real, b: real): real { if a < b then a else b }

  /** Tokens per second. */
  function Rate(limit: int): real { limit as real / 60.0 }

  /** Tokens that come in from one time to another. */
  function Gain(limit: int, from: real, to: real): real { (to - from) * Rate(limit) }

  /** The bucket as of `now`, before the call takes a token. */
  function Refilled(limit: int, stored: Option<Bucket>, now: real): Bucket {
    match stored
    case None => Bucket(limit as real, now)
    case Some(b) =>
      if now - b.lastRefill > 0.0
      then Bucket(Min(limit as real, b.tokens + Gain(limit, b.lastRefill, now)), now)
      else b
  }

  function ResetAt(limit: int, tokens: real, now: real): int {
    var needed := limit as real - tokens;
    if needed > 0.0 && Rate(limit) > 0.0 then Ceil(now + needed / Rate(limit)) else Ceil(now)
  }

  /** One run of the script on what is stored. */
  function Script(limit: int, stored: Option<Bucket>, now: real): (r: (Bucket, Reply)) {
    var b := Refilled(limit, stored, now);
    if b.tokens >= 1.0 then
      var left := b.tokens - 1.0;
      (b.(tokens := left), Reply(true, left.Floor, ResetAt(limit, left, now), -1))
    else
      (b, Reply(false, 0, ResetAt(limit, b.tokens, now),
                if Rate(limit) > 0.0 then Ceil((1.0 - b.tokens) / Rate(limit)) else 60))
  }

  /** What the store still holds at `now`. */
  function Visible(key: Key, now: real): Option<Bucket> {
    if key.Present? && now < key.expiresAt then Some(key.bucket) else None
  }

  /** One call against a store whose keys live for `ttl` seconds. */
  function Call(limit: int, ttl: real, key: Key, now: real): (Key, Reply) {
    var (bucket, reply) := Script(limit, Visible(key, now), now);
    (Present(bucket, now + ttl), reply)
  }

  // ----- the script as the store runs it -----------------------------------

  class Store {
    var present: bool
    var tokens: real
    var lastRefill: real
    var expiresAt: real

    constructor ()
      ensures Contents() == Absent
    {
      present, tokens, lastRefill, expiresAt := false, 0.0, 0.0, 0.0;
    }

    ghost function Contents(): Key
      reads this
    {
      if present then Present(Bucket(tokens, lastRefill), expiresAt) else Absent
    }

    /** `check_rate_limit` with the script it runs. */
    method CheckRateLimit(limit: int, now: real) returns (reply: Reply)
      modifies this
      ensures (Contents(), reply) == Call(limit, EXPIRY, old(Contents()), now)
    {
      hide Ceil, Min, ResetAt;
      if present && now >= expiresAt { present := false; }
      var left, last := limit as real, now;
      if present { left, last := tokens, lastRefill; }
      if now - last > 0.0 {
        left := Min(limit as real, left + Gain(limit, last, now));
        last := now;
      }
      var allowed, remaining, retryAfter := false, 0, -1;
      if left >= 1.0 {
        left := left - 1.0;
        allowed := true;
        remaining := left.Floor;
      } else if Rate(limit) > 0.0 {
        retryAfter := Ceil((1.0 - left) / Rate(limit));
      } else {
        retryAfter := 60;
      }
      var resetAt := ResetAt(limit, left, now);
      present, tokens, lastRefill, expiresAt := true, left, last, now + EXPIRY;
      reply := Reply(allowed, remaining, resetAt, retryAfter);
    }
  }

  // ----- runs --------------------------------------------------------------

  predicate Ascending(times: seq<real>) {
    forall i, j | 0 <= i < j < |times| :: times[i] <= times[j]
  }

  function Replies(limit: int, ttl: real, key: Key, times: seq<real>): (r: seq<Reply>)
    ensures |r| == |times|
    decreases |times|
  {
    if times == [] then []
    else
      var (next, reply) := Call(limit, ttl, key, times[0]);
      [reply] + Replies(limit, ttl, next, times[1..])
  }

  function KeyAfter(limit: int, ttl: real, key: Key, times: seq<real>): Key
    decreases |times|
  {
    if times == [] then key else KeyAfter(limit, ttl, Call(limit, ttl, key, times[0]).0, times[1..])
  }

  /** The replies of a store that never forgets. */
  function LastingReplies(limit: int, stored: Option<Bucket>, times: seq<real>): (r: seq<Reply>)
    ensures |r| == |times|
    decreases |times|
  {
    if times == [] then []
    else
      var (bucket, reply) := Script(limit, stored, times[0]);
      [reply] + LastingReplies(limit, Some(bucket), times[1..])
  }

  /** A bucket within its bounds, last refilled by `now` and kept `ttl` seconds. */
  predicate Sane(limit: int, ttl: real, key: Key, now: real) {
    key.Present? ==>
      && 0.0 <= key.bucket.tokens <= limit as real
      && key.bucket.lastRefill <= now
      && key.expiresAt == key.bucket.lastRefill + ttl
  }

  // ----- bounds ------------------------------------------------------------

  lemma GainFacts(limit: int, a: real, b: real, c: real)
    requires limit >= 0 && a <= b <= c
    ensures 0.0 <= Gain(limit, a, b) <= Gain(limit, a, c)
    ensures Gain(limit, a, b) + Gain(limit, b, c) == Gain(limit, a, c)
    ensures c - a >= 60.0 ==> Gain(limit, a, c) >= limit as real
    ensures a == b ==> Gain(limit, a, b) == 0.0
  {
    var r := Rate(limit);
    var x, y := b - a, c - b;
    assert r >= 0.0 && 60.0 * r == limit as real;
    GainProducts(r, x, y);
    assert x + y == c - a;
    assert Gain(limit, a, c) == (x + y) * r;
    if c - a >= 60.0 { GainProducts(r, 60.0, c - a - 60.0); }
  }

  lemma GainProducts(r: real, x: real, y: real)
    requires r >= 0.0 && x >= 0.0 && y >= 0.0
    ensures 0.0 <= x * r <= (x + y) * r && x * r + y * r == (x + y) * r
  {
  }

  lemma CallKeepsSane(limit: int, ttl: real, key: Key, now: real)
    requires limit >= 0 && Sane(limit, ttl, key, now)
    ensures Sane(limit, ttl, Call(limit, ttl, key, now).0, now)
    ensures Call(limit, ttl, key, now).0.bucket.lastRefill == now
  {
    hide Gain, Rate, ResetAt, Ceil;
    if Visible(key, now).Some? {
      GainFacts(limit, key.bucket.lastRefill, now, now);
    }
  }

  /** On every run the bucket holds between none and `limit` tokens. */
  lemma {:induction false} TokensStayInBounds(limit: int, key: Key, times: seq<real>, start: real)
    requires limit >= 0 && Ascending([start] + times) && Sane(limit, EXPIRY, key, start)
    ensures var k := KeyAfter(limit, EXPIRY, key, times);
            k.Present? ==> 0.0 <= k.bucket.tokens <= limit as real
    decreases |times|
  {
    if times != [] {
      assert ([start] + times)[0] <= ([start] + times)[1];
      CallKeepsSane(limit, EXPIRY, key, times[0]);
      AscendingTail(start, times);
      TokensStayInBounds(limit, Call(limit, EXPIRY, key, times[0]).0, times[1..], times[0]);
    }
  }

  lemma AscendingTail(start: real, times: seq<real>)
    requires times != [] && Ascending([start] + times)
    ensures start <= times[0] && Ascending([times[0]] + times[1..]) && Ascending(times)
  {
    var all := [start] + times;
    assert all[0] <= all[1];
    forall i, j | 0 <= i < j < |times| ensures times[i] <= times[j] {
      assert all[i + 1] <= all[j + 1];
    }
    assert [times[0]] + times[1..] == times;
  }

  // ----- admissions in a window --------------------------------------------

  /** Calls admitted at times between `from` and `to`, both included. */
  function Admitted(times: seq<real>, replies: seq<Reply>, from: real, to: real): nat
    requires |times| == |replies|
  {
    if times == [] then 0
    else (if from <= times[0] <= to && replies[0].allowed then 1 else 0)
         + Admitted(times[1..], replies[1..], from, to)
  }

  lemma {:induction false} AdmittedLast(times: seq<real>, replies: seq<Reply>, from: real, to: real)
    requires |times| == |replies| && times != []
    ensures var n := |times| - 1;
            Admitted(times, replies, from, to)
            == Admitted(times[..n], replies[..n], from, to)
               + if from <= times[n] <= to && replies[n].allowed then 1 else 0
  {
    var n := |times| - 1;
    if n > 0 {
      assert times[..n][1..] == times[1..][..n - 1] && replies[..n][1..] == replies[1..][..n - 1];
      AdmittedLast(times[1..], replies[1..], from, to);
    }
  }

  predicate Counts(times: seq<real>, replies: seq<Reply>, from: real, to: real, i: int)
    requires |times| == |replies|
  {
    0 <= i < |times| && from <= times[i] <= to && replies[i].allowed
  }

  lemma CountsBefore(times: seq<real>, replies: seq<Reply>, from: real, to: real, i: int)
    requires |times| == |replies| && times != []
    ensures var n := |times| - 1;
            Counts(times, replies, from, to, i)
            <==> Counts(times[..n], replies[..n], from, to, i) || (i == n && Counts(times, replies, from, to, n))
  {
  }

  /** The calls that count are those of the interval that were admitted. */
  lemma {:induction false} AdmittedCounts(times: seq<real>, replies: seq<Reply>, from: real, to: real)
    requires |times| == |replies|
    ensures Admitted(times, replies, from, to)
            == |set i | 0 <= i < |times| && Counts(times, replies, from, to, i)|
  {
    var all := set i | 0 <= i < |times| && Counts(times, replies, from, to, i);
    if times == [] {
      assert all == {};
    } else {
      var n := |times| - 1;
      AdmittedLast(times, replies, from, to);
      AdmittedCounts(times[..n], replies[..n], from, to);
      var last := Counts(times, replies, from, to, n);
      assert last <==> from <= times[n] <= to && replies[n].allowed;
      hide Admitted, Counts;
      var front := set i | 0 <= i < |times[..n]| && Counts(times[..n], replies[..n], from, to, i);
      forall i | 0 <= i < |times| ensures i in all <==> i in front || (i == n && last) {
        CountsBefore(times, replies, from, to, i);
        CountsInside(times[..n], replies[..n], from, to, i);
      }
      assert all == front + if last then {n} else {};
    }
  }

  lemma CountsInside(times: seq<real>, replies: seq<Reply>, from: real, to: real, i: int)
    requires |times| == |replies|
    ensures Counts(times, replies, from, to, i) ==> 0 <= i < |times|
  {
  }

  /** Tokens on hand at `now`. */
  function OnHand(limit: int, key: Key, now: real): real { Refilled(limit, Visible(key, now), now).tokens }

  lemma OnHandIs(limit: int, ttl: real, key: Key, now: real)
    requires limit >= 0 && Sane(limit, ttl, key, now)
    ensures 0.0 <= OnHand(limit, key, now) <= limit as real
    ensures Visible(key, now).Some? ==>
              OnHand(limit, key, now) == Min(limit as real, key.bucket.tokens + Gain(limit, key.bucket.lastRefill, now))
  {
    hide Gain, Rate;
    if Visible(key, now).Some? {
      GainFacts(limit, key.bucket.lastRefill, now, now);
    }
  }

  /** Tokens on hand grow no faster than the refill rate, expiry included. */
  lemma OnHandGrows(limit: int, ttl: real, key: Key, now: real, later: real)
    requires limit >= 0 && ttl >= 60.0 && Sane(limit, ttl, key, now) && now <= later
    ensures OnHand(limit, key, later) <= OnHand(limit, key, now) + Gain(limit, now, later)
    ensures OnHand(limit, key, later) <= limit as real
  {
    hide Gain, Rate, OnHand;
    OnHandIs(limit, ttl, key, now);
    OnHandIs(limit, ttl, key, later);
    GainFacts(limit, now, later, later);
    if Visible(key, now).Some? {
      GainFacts(limit, key.bucket.lastRefill, now, later);
    } else {
      assert OnHand(limit, key, now) == limit as real by { ExpiredIsFull(limit, key, now); }
    }
  }

  lemma ExpiredIsFull(limit: int, key: Key, now: real)
    requires Visible(key, now).None?
    ensures OnHand(limit, key, now) == limit as real
  {
  }

  lemma {:induction false} NoneAdmittedLater(times: seq<real>, replies: seq<Reply>, from: real, to: real)
    requires |times| == |replies| && Ascending(times) && times != [] && to < times[0]
    ensures Admitted(times, replies, from, to) == 0
  {
    if |times| > 1 {
      NoneAdmittedLater(times[1..], replies[1..], from, to);
    }
  }

  /** From a moment on, admissions are paid for by the tokens on hand and the
      tokens that come in. */
  lemma {:induction false} AdmissionsArePaidFor(limit: int, ttl: real, key: Key, times: seq<real>, now: real, to: real)
    requires limit >= 0 && ttl >= 60.0 && Sane(limit, ttl, key, now) && Ascending([now] + times) && now <= to
    ensures Admitted(times, Replies(limit, ttl, key, times), now, to) as real
            <= OnHand(limit, key, now) + Gain(limit, now, to)
    decreases |times|
  {
    hide Gain, Rate, OnHand, Call;
    GainFacts(limit, now, to, to);
    OnHandIs(limit, ttl, key, now);
    if times != [] {
      AscendingTail(now, times);
      var u := times[0];
      var replies := Replies(limit, ttl, key, times);
      if u > to {
        NoneAdmittedLater(times, replies, now, to);
      } else {
        var (next, reply) := Call(limit, ttl, key, u);
        CallKeepsSane(limit, ttl, key, u);
        CallPays(limit, ttl, key, u);
        OnHandGrows(limit, ttl, key, now, u);
        GainFacts(limit, now, u, to);
        AdmissionsArePaidFor(limit, ttl, next, times[1..], u, to);
        SameWindow(times[1..], Replies(limit, ttl, next, times[1..]), now, u, to);
        assert replies[1..] == Replies(limit, ttl, next, times[1..]);
      }
    }
  }

  /** An admission takes one token off those on hand; a denial takes none. */
  lemma CallPays(limit: int, ttl: real, key: Key, now: real)
    requires ttl > 0.0 && limit >= 0 && Sane(limit, ttl, key, now)
    ensures var (next, reply) := Call(limit, ttl, key, now);
            OnHand(limit, next, now) == OnHand(limit, key, now) - (if reply.allowed then 1.0 else 0.0)
  {
    hide Gain, Rate, ResetAt, Ceil;
  }

  /** Moving the start of the window up to the first call loses nothing. */
  lemma {:induction false} SameWindow(times: seq<real>, replies: seq<Reply>, from: real, later: real, to: real)
    requires |times| == |replies| && from <= later && forall i | 0 <= i < |times| :: later <= times[i]
    ensures Admitted(times, replies, from, to) == Admitted(times, replies, later, to)
  {
    if times != [] {
      SameWindow(times[1..], replies[1..], from, later, to);
    }
  }

  /** In any closed interval, a run admits at most `limit` calls plus the
      interval's length times limit/60. */
  lemma {:induction false} WindowBound(limit: int, key: Key, times: seq<real>, start: real, from: real, to: real)
    requires limit >= 0 && Ascending([start] + times) && Sane(limit, EXPIRY, key, start)
    requires from <= to
    ensures Admitted(times, Replies(limit, EXPIRY, key, times), from, to) as real
            <= limit as real + Gain(limit, from, to)
    decreases |times|
  {
    hide Gain, Rate, OnHand, Call;
    GainFacts(limit, from, to, to);
    if times != [] {
      AscendingTail(start, times);
      var u := times[0];
      if u < from {
        var (next, reply) := Call(limit, EXPIRY, key, u);
        CallKeepsSane(limit, EXPIRY, key, u);
        WindowBound(limit, next, times[1..], u, from, to);
        assert Replies(limit, EXPIRY, key, times)[1..] == Replies(limit, EXPIRY, next, times[1..]);
      } else if u <= to {
        SameWindow(times, Replies(limit, EXPIRY, key, times), from, u, to);
        AscendingRepeat(times);
        AdmissionsArePaidFor(limit, EXPIRY, key, times, u, to);
        OnHandIs(limit, EXPIRY, key, u);
        GainFacts(limit, from, u, to);
      } else {
        NoneAdmittedLater(times, Replies(limit, EXPIRY, key, times), from, to);
      }
    }
  }

  lemma AscendingRepeat(times: seq<real>)
    requires times != [] && Ascending(times)
    ensures Ascending([times[0]] + times)
  {
    var all := [times[0]] + times;
    forall i, j | 0 <= i < j < |all| ensures all[i] <= all[j] {
      if i > 0 { assert times[i - 1] <= times[j - 1]; }
    }
  }

  // ----- expiry ------------------------------------------------------------

  function Stored(key: Key): Option<Bucket> {
    if key.Present? then Some(key.bucket) else None
  }

  /** Every run answers as if keys never expired. */
  predicate ExpiryInvisible(limit: int, ttl: real, times: seq<real>) {
    Replies(limit, ttl, Absent, times) == LastingReplies(limit, None, times)
  }

  lemma ScriptAfterExpiry(limit: int, ttl: real, key: Key, now: real)
    requires limit >= 0 && ttl >= 60.0 && Sane(limit, ttl, key, now)
    ensures Script(limit, Visible(key, now), now) == Script(limit, Stored(key), now)
  {
    hide Gain, Rate, ResetAt, Ceil;
    if key.Present? && Visible(key, now).None? {
      GainFacts(limit, key.bucket.lastRefill, now, now);
    }
  }

  lemma {:induction false} LongExpiryIsInvisible(limit: int, ttl: real, key: Key, times: seq<real>, start: real)
    requires limit >= 0 && ttl >= 60.0 && Sane(limit, ttl, key, start) && Ascending([start] + times)
    ensures Replies(limit, ttl, key, times) == LastingReplies(limit, Stored(key), times)
    decreases |times|
  {
    hide Script;
    if times != [] {
      AscendingTail(start, times);
      ScriptAfterExpiry(limit, ttl, key, times[0]);
      CallKeepsSane(limit, ttl, key, times[0]);
      LongExpiryIsInvisible(limit, ttl, Call(limit, ttl, key, times[0]).0, times[1..], times[0]);
    }
  }

  function Zeros(n: nat): (r: seq<real>)
    ensures |r| == n && forall i | 0 <= i < n :: r[i] == 0.0
  {
    if n == 0 then [] else Zeros(n - 1) + [0.0]
  }

  function LastingAfter(limit: int, stored: Option<Bucket>, times: seq<real>): Option<Bucket>
    decreases |times|
  {
    if times == [] then stored else LastingAfter(limit, Some(Script(limit, stored, times[0]).0), times[1..])
  }

  lemma {:induction false} LastReply(limit: int, ttl: real, key: Key, stored: Option<Bucket>, times: seq<real>, last: real)
    ensures Replies(limit, ttl, key, times + [last])[|times|] == Call(limit, ttl, KeyAfter(limit, ttl, key, times), last).1
    ensures LastingReplies(limit, stored, times + [last])[|times|] == Script(limit, LastingAfter(limit, stored, times), last).1
    ensures LastingAfter(limit, stored, times + [last])
         == Some(Script(limit, LastingAfter(limit, stored, times), last).0)
    ensures KeyAfter(limit, ttl, key, times + [last]) == Call(limit, ttl, KeyAfter(limit, ttl, key, times), last).0
    decreases |times|
  {
    hide Call, Script;
    var all := times + [last];
    if times == [] {
      assert all[1..] == [];
    } else {
      assert all[1..] == times[1..] + [last];
      LastReply(limit, ttl, Call(limit, ttl, key, times[0]).0, Some(Script(limit, stored, times[0]).0), times[1..], last);
    }
  }

  /** Calls at time zero drain a lasting bucket one by one. */
  lemma {:induction false} Draining(limit: int, n: nat)
    requires 1 <= n <= limit
    ensures LastingAfter(limit, None, Zeros(n)) == Some(Bucket((limit - n) as real, 0.0))
  {
    hide ResetAt, Ceil;
    LastReply(limit, 0.0, Absent, None, Zeros(n - 1), 0.0);
    if n > 1 {
      Draining(limit, n - 1);
    } else {
      assert Zeros(0) == [];
    }
  }

  lemma KeyAfterZeros(limit: int, ttl: real, n: nat)
    requires n >= 1
    ensures var k := KeyAfter(limit, ttl, Absent, Zeros(n)); k.Present? && k.expiresAt == ttl
  {
    hide Script;
    LastReply(limit, ttl, Absent, None, Zeros(n - 1), 0.0);
  }

  /** A run that tells a short expiry from none: drain the bucket at time zero,
      then call once more as the key expires. */
  lemma ShortExpiryShows(limit: int, ttl: real)
    requires limit >= 1 && 0.0 <= ttl < 60.0
    ensures Ascending(Zeros(limit) + [ttl]) && !ExpiryInvisible(limit, ttl, Zeros(limit) + [ttl])
  {
    hide ResetAt, Ceil;
    var times := Zeros(limit);
    LastReply(limit, ttl, Absent, None, times, ttl);
    Draining(limit, limit);
    KeyAfterZeros(limit, ttl, limit);
    PartialGain(limit, ttl);
    var forgotten := Script(limit, None, ttl).1;
    var kept := Script(limit, Some(Bucket(0.0, 0.0)), ttl).1;
    assert forgotten.allowed && forgotten.remaining == limit - 1;
    assert kept.allowed ==> kept.remaining < limit - 1;
  }

  lemma PartialGain(limit: int, ttl: real)
    requires limit >= 1 && 0.0 <= ttl < 60.0
    ensures 0.0 <= Gain(limit, 0.0, ttl) < limit as real
  {
    var r := Rate(limit);
    assert r > 0.0 && 60.0 * r == limit as real;
    assert (60.0 - ttl) * r > 0.0;
    assert ttl * r >= 0.0;
    assert (60.0 - ttl) * r == 60.0 * r - ttl * r;
  }

  /** The expiry makes no difference on any run exactly when it is at least as
      long as a full refill takes, one minute; the deployed 120 s is. */
  lemma ExpiryInvisibleIff(limit: int, ttl: real)
    requires limit >= 1 && ttl >= 0.0
    ensures (forall times | Ascending(times) :: ExpiryInvisible(limit, ttl, times)) <==> ttl >= 60.0
    ensures EXPIRY >= 60.0
  {
    if ttl >= 60.0 {
      forall times | Ascending(times) ensures ExpiryInvisible(limit, ttl, times) {
        if times != [] {
          AscendingRepeat(times);
          LongExpiryIsInvisible(limit, ttl, Absent, times, times[0]);
        }
      }
    } else {
      ShortExpiryShows(limit, ttl);
    }
  }

  // ----- retry_after -------------------------------------------------------

  lemma CeilIsLeast(x: real, d: int)
    ensures d >= Ceil(x) <==> d as real >= x
  {
    assert -d <= (-x).Floor <==> (-d) as real <= -x;
  }

  lemma QuotientBelow(a: real, r: real, d: real)
    requires r > 0.0
    ensures d >= a / r <==> d * r >= a
  {
    var q := a / r;
    assert q * r == a;
    if d >= q { assert (d - q) * r >= 0.0; } else { assert (q - d) * r > 0.0; }
  }

  /** Through any further denials, the call at `times`' end is admitted exactly
      when the tokens left and the refill since reach one. */
  lemma {:induction false} DenialsOnlyRefill(limit: int, key: Key, times: seq<real>)
    requires limit >= 1 && times != [] && key.Present? && key.bucket.tokens < 1.0
    requires Sane(limit, EXPIRY, key, key.bucket.lastRefill)
    requires Ascending([key.bucket.lastRefill] + times)
    requires forall i | 0 <= i < |times| - 1 :: !Replies(limit, EXPIRY, key, times)[i].allowed
    ensures Replies(limit, EXPIRY, key, times)[|times| - 1].allowed
        <==> key.bucket.tokens + Gain(limit, key.bucket.lastRefill, times[|times| - 1]) >= 1.0
    decreases |times|
  {
    hide Gain, Rate, Call, OnHand;
    var b := key.bucket;
    var u := times[0];
    AscendingTail(b.lastRefill, times);
    CallAdmits(limit, EXPIRY, key, u);
    OnHandIs(limit, EXPIRY, key, u);
    GainFacts(limit, b.lastRefill, u, u);
    if Visible(key, u).None? {
      ExpiredIsFull(limit, key, u);
    }
    var replies := Replies(limit, EXPIRY, key, times);
    if |times| > 1 {
      assert !replies[0].allowed;
      var next := Call(limit, EXPIRY, key, u).0;
      CallKeepsSane(limit, EXPIRY, key, u);
      assert next.bucket.tokens == b.tokens + Gain(limit, b.lastRefill, u);
      assert replies[1..] == Replies(limit, EXPIRY, next, times[1..]);
      DenialsOnlyRefill(limit, next, times[1..]);
      assert u <= times[|times| - 1];
      GainFacts(limit, b.lastRefill, u, times[|times| - 1]);
    }
  }

  lemma CallAdmits(limit: int, ttl: real, key: Key, now: real)
    ensures var (next, reply) := Call(limit, ttl, key, now);
            && (reply.allowed <==> OnHand(limit, key, now) >= 1.0)
            && (!reply.allowed ==> next.Present? && next.bucket.tokens == OnHand(limit, key, now))
            && (!reply.allowed && Rate(limit) > 0.0 ==>
                  reply.retryAfter == Ceil((1.0 - OnHand(limit, key, now)) / Rate(limit)))
  {
    hide ResetAt, Ceil, Gain;
  }

  /** What the middleware sends as Retry-After. */
  function Clamped(retryAfter: int): int {
    if retryAfter > 3600 then 3600 else if retryAfter < 1 then 1 else retryAfter
  }

  /** The middleware keeps the value between a second and an hour. */
  lemma ClampedIsNearest(retryAfter: int, other: int)
    ensures 1 <= Clamped(retryAfter) <= 3600
    ensures 1 <= retryAfter <= 3600 ==> Clamped(retryAfter) == retryAfter
    ensures 1 <= other <= 3600 && retryAfter < 1 ==> Clamped(retryAfter) <= other
    ensures 1 <= other <= 3600 && retryAfter > 3600 ==> Clamped(retryAfter) >= other
  {
  }

  lemma RetryWithinMinute(limit: int, tokens: real)
    requires limit >= 1 && 0.0 <= tokens < 1.0
    ensures Rate(limit) > 0.0 && 1 <= Ceil((1.0 - tokens) / Rate(limit)) <= 60
  {
    hide Ceil;
    var r := Rate(limit);
    assert r > 0.0 && 60.0 * r == limit as real;
    QuotientBelow(1.0 - tokens, r, 60.0);
    QuotientBelow(1.0 - tokens, r, 0.0);
    CeilIsLeast((1.0 - tokens) / r, 60);
    CeilIsLeast((1.0 - tokens) / r, 0);
  }

  /** `retry_after` is exact: after a denial, whatever denied calls come between,
      a call `d` whole seconds later is admitted exactly when d >= retry_after;
      and the middleware's clamp never changes it. */
  lemma RetryAfterIsExact(limit: int, key: Key, times: seq<real>, start: real, d: int)
    requires limit >= 1 && Sane(limit, EXPIRY, key, start) && Ascending([start] + times) && |times| >= 2
    requires forall i | 0 <= i < |times| - 1 :: !Replies(limit, EXPIRY, key, times)[i].allowed
    requires times[|times| - 1] == times[0] + d as real
    ensures var replies := Replies(limit, EXPIRY, key, times);
            && (replies[|times| - 1].allowed <==> d >= replies[0].retryAfter)
            && 1 <= replies[0].retryAfter <= 60
            && Clamped(replies[0].retryAfter) == replies[0].retryAfter
  {
    hide Call, OnHand, Ceil, Gain, Rate, Clamped, Sane;
    FirstDenial(limit, key, times, start);
    var u, next := times[0], Call(limit, EXPIRY, key, times[0]).0;
    LaterDenials(limit, key, times);
    DenialsOnlyRefill(limit, next, times[1..]);
    RetryWithinMinute(limit, next.bucket.tokens);
    TokenArrives(limit, next.bucket.tokens, u, d);
    ClampedIsNearest(Replies(limit, EXPIRY, key, times)[0].retryAfter, 1);
  }

  /** What the first call leaves if it is denied. */
  lemma FirstDenial(limit: int, key: Key, times: seq<real>, start: real)
    requires limit >= 1 && Sane(limit, EXPIRY, key, start) && Ascending([start] + times) && |times| >= 2
    requires !Replies(limit, EXPIRY, key, times)[0].allowed
    ensures var (next, reply) := Call(limit, EXPIRY, key, times[0]);
            && reply == Replies(limit, EXPIRY, key, times)[0] && Rate(limit) > 0.0
            && next.Present? && next.bucket.lastRefill == times[0] && 0.0 <= next.bucket.tokens < 1.0
            && Sane(limit, EXPIRY, next, times[0]) && Ascending([times[0]] + times[1..])
            && reply.retryAfter == Ceil((1.0 - next.bucket.tokens) / Rate(limit))
  {
    hide Call, OnHand, Ceil, Gain;
    var u := times[0];
    AscendingTail(start, times);
    CallKeepsSane(limit, EXPIRY, key, u);
    CallAdmits(limit, EXPIRY, key, u);
    OnHandIs(limit, EXPIRY, key, u);
  }

  lemma LaterDenials(limit: int, key: Key, times: seq<real>)
    requires |times| >= 2
    requires forall i | 0 <= i < |times| - 1 :: !Replies(limit, EXPIRY, key, times)[i].allowed
    ensures var next := Call(limit, EXPIRY, key, times[0]).0;
            && Replies(limit, EXPIRY, key, times)[1..] == Replies(limit, EXPIRY, next, times[1..])
            && forall i | 0 <= i < |times[1..]| - 1 :: !Replies(limit, EXPIRY, next, times[1..])[i].allowed
  {
    hide Call;
    var replies, next := Replies(limit, EXPIRY, key, times), Call(limit, EXPIRY, key, times[0]).0;
    assert replies[1..] == Replies(limit, EXPIRY, next, times[1..]);
    forall i | 0 <= i < |times[1..]| - 1 ensures !Replies(limit, EXPIRY, next, times[1..])[i].allowed {
      assert replies[1..][i] == replies[i + 1];
    }
  }

  lemma TokenArrives(limit: int, tokens: real, now: real, d: int)
    requires limit >= 1
    ensures Rate(limit) > 0.0
    ensures tokens + Gain(limit, now, now + d as real) >= 1.0 <==> d >= Ceil((1.0 - tokens) / Rate(limit))
  {
    hide Ceil;
    assert Gain(limit, now, now + d as real) == d as real * Rate(limit);
    QuotientBelow(1.0 - tokens, Rate(limit), d as real);
    CeilIsLeast((1.0 - tokens) / Rate(limit), d);
  }

  /** With a limit of zero every call is denied and told to retry in a minute. */
  lemma {:induction false} ZeroLimitNeverAdmits(key: Key, times: seq<real>, start: real)
    requires Sane(0, EXPIRY, key, start) && Ascending([start] + times)
    ensures forall i | 0 <= i < |times| ::
              !Replies(0, EXPIRY, key, times)[i].allowed && Replies(0, EXPIRY, key, times)[i].retryAfter == 60
    decreases |times|
  {
    hide ResetAt, Ceil;
    if times != [] {
      AscendingTail(start, times);
      CallKeepsSane(0, EXPIRY, key, times[0]);
      ZeroLimitNeverAdmits(Call(0, EXPIRY, key, times[0]).0, times[1..], times[0]);
      OnHandIs(0, EXPIRY, key, times[0]);
    }
  }

  /** An admission carries no retry_after, a denial no remaining calls; and with a
      limit of zero the bucket counts as full at the next whole second. */
  lemma RepliesAreComplete(limit: int, key: Key, now: real, t: int)
    ensures var reply := Call(limit, EXPIRY, key, now).1;
            && (reply.allowed ==> reply.retryAfter == -1)
            && (!reply.allowed ==> reply.remaining == 0)
            && (limit == 0 ==> (t >= reply.resetAt <==> t as real >= now))
  {
    hide Refilled, Ceil;
    CeilIsLeast(now, t);
  }

  /** A key lives for two minutes after its last call. */
  lemma KeyLivesTwoMinutes(limit: int, key: Key, now: real, later: real)
    ensures Visible(Call(limit, EXPIRY, key, now).0, later).Some? <==> later < now + 120.0
  {
    hide Script;
  }

  // ----- remaining and reset_at --------------------------------------------

  function Repeated(now: real, n: nat): (r: seq<real>)
    ensures |r| == n && forall i | 0 <= i < n :: r[i] == now
  {
    if n == 0 then [] else [now] + Repeated(now, n - 1)
  }

  /** After a call at `now`, exactly the whole tokens left are still to be had at
      that moment. */
  lemma {:induction false} WholeTokensAreAdmitted(limit: int, key: Key, now: real, n: nat, i: nat)
    requires limit >= 0 && Sane(limit, EXPIRY, key, now) && key.Present? && key.bucket.lastRefill == now && i < n
    ensures Replies(limit, EXPIRY, key, Repeated(now, n))[i].allowed <==> i < key.bucket.tokens.Floor
    decreases n
  {
    hide Ceil, ResetAt, Gain;
    var next := Call(limit, EXPIRY, key, now).0;
    CallKeepsSane(limit, EXPIRY, key, now);
    if i > 0 {
      WholeTokensAreAdmitted(limit, next, now, n - 1, i - 1);
      assert Repeated(now, n)[1..] == Repeated(now, n - 1);
    }
  }

  /** `remaining` is exact: of any further calls at the same moment, so many are
      admitted and no more. */
  lemma RemainingIsExact(limit: int, key: Key, now: real, n: nat, i: nat)
    requires limit >= 0 && Sane(limit, EXPIRY, key, now) && i < n
    ensures var (next, reply) := Call(limit, EXPIRY, key, now);
            Replies(limit, EXPIRY, next, Repeated(now, n))[i].allowed <==> i < reply.remaining
  {
    hide Ceil, ResetAt, Gain;
    CallKeepsSane(limit, EXPIRY, key, now);
    WholeTokensAreAdmitted(limit, Call(limit, EXPIRY, key, now).0, now, n, i);
  }

  /** `reset_at` is exact: the first whole second from now on at which the bucket,
      left alone, is full. */
  lemma ResetAtIsExact(limit: int, key: Key, now: real, t: int)
    requires limit >= 1 && Sane(limit, EXPIRY, key, now)
    ensures var (next, reply) := Call(limit, EXPIRY, key, now);
            t >= reply.resetAt <==> t as real >= now && next.bucket.tokens + Gain(limit, now, t as real) >= limit as real
  {
    hide Ceil, Script;
    CallKeepsSane(limit, EXPIRY, key, now);
    var (next, reply) := Call(limit, EXPIRY, key, now);
    ResetAtOf(limit, key, now);
    var needed := limit as real - next.bucket.tokens;
    assert Rate(limit) > 0.0;
    CeilIsLeast(now, t);
    if needed > 0.0 {
      CeilIsLeast(now + needed / Rate(limit), t);
      QuotientBelow(needed, Rate(limit), t as real - now);
      QuotientBelow(needed, Rate(limit), 0.0);
    } else {
      GainSign(limit, now, t as real);
    }
  }

  lemma ResetAtOf(limit: int, key: Key, now: real)
    ensures var (next, reply) := Call(limit, EXPIRY, key, now);
            reply.resetAt == ResetAt(limit, next.bucket.tokens, now)
  {
    hide ResetAt, Ceil, Refilled;
  }

  lemma GainSign(limit: int, from: real, to: real)
    requires limit >= 0
    ensures to >= from ==> Gain(limit, from, to) >= 0.0
  {
  }
}
