/** The token-bucket limiter (internal/ratelimit/ratelimit.go). float64 is `real`; the clock is an
    argument. The exact specification quantifies over every window ending now: a call is allowed
    if and only if no window would then have admitted more than burst plus rate times length.

    The proofs use the refill only through its linearity, so a bucket carries the function from
    elapsed seconds to tokens; `Inflow(rate)` is the one the limiter uses. */
module TokenBucket {
  import opened Base

  datatype Bucket = Bucket(flow: real -> real, burst: real, tokens: real, last: real)

  /** A call to Allow. */
  datatype Call = Call(time: real, cost: int)

  /** Tokens that flow in over some seconds at this rate. */
  function Inflow(rate: real): real -> real {
    (seconds: real) => seconds * rate
  }

  ghost predicate Splits(flow: real -> real, x: real, y: real) {
    flow(x + y) == flow(x) + flow(y)
  }

  ghost predicate Linear(flow: real -> real) {
    && flow(0.0) == 0.0
    && (forall x: real :: x >= 0.0 ==> flow(x) >= 0.0)
    && (forall x: real, y: real :: Splits(flow, x, y))
  }

  ghost predicate Valid(b: Bucket) {
    Linear(b.flow) && b.burst >= 1.0 && 0.0 <= b.tokens <= b.burst
  }

  lemma {:induction false} ProductNonNegative(x: real, y: real)
    requires x >= 0.0 && y >= 0.0
    ensures x * y >= 0.0
  {
  }

  lemma {:induction false} InflowIsLinear(rate: real)
    requires rate > 0.0
    ensures Linear(Inflow(rate))
  {
    var flow := Inflow(rate);
    forall x: real | x >= 0.0
      ensures flow(x) >= 0.0
    {
      ProductNonNegative(x, rate);
    }
    forall x: real, y: real
      ensures Splits(flow, x, y)
    {
      assert (x + y) * rate == x * rate + y * rate;
    }
  }

  /** New: no limiter for a rate of zero or less; a burst of zero or less becomes one; full at creation. */
  function New(rate: real, burst: int, now: real): (r: Option<Bucket>)
    ensures r.Some? <==> rate > 0.0
    ensures r.Some? ==> r.value.burst >= 1.0 && r.value.tokens == r.value.burst && r.value.last == now
    ensures r.Some? ==> r.value.flow == Inflow(rate) && r.value.burst == (if burst > 0 then burst as real else 1.0)
  {
    if rate <= 0.0 then None
    else
      var b := if burst <= 0 then 1.0 else burst as real;
      Some(Bucket(Inflow(rate), b, b, now))
  }

  function Min(a: real, b: real): real {
    if a < b then a else b
  }

  /** Tokens in the bucket at `now`, before paying for anything. */
  function Refilled(b: Bucket, now: real): real {
    if now - b.last > 0.0 then Min(b.burst, b.tokens + b.flow(now - b.last)) else b.tokens
  }

  predicate Allows(b: Bucket, c: Call) {
    c.cost <= 0 || Refilled(b, c.time) >= c.cost as real
  }

  /** A cost of zero or less is allowed without touching the bucket, not even its clock. */
  function After(b: Bucket, c: Call): Bucket {
    if c.cost <= 0 then b
    else
      var tokens := Refilled(b, c.time);
      b.(tokens := if tokens >= c.cost as real then tokens - c.cost as real else tokens,
         last := if c.time - b.last > 0.0 then c.time else b.last)
  }

  class Limiter {
    const rate: real
    const burst: real
    var tokens: real
    var last: real

    ghost function Value(): Bucket
      reads this
    {
      Bucket(Inflow(rate), burst, tokens, last)
    }

    constructor (rate: real, burst: real, now: real)
      ensures Value() == Bucket(Inflow(rate), burst, burst, now)
    {
      this.rate, this.burst := rate, burst;
      tokens, last := burst, now;
    }

    method Allow(cost: int, now: real) returns (ok: bool)
      modifies this
      ensures ok == Allows(old(Value()), Call(now, cost))
      ensures Value() == After(old(Value()), Call(now, cost))
    {
      if cost <= 0 {
        return true;
      }
      var elapsed := now - last;
      if elapsed > 0.0 {
        tokens := tokens + elapsed * rate;
        if tokens > burst {
          tokens := burst;
        }
        last := now;
      }
      var needed := cost as real;
      if tokens < needed {
        return false;
      }
      tokens := tokens - needed;
      return true;
    }
  }

  // ---------------------------------------------------------------------------------------
  // Histories

  /** The bucket after a whole history of calls. */
  function Play(b: Bucket, history: seq<Call>): Bucket {
    if history == [] then b
    else After(Play(b, history[..|history| - 1]), history[|history| - 1])
  }

  /** The clock never runs backwards, and never before creation. */
  predicate Ordered(created: real, history: seq<Call>) {
    && (forall i :: 0 <= i < |history| ==> created <= history[i].time)
    && (forall i, j :: 0 <= i < j < |history| ==> history[i].time <= history[j].time)
  }

  predicate NotBefore(created: real, history: seq<Call>, now: real) {
    created <= now && (history != [] ==> history[|history| - 1].time <= now)
  }

  /** A limiter created full, asked at `now` after this history. */
  ghost predicate Fresh(b: Bucket, history: seq<Call>, now: real) {
    Valid(b) && b.tokens == b.burst && Ordered(b.last, history) && NotBefore(b.last, history, now)
  }

  /** Cost actually admitted by call i. */
  function Paid(b: Bucket, history: seq<Call>, i: nat): real
    requires i < |history|
  {
    if history[i].cost > 0 && Allows(Play(b, history[..i]), history[i]) then history[i].cost as real else 0.0
  }

  /** Cost admitted at time `start` or later. */
  function AdmittedSince(b: Bucket, history: seq<Call>, start: real): real {
    if history == [] then 0.0
    else
      var n := |history| - 1;
      AdmittedSince(b, history[..n], start) + (if history[n].time >= start then Paid(b, history, n) else 0.0)
  }

  /** What the window from `start` to `now` may still admit. */
  function Slack(b: Bucket, history: seq<Call>, start: real, now: real): real {
    b.burst + b.flow(now - start) - AdmittedSince(b, history, start)
  }

  /** The declarative limiter: every window that ends now has room for the cost. */
  ghost predicate EveryWindowHasRoom(b: Bucket, history: seq<Call>, cost: int, now: real) {
    forall start: real :: b.last <= start <= now ==> cost as real <= Slack(b, history, start, now)
  }

  lemma {:induction false} AfterKeepsValid(b: Bucket, c: Call)
    requires Valid(b)
    ensures Valid(After(b, c)) && After(b, c).flow == b.flow && After(b, c).burst == b.burst
    ensures 0.0 <= Refilled(b, c.time) <= b.burst
  {
  }

  /** Tokens stay between zero and burst in every run, and the bucket's clock follows the calls. */
  lemma {:induction false} PlayKeepsValid(b: Bucket, history: seq<Call>)
    requires Valid(b) && Ordered(b.last, history)
    ensures Valid(Play(b, history))
    ensures Play(b, history).flow == b.flow && Play(b, history).burst == b.burst
    ensures b.last <= Play(b, history).last
    ensures history != [] ==> Play(b, history).last <= history[|history| - 1].time
    ensures history == [] ==> Play(b, history).last == b.last
  {
    if history != [] {
      var n := |history| - 1;
      PlayKeepsValid(b, history[..n]);
      AfterKeepsValid(Play(b, history[..n]), history[n]);
    }
  }

  lemma {:induction false} TokensInRange(b: Bucket, history: seq<Call>, now: real)
    requires Valid(b) && Ordered(b.last, history)
    ensures 0.0 <= Refilled(Play(b, history), now) <= b.burst
  {
    PlayKeepsValid(b, history);
    AfterKeepsValid(Play(b, history), Call(now, 1));
  }

  /** Refilling is exactly a clipped linear function once the clock is not behind. */
  lemma {:induction false} RefilledIs(b: Bucket, now: real)
    requires Valid(b) && b.last <= now
    ensures Refilled(b, now) == Min(b.burst, b.tokens + b.flow(now - b.last))
  {
    if now == b.last {
      assert now - b.last == 0.0;
    }
  }

  /** Nothing was admitted after the last call. */
  lemma {:induction false} NothingAdmittedAfter(b: Bucket, history: seq<Call>, start: real)
    requires forall i :: 0 <= i < |history| ==> history[i].time < start
    ensures AdmittedSince(b, history, start) == 0.0
  {
    if history != [] {
      NothingAdmittedAfter(b, history[..|history| - 1], start);
    }
  }

  /** One more call lowers the slack of every window it falls into by what it paid. */
  lemma {:induction false} SlackAfterCall(b: Bucket, history: seq<Call>, start: real, now: real)
    requires Linear(b.flow) && history != [] && start <= history[|history| - 1].time
    ensures
      var n := |history| - 1;
      var t := history[n].time;
      Slack(b, history, start, now) == Slack(b, history[..n], start, t) + b.flow(now - t) - Paid(b, history, n)
  {
    var t := history[|history| - 1].time;
    assert Splits(b.flow, t - start, now - t);
    assert (t - start) + (now - t) == now - start;
  }

  /** Windows opened after the last call have their whole allowance. */
  lemma {:induction false} SlackBeyondLast(b: Bucket, history: seq<Call>, start: real, now: real)
    requires Valid(b) && Ordered(b.last, history) && start <= now
    requires history != [] ==> history[|history| - 1].time < start
    ensures b.burst <= Slack(b, history, start, now)
    ensures start == now ==> Slack(b, history, start, now) == b.burst
  {
    NothingAdmittedAfter(b, history, start);
    assert start == now ==> now - start == 0.0;
  }

  /** `tightest` opens at a call or now, has exactly the tokens as slack, and no window has less. */
  ghost predicate IsTightest(b: Bucket, history: seq<Call>, now: real, tightest: real) {
    && b.last <= tightest <= now
    && (tightest == now || exists i :: 0 <= i < |history| && history[i].time == tightest)
    && Refilled(Play(b, history), now) == Slack(b, history, tightest, now)
    && forall start: real :: b.last <= start <= now ==> Refilled(Play(b, history), now) <= Slack(b, history, start, now)
  }

  lemma {:induction false} TightestAtCreation(b: Bucket, now: real)
    requires Fresh(b, [], now)
    ensures IsTightest(b, [], now, now)
  {
    RefilledIs(b, now);
    forall start: real | b.last <= start <= now
      ensures b.burst <= Slack(b, [], start, now)
      ensures start == now ==> Slack(b, [], start, now) == b.burst
    {
      SlackBeyondLast(b, [], start, now);
    }
  }

  /** A call that costs nothing changes neither tokens nor windows. */
  lemma {:induction false} TightestAfterFreeCall(b: Bucket, history: seq<Call>, now: real, tightest: real)
    requires history != [] && history[|history| - 1].cost <= 0
    requires IsTightest(b, history[..|history| - 1], now, tightest)
    ensures IsTightest(b, history, now, tightest)
  {
    var h := history[..|history| - 1];
    forall start: real
      ensures Slack(b, history, start, now) == Slack(b, h, start, now)
    {
      assert AdmittedSince(b, history, start) == AdmittedSince(b, h, start);
    }
    assert forall i :: 0 <= i < |h| ==> h[i] == history[i];
  }

  /** A call that costs something: what is left of the earlier tokens, plus what flowed in since. */
  lemma {:induction false} TokensAfterPaidCall(b: Bucket, history: seq<Call>, now: real)
    requires Fresh(b, history, now) && history != [] && history[|history| - 1].cost > 0
    ensures
      var n := |history| - 1;
      var left := Refilled(Play(b, history[..n]), history[n].time) - Paid(b, history, n);
      && Refilled(Play(b, history), now) == Min(b.burst, left + b.flow(now - history[n].time))
      && left <= b.burst
  {
    var n := |history| - 1;
    PlayKeepsValid(b, history[..n]);
    AfterKeepsValid(Play(b, history[..n]), history[n]);
    RefilledIs(Play(b, history), now);
  }

  lemma {:induction false} TightestAfterPaidCall(b: Bucket, history: seq<Call>, now: real, earlier: real) returns (tightest: real)
    requires Fresh(b, history, now) && history != [] && history[|history| - 1].cost > 0
    requires IsTightest(b, history[..|history| - 1], history[|history| - 1].time, earlier)
    ensures IsTightest(b, history, now, tightest)
  {
    var n := |history| - 1;
    var h, t := history[..n], history[n].time;
    TokensAfterPaidCall(b, history, now);
    forall start: real | b.last <= start <= now
      ensures Refilled(Play(b, history), now) <= Slack(b, history, start, now)
    {
      if start <= t {
        SlackAfterCall(b, history, start, now);
      } else {
        SlackBeyondLast(b, history, start, now);
      }
    }
    if now > t && Refilled(Play(b, history), now) == b.burst {
      SlackBeyondLast(b, history, now, now);
      tightest := now;
    } else {
      SlackAfterCall(b, history, earlier, now);
      assert now == t ==> now - t == 0.0;
      assert forall i :: 0 <= i < |h| ==> h[i] == history[i];
      tightest := earlier;
    }
  }

  /** The tokens at any moment are the smallest slack over all windows ending then. */
  lemma {:induction false} TokensAreTightestWindow(b: Bucket, history: seq<Call>, now: real) returns (tightest: real)
    requires Fresh(b, history, now)
    ensures IsTightest(b, history, now, tightest)
    decreases |history|
  {
    if history == [] {
      TightestAtCreation(b, now);
      return now;
    }
    var n := |history| - 1;
    if history[n].cost <= 0 {
      tightest := TokensAreTightestWindow(b, history[..n], now);
      TightestAfterFreeCall(b, history, now, tightest);
    } else {
      var earlier := TokensAreTightestWindow(b, history[..n], history[n].time);
      tightest := TightestAfterPaidCall(b, history, now, earlier);
    }
  }

  /** The constant-space limiter is exactly the specification over all windows, and it is enough
      to look at the windows that open at a call or now. */
  lemma {:induction false} AllowIsExact(b: Bucket, history: seq<Call>, cost: int, now: real)
    requires Fresh(b, history, now) && cost > 0
    ensures Allows(Play(b, history), Call(now, cost)) <==> EveryWindowHasRoom(b, history, cost, now)
    ensures Allows(Play(b, history), Call(now, cost)) <==>
            && cost as real <= Slack(b, history, now, now)
            && forall i :: 0 <= i < |history| ==> cost as real <= Slack(b, history, history[i].time, now)
  {
    var tightest := TokensAreTightestWindow(b, history, now);
  }

  /** In the source's own numbers: what the window has admitted, plus this cost, is at most
      burst + rate * seconds. */
  predicate WindowHasRoom(b: Bucket, rate: real, history: seq<Call>, cost: int, start: real, now: real) {
    AdmittedSince(b, history, start) + cost as real <= b.burst + (now - start) * rate
  }

  lemma {:induction false} RoomIsSlack(b: Bucket, rate: real, history: seq<Call>, cost: int, start: real, now: real)
    requires b.flow == Inflow(rate)
    ensures WindowHasRoom(b, rate, history, cost, start, now) <==> cost as real <= Slack(b, history, start, now)
  {
    assert b.flow(now - start) == (now - start) * rate;
  }

  /** A limiter made by New answers true exactly when every window since its creation has room. */
  lemma {:induction false} LimiterIsExact(rate: real, burst: int, created: real, history: seq<Call>, cost: int, now: real)
    requires rate > 0.0 && cost > 0 && Ordered(created, history) && NotBefore(created, history, now)
    ensures
      var b := New(rate, burst, created).value;
      Allows(Play(b, history), Call(now, cost)) <==>
        forall start: real :: created <= start <= now ==> WindowHasRoom(b, rate, history, cost, start, now)
  {
    InflowIsLinear(rate);
    var b := New(rate, burst, created).value;
    AllowIsExact(b, history, cost, now);
    forall start: real
      ensures WindowHasRoom(b, rate, history, cost, start, now) <==> cost as real <= Slack(b, history, start, now)
    {
      RoomIsSlack(b, rate, history, cost, start, now);
    }
  }

  /** No window ever admits more than its allowance. */
  lemma {:induction false} NoWindowExceedsItsAllowance(b: Bucket, history: seq<Call>, start: real, now: real)
    requires Fresh(b, history, now) && b.last <= start <= now
    ensures AdmittedSince(b, history, start) <= b.burst + b.flow(now - start)
  {
    var tightest := TokensAreTightestWindow(b, history, now);
    TokensInRange(b, history, now);
    assert Refilled(Play(b, history), now) <= Slack(b, history, start, now);
  }

  // ---------------------------------------------------------------------------------------
  // Starvation

  /** A cost above the burst is never allowed, at any time, after any history. */
  lemma {:induction false} AboveBurstIsNeverAllowed(b: Bucket, history: seq<Call>, cost: int, now: real)
    requires Valid(b) && Ordered(b.last, history) && cost > 0 && cost as real > b.burst
    ensures !Allows(Play(b, history), Call(now, cost))
  {
    TokensInRange(b, history, now);
  }

  /** When the last call was made, or the limiter created. */
  function QuietSince(created: real, history: seq<Call>): real {
    if history == [] then created else history[|history| - 1].time
  }

  lemma {:induction false} LongWaitFills(rate: real, burst: real, wait: real)
    requires rate > 0.0 && wait >= burst / rate
    ensures Inflow(rate)(wait) >= burst
  {
    ProductNonNegative(wait - burst / rate, rate);
    assert (burst / rate) * rate == burst;
  }

  /** A cost within the burst is allowed after burst/rate seconds without other calls. */
  lemma {:induction false} WithinBurstIsEventuallyAllowed(b: Bucket, rate: real, history: seq<Call>, cost: int, now: real)
    requires Valid(b) && rate > 0.0 && b.flow == Inflow(rate) && Ordered(b.last, history)
    requires cost as real <= b.burst && now >= QuietSince(b.last, history) + b.burst / rate
    ensures Allows(Play(b, history), Call(now, cost))
  {
    PlayKeepsValid(b, history);
    var p := Play(b, history);
    assert b.burst / rate >= 0.0;
    LongWaitFills(rate, b.burst, now - p.last);
    RefilledIs(p, now);
  }

  function Ceil(x: real): int {
    if x.Floor as real == x then x.Floor else x.Floor + 1
  }

  /** The burst NewHandlerWithSchema gives the byte limiter. */
  function ByteBurst(configured: int, bytesPerSecond: real, maxRequestBytes: int): int {
    if configured > 0 then configured
    else if Ceil(bytesPerSecond) > maxRequestBytes then Ceil(bytesPerSecond)
    else maxRequestBytes
  }

  ghost predicate EventuallyAllowed(b: Bucket, history: seq<Call>, cost: int) {
    exists now: real :: NotBefore(b.last, history, now) && Allows(Play(b, history), Call(now, cost))
  }

  /** From every reachable state, every body the size limit lets through is eventually allowed if
      and only if the burst is at least the size limit; the derived default always is. */
  lemma {:induction false} BodiesAreNotStarved(configured: int, bytesPerSecond: real, maxRequestBytes: int, created: real, history: seq<Call>)
    requires bytesPerSecond > 0.0 && maxRequestBytes > 0 && Ordered(created, history)
    ensures
      var b := New(bytesPerSecond, ByteBurst(configured, bytesPerSecond, maxRequestBytes), created).value;
      (forall size :: 0 <= size <= maxRequestBytes ==> EventuallyAllowed(b, history, size))
      <==> configured <= 0 || configured >= maxRequestBytes
  {
    InflowIsLinear(bytesPerSecond);
    var b := New(bytesPerSecond, ByteBurst(configured, bytesPerSecond, maxRequestBytes), created).value;
    if configured <= 0 || configured >= maxRequestBytes {
      var now := QuietSince(created, history) + b.burst / bytesPerSecond;
      assert b.burst / bytesPerSecond >= 0.0;
      forall size | 0 <= size <= maxRequestBytes
        ensures EventuallyAllowed(b, history, size)
      {
        WithinBurstIsEventuallyAllowed(b, bytesPerSecond, history, size, now);
      }
    } else {
      forall now: real
        ensures !Allows(Play(b, history), Call(now, maxRequestBytes))
      {
        AboveBurstIsNeverAllowed(b, history, maxRequestBytes, now);
      }
      assert !EventuallyAllowed(b, history, maxRequestBytes);
    }
  }

  // ---------------------------------------------------------------------------------------
  // What costs nothing, and the derived burst

  /** A cost of zero or less is allowed at once from every state, and changes none. A second record out
      of the same read costs zero. */
  lemma {:induction false} NothingIsAlwaysAllowed(b: Bucket, history: seq<Call>, c: Call)
    requires c.cost <= 0
    ensures Allows(Play(b, history), c) && Play(b, history + [c]) == Play(b, history)
  {
    assert (history + [c])[..|history|] == history;
  }

  /** Without a configured burst the byte limiter's is the least that holds a second's worth of bytes
      and a whole request. */
  lemma {:induction false} DerivedBurstIsLeast(configured: int, bytesPerSecond: real, maxRequestBytes: int, burst: int)
    ensures configured > 0 ==> ByteBurst(configured, bytesPerSecond, maxRequestBytes) == configured
    ensures configured <= 0 ==>
      (ByteBurst(configured, bytesPerSecond, maxRequestBytes) <= burst <==>
        bytesPerSecond <= burst as real && maxRequestBytes <= burst)
  {
  }
}
