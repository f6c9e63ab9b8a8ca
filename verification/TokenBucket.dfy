/** `rateLimiter` (`internal/server/limits.go`) over the reals: a token bucket whose burst equals
    its rate. Seconds are reals; a missing limiter admits everything. */
module TokenBucket {

  datatype Bucket = Bucket(rate: real, burst: real, tokens: real, last: real)

  predicate Sound(b: Bucket) {
    b.rate >= 1.0 && b.burst >= 1.0 && 0.0 <= b.tokens <= b.burst
  }

  /** What arrives in `gap` seconds. */
  function Earn(rate: real, gap: real): real {
    gap * rate
  }

  /** `tokens` plus `gain`, capped. */
  function Fill(burst: real, tokens: real, gain: real): real {
    if tokens + gain > burst then burst else tokens + gain
  }

  /** What a request leaves: one token less when there was a whole one. */
  function Spend(level: real): real {
    if level >= 1.0 then level - 1.0 else level
  }

  /** The tokens there are at `now`, before a request takes one. */
  function Level(b: Bucket, now: real): real {
    Fill(b.burst, b.tokens, Earn(b.rate, now - b.last))
  }

  function AllowStep(b: Bucket, now: real): (Bucket, bool) {
    var level := Level(b, now);
    (b.(tokens := Spend(level), last := now), level >= 1.0)
  }

  class RateLimiter {
    const rate: real
    const burst: real
    var tokens: real
    var last: real

    function Value(): Bucket
      reads this
    {
      Bucket(rate, burst, tokens, last)
    }

    constructor (perSec: int, now: real)
      requires perSec > 0
      ensures Value() == Bucket(perSec as real, perSec as real, perSec as real, now) && Sound(Value())
    {
      rate, burst, tokens, last := perSec as real, perSec as real, perSec as real, now;
    }

    method Take(now: real) returns (ok: bool)
      modifies this
      ensures (Value(), ok) == AllowStep(old(Value()), now)
    {
      tokens := tokens + Earn(rate, now - last);
      last := now;
      if tokens > burst {
        tokens := burst;
      }
      assert tokens == Level(old(Value()), now);
      if tokens >= 1.0 {
        tokens := tokens - 1.0;
        return true;
      }
      return false;
    }
  }

  /** `newRateLimiter`: none when the configured rate is not positive. */
  method NewRateLimiter(perSec: int, now: real) returns (l: RateLimiter?)
    ensures l == null <==> perSec <= 0
    ensures l != null ==>
      var r := perSec as real;
      fresh(l) && Sound(l.Value()) && l.Value() == Bucket(r, r, r, now)
  {
    if perSec <= 0 {
      return null;
    }
    l := new RateLimiter(perSec, now);
  }

  /** `Allow`, which accepts a missing limiter. */
  method Allow(l: RateLimiter?, now: real) returns (ok: bool)
    modifies l
    ensures l == null ==> ok
    ensures l != null ==> (l.Value(), ok) == AllowStep(old(l.Value()), now)
  {
    if l == null {
      return true;
    }
    ok := l.Take(now);
  }

  // ----- runs -----

  /** The clock does not go back. */
  ghost predicate Monotone(b: Bucket, times: seq<real>) {
    && (forall i, j | 0 <= i < j < |times| :: times[i] <= times[j])
    && (times != [] ==> b.last <= times[0])
  }

  function After(b: Bucket, times: seq<real>): Bucket
    decreases |times|
  {
    if times == [] then b else After(AllowStep(b, times[0]).0, times[1..])
  }

  /** How many of the requests at `times` are admitted. */
  function Admitted(b: Bucket, times: seq<real>): nat
    decreases |times|
  {
    if times == [] then 0
    else (if AllowStep(b, times[0]).1 then 1 else 0) + Admitted(AllowStep(b, times[0]).0, times[1..])
  }

  // ----- the same runs, seen as gains -----

  /** What arrives before each request. */
  function Gains(rate: real, last: real, times: seq<real>): (g: seq<real>)
    ensures |g| == |times|
    decreases |times|
  {
    if times == [] then [] else [Earn(rate, times[0] - last)] + Gains(rate, times[0], times[1..])
  }

  function TokensAfter(burst: real, tokens: real, gains: seq<real>): real
    decreases |gains|
  {
    if gains == [] then tokens else TokensAfter(burst, Spend(Fill(burst, tokens, gains[0])), gains[1..])
  }

  /** How many requests pass when `gains[k]` arrives before request `k`. */
  function Passed(burst: real, tokens: real, gains: seq<real>): nat
    decreases |gains|
  {
    if gains == [] then 0
    else
      var level := Fill(burst, tokens, gains[0]);
      (if level >= 1.0 then 1 else 0) + Passed(burst, Spend(level), gains[1..])
  }

  function Sum(gains: seq<real>): real {
    if gains == [] then 0.0 else gains[0] + Sum(gains[1..])
  }

  ghost predicate NonNegative(gains: seq<real>) {
    forall k | 0 <= k < |gains| :: gains[k] >= 0.0
  }

  /** What passes is paid for by the tokens at hand and those that arrive. */
  lemma {:induction false} PassingIsPaid(burst: real, tokens: real, gains: seq<real>)
    requires burst >= 1.0 && 0.0 <= tokens <= burst && NonNegative(gains)
    ensures Passed(burst, tokens, gains) as real <= tokens + Sum(gains)
    ensures 0.0 <= TokensAfter(burst, tokens, gains) <= burst
    decreases |gains|
  {
    if gains != [] {
      PassingIsPaid(burst, Spend(Fill(burst, tokens, gains[0])), gains[1..]);
    }
  }

  /** Requests each preceded by a whole token all pass. */
  lemma {:induction false} WholeTokensPass(burst: real, tokens: real, gains: seq<real>)
    requires burst >= 1.0 && 0.0 <= tokens && (gains != [] ==> tokens + gains[0] >= 1.0)
    requires forall k | 0 < k < |gains| :: gains[k] >= 1.0
    ensures Passed(burst, tokens, gains) == |gains|
    decreases |gains|
  {
    if gains != [] {
      WholeTokensPass(burst, Spend(Fill(burst, tokens, gains[0])), gains[1..]);
    }
  }

  lemma {:induction false} RunIsGains(b: Bucket, times: seq<real>)
    ensures Admitted(b, times) == Passed(b.burst, b.tokens, Gains(b.rate, b.last, times))
    ensures After(b, times).tokens == TokensAfter(b.burst, b.tokens, Gains(b.rate, b.last, times))
    ensures After(b, times).rate == b.rate && After(b, times).burst == b.burst
    ensures After(b, times).last == if times == [] then b.last else times[|times| - 1]
    decreases |times|
  {
    if times != [] {
      var b' := AllowStep(b, times[0]).0;
      RunIsGains(b', times[1..]);
      var g := Gains(b.rate, b.last, times);
      assert g[1..] == Gains(b.rate, times[0], times[1..]);
    }
  }

  // ----- the arithmetic of gains -----

  lemma GainIsNonNegative(rate: real, gap: real)
    requires rate >= 1.0 && gap >= 0.0
    ensures Earn(rate, gap) >= 0.0
  {
  }

  lemma AddGaps(rate: real, a: real, b: real, c: real)
    ensures Earn(rate, b - a) + Earn(rate, c - b) == Earn(rate, c - a)
  {
  }

  lemma {:induction false} GainsAddUp(rate: real, last: real, times: seq<real>)
    requires times != []
    ensures Sum(Gains(rate, last, times)) == Earn(rate, times[|times| - 1] - last)
    decreases |times|
  {
    var g := Gains(rate, last, times);
    assert g[1..] == Gains(rate, times[0], times[1..]);
    if |times| > 1 {
      GainsAddUp(rate, times[0], times[1..]);
      AddGaps(rate, last, times[0], times[|times| - 1]);
    } else {
      assert g[1..] == [];
    }
  }

  lemma {:induction false} GainsAreNonNegative(b: Bucket, times: seq<real>)
    requires b.rate >= 1.0 && Monotone(b, times)
    ensures NonNegative(Gains(b.rate, b.last, times))
    decreases |times|
  {
    if times != [] {
      GainIsNonNegative(b.rate, times[0] - b.last);
      GainsAreNonNegative(b.(last := times[0]), times[1..]);
    }
  }

  // ----- what every run keeps -----

  /** Tokens stay within the bucket in every run. */
  lemma RunKeepsSound(b: Bucket, times: seq<real>)
    requires Sound(b) && Monotone(b, times)
    ensures Sound(After(b, times)) && After(b, times).rate == b.rate && After(b, times).burst == b.burst
  {
    RunIsGains(b, times);
    GainsAreNonNegative(b, times);
    PassingIsPaid(b.burst, b.tokens, Gains(b.rate, b.last, times));
  }

  lemma Widen(paid: real, burst: real, income: real, rate: real, x: real, y: real)
    requires rate >= 1.0 && x <= y && income == Earn(rate, x) && paid <= burst + income
    ensures paid <= burst + Earn(rate, y)
  {
    GainIsNonNegative(rate, y - x);
  }

  /** From a state whose clock is at the first request, what is admitted is at most the burst and what
      arrives until the last request. */
  lemma AdmittedSince(b: Bucket, times: seq<real>) returns (income: real)
    requires Sound(b) && Monotone(b, times) && times != []
    ensures Admitted(b, times) as real <= b.burst + income
    ensures income == Earn(b.rate, times[|times| - 1] - times[0])
  {
    var g := Gains(b.rate, b.last, times);
    RunIsGains(b, times);
    GainsAreNonNegative(b, times);
    var level := Fill(b.burst, b.tokens, g[0]);
    assert Passed(b.burst, b.tokens, g) == (if level >= 1.0 then 1 else 0) + Passed(b.burst, Spend(level), g[1..]);
    PassingIsPaid(b.burst, Spend(level), g[1..]);
    income := Sum(g[1..]);
    assert g[1..] == Gains(b.rate, times[0], times[1..]);
    if |times| > 1 {
      GainsAddUp(b.rate, times[0], times[1..]);
    } else {
      NoGap(b.rate, times[0]);
    }
  }

  lemma NoGap(rate: real, t: real)
    ensures Earn(rate, t - t) == 0.0
  {
  }

  lemma EarnIs(rate: real, gap: real)
    ensures Earn(rate, gap) == rate * gap
  {
  }

  /** The rate limit: in every run, the requests that fall into any window from `s` to `t` are admitted
      at most burst + rate * (t - s) times, whatever came before. */
  lemma WindowBound(b: Bucket, times: seq<real>, i: nat, j: nat, s: real, t: real)
    requires Sound(b) && Monotone(b, times) && i <= j <= |times|
    requires s <= t && forall k | i <= k < j :: s <= times[k] <= t
    ensures Admitted(After(b, times[..i]), times[i..j]) as real <= b.burst + b.rate * (t - s)
  {
    hide *;
    WindowEarns(b, times, i, j, s, t);
    EarnIs(b.rate, t - s);
  }

  lemma WindowEarns(b: Bucket, times: seq<real>, i: nat, j: nat, s: real, t: real)
    requires Sound(b) && Monotone(b, times) && i <= j <= |times|
    requires s <= t && forall k | i <= k < j :: s <= times[k] <= t
    ensures Admitted(After(b, times[..i]), times[i..j]) as real <= b.burst + Earn(b.rate, t - s)
  {
    RunKeepsSound(b, times[..i]);
    RunIsGains(b, times[..i]);
    var b1, window := After(b, times[..i]), times[i..j];
    if window == [] {
      GainIsNonNegative(b.rate, t - s);
    } else {
      var income := AdmittedSince(b1, window);
      Widen(Admitted(b1, window) as real, b.burst, income, b.rate, times[j - 1] - times[i], t - s);
    }
  }

  lemma {:induction false} SpacedGains(rate: real, last: real, times: seq<real>)
    requires forall k | 0 < k < |times| :: Earn(rate, times[k] - times[k - 1]) >= 1.0
    ensures forall k | 0 < k < |times| :: Gains(rate, last, times)[k] >= 1.0
    decreases |times|
  {
    if |times| > 1 {
      forall k | 0 < k < |times[1..]| ensures Earn(rate, times[1..][k] - times[1..][k - 1]) >= 1.0 {
        assert times[1..][k] == times[k + 1] && times[1..][k - 1] == times[k];
      }
      SpacedGains(rate, times[0], times[1..]);
      var rest := Gains(rate, times[0], times[1..]);
      assert rest[0] == Earn(rate, times[1..][0] - times[0]) && times[1..][0] == times[1];
      assert Gains(rate, last, times)[1..] == rest;
      forall k | 0 < k < |times| ensures Gains(rate, last, times)[k] >= 1.0 {
        assert Gains(rate, last, times)[k] == rest[k - 1];
      }
    }
  }

  /** Requests spaced at least 1/rate apart are all admitted, from any state with a whole token. */
  lemma SpacedRequestsPass(b: Bucket, times: seq<real>)
    requires Sound(b) && Monotone(b, times) && (times != [] ==> Level(b, times[0]) >= 1.0)
    requires forall k | 0 < k < |times| :: b.rate * (times[k] - times[k - 1]) >= 1.0
    ensures Admitted(b, times) == |times|
  {
    hide *;
    forall k | 0 < k < |times| ensures Earn(b.rate, times[k] - times[k - 1]) >= 1.0 {
      EarnIs(b.rate, times[k] - times[k - 1]);
    }
    SpacedGainsPass(b, times);
  }

  lemma SpacedGainsPass(b: Bucket, times: seq<real>)
    requires Sound(b) && Monotone(b, times) && (times != [] ==> Level(b, times[0]) >= 1.0)
    requires forall k | 0 < k < |times| :: Earn(b.rate, times[k] - times[k - 1]) >= 1.0
    ensures Admitted(b, times) == |times|
  {
    RunIsGains(b, times);
    SpacedGains(b.rate, b.last, times);
    WholeTokensPass(b.burst, b.tokens, Gains(b.rate, b.last, times));
  }

  /** In particular a fresh limiter admits them all. */
  lemma FreshLimiterPassesSpaced(perSec: int, now: real, times: seq<real>)
    requires perSec > 0 && Monotone(Bucket(perSec as real, perSec as real, perSec as real, now), times)
    requires forall k | 0 < k < |times| :: (perSec as real) * (times[k] - times[k - 1]) >= 1.0
    ensures Admitted(Bucket(perSec as real, perSec as real, perSec as real, now), times) == |times|
  {
    var b := Bucket(perSec as real, perSec as real, perSec as real, now);
    if times != [] {
      GainIsNonNegative(b.rate, times[0] - now);
    }
    SpacedRequestsPass(b, times);
  }

  // ----- exactly when a request is refused -----

  lemma {:induction false} AfterOneMore(b: Bucket, times: seq<real>, t: real)
    ensures After(b, times + [t]) == AllowStep(After(b, times), t).0
    ensures Admitted(b, times + [t]) == Admitted(b, times) + if AllowStep(After(b, times), t).1 then 1 else 0
    decreases |times|
  {
    hide AllowStep;
    if times == [] {
      assert [t][1..] == [] && times + [t] == [t];
      assert After(AllowStep(b, t).0, []) == AllowStep(b, t).0 && Admitted(AllowStep(b, t).0, []) == 0;
    } else {
      assert (times + [t])[1..] == times[1..] + [t];
      AfterOneMore(AllowStep(b, times[0]).0, times[1..], t);
    }
  }

  /** How many of the requests from `j` on were admitted before request `n`. */
  function AdmittedBetween(b: Bucket, times: seq<real>, j: nat, n: nat): real
    requires j <= n <= |times|
  {
    Admitted(After(b, times[..j]), times[j..n]) as real
  }

  /** What the window from request `j` to request `n` still allows. */
  function Room(b: Bucket, times: seq<real>, j: nat, n: nat): real
    requires j <= n < |times|
  {
    b.burst + Earn(b.rate, times[n] - times[j]) - AdmittedBetween(b, times, j, n)
  }

  lemma {:induction false} AfterParts(b: Bucket, times: seq<real>, j: nat, n: nat)
    requires j <= n <= |times|
    ensures After(After(b, times[..j]), times[j..n]) == After(b, times[..n])
    decreases n
  {
    hide AllowStep;
    if j == n {
      assert times[j..n] == [];
    } else {
      AfterParts(b, times, j, n - 1);
      assert times[j..n] == times[j..n - 1] + [times[n - 1]] && times[..n] == times[..n - 1] + [times[n - 1]];
      AfterOneMore(b, times[..n - 1], times[n - 1]);
      AfterOneMore(After(b, times[..j]), times[j..n - 1], times[n - 1]);
    }
  }

  /** The level at request `n`. */
  function LevelAt(b: Bucket, times: seq<real>, n: nat): real
    requires n < |times|
  {
    Level(After(b, times[..n]), times[n])
  }

  lemma LevelSteps(b: Bucket, times: seq<real>, n: nat)
    requires n + 1 < |times|
    ensures LevelAt(b, times, n + 1) ==
            Fill(b.burst, Spend(LevelAt(b, times, n)), Earn(b.rate, times[n + 1] - times[n]))
  {
    assert times[..n + 1] == times[..n] + [times[n]];
    AfterOneMore(b, times[..n], times[n]);
    RunIsGains(b, times[..n]);
  }

  lemma RoomSteps(b: Bucket, times: seq<real>, j: nat, n: nat)
    requires j <= n && n + 1 < |times|
    ensures Room(b, times, j, n + 1) ==
            Room(b, times, j, n) + Earn(b.rate, times[n + 1] - times[n])
            - if LevelAt(b, times, n) >= 1.0 then 1.0 else 0.0
  {
    assert times[j..n + 1] == times[j..n] + [times[n]];
    AfterParts(b, times, j, n);
    AfterOneMore(After(b, times[..j]), times[j..n], times[n]);
    AddGaps(b.rate, times[j], times[n], times[n + 1]);
    assert AdmittedBetween(b, times, j, n + 1) ==
           AdmittedBetween(b, times, j, n) + if LevelAt(b, times, n) >= 1.0 then 1.0 else 0.0;
  }

  lemma RoomHere(b: Bucket, times: seq<real>, n: nat)
    requires n < |times|
    ensures Room(b, times, n, n) == b.burst
  {
    assert times[n..n] == [];
    NoGap(b.rate, times[n]);
  }

  /** From a full bucket, the level at a request is what the tightest window ending there still allows. */
  lemma {:induction false} LevelIsTightest(b: Bucket, times: seq<real>, n: nat) returns (j: nat)
    requires Sound(b) && b.tokens == b.burst && Monotone(b, times) && n < |times|
    ensures j <= n && LevelAt(b, times, n) == Room(b, times, j, n)
    ensures forall i: nat | i <= n :: LevelAt(b, times, n) <= Room(b, times, i, n)
    decreases n
  {
    hide Room, LevelAt, Fill, Spend;
    RoomHere(b, times, n);
    if n == 0 {
      FullAtFirst(b, times);
      j := 0;
    } else {
      j := LevelIsTightest(b, times, n - 1);
      forall i: nat | i < n
        ensures Room(b, times, i, n) == Room(b, times, i, n - 1) + Earn(b.rate, times[n] - times[n - 1])
                                        - if LevelAt(b, times, n - 1) >= 1.0 then 1.0 else 0.0
      {
        RoomSteps(b, times, i, n - 1);
      }
      LevelSteps(b, times, n - 1);
      FillIsLower(b.burst, LevelAt(b, times, n - 1), Earn(b.rate, times[n] - times[n - 1]));
      if LevelAt(b, times, n) == b.burst {
        j := n;
      }
    }
  }

  lemma FullAtFirst(b: Bucket, times: seq<real>)
    requires Sound(b) && b.tokens == b.burst && Monotone(b, times) && times != []
    ensures LevelAt(b, times, 0) == b.burst
  {
    assert times[..0] == [];
    GainIsNonNegative(b.rate, times[0] - b.last);
  }

  lemma FillIsLower(burst: real, level: real, gain: real)
    ensures
      var next := level - (if level >= 1.0 then 1.0 else 0.0) + gain;
      Fill(burst, Spend(level), gain) == if next > burst then burst else next
  {
  }

  /** A limiter that starts full is as permissive as its bound allows: a request is refused if and only if
      admitting it would put more than burst + rate * (t - s) into a window that ends with it. */
  lemma RefusedExactly(b: Bucket, times: seq<real>, n: nat)
    requires Sound(b) && b.tokens == b.burst && Monotone(b, times) && n < |times|
    ensures !AllowStep(After(b, times[..n]), times[n]).1 <==>
            exists j: nat :: j <= n
              && Admitted(After(b, times[..j]), times[j..n]) as real + 1.0 > b.burst + b.rate * (times[n] - times[j])
  {
    hide *;
    RefusedWithoutRoom(b, times, n);
    forall j: nat | j <= n
      ensures Room(b, times, j, n) < 1.0 <==>
              Admitted(After(b, times[..j]), times[j..n]) as real + 1.0 > b.burst + b.rate * (times[n] - times[j])
    {
      RoomIs(b, times, j, n);
      EarnIs(b.rate, times[n] - times[j]);
    }
  }

  lemma RoomIs(b: Bucket, times: seq<real>, j: nat, n: nat)
    requires j <= n < |times|
    ensures Room(b, times, j, n) ==
            b.burst + Earn(b.rate, times[n] - times[j]) - Admitted(After(b, times[..j]), times[j..n]) as real
  {
    hide Earn;
  }

  lemma RefusedWithoutRoom(b: Bucket, times: seq<real>, n: nat)
    requires Sound(b) && b.tokens == b.burst && Monotone(b, times) && n < |times|
    ensures !AllowStep(After(b, times[..n]), times[n]).1 <==> exists j: nat :: j <= n && Room(b, times, j, n) < 1.0
  {
    hide Room, Earn;
    var j := LevelIsTightest(b, times, n);
    assert AllowStep(After(b, times[..n]), times[n]).1 <==> LevelAt(b, times, n) >= 1.0;
  }
}
