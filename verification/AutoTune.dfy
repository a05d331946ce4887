/**
 Tuning a rate limit (internal/ratelimiter/upstream_autotune.go). Percentages
 are real numbers, so floating-point rounding is not modelled; the 32-bit store
 of the limit is.
 */
module AutoTune {
  import opened Common

  datatype Direction = Stable | Increase | Decrease

  datatype Tuning = Tuning(limit: int, step: real, last: Direction) {
    predicate StepInRange() {
      2.5 <= step <= 50.0
    }
  }

  const INT32_LIMIT := 0x8000_0000

  // int32(x).
  function Wrap32(x: int): int {
    (x + INT32_LIMIT) % (2 * INT32_LIMIT) - INT32_LIMIT
  }

  function Ceil(r: real): int {
    -(-r).Floor
  }

  lemma CeilIs(r: real)
    ensures Ceil(r) as real - 1.0 < r <= Ceil(r) as real
  {
  }

  lemma CeilBetween(r: real, low: int, high: int)
    requires low as real - 1.0 < r <= high as real
    ensures low <= Ceil(r) <= high
  {
    CeilIs(r);
    assert (Ceil(r) as real) < high as real + 1.0 && low as real < Ceil(r) as real + 1.0;
    assert ((high + 1) as real) == high as real + 1.0 && ((Ceil(r) + 1) as real) == Ceil(r) as real + 1.0;
  }

  // ---- one period ----

  function NextStep(t: Tuning, dir: Direction): real {
    if dir == t.last && t.last != Stable then (if t.step * 2.0 < 50.0 then t.step * 2.0 else 50.0)
    else if dir != t.last && t.last != Stable then (if t.step / 2.0 > 2.5 then t.step / 2.0 else 2.5)
    else 10.0
  }

  function Factor(step: real, dir: Direction): real {
    if dir == Decrease then 1.0 - step / 100.0 else 1.0 + step / 100.0
  }

  // The limit the step asks for, before it is stored.
  function Wanted(t: Tuning, dir: Direction): int {
    Ceil(t.limit as real * Factor(NextStep(t, dir), dir))
  }

  function AtLeastOne(limit: int): int {
    if limit < 1 then 1 else limit
  }

  // A period that decides for a direction; `Stable` is a period that changes nothing.
  function Period(t: Tuning, dir: Direction): Tuning {
    if dir == Stable then t.(limit := Store(t.limit, t.limit))
    else Tuning(Store(t.limit, Wanted(t, dir)), NextStep(t, dir), dir)
  }

  function Store(current: int, wanted: int): int {
    if AtLeastOne(wanted) != current then Wrap32(AtLeastOne(wanted)) else current
  }

  // ---- over all runs ----

  predicate Sound(t: Tuning) {
    t.StepInRange() && 1 <= t.limit < INT32_LIMIT
  }

  function Run(t: Tuning, dirs: seq<Direction>): Tuning {
    if dirs == [] then t else Period(Run(t, dirs[..|dirs| - 1]), dirs[|dirs| - 1])
  }

  lemma StepStaysInRange(t: Tuning, dir: Direction)
    requires t.StepInRange()
    ensures Period(t, dir).StepInRange()
  {
  }

  // From rest the step is 10. A turn takes back what a repetition did to the step, unless
  // that ran into the upper bound, and a repetition what a turn did, unless that ran
  // into the lower one.
  lemma TurnsUndoRepetitions(t: Tuning, dir: Direction)
    requires t.StepInRange() && dir != t.last && dir != Stable
    ensures t.last == Stable ==> NextStep(t, dir) == 10.0
    ensures t.last != Stable ==> (NextStep(Period(t, t.last), dir) == t.step <==> t.step <= 25.0)
    ensures t.last != Stable ==> (NextStep(Period(t, dir), dir) == t.step <==> t.step >= 5.0)
  {
  }

  lemma DecreaseNeverRaises(t: Tuning)
    requires Sound(t)
    ensures 1 <= Wanted(t, Decrease) <= t.limit
    ensures Period(t, Decrease) == Tuning(Wanted(t, Decrease), NextStep(t, Decrease), Decrease)
    ensures Sound(Period(t, Decrease))
  {
    StepStaysInRange(t, Decrease);
    Lowered(t.limit, NextStep(t, Decrease) / 100.0);
  }

  lemma Lowered(limit: int, part: real)
    requires limit >= 1 && 0.025 <= part <= 0.5
    ensures 1 <= Ceil(limit as real * (1.0 - part)) <= limit
  {
    var l := limit as real;
    Scaled(l, part);
    var r := l * (1.0 - part);
    assert r == l - l * part;
    CeilBetween(r, 1, limit);
  }

  lemma Scaled(l: real, part: real)
    requires l >= 1.0 && 0.025 <= part <= 0.5
    ensures 0.025 <= l * part <= l * 0.5
  {
    assert l * part >= 1.0 * part;
    assert l * (0.5 - part) >= 0.0;
  }

  lemma IncreaseWants(t: Tuning)
    requires Sound(t)
    ensures t.limit < Wanted(t, Increase) <= 2 * t.limit
  {
    StepStaysInRange(t, Increase);
    Raised(t.limit, NextStep(t, Increase) / 100.0);
  }

  lemma Raised(limit: int, part: real)
    requires limit >= 1 && 0.025 <= part <= 0.5
    ensures limit < Ceil(limit as real * (1.0 + part)) <= 2 * limit
  {
    var l := limit as real;
    Scaled(l, part);
    var r := l * (1.0 + part);
    assert r == l + l * part;
    assert l < r <= 2.0 * l;
    CeilBetween(r, limit + 1, 2 * limit);
  }

  lemma Wraps(x: int)
    requires 1 <= x < 2 * INT32_LIMIT
    ensures Wrap32(x) == if x < INT32_LIMIT then x else x - 2 * INT32_LIMIT
  {
  }

  // An increase strictly raises the limit, exactly unless the raised limit does not fit 32 bits.
  lemma IncreaseRaises(t: Tuning)
    requires Sound(t)
    ensures Period(t, Increase).limit > t.limit <==> Wanted(t, Increase) < INT32_LIMIT
    ensures Sound(Period(t, Increase)) <==> Wanted(t, Increase) < INT32_LIMIT
  {
    IncreaseWants(t);
    StepStaysInRange(t, Increase);
    Wraps(Wanted(t, Increase));
  }

  // A limit that wrapped around to a negative number is 1 after the next period.
  lemma WrappedRecovers(t: Tuning, dir: Direction)
    requires t.StepInRange() && t.limit < 0
    ensures Period(t, dir).limit == 1
  {
    if dir != Stable {
      var step := NextStep(t, dir);
      var l := t.limit as real;
      assert Factor(step, dir) > 0.0;
      NegativeTimes(l, Factor(step, dir));
      CeilIs(l * Factor(step, dir));
    }
  }

  lemma NegativeTimes(l: real, f: real)
    requires l < 0.0 && f > 0.0
    ensures l * f < 0.0
  {
  }

  // Limits above 2^31 / 1.1 are near enough to wrap.
  lemma IncreaseCanWrap()
    ensures var t := Tuning(2_000_000_000, 10.0, Stable);
            Sound(t) && Period(t, Increase).limit == -2_094_967_296
  {
    assert 2_000_000_000.0 * 1.1 == 2_200_000_000.0;
    CeilIs(2_200_000_000.0);
  }

  lemma StableKeeps(t: Tuning)
    requires Sound(t)
    ensures Period(t, Stable) == t
  {
  }

  // In every run whose increases fit 32 bits the limit stays at least 1 and the step in range.
  lemma {:induction false} RunsAreSound(t: Tuning, dirs: seq<Direction>)
    requires Sound(t)
    requires forall i | 0 <= i < |dirs| && dirs[i] == Increase :: Wanted(Run(t, dirs[..i]), Increase) < INT32_LIMIT
    ensures Sound(Run(t, dirs))
    decreases |dirs|
  {
    if dirs != [] {
      var init := dirs[..|dirs| - 1];
      forall i | 0 <= i < |init| && init[i] == Increase ensures Wanted(Run(t, init[..i]), Increase) < INT32_LIMIT {
        assert init[..i] == dirs[..i];
      }
      RunsAreSound(t, init);
      var before := Run(t, init);
      match dirs[|dirs| - 1]
      case Stable => StableKeeps(before);
      case Decrease => DecreaseNeverRaises(before);
      case Increase =>
        assert dirs[..|dirs| - 1] == init;
        IncreaseRaises(before);
    }
  }

  // ---- falling to one ----

  function Decreases(t: Tuning, n: nat): Tuning {
    if n == 0 then t else Period(Decreases(t, n - 1), Decrease)
  }

  lemma {:induction false} DecreasesSound(t: Tuning, n: nat)
    requires Sound(t)
    ensures Sound(Decreases(t, n)) && Decreases(t, n).limit <= t.limit
    ensures n > 0 ==> Decreases(t, n).last == Decrease
  {
    if n > 0 {
      DecreasesSound(t, n - 1);
      DecreaseNeverRaises(Decreases(t, n - 1));
    }
  }

  // Five decreases in a row bring the step to at least 40 percent, whatever came before.
  lemma FiveDecreases(t: Tuning)
    requires Sound(t)
    ensures var u := Decreases(t, 5); u.last == Decrease && u.step >= 40.0
  {
    Doubles(t, 0, 2.5);
    Doubles(t, 1, 5.0);
    Doubles(t, 2, 10.0);
    Doubles(t, 3, 20.0);
    Doubles(t, 4, 40.0);
  }

  lemma Doubles(t: Tuning, n: nat, least: real)
    requires Sound(t) && least <= 50.0
    requires least <= 2.5 || (n > 0 && Decreases(t, n).step >= least / 2.0)
    ensures Decreases(t, n + 1).step >= least && Decreases(t, n + 1).last == Decrease
  {
    DecreasesSound(t, n);
    DecreaseNeverRaises(Decreases(t, n));
  }

  // From then on each decrease halves the limit.
  lemma HalvedLimit(t: Tuning)
    requires Sound(t) && t.last == Decrease && t.step >= 25.0
    ensures var u := Period(t, Decrease); u.step == 50.0 && u.last == Decrease && Sound(u) && 2 * u.limit <= t.limit + 1
  {
    DecreaseNeverRaises(t);
    assert NextStep(t, Decrease) == 50.0;
    assert Factor(50.0, Decrease) == 0.5;
    CeilIs(t.limit as real * 0.5);
  }

  lemma {:induction false} HalvesToOne(t: Tuning, k: nat)
    requires Sound(t) && t.last == Decrease && t.step >= 25.0 && t.limit <= Power2(k)
    ensures Decreases(t, k).limit == 1
    decreases k
  {
    if k > 0 {
      HalvedLimit(t);
      HalvesToOne(Period(t, Decrease), k - 1);
      DecreasesFirst(t, k);
    }
  }

  lemma {:induction false} DecreasesFirst(t: Tuning, n: nat)
    requires n > 0
    ensures Decreases(t, n) == Decreases(Period(t, Decrease), n - 1)
  {
    if n > 1 {
      DecreasesFirst(t, n - 1);
    }
  }

  lemma {:induction false} DecreasesAdd(t: Tuning, m: nat, n: nat)
    ensures Decreases(t, m + n) == Decreases(Decreases(t, m), n)
  {
    if n > 0 {
      DecreasesAdd(t, m, n - 1);
    }
  }

  lemma {:induction false} StaysOne(t: Tuning, n: nat)
    requires Sound(t) && t.limit == 1
    ensures Decreases(t, n).limit == 1
  {
    DecreasesSound(t, n);
  }

  // The number of decreases among periods that decrease or change nothing.
  function Count(dirs: seq<Direction>): nat {
    if dirs == [] then 0 else Count(dirs[..|dirs| - 1]) + if dirs[|dirs| - 1] == Decrease then 1 else 0
  }

  lemma {:induction false} QuietPeriodsDontMatter(t: Tuning, dirs: seq<Direction>)
    requires Sound(t) && forall i | 0 <= i < |dirs| :: dirs[i] != Increase
    ensures Run(t, dirs) == Decreases(t, Count(dirs))
    decreases |dirs|
  {
    if dirs != [] {
      var init := dirs[..|dirs| - 1];
      QuietPeriodsDontMatter(t, init);
      DecreasesSound(t, Count(init));
      if dirs[|dirs| - 1] == Stable {
        StableKeeps(Run(t, init));
      }
    }
  }

  // Decreases, with quiet periods between them, bring a limit of at most 2^k to 1
  // within k + 5 decreases, and keep it there.
  lemma FallsToOne(t: Tuning, dirs: seq<Direction>, k: nat)
    requires Sound(t) && t.limit <= Power2(k)
    requires forall i | 0 <= i < |dirs| :: dirs[i] != Increase
    requires Count(dirs) >= 5 + k
    ensures Run(t, dirs).limit == 1
  {
    QuietPeriodsDontMatter(t, dirs);
    var n := Count(dirs);
    DecreasesSound(t, 5);
    FiveDecreases(t);
    var u := Decreases(t, 5);
    HalvesToOne(u, k);
    DecreasesSound(u, k);
    DecreasesAdd(u, k, n - 5 - k);
    StaysOne(Decreases(u, k), n - 5 - k);
    DecreasesAdd(t, 5, n - 5);
  }

  // ---- counting a period ----

  datatype Slice = Slice(index: int)

  // Requests seen in each time slice of the period.
  type Attempts = map<Slice, nat>

  ghost function Total(attempts: Attempts): nat
    decreases |attempts|
  {
    if attempts.Keys == {} then 0
    else
      var k :| k in attempts.Keys;
      attempts[k] + Total(attempts - {k})
  }

  lemma {:induction false} TotalWithout(attempts: Attempts, k: Slice)
    requires k in attempts
    ensures Total(attempts) == attempts[k] + Total(attempts - {k})
    decreases |attempts|
  {
    var j :| j in attempts && Total(attempts) == attempts[j] + Total(attempts - {j});
    if j != k {
      TotalWithout(attempts - {j}, k);
      TotalWithout(attempts - {k}, j);
      assert attempts - {j} - {k} == attempts - {k} - {j};
    }
  }

  ghost predicate IsPeak(attempts: Attempts, peak: nat) {
    && (forall k | k in attempts :: attempts[k] <= peak)
    && (peak == 0 || exists k :: k in attempts && attempts[k] == peak)
  }

  // What a period of traffic decides. Dividing by no attempts gives infinity if
  // some were limited, and otherwise no number, which is never above a threshold.
  predicate ManyErrors(errors: nat, allowed: int, threshold: real) {
    allowed > 0 && errors as real / allowed as real >= threshold
  }

  predicate ManyLimited(rateLimited: nat, total: nat, threshold: real) {
    if total == 0 then rateLimited > 0 else rateLimited as real / total as real > threshold
  }

  function Decision(errors: nat, rateLimited: nat, total: nat, peak: nat, limit: int, threshold: real): Direction
    requires limit != 0
  {
    if ManyErrors(errors, total - rateLimited, threshold) then Decrease
    else if errors == 0 && (peak as real / limit as real > 0.95 || ManyLimited(rateLimited, total, threshold))
    then Increase
    else Stable
  }

  // A part of a whole exceeds, or reaches, a share of it.
  predicate Exceeds(part: nat, whole: int, share: real) {
    part as real > share * whole as real
  }

  predicate Reaches(part: nat, whole: int, share: real) {
    part as real >= share * whole as real
  }

  lemma ErrorsReach(errors: nat, allowed: int, threshold: real)
    ensures ManyErrors(errors, allowed, threshold) <==> allowed > 0 && Reaches(errors, allowed, threshold)
  {
    if allowed > 0 {
      Quotient(errors as real, allowed as real, threshold);
    }
  }

  lemma LimitedExceed(rateLimited: nat, total: nat, threshold: real)
    requires rateLimited <= total
    ensures ManyLimited(rateLimited, total, threshold) <==> total > 0 && Exceeds(rateLimited, total, threshold)
  {
    if total > 0 {
      Quotient(rateLimited as real, total as real, threshold);
    }
  }

  lemma PeakExceeds(peak: nat, limit: int)
    requires limit > 0
    ensures peak as real / limit as real > 0.95 <==> Exceeds(peak, limit, 0.95)
  {
    Quotient(peak as real, limit as real, 0.95);
  }

  // The limit is lowered exactly if too many of the requests let through failed, and
  // raised exactly if none did and the busiest slice came near the limit or too many
  // were refused.
  lemma DecisionIs(errors: nat, rateLimited: nat, total: nat, peak: nat, limit: int, threshold: real)
    requires limit > 0 && rateLimited <= total
    ensures var allowed := total - rateLimited;
            var dir := Decision(errors, rateLimited, total, peak, limit, threshold);
            && (dir == Decrease <==> allowed > 0 && Reaches(errors, allowed, threshold))
            && (dir == Increase <==>
                  && !(allowed > 0 && Reaches(errors, allowed, threshold))
                  && errors == 0
                  && (Exceeds(peak, limit, 0.95) || (total > 0 && Exceeds(rateLimited, total, threshold))))
  {
    ErrorsReach(errors, total - rateLimited, threshold);
    LimitedExceed(rateLimited, total, threshold);
    PeakExceeds(peak, limit);
  }

  lemma Quotient(a: real, b: real, c: real)
    requires b > 0.0
    ensures a / b >= c <==> a >= c * b
    ensures a / b > c <==> a > c * b
  {
    var q := a / b;
    assert a == q * b;
    if q >= c {
      assert (q - c) * b >= 0.0;
    } else {
      assert (c - q) * b > 0.0;
    }
    if q > c {
      assert (q - c) * b > 0.0;
    }
  }

  // One request of a period: when it came, whether the bucket let it through and,
  // if so, whether it failed.
  datatype Request = Request(slice: Slice, taken: bool, failed: bool)

  function Counted(attempts: Attempts, slice: Slice): Attempts {
    attempts[slice := (if slice in attempts then attempts[slice] else 0) + 1]
  }

  ghost function Slices(traffic: seq<Request>): Attempts {
    if traffic == [] then map[] else Counted(Slices(traffic[..|traffic| - 1]), traffic[|traffic| - 1].slice)
  }

  ghost function Refused(traffic: seq<Request>): nat {
    if traffic == [] then 0 else Refused(traffic[..|traffic| - 1]) + if traffic[|traffic| - 1].taken then 0 else 1
  }

  ghost function Failures(traffic: seq<Request>): nat {
    if traffic == [] then 0
    else
      var last := traffic[|traffic| - 1];
      Failures(traffic[..|traffic| - 1]) + if last.taken && last.failed then 1 else 0
  }

  class UpstreamAutoTune {
    const errorRateThreshold: real

    var tuning: Tuning
    var accumErrors: nat
    var accumRateLimited: nat
    var attemptCounts: Attempts

    // Requests since the last recalculation, and how many of them were let through.
    ghost var requests: nat
    ghost var allowedRequests: nat

    ghost predicate Valid()
      reads this
    {
      && tuning.StepInRange() && -INT32_LIMIT <= tuning.limit < INT32_LIMIT && tuning.limit != 0
      && requests == Total(attemptCounts)
      && accumRateLimited + allowedRequests == requests
    }

    constructor (limit: int, threshold: real)
      requires 0 < limit < INT32_LIMIT
      ensures Valid() && tuning == Tuning(limit, 10.0, Stable) && errorRateThreshold == threshold
      ensures accumErrors == 0 && attemptCounts == map[] && requests == 0
    {
      errorRateThreshold := threshold;
      tuning := Tuning(limit, 10.0, Stable);
      accumErrors, accumRateLimited, attemptCounts := 0, 0, map[];
      requests, allowedRequests := 0, 0;
    }

    // Counts a request in its time slice; the bucket says whether it passes.
    method Allow(slice: Slice, taken: bool) returns (allowed: bool)
      requires Valid()
      modifies this`attemptCounts, this`accumRateLimited, this`requests, this`allowedRequests
      ensures Valid() && allowed == taken
      ensures requests == old(requests) + 1 && allowedRequests == old(allowedRequests) + if taken then 1 else 0
      ensures attemptCounts == Counted(old(attemptCounts), slice)
    {
      ghost var others := attemptCounts - {slice};
      if slice in attemptCounts {
        TotalWithout(attemptCounts, slice);
      } else {
        assert others == attemptCounts;
      }
      attemptCounts := Counted(attemptCounts, slice);
      assert attemptCounts - {slice} == others;
      TotalWithout(attemptCounts, slice);
      requests := requests + 1;
      allowed := taken;
      if allowed {
        allowedRequests := allowedRequests + 1;
      } else {
        accumRateLimited := accumRateLimited + 1;
      }
    }

    method IncErrors()
      requires Valid()
      modifies this`accumErrors
      ensures Valid() && accumErrors == old(accumErrors) + 1
    {
      accumErrors := accumErrors + 1;
    }

    method CountAttempts(counts: Attempts) returns (total: nat, peak: nat)
      ensures total == Total(counts) && IsPeak(counts, peak)
    {
      total, peak := 0, 0;
      var todo: Attempts := counts;
      while todo.Keys != {}
        invariant forall k | k in todo :: k in counts && todo[k] == counts[k]
        invariant total + Total(todo) == Total(counts)
        invariant forall k | k in counts && k !in todo :: counts[k] <= peak
        invariant peak == 0 || exists k :: k in counts && counts[k] == peak
        decreases |todo|
      {
        var k: Slice :| k in todo.Keys;
        TotalWithout(todo, k);
        total := total + todo[k];
        if todo[k] > peak {
          peak := todo[k];
        }
        todo := todo - {k};
      }
    }

    // Ends a period: the limit, step and direction follow the decision, and counting starts afresh.
    method RecalculateRateLimit() returns (ghost peak: nat)
      requires Valid()
      modifies this
      ensures Valid() && attemptCounts == map[] && requests == 0 && allowedRequests == 0 && accumErrors == 0
      ensures IsPeak(old(attemptCounts), peak)
      ensures tuning == Period(old(tuning), Decision(old(accumErrors), old(accumRateLimited), old(requests), peak,
                                                     old(tuning.limit), errorRateThreshold))
      ensures old(tuning.limit) < 0 ==> tuning.limit == 1
    {
      var errors, rateLimited, counts := accumErrors, accumRateLimited, attemptCounts;
      accumErrors, accumRateLimited, attemptCounts := 0, 0, map[];
      requests, allowedRequests := 0, 0;
      var total, top := CountAttempts(counts);
      peak := top;
      var dir := Decision(errors, rateLimited, total, top, tuning.limit, errorRateThreshold);
      PeriodFits(tuning, dir);
      if tuning.limit < 0 {
        WrappedRecovers(tuning, dir);
      }
      tuning := Period(tuning, dir);
    }

    // A whole period from its traffic: what it decides depends on the requests alone.
    method RunPeriod(traffic: seq<Request>) returns (ghost peak: nat)
      requires Valid() && attemptCounts == map[] && accumErrors == 0
      modifies this
      ensures Valid() && attemptCounts == map[] && accumErrors == 0
      ensures IsPeak(Slices(traffic), peak)
      ensures tuning == Period(old(tuning), Decision(Failures(traffic), Refused(traffic), |traffic|, peak,
                                                     old(tuning.limit), errorRateThreshold))
    {
      for i := 0 to |traffic|
        invariant Valid() && tuning == old(tuning)
        invariant requests == i && attemptCounts == Slices(traffic[..i])
        invariant accumRateLimited == Refused(traffic[..i]) && accumErrors == Failures(traffic[..i])
      {
        assert traffic[..i + 1][..i] == traffic[..i];
        var allowed := Allow(traffic[i].slice, traffic[i].taken);
        if allowed && traffic[i].failed {
          IncErrors();
        }
      }
      assert traffic[..|traffic|] == traffic;
      peak := RecalculateRateLimit();
    }
  }

  lemma PeriodFits(t: Tuning, dir: Direction)
    requires t.StepInRange() && -INT32_LIMIT <= t.limit < INT32_LIMIT && t.limit != 0
    ensures var u := Period(t, dir); u.StepInRange() && -INT32_LIMIT <= u.limit < INT32_LIMIT && u.limit != 0
  {
    StepStaysInRange(t, dir);
    if t.limit < 0 {
      WrappedRecovers(t, dir);
    } else {
      match dir
      case Stable => StableKeeps(t);
      case Decrease => DecreaseNeverRaises(t);
      case Increase =>
        IncreaseWants(t);
        Wraps(Wanted(t, Increase));
    }
  }
}
