/** The weighted score, with exact reals in place of floats. */
module Score {
  import opened Prelude
  import opened Checks
  import Selection

  datatype ScoringPolicy = ScoringPolicy(
    success1h: real,
    success24h: real,
    success7d: real,
    healthy: real,
    latency: real,
    latencyRefMs: real)
  {
    /** What the policy's documentation expects of the weights. */
    ghost predicate Normalised() {
      && success1h >= 0.0 && success24h >= 0.0 && success7d >= 0.0 && healthy >= 0.0 && latency >= 0.0
      && success1h + success24h + success7d + healthy + latency == 1.0
    }
  }

  function ClampUnit(value: real): (r: real)
    ensures 0.0 <= r <= 1.0
    ensures 0.0 <= value <= 1.0 ==> r == value
    ensures value < 0.0 ==> r == 0.0
    ensures value > 1.0 ==> r == 1.0
  {
    var low := if value < 1.0 then value else 1.0;
    if low > 0.0 then low else 0.0
  }

  /** The part of the latency budget that is left, which is negative when it is overrun. */
  function Spare(latency: real, ref: real): (r: real)
    requires ref > 0.0
    ensures r * ref == ref - latency
    ensures latency >= ref ==> r <= 0.0
    ensures latency <= 0.0 ==> r >= 1.0
    ensures 0.0 <= latency <= ref ==> 0.0 <= r <= 1.0
  {
    var ratio := latency / ref;
    assert ratio * ref == latency;
    assert (1.0 - ratio) * ref == ref - ratio * ref;
    assert ratio > 1.0 ==> (ratio - 1.0) * ref > 0.0;
    assert ratio < 1.0 ==> (1.0 - ratio) * ref > 0.0;
    assert ratio > 0.0 ==> ratio * ref > 0.0;
    assert ratio < 0.0 ==> -ratio * ref > 0.0;
    1.0 - ratio
  }

  function LatencyScore(latency: Option<real>, ref: real): (r: real)
    ensures 0.0 <= r <= 1.0
    ensures latency.None? || ref <= 0.0 || latency.value >= ref ==> r == 0.0
    ensures latency.Some? && ref > 0.0 && 0.0 <= latency.value <= ref ==> r * ref == ref - latency.value
    ensures latency.Some? && ref > 0.0 && latency.value <= 0.0 ==> r == 1.0
  {
    if latency.None? || ref <= 0.0 then 0.0
    else ClampUnit(Spare(latency.value, ref))
  }

  /** The whole number f, or the next one if the fraction p calls for it; ties go to the even one. */
  function RoundFraction(f: int, p: real): int {
    if p < 0.5 || (p == 0.5 && f % 2 == 0) then f else f + 1
  }

  /** The integer nearest to y, ties to even, as Python's `round`. */
  function RoundHalfEven(y: real): (n: int)
    ensures -0.5 <= n as real - y <= 0.5
    ensures n as real - y == 0.5 || y - n as real == 0.5 ==> n % 2 == 0
  {
    RoundFraction(y.Floor, y - y.Floor as real)
  }

  const MILLION: real := 1000000.0

  function RoundSix(x: real): real {
    RoundHalfEven(x * MILLION) as real / MILLION
  }

  /** The weighted sum of five terms. */
  function Blend(w: ScoringPolicy, a: real, b: real, c: real, h: real, l: real): real {
    w.success1h * a + w.success24h * b + w.success7d * c + w.healthy * h + w.latency * l
  }

  function WeightedSum(rates: SuccessRates, healthy: bool, latency: Option<real>, w: ScoringPolicy): real {
    Blend(w, ClampUnit(rates.Success1h()), ClampUnit(rates.Success24h()), ClampUnit(rates.Success7d()),
          if healthy then 1.0 else 0.0, LatencyScore(latency, w.latencyRefMs))
  }

  function ComputeScore(rates: SuccessRates, healthy: bool, latency: Option<real>, w: ScoringPolicy): real {
    RoundSix(WeightedSum(rates, healthy, latency, w))
  }

  /** Rounding moves a score by at most half a millionth, and never reorders two scores. */
  lemma RoundSixFaithful(x: real, y: real)
    ensures -0.0000005 <= RoundSix(x) - x <= 0.0000005
    ensures x <= y ==> RoundSix(x) <= RoundSix(y)
  {
    if x <= y {
      RoundMonotone(x * MILLION, y * MILLION);
    }
  }

  /** The rounded score is the nearest whole number of millionths, and the even one of two. */
  lemma RoundSixNearest(x: real) returns (n: int)
    ensures RoundSix(x) == n as real / 1000000.0 && -0.5 <= n as real - x * 1000000.0 <= 0.5
    ensures n as real - x * 1000000.0 == 0.5 || x * 1000000.0 - n as real == 0.5 ==> n % 2 == 0
  {
    n := RoundHalfEven(x * MILLION);
  }

  lemma RoundMonotone(x: real, y: real)
    requires x <= y
    ensures RoundHalfEven(x) <= RoundHalfEven(y)
  {
    var f, g := x.Floor, y.Floor;
    FloorMonotone(x, y);
    if f == g {
      FractionMonotone(f, x - f as real, y - f as real);
    }
  }

  lemma FloorMonotone(x: real, y: real)
    requires x <= y
    ensures x.Floor <= y.Floor
  {
  }

  lemma FractionMonotone(f: int, p: real, q: real)
    requires p <= q
    ensures RoundFraction(f, p) <= RoundFraction(f, q)
  {
  }

  lemma Weighted(w: real, x: real, y: real)
    requires w >= 0.0 && x <= y
    ensures w * x <= w * y
  {
  }

  lemma BlendMonotone(w: ScoringPolicy, a: real, b: real, c: real, h: real, l: real, a': real, b': real, c': real, h': real, l': real)
    requires w.success1h >= 0.0 && w.success24h >= 0.0 && w.success7d >= 0.0 && w.healthy >= 0.0 && w.latency >= 0.0
    requires a <= a' && b <= b' && c <= c' && h <= h' && l <= l'
    ensures Blend(w, a, b, c, h, l) <= Blend(w, a', b', c', h', l')
  {
    Weighted(w.success1h, a, a');
    Weighted(w.success24h, b, b');
    Weighted(w.success7d, c, c');
    Weighted(w.healthy, h, h');
    Weighted(w.latency, l, l');
    SumMonotone(w.success1h * a, w.success24h * b, w.success7d * c, w.healthy * h, w.latency * l,
                w.success1h * a', w.success24h * b', w.success7d * c', w.healthy * h', w.latency * l');
  }

  lemma SumMonotone(a: real, b: real, c: real, d: real, e: real, a': real, b': real, c': real, d': real, e': real)
    requires a <= a' && b <= b' && c <= c' && d <= d' && e <= e'
    ensures a + b + c + d + e <= a' + b' + c' + d' + e'
  {
  }

  lemma ScoreInUnit(rates: SuccessRates, healthy: bool, latency: Option<real>, w: ScoringPolicy)
    requires w.Normalised()
    ensures 0.0 <= ComputeScore(rates, healthy, latency, w) <= 1.0
  {
    var a, b, c := ClampUnit(rates.Success1h()), ClampUnit(rates.Success24h()), ClampUnit(rates.Success7d());
    var h, l := if healthy then 1.0 else 0.0, LatencyScore(latency, w.latencyRefMs);
    BlendMonotone(w, 0.0, 0.0, 0.0, 0.0, 0.0, a, b, c, h, l);
    BlendMonotone(w, a, b, c, h, l, 1.0, 1.0, 1.0, 1.0, 1.0);
    RoundUnit(Blend(w, a, b, c, h, l));
  }

  lemma RoundUnit(x: real)
    requires 0.0 <= x <= 1.0
    ensures 0.0 <= RoundSix(x) <= 1.0
  {
    RoundMonotone(0.0, x * MILLION);
    RoundMonotone(x * MILLION, MILLION);
  }

  /** a answers no later than b in the ranking's terms, and has a measurement if b has one. */
  predicate NoSlower(a: Option<real>, b: Option<real>) {
    match (a, b)
    case (None, None) => true
    case (None, Some(_)) => false
    case (Some(x), None) => x <= Selection.UNKNOWN_LATENCY
    case (Some(x), Some(y)) => x <= y
  }

  lemma LatencyScoreMonotone(a: Option<real>, b: Option<real>, ref: real)
    requires NoSlower(a, b)
    ensures LatencyScore(a, ref) >= LatencyScore(b, ref)
  {
    if a.Some? && b.Some? && ref > 0.0 {
      QuotientMonotone(a.value, b.value, ref);
    }
  }

  lemma QuotientMonotone(x: real, y: real, ref: real)
    requires x <= y && ref > 0.0
    ensures x / ref <= y / ref
  {
    var p, q := x / ref, y / ref;
    assert p * ref == x && q * ref == y;
    assert (q - p) * ref >= 0.0;
  }

  lemma ScoreMonotone(r: SuccessRates, s: SuccessRates, up: bool, down: bool, a: Option<real>, b: Option<real>, w: ScoringPolicy)
    requires w.success1h >= 0.0 && w.success24h >= 0.0 && w.success7d >= 0.0 && w.healthy >= 0.0 && w.latency >= 0.0
    requires r.Success1h() >= s.Success1h() && r.Success24h() >= s.Success24h() && r.Success7d() >= s.Success7d()
    requires (down ==> up) && NoSlower(a, b)
    ensures ComputeScore(r, up, a, w) >= ComputeScore(s, down, b, w)
  {
    LatencyScoreMonotone(a, b, w.latencyRefMs);
    BlendMonotone(w, ClampUnit(s.Success1h()), ClampUnit(s.Success24h()), ClampUnit(s.Success7d()),
                  if down then 1.0 else 0.0, LatencyScore(b, w.latencyRefMs),
                  ClampUnit(r.Success1h()), ClampUnit(r.Success24h()), ClampUnit(r.Success7d()),
                  if up then 1.0 else 0.0, LatencyScore(a, w.latencyRefMs));
    RoundSixFaithful(WeightedSum(s, down, b, w), WeightedSum(r, up, a, w));
  }

  // ---- Which weight belongs to what.

  /** x is the share of ok in total: nothing of nothing is 0, and more than all is all. */
  ghost predicate IsShare(ok: nat, total: nat, x: real) {
    if total == 0 then x == 0.0
    else if ok >= total then x == 1.0
    else x * total as real == ok as real
  }

  /** x is the share of the reference latency that is left. */
  ghost predicate IsSpare(latency: Option<real>, ref: real, x: real) {
    if latency.None? || ref <= 0.0 || latency.value >= ref then x == 0.0
    else if latency.value <= 0.0 then x == 1.0
    else x * ref == ref - latency.value
  }

  lemma ShareUnique(ok: nat, total: nat, x: real)
    requires IsShare(ok, total, x)
    ensures ClampUnit(Ratio(ok, total)) == x
  {
    if total > 0 {
      var r, t := Ratio(ok, total), total as real;
      assert r * t == ok as real;
      if ok >= total {
        assert (r - 1.0) * t >= 0.0;
      } else {
        assert (r - x) * t == 0.0;
      }
    }
  }

  lemma SpareUnique(latency: Option<real>, ref: real, x: real)
    requires IsSpare(latency, ref, x)
    ensures LatencyScore(latency, ref) == x
  {
    if latency.Some? && ref > 0.0 && 0.0 < latency.value < ref {
      assert (LatencyScore(latency, ref) - x) * ref == 0.0;
    }
  }

  /**
   * The score is, up to half a millionth, the 1h weight times the share of the last hour's checks
   * that succeeded, the 24h and the 7d weight likewise, the healthy weight if the member is
   * healthy, and the latency weight times the share of the reference latency that is left.
   */
  lemma ScoreIsItsShares(r: SuccessRates, healthy: bool, latency: Option<real>, w: ScoringPolicy, a: real, b: real, c: real, l: real)
    requires IsShare(r.ok1h, r.total1h, a) && IsShare(r.ok24h, r.total24h, b) && IsShare(r.ok7d, r.total7d, c)
    requires IsSpare(latency, w.latencyRefMs, l)
    ensures var sum := w.success1h * a + w.success24h * b + w.success7d * c + (if healthy then w.healthy else 0.0) + w.latency * l;
            -0.0000005 <= ComputeScore(r, healthy, latency, w) - sum <= 0.0000005
  {
    ShareUnique(r.ok1h, r.total1h, a);
    ShareUnique(r.ok24h, r.total24h, b);
    ShareUnique(r.ok7d, r.total7d, c);
    SpareUnique(latency, w.latencyRefMs, l);
    BlendOfShares(w, a, b, c, healthy, l);
    RoundSixFaithful(WeightedSum(r, healthy, latency, w), 0.0);
  }

  lemma BlendOfShares(w: ScoringPolicy, a: real, b: real, c: real, healthy: bool, l: real)
    ensures Blend(w, a, b, c, if healthy then 1.0 else 0.0, l)
            == w.success1h * a + w.success24h * b + w.success7d * c + (if healthy then w.healthy else 0.0) + w.latency * l
  {
  }

  /**
   * How a score moves: by the 1h weight times what the share of the last hour gained, and so on
   * for each term, up to a millionth.
   */
  lemma ScoreMoves(r: SuccessRates, up: bool, p: Option<real>, a: real, b: real, c: real, l: real,
                   r': SuccessRates, up': bool, p': Option<real>, a': real, b': real, c': real, l': real, w: ScoringPolicy)
    requires IsShare(r.ok1h, r.total1h, a) && IsShare(r.ok24h, r.total24h, b) && IsShare(r.ok7d, r.total7d, c)
    requires IsShare(r'.ok1h, r'.total1h, a') && IsShare(r'.ok24h, r'.total24h, b') && IsShare(r'.ok7d, r'.total7d, c')
    requires IsSpare(p, w.latencyRefMs, l) && IsSpare(p', w.latencyRefMs, l')
    ensures var moved := ComputeScore(r', up', p', w) - ComputeScore(r, up, p, w);
            var gain := w.success1h * (a' - a) + w.success24h * (b' - b) + w.success7d * (c' - c)
                        + ((if up' then w.healthy else 0.0) - (if up then w.healthy else 0.0)) + w.latency * (l' - l);
            -0.000001 <= moved - gain <= 0.000001
  {
    ScoreIsItsShares(r, up, p, w, a, b, c, l);
    ScoreIsItsShares(r', up', p', w, a', b', c', l');
    Distributes(w.success1h, a, a');
    Distributes(w.success24h, b, b');
    Distributes(w.success7d, c, c');
    Distributes(w.latency, l, l');
  }

  lemma Distributes(w: real, x: real, y: real)
    ensures w * (y - x) == w * y - w * x
  {
  }

  ghost predicate Millionths(x: real, n: int) {
    x == n as real / 1000000.0
  }

  /** A score is a whole number of millionths; an unhealthy member without checks and latency has none. */
  lemma ScoreInMillionths(r: SuccessRates, healthy: bool, latency: Option<real>, w: ScoringPolicy)
    ensures exists n: int :: Millionths(ComputeScore(r, healthy, latency, w), n)
    ensures r.total1h == r.total24h == r.total7d == 0 && !healthy && latency.None? ==> ComputeScore(r, healthy, latency, w) == 0.0
  {
    var n := RoundHalfEven(WeightedSum(r, healthy, latency, w) * MILLION);
    assert Millionths(ComputeScore(r, healthy, latency, w), n);
  }

  /**
   * A healthy member with no worse rates and latency ranks ahead of the member it dominates,
   * except that a full tie of score and latency is broken by id.
   */
  lemma DominanceRespected(x: string, y: string, r: SuccessRates, s: SuccessRates, a: Option<real>, b: Option<real>, w: ScoringPolicy)
    requires w.Normalised() && NoSlower(a, b)
    requires r.Success1h() >= s.Success1h() && r.Success24h() >= s.Success24h() && r.Success7d() >= s.Success7d()
    ensures var m := Selection.RankedMember(x, true, ComputeScore(r, true, a, w), a);
            var n := Selection.RankedMember(y, true, ComputeScore(s, true, b, w), b);
            Selection.BestFirst(m, n)
            || (m.score == n.score && Selection.LatencyKey(m) == Selection.LatencyKey(n) && NameLe(y, x))
  {
    ScoreMonotone(r, s, true, true, a, b, w);
    NameLeTotal(x, y);
  }
}
