/** Which tokens of a message decide its score, how strongly, and which way. */
module SpamEvidence {
  import opened ExpSeries
  import opened Bayes

  // ---- the probability of one token ----

  /** The numerator and denominator of the frequency ratio, free of quotients. */
  lemma ShareIsRatio(spam: real, ham: real, learnsSpam: real, learnsHam: real)
    requires spam >= 0.0 && ham >= 0.0 && spam + ham > 0.0 && learnsSpam > 0.0 && learnsHam > 0.0
    ensures spam / learnsSpam + ham / learnsHam > 0.0
    ensures Share(spam / learnsSpam, ham / learnsHam) * (spam * learnsHam + ham * learnsSpam) == spam * learnsHam
  {
    FrequenciesArePositive(TokenCounts(spam, ham), learnsSpam, learnsHam);
    var sf, hf := spam / learnsSpam, ham / learnsHam;
    var p := Share(sf, hf);
    assert p * (sf + hf) == sf;
    assert sf * learnsSpam == spam && hf * learnsHam == ham;
    ScaleRatio(p, sf, hf, learnsSpam, learnsHam, spam, ham);
  }

  lemma ScaleRatio(p: real, sf: real, hf: real, a: real, b: real, s: real, h: real)
    requires p * (sf + hf) == sf && sf * a == s && hf * b == h
    ensures p * (s * b + h * a) == s * b
  {
    assert s * b + h * a == (sf + hf) * (a * b) by {
      assert sf * a * b == sf * (a * b) && hf * b * a == hf * (a * b);
    }
    assert p * ((sf + hf) * (a * b)) == p * (sf + hf) * (a * b);
    assert sf * (a * b) == sf * a * b;
  }

  /** The smoothed probability keeps the part (1 + fw n) / (1 + fw n + fw) of the
      ratio's distance from one half, where n counts the sightings of the token. */
  lemma SmoothedShrinks(c: TokenCounts, fw: real, learnsSpam: real, learnsHam: real, ratio: real)
    requires NonNegative(c) && c.spam + c.ham > 0.0 && fw > 0.0 && learnsSpam > 0.0 && learnsHam > 0.0
    requires ratio * (c.spam * learnsHam + c.ham * learnsSpam) == c.spam * learnsHam
    ensures var n := c.spam + c.ham;
            (Smoothed(c, fw, learnsSpam, learnsHam) - 0.5) * (1.0 + fw * n + fw) == (ratio - 0.5) * (1.0 + fw * n)
  {
    hide Weight, Share, Blend;
    var n := c.spam + c.ham;
    ShareIsRatio(c.spam, c.ham, learnsSpam, learnsHam);
    WeightIsPositive(fw, n);
    var p := Share(c.spam / learnsSpam, c.ham / learnsHam);
    RatioIsUnique(p, ratio, c.spam * learnsHam, c.spam * learnsHam + c.ham * learnsSpam) by {
      SumOfProducts(c, learnsSpam, learnsHam);
    }
    BlendShrinks(fw, n, p);
  }

  lemma SumOfProducts(c: TokenCounts, a: real, b: real)
    requires NonNegative(c) && c.spam + c.ham > 0.0 && a > 0.0 && b > 0.0
    ensures c.spam * b + c.ham * a > 0.0
  {
    assert c.spam * b >= 0.0 && c.ham * a >= 0.0;
    if c.spam > 0.0 {
      assert c.spam * b > 0.0;
    } else {
      assert c.ham * a > 0.0;
    }
  }

  lemma RatioIsUnique(p: real, q: real, up: real, down: real)
    requires down > 0.0 && p * down == up && q * down == up
    ensures p == q
  {
    assert (p - q) * down == 0.0;
  }

  lemma BlendShrinks(fw: real, n: real, p: real)
    requires fw > 0.0 && n > 0.0
    ensures fw * n > 0.0 && Weight(fw, n) > 0.0
    ensures (Blend(Weight(fw, n), n, p) - 0.5) * (1.0 + fw * n + fw) == (p - 0.5) * (1.0 + fw * n)
  {
    WeightIsPositive(fw, n);
    var w, x := Weight(fw, n), fw * n;
    var b := Blend(w, n, p);
    assert w * (1.0 + x) == x;
    assert b * (w + n) == w * 0.5 + n * p;
    CancelCount(b - 0.5, p - 0.5, w, n, x, fw) by {
      assert (b - 0.5) * (w + n) == b * (w + n) - 0.5 * (w + n);
      assert n * (p - 0.5) == n * p - n * 0.5;
    }
  }

  lemma CancelCount(d: real, e: real, w: real, n: real, x: real, fw: real)
    requires n > 0.0 && x == fw * n && w * (1.0 + x) == x && d * (w + n) == n * e
    ensures d * (1.0 + x + fw) == e * (1.0 + x)
  {
    var y := 1.0 + x;
    assert d * (w + n) * y == d * ((w + n) * y);
    assert (w + n) * y == w * y + n * y == n * (fw + y);
    assert d * (n * (fw + y)) == n * (d * (fw + y));
    assert n * e * y == n * (e * y);
    assert n * (d * (fw + y) - e * y) == 0.0;
  }

  // ---- the tokens that take part ----

  /** Seen before, and smoothed to a probability more than 0.1 away from one half. */
  predicate Strong(tok: Token, c: TokenCounts, learnsSpam: real, learnsHam: real)
    requires NonNegative(c) && tok.fw > 0.0 && learnsSpam > 0.0 && learnsHam > 0.0
  {
    c.spam + c.ham > 0.0 &&
    (Smoothed(c, tok.fw, learnsSpam, learnsHam) < 0.4 || Smoothed(c, tok.fw, learnsSpam, learnsHam) > 0.6)
  }

  ghost predicate Ascending(places: seq<nat>, bound: nat) {
    && (forall k :: 0 <= k < |places| ==> places[k] < bound)
    && (forall j, k :: 0 <= j < k < |places| ==> places[j] < places[k])
  }

  /** `places` lists the strong tokens and `ps` their probabilities. */
  ghost predicate Lists(places: seq<nat>, ps: seq<real>, toks: seq<Token>, counts: seq<TokenCounts>,
      learnsSpam: real, learnsHam: real)
    requires Weighted(toks) && Counted(toks, counts) && learnsSpam > 0.0 && learnsHam > 0.0
  {
    && |places| == |ps| && Ascending(places, |toks|)
    && (forall i :: i in places <==> 0 <= i < |toks| && Strong(toks[i], counts[i], learnsSpam, learnsHam))
    && (forall k :: 0 <= k < |ps| ==>
          ps[k] == Smoothed(counts[places[k]], toks[places[k]].fw, learnsSpam, learnsHam))
  }

  /** The evidence is the probabilities of the strong tokens, each once, in the
      order of the message. */
  lemma {:induction false} EvidenceIsStrong(toks: seq<Token>, counts: seq<TokenCounts>, learnsSpam: real,
      learnsHam: real) returns (places: seq<nat>)
    requires Weighted(toks) && Counted(toks, counts) && learnsSpam > 0.0 && learnsHam > 0.0
    ensures Lists(places, Evidence(toks, counts, learnsSpam, learnsHam), toks, counts, learnsSpam, learnsHam)
  {
    hide Smoothed;
    places := [];
    if toks != [] {
      var n := |toks| - 1;
      places := EvidenceIsStrong(toks[..n], counts[..n], learnsSpam, learnsHam);
      if Strong(toks[n], counts[n], learnsSpam, learnsHam) {
        places := places + [n];
      }
    }
  }

  /** The number of strong tokens. */
  ghost function StrongTokens(toks: seq<Token>, counts: seq<TokenCounts>, learnsSpam: real, learnsHam: real): set<nat>
    requires Weighted(toks) && Counted(toks, counts) && learnsSpam > 0.0 && learnsHam > 0.0
  {
    set i: nat | i < |toks| && Strong(toks[i], counts[i], learnsSpam, learnsHam)
  }

  lemma {:induction false} DistinctPlaces(places: seq<nat>, s: set<nat>, bound: nat)
    requires Ascending(places, bound) && forall i :: i in s <==> i in places
    ensures |s| == |places|
  {
    if places == [] {
      assert s == {};
    } else {
      var n := |places| - 1;
      var init, last := places[..n], places[n];
      assert places == init + [last];
      assert forall i :: i in s - {last} <==> i in init;
      DistinctPlaces(init, s - {last}, bound);
    }
  }

  lemma EvidenceCounts(toks: seq<Token>, counts: seq<TokenCounts>, learnsSpam: real, learnsHam: real)
    requires Weighted(toks) && Counted(toks, counts) && learnsSpam > 0.0 && learnsHam > 0.0
    ensures |Evidence(toks, counts, learnsSpam, learnsHam)| == |StrongTokens(toks, counts, learnsSpam, learnsHam)|
  {
    hide Evidence, Strong;
    var places := EvidenceIsStrong(toks, counts, learnsSpam, learnsHam);
    DistinctPlaces(places, StrongTokens(toks, counts, learnsSpam, learnsHam), |toks|);
  }

  /** Too few learned messages of a class, or too few strong tokens, give one half. */
  lemma NoVerdict(m: Model, toks: seq<Token>, cfg: Config, ln: real --> real, exp: real -> real)
    requires Sound(m) && Weighted(toks) && Logarithm(ln) && cfg.minLearns > 0
    requires || toks == [] || m.spam < cfg.minLearns as real || m.ham < cfg.minLearns as real
             || |StrongTokens(toks, Counts(m, toks), m.spam, m.ham)| < cfg.minTokens
    ensures Classified(m, toks, cfg, ln, exp) == 0.5
  {
    hide Evidence, StrongTokens, Clamp, Combined, SumLog;
    if toks != [] && m.spam >= cfg.minLearns as real && m.ham >= cfg.minLearns as real {
      EvidenceCounts(toks, Counts(m, toks), m.spam, m.ham);
    }
  }

  // ---- strictly above one half ----

  /** The natural logarithm grows strictly and is zero at one. */
  ghost predicate LogarithmLaws(ln: real --> real)
    requires Logarithm(ln)
  {
    ln(1.0) == 0.0 && forall x: real, y: real :: 0.0 < x < y ==> ln(x) < ln(y)
  }

  lemma {:induction false} SumLogIsNegative(ps: seq<real>, ln: real --> real)
    requires Proper(ps) && ps != [] && Logarithm(ln) && LogarithmLaws(ln)
    ensures SumLog(ps, ln) < 0.0
  {
    var n := |ps| - 1;
    assert ln(ps[n]) < ln(1.0);
    if n > 0 {
      SumLogIsNegative(ps[..n], ln);
    }
  }

  lemma {:induction false} SumLogLeans(ps: seq<real>, ln: real --> real)
    requires Proper(ps) && AllAboveHalf(ps) && Logarithm(ln) && LogarithmLaws(ln)
    ensures SumLog(Complements(ps), ln) <= SumLog(ps, ln)
    ensures ps != [] ==> SumLog(Complements(ps), ln) < SumLog(ps, ln)
  {
    hide SumLog, Complements, Logarithm, LogarithmLaws;
    NoEvidence(1.0, 1.0, ln);
    if ps != [] {
      var n := |ps| - 1;
      SumLogLeans(ps[..n], ln);
      assert ps == ps[..n] + [ps[n]];
      SumLogAppends(ps[..n], ps[n], ln);
      LogarithmLeans(ps[n], ln);
    }
  }

  lemma LogarithmLeans(p: real, ln: real --> real)
    requires 0.5 < p < 1.0 && Logarithm(ln) && LogarithmLaws(ln)
    ensures ln.requires(p) && ln.requires(1.0 - p) && ln(1.0 - p) < ln(p)
  {
  }

  lemma TailIncreasesStrictly(x: real, y: real, df: nat, exp: real -> real)
    requires Exponential(exp) && ExponentialLaws(exp) && x < y < 0.0
    ensures Tail(x, df, exp) < Tail(y, df, exp) <==> y >= -700.0
    ensures y < -700.0 ==> Tail(x, df, exp) == Tail(y, df, exp)
  {
    hide ExponentialLaws, Series;
    assert exp(x) > 0.0 && exp(y) > 0.0 && exp(0.0) > 0.0;
    if y >= -700.0 {
      SeriesIsBelowOne(y, df, exp);
      SeriesIsPositive(exp(y), -y, df);
      if x >= -700.0 {
        SeriesIsBelowOne(x, df, exp);
        SeriesDecreasesStrictly(x, y, df, exp);
      }
    }
  }

  /** The tail of `n` probabilities with this log-sum: a Poisson probability, or
      nothing once the log-sum is below -700. */
  function PoissonTail(logSum: real, n: nat, exp: real -> real): real {
    if logSum < -700.0 then 0.0 else PoissonBelow(exp(logSum), -logSum, n)
  }

  lemma TailIsPoisson(logSum: real, n: nat, exp: real -> real)
    requires Exponential(exp) && ExponentialLaws(exp) && logSum < 0.0 && n > 0
    ensures Tail(logSum, n, exp) == PoissonTail(logSum, n, exp)
  {
    hide ExponentialLaws, Series, PoissonBelow;
    assert exp(logSum) > 0.0 && exp(0.0) > 0.0;
    if logSum >= -700.0 {
      SeriesIsBelowOne(logSum, n, exp);
      SeriesIsPoisson(exp(logSum), -logSum, n);
    }
  }

  /** With enough evidence the score is one half, plus half the amount by which
      the Poisson tail of the logarithms exceeds that of their complements'. */
  lemma ScoreIsTails(ps: seq<real>, minTokens: int, ln: real --> real, exp: real -> real)
    requires Proper(ps) && Logarithm(ln) && LogarithmLaws(ln) && Exponential(exp) && ExponentialLaws(exp)
    requires ps != [] && |ps| >= minTokens
    ensures Verdict(ps, minTokens, ln, exp) ==
            0.5 + (PoissonTail(SumLog(ps, ln), |ps|, exp) - PoissonTail(SumLog(Complements(ps), ln), |ps|, exp)) / 2.0
  {
    hide Tail, PoissonTail, SumLog, Exponential, ExponentialLaws, LogarithmLaws;
    SumLogIsNegative(ps, ln);
    SumLogIsNegative(Complements(ps), ln);
    TailIsPoisson(SumLog(ps, ln), |ps|, exp);
    TailIsPoisson(SumLog(Complements(ps), ln), |ps|, exp);
    VerdictComplements(ps, minTokens, ln, exp);
  }

  /** Evidence that all speaks for spam scores above one half exactly while its
      log-sum has not underflowed; after that both tails read zero. */
  lemma SpamScoresAbove(ps: seq<real>, minTokens: int, ln: real --> real, exp: real -> real)
    requires Proper(ps) && Logarithm(ln) && LogarithmLaws(ln) && Exponential(exp) && ExponentialLaws(exp)
    requires AllAboveHalf(ps) && ps != [] && |ps| >= minTokens
    ensures Verdict(ps, minTokens, ln, exp) > 0.5 <==> SumLog(ps, ln) >= -700.0
    ensures SumLog(ps, ln) < -700.0 ==> Verdict(ps, minTokens, ln, exp) == 0.5
  {
    hide Tail, SumLog, Exponential, ExponentialLaws, LogarithmLaws, Complements;
    SumLogIsNegative(ps, ln);
    SumLogLeans(ps, ln);
    TailIncreasesStrictly(SumLog(Complements(ps), ln), SumLog(ps, ln), |ps|, exp);
    VerdictComplements(ps, minTokens, ln, exp);
  }

  lemma {:induction false} SumLogIsBounded(ps: seq<real>, ln: real --> real)
    requires Proper(ps) && AllAboveHalf(ps) && Logarithm(ln) && LogarithmLaws(ln) && ln(0.5) >= -0.7
    ensures SumLog(ps, ln) >= -0.7 * (|ps| as real)
  {
    if ps != [] {
      var n := |ps| - 1;
      SumLogIsBounded(ps[..n], ln);
      assert ln(0.5) < ln(ps[n]);
    }
  }

  /** A message whose known tokens are all more frequent in spam, with at least
      minTokens strong ones, scores above one half exactly while the log-sum of
      the strong ones is at least -700, which a thousand of them never leave. */
  lemma SpamIsAbove(m: Model, toks: seq<Token>, cfg: Config, ln: real --> real, exp: real -> real)
    requires Sound(m) && Weighted(toks) && Logarithm(ln) && LogarithmLaws(ln) && Exponential(exp)
             && ExponentialLaws(exp) && cfg.minLearns > 0
    requires m.spam >= cfg.minLearns as real && m.ham >= cfg.minLearns as real
    requires forall i :: 0 <= i < |toks| ==> Favours(CountsOf(m.tokens, toks[i].hash), m.spam, m.ham)
    requires var strong := |StrongTokens(toks, Counts(m, toks), m.spam, m.ham)|;
             0 < strong && cfg.minTokens <= strong
    ensures var ps := Evidence(toks, Counts(m, toks), m.spam, m.ham);
            && (Classified(m, toks, cfg, ln, exp) > 0.5 <==> SumLog(ps, ln) >= -700.0)
            && (|ps| <= 1000 && ln(0.5) >= -0.7 ==> Classified(m, toks, cfg, ln, exp) > 0.5)
  {
    hide Verdict, Evidence, Favours, StrongTokens, SumLog, Exponential, ExponentialLaws, LogarithmLaws;
    var counts := Counts(m, toks);
    var ps := Evidence(toks, counts, m.spam, m.ham);
    EvidenceCounts(toks, counts, m.spam, m.ham);
    EvidenceFavours(toks, counts, m.spam, m.ham);
    SpamScoresAbove(ps, cfg.minTokens, ln, exp);
    if ln(0.5) >= -0.7 {
      SumLogIsBounded(ps, ln);
    }
    NoEvidence(m.spam, m.ham, ln);
  }
}
