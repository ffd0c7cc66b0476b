/** The Bayes scorer over real numbers: the in-memory model, the smoothed token
    probabilities, and Fisher's combination of them. Logarithm and exponential
    are parameters of which only the domain and the sign are known. */
module Bayes {
  import opened ExpSeries

  datatype Class = Spam | Ham

  datatype TokenCounts = TokenCounts(spam: real, ham: real)

  /** A feature's hash and weight: 1.0 for a word, 0.5 for a pair of words. */
  datatype Token = Token(hash: nat, fw: real)

  datatype Config = Config(minLearns: int, minTokens: int)

  // ---- the model ----

  datatype Model = Model(tokens: map<nat, TokenCounts>, spam: real, ham: real)

  function Floor(x: real): real {
    if x < 0.0 then 0.0 else x
  }

  function CountsOf(tokens: map<nat, TokenCounts>, hash: nat): TokenCounts {
    if hash in tokens then tokens[hash] else TokenCounts(0.0, 0.0)
  }

  function Bump(c: TokenCounts, kind: Class, delta: real): TokenCounts {
    if kind.Ham? then c.(ham := Floor(c.ham + delta)) else c.(spam := Floor(c.spam + delta))
  }

  function BumpAll(tokens: map<nat, TokenCounts>, hashes: seq<nat>, kind: Class, delta: real): map<nat, TokenCounts> {
    if hashes == [] then tokens
    else
      var before, h := BumpAll(tokens, hashes[..|hashes| - 1], kind, delta), hashes[|hashes| - 1];
      before[h := Bump(CountsOf(before, h), kind, delta)]
  }

  function Learned(m: Model, hashes: seq<nat>, kind: Class, delta: real): Model {
    Model(BumpAll(m.tokens, hashes, kind, delta),
          if kind.Spam? then Floor(m.spam + delta) else m.spam,
          if kind.Ham? then Floor(m.ham + delta) else m.ham)
  }

  predicate NonNegative(c: TokenCounts) {
    c.spam >= 0.0 && c.ham >= 0.0
  }

  predicate Sound(m: Model) {
    m.spam >= 0.0 && m.ham >= 0.0 && forall h :: h in m.tokens ==> NonNegative(m.tokens[h])
  }

  class MemStore {
    var tokens: map<nat, TokenCounts>
    var spam: real
    var ham: real

    function View(): Model
      reads this
    {
      Model(tokens, spam, ham)
    }

    constructor ()
      ensures View() == Model(map[], 0.0, 0.0)
    {
      tokens, spam, ham := map[], 0.0, 0.0;
    }

    method GetCounts(hashes: seq<nat>) returns (counts: seq<TokenCounts>)
      ensures |counts| == |hashes| && forall i :: 0 <= i < |hashes| ==> counts[i] == CountsOf(tokens, hashes[i])
    {
      counts := [];
      for i := 0 to |hashes|
        invariant |counts| == i && forall j :: 0 <= j < i ==> counts[j] == CountsOf(tokens, hashes[j])
      {
        counts := counts + [if hashes[i] in tokens then tokens[hashes[i]] else TokenCounts(0.0, 0.0)];
      }
    }

    method Incr(hashes: seq<nat>, kind: Class, delta: real)
      modifies this
      ensures View() == Learned(old(View()), hashes, kind, delta)
    {
      for i := 0 to |hashes|
        invariant spam == old(spam) && ham == old(ham)
        invariant tokens == BumpAll(old(tokens), hashes[..i], kind, delta)
      {
        assert hashes[..i + 1][..i] == hashes[..i];
        var h := hashes[i];
        var tc := CountsOf(tokens, h);
        if kind.Ham? {
          tc := tc.(ham := if tc.ham + delta < 0.0 then 0.0 else tc.ham + delta);
        } else {
          tc := tc.(spam := if tc.spam + delta < 0.0 then 0.0 else tc.spam + delta);
        }
        tokens := tokens[h := tc];
      }
      assert hashes[..|hashes|] == hashes;
      if kind.Ham? {
        ham := Floor(ham + delta);
      } else {
        spam := Floor(spam + delta);
      }
    }

    method LearnTotals() returns (learnsSpam: real, learnsHam: real)
      ensures learnsSpam == spam && learnsHam == ham
    {
      return spam, ham;
    }
  }

  /** One call of Incr. */
  datatype Event = Event(hashes: seq<nat>, kind: Class, delta: real)

  function Train(m: Model, events: seq<Event>): Model {
    if events == [] then m
    else
      var e := events[|events| - 1];
      Learned(Train(m, events[..|events| - 1]), e.hashes, e.kind, e.delta)
  }

  const EMPTY: Model := Model(map[], 0.0, 0.0)

  // ---- one token ----

  /** The part of the spam frequency in both frequencies. */
  function Share(sf: real, hf: real): real
    requires sf + hf > 0.0
  {
    sf / (sf + hf)
  }

  function Weight(fw: real, n: real): real
    requires fw * n > 0.0
  {
    fw * n / (1.0 + fw * n)
  }

  /** Robinson's smoothing towards 0.5. */
  function Blend(w: real, n: real, p: real): real
    requires w + n > 0.0
  {
    (w * 0.5 + n * p) / (w + n)
  }

  function Smoothed(c: TokenCounts, fw: real, learnsSpam: real, learnsHam: real): real
    requires NonNegative(c) && c.spam + c.ham > 0.0 && fw > 0.0 && learnsSpam > 0.0 && learnsHam > 0.0
  {
    var sf, hf, n := c.spam / learnsSpam, c.ham / learnsHam, c.spam + c.ham;
    FrequenciesArePositive(c, learnsSpam, learnsHam);
    WeightIsPositive(fw, n);
    Blend(Weight(fw, n), n, Share(sf, hf))
  }

  lemma FrequenciesArePositive(c: TokenCounts, learnsSpam: real, learnsHam: real)
    requires NonNegative(c) && c.spam + c.ham > 0.0 && learnsSpam > 0.0 && learnsHam > 0.0
    ensures c.spam / learnsSpam >= 0.0 && c.ham / learnsHam >= 0.0
    ensures c.spam / learnsSpam + c.ham / learnsHam > 0.0
  {
    QuotientSign(c.spam, learnsSpam);
    QuotientSign(c.ham, learnsHam);
  }

  lemma WeightIsPositive(fw: real, n: real)
    requires fw > 0.0 && n > 0.0
    ensures fw * n > 0.0 && Weight(fw, n) > 0.0
  {
    var x := fw * n;
    QuotientSign(x, 1.0 + x);
  }

  /** Two parts of a positive whole make one. */
  lemma Parts(a: real, b: real, t: real)
    requires t > 0.0 && a + b == t
    ensures a / t + b / t == 1.0
  {
    assert a / t + b / t == (a + b) / t;
    assert t / t == 1.0;
  }

  lemma ShareIsProper(a: real, b: real)
    requires a >= 0.0 && b >= 0.0 && a + b > 0.0
    ensures 0.0 <= Share(a, b) <= 1.0 && Share(b, a) == 1.0 - Share(a, b)
  {
    var t := a + b;
    QuotientSign(a, t);
    QuotientSign(b, t);
    Parts(a, b, t);
    assert Share(b, a) == b / t;
  }

  lemma BlendIsProper(w: real, n: real, p: real)
    requires w > 0.0 && n > 0.0 && 0.0 <= p <= 1.0
    ensures 0.0 < Blend(w, n, p) < 1.0 && Blend(w, n, 1.0 - p) == 1.0 - Blend(w, n, p)
  {
    var t, up, down := w + n, w * 0.5 + n * p, w * 0.5 + n * (1.0 - p);
    assert n * p >= 0.0 && n * (1.0 - p) >= 0.0 && n * p + n * (1.0 - p) == n;
    QuotientSign(up, t);
    QuotientSign(down, t);
    Parts(up, down, t);
  }

  function Exchanged(c: TokenCounts): TokenCounts {
    TokenCounts(c.ham, c.spam)
  }

  /** Smoothing keeps a probability off both ends, so both logarithms exist, and
      exchanging the classes complements it. */
  lemma SmoothedIsProper(c: TokenCounts, fw: real, learnsSpam: real, learnsHam: real)
    requires NonNegative(c) && c.spam + c.ham > 0.0 && fw > 0.0 && learnsSpam > 0.0 && learnsHam > 0.0
    ensures 0.0 < Smoothed(c, fw, learnsSpam, learnsHam) < 1.0
    ensures Smoothed(Exchanged(c), fw, learnsHam, learnsSpam) == 1.0 - Smoothed(c, fw, learnsSpam, learnsHam)
  {
    hide Share, Weight, Blend;
    var sf, hf, n := c.spam / learnsSpam, c.ham / learnsHam, c.spam + c.ham;
    FrequenciesArePositive(c, learnsSpam, learnsHam);
    WeightIsPositive(fw, n);
    ShareIsProper(sf, hf);
    BlendIsProper(Weight(fw, n), n, Share(sf, hf));
  }

  // ---- one message ----

  predicate Weighted(toks: seq<Token>) {
    forall i :: 0 <= i < |toks| ==> toks[i].fw > 0.0
  }

  predicate Counted(toks: seq<Token>, counts: seq<TokenCounts>) {
    |counts| == |toks| && forall i :: 0 <= i < |counts| ==> NonNegative(counts[i])
  }

  predicate Weak(p: real) {
    0.4 <= p <= 0.6
  }

  /** The probabilities that take part in the verdict, in token order. */
  function Evidence(toks: seq<Token>, counts: seq<TokenCounts>, learnsSpam: real, learnsHam: real): (ps: seq<real>)
    requires Weighted(toks) && Counted(toks, counts) && learnsSpam > 0.0 && learnsHam > 0.0
    ensures forall i :: 0 <= i < |ps| ==> 0.0 < ps[i] < 1.0
  {
    if toks == [] then []
    else
      var n := |toks| - 1;
      var before, c := Evidence(toks[..n], counts[..n], learnsSpam, learnsHam), counts[n];
      if c.spam <= 0.0 && c.ham <= 0.0 then before
      else
        var p := Smoothed(c, toks[n].fw, learnsSpam, learnsHam);
        SmoothedIsProper(c, toks[n].fw, learnsSpam, learnsHam);
        if Weak(p) then before else before + [p]
  }

  predicate Proper(ps: seq<real>) {
    forall i :: 0 <= i < |ps| ==> 0.0 < ps[i] < 1.0
  }

  /** Defined on every positive number. */
  ghost predicate Logarithm(ln: real --> real) {
    forall x: real :: x > 0.0 ==> ln.requires(x)
  }

  lemma LogarithmOf(ln: real --> real, x: real)
    requires Logarithm(ln) && x > 0.0
    ensures ln.requires(x)
  {
  }

  ghost predicate Exponential(exp: real -> real) {
    forall x: real :: exp(x) > 0.0
  }

  function SumLog(ps: seq<real>, ln: real --> real): real
    requires Proper(ps) && Logarithm(ln)
  {
    if ps == [] then 0.0 else SumLog(ps[..|ps| - 1], ln) + ln(ps[|ps| - 1])
  }

  function Complements(ps: seq<real>): (r: seq<real>)
    ensures |r| == |ps| && forall i :: 0 <= i < |ps| ==> r[i] == 1.0 - ps[i]
  {
    seq(|ps|, i requires 0 <= i < |ps| => 1.0 - ps[i])
  }

  function Tail(logSum: real, df: nat, exp: real -> real): real {
    if logSum >= 0.0 then 1.0
    else if logSum < -700.0 then 0.0
    else
      var sum := Series(exp(logSum), -logSum, df);
      if sum > 1.0 then 1.0 else sum
  }

  method InvChiSq(logSum: real, df: nat, exp: real -> real) returns (r: real)
    ensures r == Tail(logSum, df, exp)
  {
    if logSum >= 0.0 {
      return 1.0;
    }
    if logSum < -700.0 {
      return 0.0;
    }
    var m := -logSum;
    var term := exp(logSum);
    var sum := term;
    var i := 1;
    while i < df
      invariant 1 <= i && (i <= df || i == 1)
      invariant term == Term(exp(logSum), m, i - 1) && sum == Series(exp(logSum), m, i)
    {
      term := term * (m / (i as real));
      sum := sum + term;
      i := i + 1;
    }
    if sum > 1.0 {
      return 1.0;
    }
    return sum;
  }

  function Clamp(x: real): real {
    if x < 0.0 then 0.0 else if x > 1.0 then 1.0 else x
  }

  /** The two tails, before clamping. */
  function Combined(spamLog: real, hamLog: real, kept: nat, exp: real -> real): real {
    var hamProb, spamProb := 1.0 - Tail(spamLog, kept, exp), 1.0 - Tail(hamLog, kept, exp);
    (spamProb + 1.0 - hamProb) / 2.0
  }

  function Verdict(ps: seq<real>, minTokens: int, ln: real --> real, exp: real -> real): real
    requires Proper(ps) && Logarithm(ln)
  {
    if |ps| < minTokens then 0.5
    else Clamp(Combined(SumLog(ps, ln), SumLog(Complements(ps), ln), |ps|, exp))
  }

  function Counts(m: Model, toks: seq<Token>): (r: seq<TokenCounts>)
    ensures |r| == |toks| && forall i :: 0 <= i < |toks| ==> r[i] == CountsOf(m.tokens, toks[i].hash)
  {
    seq(|toks|, i requires 0 <= i < |toks| => CountsOf(m.tokens, toks[i].hash))
  }

  function Classified(m: Model, toks: seq<Token>, cfg: Config, ln: real --> real, exp: real -> real): real
    requires Sound(m) && Weighted(toks) && Logarithm(ln) && cfg.minLearns > 0
  {
    if toks == [] || m.spam < cfg.minLearns as real || m.ham < cfg.minLearns as real then 0.5
    else Verdict(Evidence(toks, Counts(m, toks), m.spam, m.ham), cfg.minTokens, ln, exp)
  }

  method Classify(store: MemStore, toks: seq<Token>, cfg: Config, ln: real --> real,
      exp: real -> real) returns (p: real)
    requires Sound(store.View()) && Weighted(toks) && Logarithm(ln) && cfg.minLearns > 0
    ensures p == Classified(store.View(), toks, cfg, ln, exp)
  {
    if |toks| == 0 {
      return 0.5;
    }
    var hashes := seq(|toks|, i requires 0 <= i < |toks| => toks[i].hash);
    var counts := store.GetCounts(hashes);
    assert counts == Counts(store.View(), toks);
    var learnsSpam, learnsHam := store.LearnTotals();
    if learnsSpam < cfg.minLearns as real || learnsHam < cfg.minLearns as real {
      return 0.5;
    }
    p := Combine(toks, counts, learnsSpam, learnsHam, cfg, ln, exp);
  }

  lemma NoEvidence(learnsSpam: real, learnsHam: real, ln: real --> real)
    requires learnsSpam > 0.0 && learnsHam > 0.0 && Logarithm(ln)
    ensures Evidence([], [], learnsSpam, learnsHam) == [] && SumLog([], ln) == 0.0 && Complements([]) == []
  {
  }

  /** One turn of the token loop. */
  lemma EvidenceTurn(toks: seq<Token>, counts: seq<TokenCounts>, i: nat, learnsSpam: real, learnsHam: real)
    requires Weighted(toks) && Counted(toks, counts) && i < |toks| && learnsSpam > 0.0 && learnsHam > 0.0
    ensures Weighted(toks[..i]) && Weighted(toks[..i + 1]) && Counted(toks[..i], counts[..i])
            && Counted(toks[..i + 1], counts[..i + 1])
    ensures var before, after := Evidence(toks[..i], counts[..i], learnsSpam, learnsHam),
            Evidence(toks[..i + 1], counts[..i + 1], learnsSpam, learnsHam);
            if counts[i].spam <= 0.0 && counts[i].ham <= 0.0 then after == before
            else
              var q := Smoothed(counts[i], toks[i].fw, learnsSpam, learnsHam);
              after == if Weak(q) then before else before + [q]
  {
    hide Smoothed;
    assert toks[..i + 1][..i] == toks[..i] && counts[..i + 1][..i] == counts[..i];
  }

  lemma SumLogAppends(ps: seq<real>, q: real, ln: real --> real)
    requires Proper(ps) && 0.0 < q < 1.0 && Logarithm(ln)
    ensures SumLog(ps + [q], ln) == SumLog(ps, ln) + ln(q)
    ensures SumLog(Complements(ps + [q]), ln) == SumLog(Complements(ps), ln) + ln(1.0 - q)
  {
    var now := ps + [q];
    assert now[..|ps|] == ps && Complements(now)[..|ps|] == Complements(ps);
  }

  method Combine(toks: seq<Token>, counts: seq<TokenCounts>, learnsSpam: real, learnsHam: real, cfg: Config,
                 ln: real --> real, exp: real -> real) returns (p: real)
    requires Weighted(toks) && Counted(toks, counts) && learnsSpam > 0.0 && learnsHam > 0.0 && Logarithm(ln)
    ensures p == Verdict(Evidence(toks, counts, learnsSpam, learnsHam), cfg.minTokens, ln, exp)
  {
    hide Smoothed, Logarithm, Complements, Tail, Evidence, SumLog;
    NoEvidence(learnsSpam, learnsHam, ln);
    var kept: nat := 0;
    var spamLog, hamLog := 0.0, 0.0;
    ghost var ps: seq<real> := [];
    for i := 0 to |toks|
      invariant Weighted(toks[..i]) && Counted(toks[..i], counts[..i])
      invariant ps == Evidence(toks[..i], counts[..i], learnsSpam, learnsHam) && kept == |ps|
      invariant spamLog == SumLog(ps, ln) && hamLog == SumLog(Complements(ps), ln)
    {
      EvidenceTurn(toks, counts, i, learnsSpam, learnsHam);
      var tc := counts[i];
      if tc.spam <= 0.0 && tc.ham <= 0.0 {
        continue;
      }
      var q := Smooth(tc, toks[i].fw, learnsSpam, learnsHam);
      if q >= 0.4 && q <= 0.6 {
        continue;
      }
      LogarithmOf(ln, q);
      LogarithmOf(ln, 1.0 - q);
      SumLogAppends(ps, q, ln);
      spamLog := spamLog + ln(q);
      hamLog := hamLog + ln(1.0 - q);
      kept := kept + 1;
      ps := ps + [q];
    }
    assert toks[..|toks|] == toks && counts[..|toks|] == counts;
    if kept < cfg.minTokens {
      return 0.5;
    }
    var spamTail := InvChiSq(spamLog, kept, exp);
    var hamTail := InvChiSq(hamLog, kept, exp);
    var hamProb, spamProb := 1.0 - spamTail, 1.0 - hamTail;
    var final := (spamProb + 1.0 - hamProb) / 2.0;
    if final < 0.0 {
      return 0.0;
    }
    if final > 1.0 {
      return 1.0;
    }
    return final;
  }

  method Smooth(tc: TokenCounts, fw: real, learnsSpam: real, learnsHam: real) returns (p: real)
    requires NonNegative(tc) && tc.spam + tc.ham > 0.0 && fw > 0.0 && learnsSpam > 0.0 && learnsHam > 0.0
    ensures p == Smoothed(tc, fw, learnsSpam, learnsHam) && 0.0 < p < 1.0
  {
    SmoothedIsProper(tc, fw, learnsSpam, learnsHam);
    FrequenciesArePositive(tc, learnsSpam, learnsHam);
    var sf := tc.spam / learnsSpam;
    var hf := tc.ham / learnsHam;
    p := sf / (sf + hf);
    var n := tc.spam + tc.ham;
    WeightIsPositive(fw, n);
    var w := fw * n / (1.0 + fw * n);
    p := (w * 0.5 + n * p) / (w + n);
  }

  // ---- the classifier's laws ----

  /** The series is a probability. */
  lemma TailIsProbability(logSum: real, df: nat, exp: real -> real)
    requires Exponential(exp)
    ensures 0.0 <= Tail(logSum, df, exp) <= 1.0
  {
    if -700.0 <= logSum < 0.0 {
      assert exp(logSum) > 0.0;
      SeriesIsPositive(exp(logSum), -logSum, df);
    }
  }

  lemma ComplementsTwice(ps: seq<real>)
    ensures Complements(Complements(ps)) == ps
  {
  }

  /** Complementing every probability complements the verdict, and the verdict
      lies in [0, 1] before the final clamp, which never acts. */
  lemma VerdictComplements(ps: seq<real>, minTokens: int, ln: real --> real, exp: real -> real)
    requires Proper(ps) && Logarithm(ln) && Exponential(exp)
    ensures Verdict(Complements(ps), minTokens, ln, exp) == 1.0 - Verdict(ps, minTokens, ln, exp)
    ensures 0.0 <= Verdict(ps, minTokens, ln, exp) <= 1.0
    ensures |ps| >= minTokens ==>
              Verdict(ps, minTokens, ln, exp) == Combined(SumLog(ps, ln), SumLog(Complements(ps), ln), |ps|, exp)
  {
    hide Tail;
    ComplementsTwice(ps);
    TailIsProbability(SumLog(ps, ln), |ps|, exp);
    TailIsProbability(SumLog(Complements(ps), ln), |ps|, exp);
  }

  lemma {:induction false} EvidenceComplements(toks: seq<Token>, counts: seq<TokenCounts>, swapped: seq<TokenCounts>,
      learnsSpam: real, learnsHam: real)
    requires Weighted(toks) && Counted(toks, counts) && Counted(toks, swapped) && learnsSpam > 0.0 && learnsHam > 0.0
    requires forall i :: 0 <= i < |counts| ==> swapped[i] == Exchanged(counts[i])
    ensures Evidence(toks, swapped, learnsHam, learnsSpam) == Complements(Evidence(toks, counts, learnsSpam, learnsHam))
  {
    if toks != [] {
      var n := |toks| - 1;
      EvidenceComplements(toks[..n], counts[..n], swapped[..n], learnsSpam, learnsHam);
      if counts[n].spam > 0.0 || counts[n].ham > 0.0 {
        SmoothedIsProper(counts[n], toks[n].fw, learnsSpam, learnsHam);
      }
    }
  }

  /** The model with the two classes exchanged throughout. */
  function Mirror(m: Model): Model {
    Model(map h | h in m.tokens :: Exchanged(m.tokens[h]), m.ham, m.spam)
  }

  /** Exchanging the counts of every token and the two totals turns the result
      into its complement, and the result is a probability. */
  lemma ClassificationComplements(m: Model, toks: seq<Token>, cfg: Config, ln: real --> real, exp: real -> real)
    requires Sound(m) && Weighted(toks) && Logarithm(ln) && Exponential(exp) && cfg.minLearns > 0
    ensures Sound(Mirror(m))
    ensures Classified(Mirror(m), toks, cfg, ln, exp) == 1.0 - Classified(m, toks, cfg, ln, exp)
    ensures 0.0 <= Classified(m, toks, cfg, ln, exp) <= 1.0
  {
    hide Evidence, Verdict, Complements, Logarithm, Exponential;
    if toks != [] && m.spam >= cfg.minLearns as real && m.ham >= cfg.minLearns as real {
      var counts, swapped := Counts(m, toks), Counts(Mirror(m), toks);
      EvidenceComplements(toks, counts, swapped, m.spam, m.ham);
      VerdictComplements(Evidence(toks, counts, m.spam, m.ham), cfg.minTokens, ln, exp);
    }
  }

  // ---- direction ----

  lemma Quotients(a: real, b: real, t: real)
    requires t > 0.0
    ensures a / t > b / t <==> a > b
  {
    var x, y := a / t, b / t;
    assert a == x * t && b == y * t;
    assert (x - y) * t == a - b;
    if x > y {
      assert (x - y) * t > 0.0;
    } else {
      assert (y - x) * t >= 0.0;
    }
  }

  /** A token speaks for spam exactly when it is more frequent in spam. */
  lemma SmoothedFavours(c: TokenCounts, fw: real, learnsSpam: real, learnsHam: real)
    requires NonNegative(c) && c.spam + c.ham > 0.0 && fw > 0.0 && learnsSpam > 0.0 && learnsHam > 0.0
    ensures Smoothed(c, fw, learnsSpam, learnsHam) > 0.5 <==> c.spam / learnsSpam > c.ham / learnsHam
  {
    var sf, hf, n := c.spam / learnsSpam, c.ham / learnsHam, c.spam + c.ham;
    FrequenciesArePositive(c, learnsSpam, learnsHam);
    WeightIsPositive(fw, n);
    hide Weight;
    var w, p := Weight(fw, n), Share(sf, hf);
    ShareIsProper(sf, hf);
    Quotients(sf, hf, sf + hf);
    BlendIsProper(w, n, p);
    assert p > 0.5 <==> sf > hf by {
      assert hf / (sf + hf) == Share(hf, sf) == 1.0 - p;
    }
    BlendFavours(w, n, p);
  }

  lemma BlendFavours(w: real, n: real, p: real)
    requires w > 0.0 && n > 0.0
    ensures Blend(w, n, p) > 0.5 <==> p > 0.5
  {
    var t := w + n;
    Quotients(w * 0.5 + n * p, t * 0.5, t);
    assert t * 0.5 / t == 0.5;
    assert w * 0.5 + n * p - t * 0.5 == n * (p - 0.5);
    if p > 0.5 {
      assert n * (p - 0.5) > 0.0;
    } else {
      assert n * (0.5 - p) >= 0.0;
    }
  }

  /** The logarithm does not decrease. */
  ghost predicate Increasing(ln: real --> real)
    requires Logarithm(ln)
  {
    forall x: real, y: real :: 0.0 < x <= y ==> ln(x) <= ln(y)
  }

  /** The chi-square tail does not decrease in its logarithm. */
  lemma TailIncreases(x: real, y: real, df: nat, exp: real -> real)
    requires Exponential(exp) && ExponentialLaws(exp) && x <= y
    ensures Tail(x, df, exp) <= Tail(y, df, exp)
  {
    TailIsProbability(x, df, exp);
    TailIsProbability(y, df, exp);
    if -700.0 <= x && y < 0.0 {
      SeriesDecreases(x, y, df, exp);
    }
  }

  lemma {:induction false} SumLogMonotone(ps: seq<real>, qs: seq<real>, ln: real --> real)
    requires Proper(ps) && Proper(qs) && |ps| == |qs| && Logarithm(ln) && Increasing(ln)
    requires forall i :: 0 <= i < |ps| ==> ps[i] <= qs[i]
    ensures SumLog(ps, ln) <= SumLog(qs, ln)
  {
    if ps != [] {
      var n := |ps| - 1;
      SumLogMonotone(ps[..n], qs[..n], ln);
      assert ln(ps[n]) <= ln(qs[n]);
    }
  }

  predicate AllAboveHalf(ps: seq<real>) {
    forall i :: 0 <= i < |ps| ==> ps[i] > 0.5
  }

  lemma NothingAboveHalf()
    ensures AllAboveHalf([])
  {
  }

  lemma OneMoreAboveHalf(ps: seq<real>, p: real)
    requires AllAboveHalf(ps) && p > 0.5
    ensures AllAboveHalf(ps + [p])
  {
  }

  /** A message whose evidence all speaks for spam never scores below one half. */
  lemma SpamScoresHigh(ps: seq<real>, minTokens: int, ln: real --> real, exp: real -> real)
    requires Proper(ps) && Logarithm(ln) && Increasing(ln) && Exponential(exp) && ExponentialLaws(exp)
    requires AllAboveHalf(ps)
    ensures Verdict(ps, minTokens, ln, exp) >= 0.5
  {
    hide Tail;
    SumLogMonotone(Complements(ps), ps, ln);
    TailIncreases(SumLog(Complements(ps), ln), SumLog(ps, ln), |ps|, exp);
  }

  /** More frequent in spam than in ham. */
  ghost predicate Favours(c: TokenCounts, learnsSpam: real, learnsHam: real)
    requires learnsSpam > 0.0 && learnsHam > 0.0
  {
    c.spam + c.ham > 0.0 ==> c.spam / learnsSpam > c.ham / learnsHam
  }

  lemma {:induction false} EvidenceFavours(toks: seq<Token>, counts: seq<TokenCounts>, learnsSpam: real,
      learnsHam: real)
    requires Weighted(toks) && Counted(toks, counts) && learnsSpam > 0.0 && learnsHam > 0.0
    requires forall i :: 0 <= i < |counts| ==> Favours(counts[i], learnsSpam, learnsHam)
    ensures var ps := Evidence(toks, counts, learnsSpam, learnsHam);
            AllAboveHalf(ps)
  {
    hide Smoothed, Favours, AllAboveHalf;
    NothingAboveHalf();
    if toks != [] {
      var n := |toks| - 1;
      EvidenceFavours(toks[..n], counts[..n], learnsSpam, learnsHam);
      if counts[n].spam > 0.0 || counts[n].ham > 0.0 {
        TokenFavours(counts[n], toks[n].fw, learnsSpam, learnsHam);
        OneMoreAboveHalf(Evidence(toks[..n], counts[..n], learnsSpam, learnsHam),
            Smoothed(counts[n], toks[n].fw, learnsSpam, learnsHam));
      }
    }
  }

  lemma TokenFavours(c: TokenCounts, fw: real, learnsSpam: real, learnsHam: real)
    requires NonNegative(c) && c.spam + c.ham > 0.0 && fw > 0.0 && learnsSpam > 0.0 && learnsHam > 0.0
    requires Favours(c, learnsSpam, learnsHam)
    ensures Smoothed(c, fw, learnsSpam, learnsHam) > 0.5
  {
    hide Smoothed;
    SmoothedFavours(c, fw, learnsSpam, learnsHam);
  }

  /** A message all of whose known tokens are more frequent in spam is never
      scored below one half. */
  lemma SpamIsNotHam(m: Model, toks: seq<Token>, cfg: Config, ln: real --> real, exp: real -> real)
    requires Sound(m) && Weighted(toks) && Logarithm(ln) && Increasing(ln) && Exponential(exp)
             && ExponentialLaws(exp) && cfg.minLearns > 0
    requires m.spam > 0.0 && m.ham > 0.0 ==>
               forall i :: 0 <= i < |toks| ==> Favours(CountsOf(m.tokens, toks[i].hash), m.spam, m.ham)
    ensures Classified(m, toks, cfg, ln, exp) >= 0.5
  {
    hide Verdict, Evidence, Favours;
    if toks != [] && m.spam >= cfg.minLearns as real && m.ham >= cfg.minLearns as real {
      EvidenceFavours(toks, Counts(m, toks), m.spam, m.ham);
      SpamScoresHigh(Evidence(toks, Counts(m, toks), m.spam, m.ham), cfg.minTokens, ln, exp);
    }
  }

  // ---- whole histories ----

  function Other(kind: Class): Class {
    if kind.Spam? then Ham else Spam
  }

  function Relabelled(events: seq<Event>): (r: seq<Event>)
    ensures |r| == |events|
  {
    seq(|events|, i requires 0 <= i < |events| => events[i].(kind := Other(events[i].kind)))
  }

  lemma {:induction false} BumpMirrors(tokens: map<nat, TokenCounts>, mirrored: map<nat, TokenCounts>, hashes: seq<nat>,
      kind: Class, delta: real)
    requires mirrored == map h | h in tokens :: Exchanged(tokens[h])
    ensures BumpAll(mirrored, hashes, Other(kind), delta)
         == map h | h in BumpAll(tokens, hashes, kind, delta) :: Exchanged(BumpAll(tokens, hashes, kind, delta)[h])
  {
    if hashes != [] {
      BumpMirrors(tokens, mirrored, hashes[..|hashes| - 1], kind, delta);
    }
  }

  /** Training with every label exchanged gives the exchanged model, so a message
      that scored p under one history scores 1 - p under the other. */
  lemma {:induction false} RelabelledHistoryMirrors(events: seq<Event>)
    ensures Train(EMPTY, Relabelled(events)) == Mirror(Train(EMPTY, events))
  {
    if events != [] {
      var n := |events| - 1;
      RelabelledHistoryMirrors(events[..n]);
      assert Relabelled(events)[..n] == Relabelled(events[..n]);
      var m, e := Train(EMPTY, events[..n]), events[n];
      BumpMirrors(m.tokens, Mirror(m).tokens, e.hashes, e.kind, e.delta);
    }
  }

  lemma {:induction false} BumpKeepsSound(tokens: map<nat, TokenCounts>, hashes: seq<nat>, kind: Class, delta: real)
    requires forall h :: h in tokens ==> NonNegative(tokens[h])
    ensures forall h :: h in BumpAll(tokens, hashes, kind, delta) ==>
            NonNegative(BumpAll(tokens, hashes, kind, delta)[h])
  {
    if hashes != [] {
      BumpKeepsSound(tokens, hashes[..|hashes| - 1], kind, delta);
    }
  }

  /** No history, unlearning included, drives a count below zero. */
  lemma {:induction false} TrainingIsSound(events: seq<Event>)
    ensures Sound(Train(EMPTY, events))
  {
    if events != [] {
      var n := |events| - 1;
      TrainingIsSound(events[..n]);
      BumpKeepsSound(Train(EMPTY, events[..n]).tokens, events[n].hashes, events[n].kind, events[n].delta);
    }
  }

  lemma HistoriesComplement(events: seq<Event>, toks: seq<Token>, cfg: Config, ln: real --> real, exp: real -> real)
    requires Weighted(toks) && Logarithm(ln) && Exponential(exp) && cfg.minLearns > 0
    ensures Sound(Train(EMPTY, events)) && Sound(Train(EMPTY, Relabelled(events)))
    ensures Classified(Train(EMPTY, Relabelled(events)), toks, cfg, ln, exp) ==
            1.0 - Classified(Train(EMPTY, events), toks, cfg, ln, exp)
  {
    TrainingIsSound(events);
    RelabelledHistoryMirrors(events);
    ClassificationComplements(Train(EMPTY, events), toks, cfg, ln, exp);
  }

  /** `delta` for each time the hash is listed. */
  function Mass(hashes: seq<nat>, h: nat, delta: real): (r: real)
    requires delta >= 0.0
    ensures r >= 0.0
  {
    if hashes == [] then 0.0
    else Mass(hashes[..|hashes| - 1], h, delta) + (if hashes[|hashes| - 1] == h then delta else 0.0)
  }

  function CountOf(tokens: map<nat, TokenCounts>, h: nat, kind: Class): real {
    if kind.Ham? then CountsOf(tokens, h).ham else CountsOf(tokens, h).spam
  }

  lemma {:induction false} LearningAdds(tokens: map<nat, TokenCounts>, hashes: seq<nat>, kind: Class,
      delta: real, h: nat)
    requires delta >= 0.0 && forall k :: k in tokens ==> NonNegative(tokens[k])
    ensures var after := BumpAll(tokens, hashes, kind, delta);
            && CountOf(after, h, kind) == CountOf(tokens, h, kind) + Mass(hashes, h, delta)
            && CountOf(after, h, Other(kind)) == CountOf(tokens, h, Other(kind))
  {
    if hashes != [] {
      var init := hashes[..|hashes| - 1];
      LearningAdds(tokens, init, kind, delta, h);
      BumpKeepsSound(tokens, init, kind, delta);
    }
  }

  /** Unlearning takes the mass off again and stops at zero. */
  lemma {:induction false} UnlearningTakes(tokens: map<nat, TokenCounts>, hashes: seq<nat>, kind: Class,
      delta: real, h: nat)
    requires delta >= 0.0 && CountOf(tokens, h, kind) >= 0.0
    ensures var after := BumpAll(tokens, hashes, kind, -delta);
            && CountOf(after, h, kind) == Floor(CountOf(tokens, h, kind) - Mass(hashes, h, delta))
            && CountOf(after, h, Other(kind)) == CountOf(tokens, h, Other(kind))
  {
    if hashes != [] {
      UnlearningTakes(tokens, hashes[..|hashes| - 1], kind, delta, h);
    }
  }

  function TotalOf(m: Model, kind: Class): real {
    if kind.Ham? then m.ham else m.spam
  }

  /** One message learned or unlearned: the counts of its class move by its mass
      and the total by `delta`, down to zero at most, and the other class stays. */
  lemma LearnedMoves(m: Model, hashes: seq<nat>, kind: Class, delta: real, h: nat)
    requires Sound(m) && delta >= 0.0
    ensures var up, down := Learned(m, hashes, kind, delta), Learned(m, hashes, kind, -delta);
            && CountOf(up.tokens, h, kind) == CountOf(m.tokens, h, kind) + Mass(hashes, h, delta)
            && CountOf(down.tokens, h, kind) == Floor(CountOf(m.tokens, h, kind) - Mass(hashes, h, delta))
            && TotalOf(up, kind) == TotalOf(m, kind) + delta
            && TotalOf(down, kind) == Floor(TotalOf(m, kind) - delta)
            && CountOf(up.tokens, h, Other(kind)) == CountOf(m.tokens, h, Other(kind))
            && CountOf(down.tokens, h, Other(kind)) == CountOf(m.tokens, h, Other(kind))
            && TotalOf(up, Other(kind)) == TotalOf(m, Other(kind)) == TotalOf(down, Other(kind))
  {
    LearningAdds(m.tokens, hashes, kind, delta, h);
    UnlearningTakes(m.tokens, hashes, kind, delta, h);
  }

  /** Unlearning a message right after learning it restores every count and total. */
  lemma UnlearnUndoesLearn(m: Model, hashes: seq<nat>, kind: Class, delta: real, h: nat)
    requires Sound(m) && delta >= 0.0
    ensures var t := Learned(Learned(m, hashes, kind, delta), hashes, kind, -delta);
            CountsOf(t.tokens, h) == CountsOf(m.tokens, h) && t.spam == m.spam && t.ham == m.ham
  {
    LearningAdds(m.tokens, hashes, kind, delta, h);
    UnlearningTakes(BumpAll(m.tokens, hashes, kind, delta), hashes, kind, delta, h);
  }
}
