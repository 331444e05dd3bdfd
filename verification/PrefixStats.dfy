/** Statistics of prefixes of the sorted phase-0 sample, and the statistics of the samples between two prefixes
    obtained by removing the shorter from the longer. */
module PrefixStats {
  import opened Reals
  import opened Moments
  import opened Streaming

  /** The recurrence that extends the statistics of a prefix of length `i` by one value. */
  function ExtendVar(i: nat, mu: real, v: real, x: real): real {
    var d := x - mu;
    d * d / ((i as real + 1.0) * (i as real + 1.0)) + v * (i as real - 1.0) / (i as real + 1.0)
  }

  function ExtendMean(i: nat, mu: real, x: real): real {
    (i as real * mu + x) / (i as real + 1.0)
  }

  function SxxOfVar(n: real, v: real): real {
    v * n * (n - 1.0)
  }

  function MeanOfRest(n3: real, mu3: real, n1: real, mu1: real): real
    requires n3 != n1
  {
    (mu3 * n3 - mu1 * n1) / (n3 - n1)
  }

  function VarOfSxx(n: real, sxx: real): real
    requires n > 1.0
  {
    assert n * (n - 1.0) == Mul(n, n - 1.0);
    sxx / (n * (n - 1.0))
  }

  /** Variance of the mean of the samples in the longer prefix and not in the shorter one. */
  function RemoveVar(n3: nat, mu3: real, var3: real, n1: nat, mu1: real, var1: real): real
    requires n1 + 2 <= n3
  {
    var a, c := n1 as real, n3 as real;
    var n2 := c - a;
    var d := mu1 - MeanOfRest(c, mu3, a, mu1);
    var sxx := SxxOfVar(c, var3) - SxxOfVar(a, var1) - Between(a, n2, d);
    VarOfSxx(n2, sxx)
  }

  /** Mean and variance of the mean of a prefix; one value has variance zero here. */
  predicate PrefixExact(xs: seq<real>, mu: real, v: real) {
    xs != [] && mu == Mean(xs) && v == (if |xs| == 1 then 0.0 else VarOfMean(xs))
  }

  /** The recurrence is the one the streaming path applies to an accepted value. */
  lemma ExtendIsAccept(i: nat, mu: real, v: real, w: real, x: real)
    requires i >= 1 && (i == 1 || v == w)
    ensures ExtendMean(i, mu, x) == Accept(Stratum(i, mu, w), x).mu
    ensures ExtendVar(i, mu, v, x) == Accept(Stratum(i, mu, w), x).variance
  {
  }

  lemma ExtendExact(xs: seq<real>, mu: real, v: real, x: real)
    requires PrefixExact(xs, mu, v)
    ensures PrefixExact(xs + [x], ExtendMean(|xs|, mu, x), ExtendVar(|xs|, mu, v, x))
  {
    hide Mean, VarOfMean, ExtendMean, ExtendVar, Accept;
    var w := if |xs| == 1 then xs[0] * xs[0] else v;
    ExtendIsAccept(|xs|, mu, v, w, x);
    AcceptNext(Stratum(|xs|, mu, w), xs, x);
  }

  /** Removing a prefix leaves exactly the statistics of what lies between, so the result is never negative. */
  lemma RemoveVarExact(xs: seq<real>, a: nat, b: nat)
    requires 2 <= a && a + 2 <= b <= |xs|
    ensures RemoveVar(b, Mean(xs[..b]), VarOfMean(xs[..b]), a, Mean(xs[..a]), VarOfMean(xs[..a]))
            == VarOfMean(xs[a..b]) >= 0.0
  {
    hide *;
    assert xs[..b] == xs[..a] + xs[a..b];
    VarOfMeanNonNegative(xs[a..b]);
    RemoveFirstPart(xs[..a], xs[a..b]);
  }

  lemma RemoveFirstPart(p: seq<real>, q: seq<real>)
    requires |p| >= 2 && |q| >= 2
    ensures RemoveVar(|p + q|, Mean(p + q), VarOfMean(p + q), |p|, Mean(p), VarOfMean(p)) == VarOfMean(q)
  {
    hide Mean, Sxx, VarOfMean, Between, SxxOfVar, MeanOfRest, VarOfSxx;
    SxxConcat(p, q);
    MeanOfRestExact(p, q);
    SxxOfVarExact(p);
    SxxOfVarExact(p + q);
    SxxOfVarExact(q);
    assert |q| as real == |p + q| as real - |p| as real;
  }

  lemma SxxOfVarExact(xs: seq<real>)
    requires |xs| >= 2
    ensures SxxOfVar(|xs| as real, VarOfMean(xs)) == Sxx(xs)
    ensures VarOfSxx(|xs| as real, Sxx(xs)) == VarOfMean(xs)
  {
    hide Sxx;
    var n := |xs| as real;
    assert n * (n - 1.0) == Mul(n, n - 1.0);
    QuotientTimes(Sxx(xs), n * (n - 1.0));
  }

  lemma MeanOfRestExact(p: seq<real>, q: seq<real>)
    requires p != [] && q != []
    ensures MeanOfRest(|p + q| as real, Mean(p + q), |p| as real, Mean(p)) == Mean(q)
  {
    hide Sum, MeanOfRest;
    SumConcat(p, q);
    RestScalar(|p| as real, Sum(p), |q| as real, Sum(q));
  }

  lemma RestScalar(n1: real, s1: real, n2: real, s2: real)
    requires n1 > 0.0 && n2 > 0.0
    ensures MeanOfRest(n1 + n2, (s1 + s2) / (n1 + n2), n1, s1 / n1) == s2 / n2
  {
    QuotientTimes(s1, n1);
    QuotientTimes(s1 + s2, n1 + n2);
  }
}
