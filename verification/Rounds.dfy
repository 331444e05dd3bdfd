/** The arithmetic of progressive rounds: how a round is cut out of the remaining allocation of a phase, when a round
    counts as bad, and when the run gives up on strata. */
module Rounds {
  import opened Reals
  import opened SampleSize
  import opened Allocation
  import opened BudgetCap
  import opened Streaming

  const MAX_BAD_ROUNDS: nat := 3

  const PROBE_ROUNDS: nat := 3

  const NEAR_TARGET: real := 1.10

  const PHASE_REGRESSION: real := 1.10

  // ----- sizes

  /** What a stratum with `left` draws to go gets of a round of `target` draws. */
  function RoundShare(target: nat, fraction: real, left: nat): (r: nat)
    requires fraction >= 0.0
    ensures FairRound(target, fraction, left, r) && NearShare(target, fraction, r)
  {
    assert Mul(target as real, fraction) >= 0.0;
    if left == 0 then 0
    else
      var want := Ceil(target as real * fraction);
      var raised := if want < MIN_STRATUM then Min(MIN_STRATUM, left) else want;
      Min(raised, left)
  }

  /** A share of a round with `left` draws to go: in proportion but for rounding and the minimum, unless it is all that
      is left. */
  predicate FairRound(target: nat, fraction: real, left: nat, r: nat) {
    && r <= left && r >= Min(MIN_STRATUM, left)
    && (r == left || r as real >= target as real * fraction)
    && (r <= MIN_STRATUM || (r as real) < target as real * fraction + 1.0)
  }

  /** A share is not above proportion by more than the minimum. */
  predicate NearShare(target: nat, fraction: real, r: nat) {
    r as real <= target as real * fraction + MIN_STRATUM as real
  }

  function Minus(xs: seq<nat>, ys: seq<nat>): (zs: seq<nat>)
    requires |xs| == |ys| && forall i :: 0 <= i < |xs| ==> ys[i] <= xs[i]
    ensures |zs| == |xs|
  {
    seq(|xs|, i requires 0 <= i < |xs| => xs[i] - ys[i])
  }

  lemma {:induction false} SumOfMinus(xs: seq<nat>, ys: seq<nat>)
    requires |xs| == |ys| && forall i :: 0 <= i < |xs| ==> ys[i] <= xs[i]
    ensures SumN(ys) <= SumN(xs) && SumN(Minus(xs, ys)) == SumN(xs) - SumN(ys)
  {
    if xs != [] {
      var n := |xs| - 1;
      SumOfMinus(xs[..n], ys[..n]);
      assert Minus(xs, ys)[..n] == Minus(xs[..n], ys[..n]);
    }
  }

  /** Some stratum advances while any has draws to go. */
  lemma {:induction false} RoundAdvances(left: seq<nat>, round: seq<nat>)
    requires |left| == |round| && forall i :: 0 <= i < |left| ==> round[i] >= Min(MIN_STRATUM, left[i])
    ensures SumN(left) > 0 ==> SumN(round) > 0
  {
    if left != [] {
      var n := |left| - 1;
      RoundAdvances(left[..n], round[..n]);
    }
  }

  /** A round exceeds its target by at most the minimum for each stratum. */
  lemma {:induction false} RoundOvershoot(target: nat, fractions: seq<real>, round: seq<nat>)
    requires |fractions| == |round|
    requires forall i :: 0 <= i < |round| ==> NearShare(target, fractions[i], round[i])
    ensures SumN(round) as real <= target as real * SumR(fractions) + (MIN_STRATUM * |round|) as real
  {
    if round != [] {
      var n := |round| - 1;
      RoundOvershoot(target, fractions[..n], round[..n]);
      assert target as real * SumR(fractions) == target as real * SumR(fractions[..n]) + target as real * fractions[n];
    }
  }

  lemma SumOfSnoc(xs: seq<nat>, x: nat)
    ensures SumN(xs + [x]) == SumN(xs) + x
  {
    assert (xs + [x])[..|xs|] == xs;
  }

  /** Cuts a round of about `target` draws out of what each stratum has left. No stratum gets more than it has left,
      every stratum with draws left advances, and the round exceeds its target by at most the minimum for each. */
  method CutRound(target: nat, fractions: seq<real>, left: seq<nat>) returns (round: seq<nat>, tot: nat)
    requires |fractions| == |left| && (forall i :: 0 <= i < |left| ==> fractions[i] >= 0.0) && SumR(fractions) == 1.0
    ensures |round| == |left| && tot == SumN(round) && tot <= SumN(left)
    ensures forall i :: 0 <= i < |left| ==> round[i] == RoundShare(target, fractions[i], left[i])
    ensures forall i :: 0 <= i < |left| ==> FairRound(target, fractions[i], left[i], round[i])
    ensures SumN(left) > 0 ==> tot > 0
    ensures tot <= target + MIN_STRATUM * |left|
  {
    round, tot := [], 0;
    assert SumN(round) == 0;
    hide SumN, SumR, NearShare, RoundShare;
    for i := 0 to |left|
      invariant |round| == i && tot == SumN(round)
      invariant forall x :: 0 <= x < i ==> round[x] == RoundShare(target, fractions[x], left[x])
    {
      var share := RoundShare(target, fractions[i], left[i]);
      SumOfSnoc(round, share);
      round := round + [share];
      tot := tot + share;
    }
    SumOfMinus(left, round);
    RoundAdvances(left, round);
    RoundOvershoot(target, fractions, round);
  }

  // ----- streaks of bad rounds

  /** Counters and estimates of a run, as far as a rollback restores them. */
  datatype Checkpoint = Checkpoint(total: nat, uniform: nat, lastCi: real, muTotal: real, varTotal: real)

  /** The state between two rounds: what a rollback restores of it, how many scans had been made, and the entries. */
  datatype Snapshot = Snapshot(state: Checkpoint, scans: nat, part: seq<Stratum>)

  /** A finished round: its draws, whether it was bad, and the state before it. */
  datatype Round = Round(draws: nat, bad: bool, before: Snapshot)

  function Streak(log: seq<Round>): nat {
    if log == [] || !log[|log| - 1].bad then 0 else 1 + Streak(log[..|log| - 1])
  }

  /** Draws of the rounds in the current streak of bad rounds. */
  function StreakDraws(log: seq<Round>): nat {
    if log == [] || !log[|log| - 1].bad then 0 else log[|log| - 1].draws + StreakDraws(log[..|log| - 1])
  }

  /** State before the first round of the current streak of bad rounds; without a streak, the state `now`. */
  function StreakStart(log: seq<Round>, now: Snapshot): Snapshot {
    if log == [] || !log[|log| - 1].bad then now else StreakStart(log[..|log| - 1], log[|log| - 1].before)
  }

  lemma StreakStep(log: seq<Round>, r: Round, now: Snapshot)
    ensures Streak(log + [r]) == if r.bad then 1 + Streak(log) else 0
    ensures StreakDraws(log + [r]) == if r.bad then r.draws + StreakDraws(log) else 0
    ensures StreakStart(log + [r], now) == if r.bad then StreakStart(log, r.before) else now
  {
    assert (log + [r])[..|log|] == log;
  }

  lemma NoStreak(log: seq<Round>, now: Snapshot, other: Snapshot)
    ensures Streak(log) == 0 ==> StreakDraws(log) == 0 && StreakStart(log, now) == now
    ensures Streak(log) > 0 ==> StreakStart(log, now) == StreakStart(log, other)
  {
  }

  /** The streak is the longest run of bad rounds at the end of the log, its draws are theirs, and it starts with the
      state before the first of them. */
  lemma {:induction false} StreakIsMaximal(log: seq<Round>, now: Snapshot)
    ensures Streak(log) <= |log|
    ensures forall i :: |log| - Streak(log) <= i < |log| ==> log[i].bad
    ensures Streak(log) < |log| ==> !log[|log| - Streak(log) - 1].bad
    ensures StreakDraws(log) == DrawsFrom(log, |log| - Streak(log))
    ensures StreakStart(log, now) == if Streak(log) == 0 then now else log[|log| - Streak(log)].before
  {
    if log != [] && log[|log| - 1].bad {
      var shorter := log[..|log| - 1];
      StreakIsMaximal(shorter, log[|log| - 1].before);
      DrawsFromPrefix(log, |log| - Streak(log));
    }
  }

  function DrawsFrom(log: seq<Round>, i: int): nat
    requires 0 <= i <= |log|
    decreases |log| - i
  {
    if i == |log| then 0 else log[i].draws + DrawsFrom(log, i + 1)
  }

  lemma {:induction false} DrawsFromPrefix(log: seq<Round>, i: nat)
    requires log != [] && i < |log|
    ensures DrawsFrom(log, i) == DrawsFrom(log[..|log| - 1], i) + log[|log| - 1].draws
    decreases |log| - i
  {
    if i < |log| - 1 { DrawsFromPrefix(log, i + 1); }
  }

  // ----- judging a round

  /** The half width has not shrunk, or at its pace will not be near the target when the phase is used up. */
  predicate BadSignal(ci: real, lastCi: real, err0: real, phaseStartCi: real, roundBudget: nat, phaseRemaining: nat) {
    var growing := lastCi > 0.0 && ci >= lastCi;
    var tooSlow :=
      && lastCi > 0.0 && roundBudget > 0 && phaseRemaining > 0 && ci > err0 * NEAR_TARGET
      && lastCi - ci > 0.0
      && ci - (lastCi - ci) * (phaseRemaining as real / roundBudget as real) > err0 * NEAR_TARGET;
    growing || tooSlow || (Regressed(ci, phaseStartCi) && growing)
  }

  /** Half width after `x` draws on the straight line from `y0` through `y1` after `w` draws. */
  function LineAt(y0: real, y1: real, w: nat, x: nat): real
    requires w > 0
  {
    y0 + (y1 - y0) / w as real * x as real
  }

  lemma LineThrough(y0: real, y1: real, w: nat, x: nat)
    requires w > 0
    ensures LineAt(y0, y1, w, 0) == y0 && LineAt(y0, y1, w, w) == y1
    ensures Mul(LineAt(y0, y1, w, x), w as real) == Mul(y0, w as real - x as real) + Mul(y1, x as real)
  {
    var q, t := (y1 - y0) / w as real, w as real;
    QuotientTimes(y1 - y0, t);
    assert q * x as real * t == q * t * x as real;
    assert (y1 - y0) * x as real == y1 * x as real - y0 * x as real;
  }

  /** What is not near the target counts as bad exactly when, after a first half width, it has not fallen, or the
      straight line through the last two half widths is still not near the target when the phase is used up. */
  predicate OffCourse(ci: real, lastCi: real, err0: real, roundBudget: nat, phaseRemaining: nat) {
    && lastCi > 0.0
    && (ci >= lastCi
        || (roundBudget > 0 && phaseRemaining > 0
            && LineAt(lastCi, ci, roundBudget, roundBudget + phaseRemaining) > err0 * NEAR_TARGET))
  }

  lemma BadIff(ci: real, lastCi: real, err0: real, phaseStartCi: real, roundBudget: nat, phaseRemaining: nat)
    requires ci > err0 * NEAR_TARGET
    ensures BadSignal(ci, lastCi, err0, phaseStartCi, roundBudget, phaseRemaining)
            <==> OffCourse(ci, lastCi, err0, roundBudget, phaseRemaining)
  {
    if roundBudget > 0 { ProjectedIsLine(ci, lastCi, roundBudget, phaseRemaining); }
  }

  lemma ProjectedIsLine(ci: real, lastCi: real, roundBudget: nat, phaseRemaining: nat)
    requires roundBudget > 0
    ensures ci - (lastCi - ci) * (phaseRemaining as real / roundBudget as real)
            == LineAt(lastCi, ci, roundBudget, roundBudget + phaseRemaining)
  {
    var w, r := roundBudget as real, phaseRemaining as real;
    var q := (ci - lastCi) / w;
    QuotientTimes(ci - lastCi, w);
    QuotientTimes(r, w);
    assert (lastCi - ci) * (r / w) == -(q * w * (r / w)) == -(q * r);
    assert q * (w + r) == q * w + q * r;
  }

  /** A larger half width after the same last one is never judged better. */
  lemma WorseStaysBad(ci: real, worse: real, lastCi: real, err0: real, phaseStartCi: real, roundBudget: nat,
                      phaseRemaining: nat)
    requires err0 * NEAR_TARGET < ci <= worse
    requires BadSignal(ci, lastCi, err0, phaseStartCi, roundBudget, phaseRemaining)
    ensures BadSignal(worse, lastCi, err0, phaseStartCi, roundBudget, phaseRemaining)
  {
    if worse < lastCi {
      var ratio := phaseRemaining as real / roundBudget as real;
      assert Mul(worse - ci, ratio) >= 0.0;
    }
  }

  predicate Regressed(ci: real, phaseStartCi: real) {
    phaseStartCi > 0.0 && ci > phaseStartCi * PHASE_REGRESSION
  }

  /** So little is left of the phase that it is used up rather than abandoned. */
  predicate Draining(phaseRemaining: nat, roundBudget: nat, roundSize: nat, regressed: bool) {
    var threshold := if roundBudget > 2 * roundSize then roundBudget else 2 * roundSize;
    phaseRemaining > 0 && phaseRemaining <= threshold && !regressed
  }
}
