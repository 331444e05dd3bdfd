/** The controller of a progressive run: phases, rounds, checkpoint and rollback, the switch to uniform sampling, and
    the stop. Each scan draws exactly the number of samples it is asked for; what it draws is up to the surroundings. */
module Controller {
  import opened Reals
  import opened Streaming
  import opened SampleSize
  import opened Allocation
  import opened BudgetCap
  import opened Rounds
  import opened Estimator
  import opened Trace
  import opened PhaseLog

  /** The totals of a run come from mixing entry 0 with some estimate of the phase whose variance is not negative. */
  ghost predicate Mixable(total: nat, uniform: nat, p0: Stratum, mu: real, v: real) {
    && total > 0 && uniform <= total
    && (uniform == total ==> mu == p0.mu && v == p0.variance)
    && (uniform < total ==> v >= Alpha(uniform, total) * Alpha(uniform, total) * p0.variance)
  }

  /** Strata chosen after phase 0: none, one, or several with their sizes and fractions. */
  datatype Plan = Plan(k: nat, size: nat, sizes: seq<nat>, fractions: seq<real>)

  /** What the optimiser guarantees of a plan that fits arrays for `capacity` strata. */
  ghost predicate PlanOk(p: Plan, capacity: nat) {
    && p.k <= capacity && |p.sizes| == p.k && |p.fractions| == p.k
    && (p.k == 0 <==> p.size == 0)
    && (p.k == 1 ==> p.fractions == [1.0])
    && (p.k > 1 ==> p.size == SumN(p.sizes) && SumR(p.fractions) == 1.0)
    && forall i :: 0 <= i < p.k ==> p.fractions[i] >= 0.0 && (p.k > 1 ==> p.sizes[i] >= MIN_STRATUM)
  }

  /** The optimiser, run on the draws of phase 0 over a candidate index. */
  type Planner = (nat, seq<Draw>) -> Plan

  /** Estimate of phase 0, in entry 0. Fewer than two accepted values leave it at zero. */
  function PhaseZeroEstimate(ds: seq<Draw>): Stratum {
    if |Accepted(ds)| >= 2 then Scan(EMPTY, ds) else Stratum(Rejections(ds), 0.0, 0.0)
  }

  /** Entry 0 as phase 1 finds it after `scans` scans: the estimates of phase 0 under its number of accepted draws. */
  function PhaseZeroOrigin(ds: seq<Draw>, scans: nat): Origin {
    Origin(scans, Stratum(|Accepted(ds)|, PhaseZeroEstimate(ds).mu, PhaseZeroEstimate(ds).variance))
  }

  /** Squared deviation of the accepted values of phase 0. */
  function PhaseZeroSpread(ds: seq<Draw>): real {
    if |Accepted(ds)| >= 2 then AcceptAll(EMPTY, Accepted(ds)).variance * |Accepted(ds)| as real else 0.0
  }

  /** How a run ends: with phases after the first, without any, or with an error. */
  datatype Outcome = Finished | NothingToDo | ZeroEstimate | BudgetTooSmall | NoCandidate

  /** A probe with a non-zero estimate. */
  predicate Usable(ds: seq<Draw>) {
    |Accepted(ds)| >= 2 && Scan(EMPTY, ds).mu != 0.0
  }

  /** The test before the probes: all of them fit the budget. */
  predicate Affordable(initial: nat, candidates: nat, budget: nat)
    requires candidates > 0
  {
    initial > 0 && initial <= budget / candidates
  }

  /** Draws of the probes of `candidates` candidates. */
  function Probed(initial: nat, candidates: nat): nat {
    if candidates == 0 then 0 else Probed(initial, candidates - 1) + initial
  }

  function Abs(x: real): (r: real)
    ensures r >= 0.0 && (r == x || r == -x)
  {
    if x < 0.0 then -x else x
  }

  lemma NothingSummed(part: seq<Stratum>)
    requires part != []
    ensures SumN([]) == 0 && MuSum(part, 0) == 0.0 && VarSum(part, 0) == 0.0
  {
  }

  lemma SumOfPrefix(xs: seq<nat>, p: nat)
    requires p < |xs|
    ensures SumN(xs[..p + 1]) == SumN(xs[..p]) + xs[p]
  {
    assert xs[..p + 1][..p] == xs[..p];
  }

  class Control {
    const budget: nat
    const initial: nat
    const roundSize: nat
    const progressive: bool
    const relativeCi: real
    const z: real
    const sqrt: real -> real
    const draw: Sampler
    const est: TransState
    const sizes: array<nat>
    const fractions: array<real>

    // the books
    var total: nat
    var discarded: nat
    var uniformDraws: nat
    var scans: nat
    ghost var draws: nat
    ghost var trace: seq<ScanRecord>
    ghost var origin: Origin

    // the phase
    var last: bool
    var curPhase: nat
    var n: nat
    var phaseSize: nat
    var err0: real
    var spreadOfPhaseZero: real
    var stratifiedSize: nat
    var uniformSize: nat

    // progressive rounds
    var inRounds: bool
    var uniform: bool
    var phaseRemaining: nat
    var roundBudget: nat
    var partRemaining: seq<nat>
    var partRound: seq<nat>
    var badRounds: nat
    var phaseStartCi: real
    var lastCi: real
    var checkpoint: Checkpoint
    ghost var roundStart: Snapshot
    ghost var log: seq<Round>
    ghost var switches: nat
    ghost var switchedAt: nat

    function Spent(): nat
      reads this`total, this`discarded
    {
      total + discarded
    }

    function Remaining(): nat
      reads this`total, this`discarded
    {
      if budget > Spent() then budget - Spent() else 0
    }

    function Ci(): real
      reads est`varTotal
    {
      z * sqrt(2.0 * est.varTotal)
    }

    constructor (budget: nat, initial: nat, roundSize: nat, progressive: bool, relativeCi: real, z: real,
                 sqrt: real -> real, draw: Sampler, capacity: nat)
      ensures this.budget == budget && this.initial == initial && this.roundSize == roundSize && this.draw == draw
      ensures this.progressive == progressive && this.relativeCi == relativeCi && this.z == z && this.sqrt == sqrt
      ensures sizes.Length == capacity && fractions.Length == capacity
      ensures fresh(est) && fresh(sizes) && fresh(fractions) && est.Valid()
      ensures Unused()
    {
      this.budget, this.initial, this.roundSize := budget, initial, roundSize;
      this.progressive, this.relativeCi, this.z, this.sqrt, this.draw := progressive, relativeCi, z, sqrt, draw;
      est := new TransState();
      sizes := new nat[capacity](_ => 0);
      fractions := new real[capacity](_ => 0.0);
      total, discarded, uniformDraws, scans, draws, trace := 0, 0, initial, 0, 0, [];
      origin := Origin(0, EMPTY);
      last, curPhase, n, phaseSize, err0, spreadOfPhaseZero := false, 0, 1, 0, 0.0, 0.0;
      stratifiedSize, uniformSize := 0, 0;
      inRounds, uniform, phaseRemaining, roundBudget := false, false, 0, 0;
      partRemaining, partRound, badRounds := [], [], 0;
      phaseStartCi, lastCi := 0.0, 0.0;
      checkpoint, log, switches := Checkpoint(0, 0, 0.0, 0.0, 0.0), [], 0;
      roundStart, switchedAt := Snapshot(checkpoint, 0, []), 0;
    }

    /** The strata's histories are what the scans made so far drew in them, and `draws` counts all their draws. */
    ghost predicate Traced()
      reads this`trace, this`scans, this`draws, est`hist
    {
      TracedBy(draw, trace, scans, draws, est.hist)
    }

    /** Every stratum's entry describes everything that the scans of the run have drawn in it. */
    ghost predicate EntriesDescribeScans()
      reads this`trace, est`part
    {
      forall i :: 1 <= i < |est.part| ==> Describes(est.part[i], History(draw, trace, i))
    }

    /** Entry 0 is what phase 0 left, grown by all scans of the whole range since. */
    ghost predicate EntryZeroGrown()
      reads this`trace, this`origin, est`part
    {
      origin.first <= |trace| && est.part != [] && est.part[0] == EntryZero(draw, trace, origin)
    }

    /** The books balance: every draw made is either in the estimate or discarded, and the budget covers them all. */
    ghost predicate Books()
      reads this`total, this`discarded, this`draws, this`uniformDraws, this`trace, this`scans, est`hist
    {
      Spent() == draws <= budget && 0 < uniformDraws <= total && Traced()
    }

    /** What a rollback restores, as it is now. */
    function State(): Checkpoint
      reads this`total, this`uniformDraws, this`lastCi, est`muTotal, est`varTotal
    {
      Checkpoint(total, uniformDraws, lastCi, est.muTotal, est.varTotal)
    }

    /** The whole state that a round finds. */
    ghost function Now(): Snapshot
      reads this`total, this`uniformDraws, this`lastCi, this`trace, est`part, est`muTotal, est`varTotal
    {
      Snapshot(State(), |trace|, est.part)
    }

    ghost predicate Fits()
      reads this`n, est, fractions
    {
      && 1 <= n <= sizes.Length && n <= fractions.Length
      && est.Valid() && |est.part| == n + 1
      && forall i :: 0 <= i < n ==> fractions[i] >= 0.0
    }

    ghost predicate Consistent()
      reads this`total, this`uniformDraws, est
    {
      est.part != [] && Mixable(total, uniformDraws, est.part[0], est.muTotal, est.varTotal)
    }

    /** The settings: rounds are not empty, the quantile is not negative, and `sqrt` takes square roots. */
    ghost predicate Sound() {
      roundSize >= 1 && z >= 0.0 && DrawsAsAsked(draw) && forall x :: RootAt(sqrt, x)
    }

    lemma SoundRounds()
      requires Sound()
      ensures DrawsAsAsked(draw) && roundSize >= 1
    {
    }

    // ----- scans

    /** The scan of one stratum, its draws booked. */
    method ScanNext(p: nat, size: nat)
      requires DrawsAsAsked(draw) && est.Valid() && p + 1 < |est.part| && Traced()
      requires est.muPhase == MuSum(est.part, p) && est.varPhase == VarSum(est.part, p)
      modifies this`total, this`draws, this`scans, this`trace, est`part, est`hist, est`muPhase, est`varPhase
      ensures total == old(total) + size && draws == old(draws) + size
      ensures trace == old(trace) + [ScanRecord(p + 1, size)] && Traced()
      ensures est.Valid() && |est.part| == old(|est.part|) && est.part[0] == old(est.part[0])
      ensures est.muPhase == MuSum(est.part, p + 1) && est.varPhase == VarSum(est.part, p + 1)
    {
      hide Describes, Scan, Values, TracedBy;
      var ds := draw(scans, size);
      assert |ds| == size;
      ghost var before := est.part;
      TraceNext(draw, trace, scans, draws, est.hist, ScanRecord(p + 1, size));
      scans, total, draws, trace := scans + 1, total + |ds|, draws + |ds|, trace + [ScanRecord(p + 1, size)];
      est.ScanStratum(p + 1, ds);
      SumsIgnoreLater(before, p, p + 1, est.part[p + 1]);
    }

    /** The scans of all strata, one after the other. */
    method ScanStrata(alloc: seq<nat>)
      requires DrawsAsAsked(draw) && est.Valid() && |est.part| == |alloc| + 1 && est.muPhase == est.varPhase == 0.0
      requires Traced()
      modifies this`total, this`draws, this`scans, this`trace, est`part, est`hist, est`muPhase, est`varPhase
      ensures total == old(total) + SumN(alloc) && draws == old(draws) + SumN(alloc)
      ensures trace == old(trace) + RecordsOf(alloc) && Traced()
      ensures est.Valid() && |est.part| == |alloc| + 1 && est.part[0] == old(est.part[0])
      ensures est.muPhase == MuSum(est.part, |alloc|) && est.varPhase == VarSum(est.part, |alloc|)
    {
      hide Describes, MuSum, VarSum, SumN, DrawsAsAsked, TracedBy;
      NothingSummed(est.part);
      var p := 0;
      while p < |alloc|
        invariant 0 <= p <= |alloc|
        invariant total == old(total) + SumN(alloc[..p]) && draws == old(draws) + SumN(alloc[..p])
        invariant est.Valid() && |est.part| == |alloc| + 1 && est.part[0] == old(est.part[0])
        invariant trace == old(trace) + RecordsOf(alloc[..p]) && Traced()
        invariant est.muPhase == MuSum(est.part, p) && est.varPhase == VarSum(est.part, p)
      {
        SumOfPrefix(alloc, p);
        RecordsOfPrefix(alloc, p);
        ScanNext(p, alloc[p]);
        p := p + 1;
      }
      assert alloc[..|alloc|] == alloc;
    }

    /** One round over all strata, `alloc` draws in each. Afterwards the phase estimates are the sums over all strata of
        the estimates from everything ever drawn there, and the totals mix them with entry 0. */
    method StratifiedRound(alloc: seq<nat>)
      requires DrawsAsAsked(draw) && Fits() && |alloc| == n && 0 < uniformDraws <= total && Traced()
      modifies this`total, this`draws, this`scans, this`trace, est
      ensures total == old(total) + SumN(alloc) && draws == old(draws) + SumN(alloc)
      ensures trace == old(trace) + RecordsOf(alloc) && Traced()
      ensures est.Valid() && |est.part| == n + 1 && est.part[0] == old(est.part[0])
      ensures est.muPhase == MuSum(est.part, n) && est.varPhase == VarSum(est.part, n)
      ensures Averages(uniformDraws, total, est.part[0], est.muPhase, est.varPhase, est.muTotal, est.varTotal)
    {
      hide Describes, Averages, MuSum, VarSum, SumN, DrawsAsAsked, TracedBy, RecordsOf;
      est.ResetPhase();
      ScanStrata(alloc);
      est.Mix(uniformDraws, total);
    }

    /** One uniform round. Entry 0 grows, the phase estimates stay, and the totals mix the two. */
    method UniformRound(size: nat)
      requires DrawsAsAsked(draw) && est.Valid() && 0 < uniformDraws <= total && Traced()
      modifies this`total, this`draws, this`scans, this`trace, this`uniformDraws, est`part, est`muTotal, est`varTotal
      ensures total == old(total) + size && draws == old(draws) + size && uniformDraws == old(uniformDraws) + size
      ensures trace == old(trace) + [ScanRecord(0, size)] && Traced()
      ensures est.Valid() && est.part == old(est.part)[0 := Scan(old(est.part)[0], draw(old(scans), size))]
      ensures est.varPhase >= 0.0 ==> PhaseMixes()
      ensures old(EntryZeroGrown()) ==> EntryZeroGrown()
    {
      hide Describes, Averages, Scan, TracedBy, EntryZero;
      var ds := draw(scans, size);
      assert |ds| == size;
      TraceNext(draw, trace, scans, draws, est.hist, ScanRecord(0, size));
      AsManyScans(draw, trace, scans, draws, est.hist);
      if origin.first <= |trace| { EntryZeroNext(draw, trace, origin, ScanRecord(0, size)); }
      scans, trace := scans + 1, trace + [ScanRecord(0, size)];
      total := total + |ds|;
      draws := draws + |ds|;
      uniformDraws := uniformDraws + |ds|;
      est.ScanUniform(ds);
      est.Mix(uniformDraws, total);
    }

    // ----- rounds of a phase

    /** The allocation of the phase that is still to be drawn adds up over the strata and fits the budget; `pending`
        draws have been made but not taken off it yet. */
    ghost predicate RoundsLeft(pending: nat)
      reads this`n, this`phaseRemaining, this`partRemaining, this`draws
    {
      && |partRemaining| == n && phaseRemaining == SumN(partRemaining)
      && draws + phaseRemaining <= budget + pending
    }

    /** A round is cut out of that allocation. */
    ghost predicate RoundReady(pending: nat)
      reads this`n, this`phaseRemaining, this`partRemaining, this`partRound, this`roundBudget, this`draws
    {
      && RoundsLeft(pending) && |partRound| == n && roundBudget == SumN(partRound)
      && forall i :: 0 <= i < n ==> partRound[i] <= partRemaining[i]
    }

    /** The checkpoint is the state before the current streak of bad rounds, or that before the current round if
        there is no streak; `pending` draws came after the last round in the log. */
    ghost predicate CheckpointAt(pending: nat)
      reads this`badRounds, this`log, this`roundStart, this`checkpoint, this`total, this`uniformDraws, this`trace
      reads est`part
    {
      var start := StreakStart(log, roundStart);
      && Streak(log) == badRounds && checkpoint == start.state
      && checkpoint.total + StreakDraws(log) + pending == total
      && checkpoint.uniform == uniformDraws
      && est.part != [] && start.part != [] && start.part[0] == est.part[0] && Occurred(draw, trace, start)
      && Asked(trace[..start.scans]) + StreakDraws(log) + pending == Asked(trace)
      && Mixable(checkpoint.total, checkpoint.uniform, est.part[0], checkpoint.muTotal, checkpoint.varTotal)
    }

    method InitPhase()
      requires Between() && phaseSize == SumN(sizes[..n]) && phaseSize <= Remaining()
      modifies this`phaseRemaining, this`roundBudget, this`badRounds, this`partRemaining, this`partRound, this`log
      ensures RoundsLeft(0) && phaseRemaining == phaseSize && partRemaining == sizes[..n]
      ensures badRounds == 0 && log == [] && Streak(log) == 0
    {
      phaseRemaining := Min(phaseSize, Remaining());
      roundBudget, badRounds, log := 0, 0, [];
      partRound := seq(n, _ => 0);
      partRemaining := sizes[..n];
    }

    /** Cuts the next round out of the remaining allocation. No stratum gets more than it has left, every stratum with
        draws left advances, and the round exceeds its target by at most the minimum for each stratum. */
    method CutNext()
      requires Fits() && RoundsLeft(0) && SumR(fractions[..n]) == 1.0
      modifies this`roundBudget, this`partRound
      ensures RoundReady(0) && roundBudget <= phaseRemaining
      ensures forall i :: 0 <= i < n ==>
                FairRound(Min(roundSize, phaseRemaining), fractions[i], partRemaining[i], partRound[i])
      ensures phaseRemaining > 0 ==> roundBudget > 0
      ensures roundBudget <= Min(roundSize, phaseRemaining) + MIN_STRATUM * n
    {
      hide Describes, SumN, SumR;
      partRound, roundBudget := CutRound(Min(roundSize, phaseRemaining), fractions[..n], partRemaining);
    }

    /** Takes a checkpoint unless a streak of bad rounds is on. */
    method TakeCheckpoint()
      requires Consistent() && TotalsMix() && EntriesDescribeScans()
      requires if badRounds > 0 then CheckpointAt(0) else Streak(log) == 0
      modifies this`checkpoint, this`roundStart
      ensures CheckpointAt(0)
      ensures roundStart == Now() && checkpoint == if badRounds == 0 then State() else old(checkpoint)
    {
      hide Mixable, Streak, StreakDraws, StreakStart, Describes, Mixed, Occurred, Asked;
      NoStreak(log, Now(), roundStart);
      OccursNow(draw, trace, Now());
      assert trace[..|trace|] == trace;
      roundStart := Now();
      if badRounds == 0 {
        checkpoint := Checkpoint(total, uniformDraws, lastCi, est.muTotal, est.varTotal);
      }
    }

    /** Prepares the next round. */
    method BuildRound()
      requires Between() && n > 1 && RoundsLeft(0) && if badRounds > 0 then CheckpointAt(0) else Streak(log) == 0
      modifies this`roundBudget, this`partRound, this`checkpoint, this`roundStart
      ensures RoundReady(0) && CheckpointAt(0) && roundBudget <= phaseRemaining
      ensures !last && phaseRemaining > 0 && lastCi == Ci() ==> InRound()
      ensures roundStart == Now() && checkpoint == if badRounds == 0 then State() else old(checkpoint)
    {
      hide Between, Fits, Consistent, CheckpointAt, RoundReady, SumR, SumN, Streak, State, Now, TotalsMix;
      hide EntriesDescribeScans;
      BetweenPhases();
      CutNext();
      TakeCheckpoint();
    }

    /** The streak of bad rounds has just been undone. */
    ghost predicate RolledBack()
      reads this`trace, this`log, this`roundStart, est`muPhase, est`varPhase
    {
      StreakUndone(draw, trace, log, roundStart, |trace|, est.muPhase, est.varPhase)
    }

    /** The streak of bad rounds was undone when the run switched to uniform sampling, which all scans since were
        for. */
    ghost predicate GivenUp()
      reads this`trace, this`log, this`roundStart, this`switchedAt, est`muPhase, est`varPhase
    {
      StreakUndone(draw, trace, log, roundStart, switchedAt, est.muPhase, est.varPhase)
    }

    /** Draws of the streak that was undone, if any. */
    ghost function Undone(): nat
      reads this`uniform, this`log
    {
      if uniform then StreakDraws(log) else 0
    }

    /** Demand of the uniform fallback. */
    function UniformDemand(): nat
      requires err0 != 0.0 && est.part != []
      reads this`err0, this`uniform, this`uniformDraws, this`spreadOfPhaseZero, this`total, est
    {
      if Ci() <= err0 then 0
      else UniformSize(SquaredScale(z, err0, sqrt), est.varTotal, UniformSpread(), total as real, sqrt)
    }

    /** Squared deviation of a uniform draw: from entry 0 once the run has switched, from phase 0 before. */
    function UniformSpread(): real
      requires est.part != []
      reads this`uniform, this`uniformDraws, this`spreadOfPhaseZero, est`part
    {
      var p0 := est.part[0];
      if uniform && uniformDraws > 0 && p0.variance > 0.0 then p0.variance * uniformDraws as real
      else spreadOfPhaseZero
    }

    /** With the target not met, it is the least number of draws from 30 on that meets it, given a spread to go by. */
    lemma UniformDemandIsLeast()
      requires Sound() && est.part != [] && err0 > 0.0 && total > 0 && est.varTotal >= 0.0 && Ci() > err0
      requires UniformSpread() > 0.0
      ensures var c, s, t := SquaredScale(z, err0, sqrt), UniformSpread(), total as real;
              var demand := UniformDemand();
              && demand >= 30 && MeetsWith(c, est.varTotal, s, t, demand)
              && forall m :: 30 <= m < demand ==> !MeetsWith(c, est.varTotal, s, t, m)
    {
      hide SquaredScale, RootAt, MeetsWith, UniformSize, UniformSpread;
      UnmetUniformLeast(z, err0, est.varTotal, UniformSpread(), total as real, sqrt);
    }

    /** Uniform draws to be made next: what is left of the last demand, or a new one within the budget. Without a demand
        to go by it is one round. */
    ghost function UniformDue(rest: nat, stored: nat): nat
      requires err0 != 0.0 && est.part != []
      reads this`err0, this`uniform, this`uniformDraws, this`spreadOfPhaseZero, this`total, this`discarded, est
    {
      if rest > 0 then rest
      else if stored > 0 then Min(stored, Remaining())
      else if UniformDemand() > 0 then Min(UniformDemand(), Remaining())
      else Min(roundSize, Remaining())
    }

    /** Gives up the current streak of bad rounds: its draws are discarded, the estimate goes back to the checkpoint,
        and the rebuilt phase estimates mix to the restored totals. What has been spent stays spent. */
    method RollBack()
      requires CheckpointAt(0) && est.Valid() && 0 < checkpoint.uniform
      modifies this`discarded, this`total, this`uniformDraws, this`lastCi, this`uniformSize, this`badRounds
      modifies est`muTotal, est`varTotal, est`muPhase, est`varPhase
      ensures discarded == old(discarded) + old(StreakDraws(log)) && Spent() == old(Spent())
      ensures State() == checkpoint == StreakStart(log, roundStart).state
      ensures uniformDraws == old(uniformDraws) <= total && uniformSize == 0 && badRounds == 0
      ensures Consistent() && PhaseMixes() && (Streak(log) >= MAX_BAD_ROUNDS ==> RolledBack())
    {
      hide Describes, Averages, Streak, StreakDraws, StreakStart, Alpha, Asked, MuSum, VarSum;
      hide History;
      ghost var start := StreakStart(log, roundStart);
      var undone := if total > checkpoint.total then total - checkpoint.total else 0;
      discarded := discarded + undone;
      total := checkpoint.total;
      uniformDraws := checkpoint.uniform;
      lastCi := checkpoint.lastCi;
      est.Restore(checkpoint.muTotal, checkpoint.varTotal, uniformDraws, total);
      AlphaMixesAll(uniformDraws, total, est.part[0]);
      if uniformDraws < total {
        AlphaBelowOne(uniformDraws, total);
        UnmixVarNonNegative(Alpha(uniformDraws, total), est.part[0].variance, est.varTotal);
      }
      RestoredSums(start, est.part[0], est.muPhase, est.varPhase);
      assert trace[..|trace|] == trace;
      uniformSize, badRounds := 0, 0;
    }

    /** Takes the finished round off the allocation. */
    method TakeOffRound()
      requires RoundReady(roundBudget)
      modifies this`phaseRemaining, this`partRemaining
      ensures RoundsLeft(0) && phaseRemaining == old(phaseRemaining) - roundBudget
      ensures partRemaining == old(Minus(partRemaining, partRound))
    {
      hide SumN;
      SumOfMinus(partRemaining, partRound);
      partRemaining := Minus(partRemaining, partRound);
      phaseRemaining := phaseRemaining - roundBudget;
    }

    /** Judges the finished round and keeps the count of bad rounds in a row; the verdict is to give up on strata after
        the third, unless the phase is nearly used up. */
    method JudgeRound(ci: real) returns (switch: bool)
      requires CheckpointAt(roundBudget)
      modifies this`badRounds, this`log
      ensures log == old(log) + [Round(roundBudget, badRounds > 0, roundStart)]
      ensures Streak(log) == badRounds && (badRounds > 0 ==> CheckpointAt(0))
      ensures badRounds == if ci > err0 * NEAR_TARGET && OffCourse(ci, lastCi, err0, roundBudget, phaseRemaining)
                           then old(badRounds) + 1 else 0
      ensures switch <==>
                && badRounds >= MAX_BAD_ROUNDS && ci > err0 * NEAR_TARGET && phaseRemaining > 0
                && ((phaseRemaining > roundBudget && phaseRemaining > 2 * roundSize)
                    || (phaseStartCi > 0.0 && ci > phaseStartCi * PHASE_REGRESSION))
      ensures switch ==> phaseRemaining > 0 && badRounds >= MAX_BAD_ROUNDS
    {
      hide Mixable, Describes, Streak, StreakDraws, StreakStart, BadSignal, OffCourse;
      var near := ci <= err0 * NEAR_TARGET;
      var bad := !near && BadSignal(ci, lastCi, err0, phaseStartCi, roundBudget, phaseRemaining);
      if !near { BadIff(ci, lastCi, err0, phaseStartCi, roundBudget, phaseRemaining); }
      StreakStep(log, Round(roundBudget, bad, roundStart), roundStart);
      log := log + [Round(roundBudget, bad, roundStart)];
      badRounds := if bad then badRounds + 1 else 0;
      var drain := Draining(phaseRemaining, roundBudget, roundSize, Regressed(ci, phaseStartCi));
      switch := !near && phaseRemaining > 0 && !drain && badRounds >= MAX_BAD_ROUNDS;
    }

    /** Goes on after a round, unless the verdict is to give up on strata, in which case the streak of bad rounds is
        rolled back. */
    method SwitchOrGoOn(ci: real) returns (switch: bool)
      requires CheckpointAt(roundBudget) && Books() && Consistent() && est.Valid() && err0 > 0.0
      modifies this`badRounds, this`lastCi, this`uniformSize, this`log, this`total, this`discarded, this`uniformDraws
      modifies est`muTotal, est`varTotal, est`muPhase, est`varPhase
      ensures Consistent() && Books() && log == old(log) + [Round(roundBudget, Streak(log) > 0, roundStart)]
      ensures !switch ==> total == old(total) && est.muTotal == old(est.muTotal) && est.varTotal == old(est.varTotal)
      ensures uniformDraws == old(uniformDraws) && (!switch ==> discarded == old(discarded) && lastCi == ci)
      ensures !switch ==> if badRounds > 0 then CheckpointAt(0) else Streak(log) == 0
      ensures switch ==> phaseRemaining > 0 && RolledBack() && PhaseMixes()
      ensures switch ==> discarded == old(discarded) + StreakDraws(log) && State() == StreakStart(log, roundStart).state
    {
      hide Mixable, Describes, Streak, StreakDraws, StreakStart, PhaseMixes, UniformDemand, Traced, Consistent;
      hide RolledBack, Occurred, Asked;
      if ci > err0 * NEAR_TARGET {
        uniformSize := UniformDemand();
      }
      switch := JudgeRound(ci);
      if switch {
        RollBack();
      } else {
        lastCi := ci;
      }
    }

    /** After a round: takes it off the allocation, judges it, and decides whether to give up on strata. On a switch
        exactly the draws of the streak of bad rounds are discarded, and the state is that before its first round. The
        run may also turn out to be over. */
    method CheckAndSwitch() returns (switch: bool)
      requires RoundReady(roundBudget) && CheckpointAt(roundBudget) && Books() && Consistent()
      requires est.Valid() && err0 > 0.0 && !last
      modifies this`phaseRemaining, this`partRemaining, this`badRounds, this`lastCi, this`last, this`uniformSize
      modifies this`log, this`total, this`discarded, this`uniformDraws
      modifies est`muTotal, est`varTotal, est`muPhase, est`varPhase
      ensures Consistent() && Books() && phaseRemaining == old(phaseRemaining) - roundBudget && RoundsLeft(0)
      ensures partRemaining == old(Minus(partRemaining, partRound))
      ensures !last && !switch ==> (if badRounds > 0 then CheckpointAt(0) else Streak(log) == 0) && lastCi == Ci()
      ensures last ==> !switch && Done() && (Ci() <= err0 || phaseRemaining == 0)
      ensures !switch ==> total == old(total) && est.muTotal == old(est.muTotal) && est.varTotal == old(est.varTotal)
      ensures uniformDraws == old(uniformDraws) && (!switch ==> discarded == old(discarded))
      ensures switch ==>
                && phaseRemaining > 0 && PhaseMixes() && RolledBack()
                && log == old(log) + [Round(roundBudget, true, roundStart)]
                && discarded == old(discarded) + StreakDraws(log) && State() == StreakStart(log, roundStart).state
    {
      hide Occurred, Asked, MuSum, VarSum;
      hide Streak, StreakDraws, StreakStart, PhaseMixes, Ci, Traced, Consistent, CheckpointAt;
      hide State, RoundReady, Describes;
      TakeOffRound();
      switch := false;
      var ci := Ci();
      if ci <= err0 || Spent() >= budget {
        last := true;
        return;
      }
      switch := SwitchOrGoOn(ci);
    }

    // ----- sizing a phase

    /** Caps the phase to the remaining budget. Something is left of it, and the strata it is dealt out to add up to it;
        it is cut no further than the budget asks for unless some strata have lost their share already. */
    method Cap()
      requires Fits() && phaseSize > 0 && Remaining() > 0
      requires if n > 1 then HasActive(sizes[..n], fractions[..n]) else fractions[0] == 1.0
      modifies this`phaseSize, this`last, sizes, fractions
      ensures Fits() && 0 < phaseSize <= Remaining() && phaseSize == SumN(sizes[..n]) && last == old(last)
      ensures sizes[..n] == old(Dealt(phaseSize, Remaining(), sizes[..n], fractions[..n]))
      ensures fractions[..n] == old(fractions[..n]) && (n > 1 ==> HasActive(sizes[..n], fractions[..n]))
      ensures n > 1 ==> old(ActiveFraction(sizes[..n], fractions[..n], 0)) >= 1.0 ==>
                phaseSize == CappedSize(n, old(phaseSize), Remaining())
      ensures n == 1 ==> phaseSize == CappedSize(n, old(phaseSize), Remaining())
    {
      hide SumN, ActiveFraction, Describes, HasActive, CappedSize, Dealt;
      var l;
      phaseSize, l := CapAllocation(n, phaseSize, Remaining(), sizes, fractions);
      last := last || l;
    }

    /** The run may stop: the target is met or the budget used up. */
    ghost predicate Done()
      reads this`err0, this`total, this`discarded, est`varTotal
    {
      Ci() <= err0 || Spent() >= budget
    }

    /** What the solver asks for at the end of a phase. */
    function Demand(): Solved
      requires err0 != 0.0 && n <= |est.part|
      reads this`err0, this`n, this`total, est`part, est`varTotal
    {
      var s := SumOfRoots(Variances(est.part), sqrt, n);
      Solve(SquaredScale(z, err0, sqrt), est.varTotal, Sq(s), total as real, sqrt)
    }

    /** What stays the same through the phases. */
    ghost function TheRules(): Rules
      requires err0 != 0.0
      reads this`err0
    {
      Rules(budget, SquaredScale(z, err0, sqrt), sqrt, draw)
    }

    /** With the target not met, what the solver asks for is the least number of draws that meets it. */
    lemma DemandIsLeast()
      requires Fits() && err0 > 0.0 && Sound() && total > 0 && est.varTotal >= 0.0 && Ci() >= err0 && !Demand().Stop?
      ensures Demand().n >= 1 && Demanded(TheRules(), Now(), Demand().n)
    {
      hide Describes, Solve, SumOfRoots, RootAt, LeastMeeting;
      ghost var c, s2 := SquaredScale(z, err0, sqrt), SquaredRoots(est.part, sqrt);
      UnmetSolvedLeast(z, err0, est.varTotal, s2, total as real, sqrt);
      SolvedIsPositive(c, est.varTotal, s2, total as real, sqrt);
    }

    /** The next phase has been sized after one over the same strata that was to draw `alloc`. */
    ghost predicate NextSized(alloc: seq<nat>, fs: seq<real>)
      reads this, est, sizes, fractions
    {
      && Fits() && err0 > 0.0 && n == |alloc| && fractions[..n] == fs && !Demand().Stop? && Demand().n >= 1
      && Demanded(TheRules(), Now(), Demand().n)
      && sizes[..n] == Dealt(Demand().n, Remaining(), alloc, fs) && phaseSize == SumN(sizes[..n])
    }

    /** End of a phase: the run is over if the target is met or the budget used up; otherwise the next phase is sized,
        to one draw at least. */
    method CheckCi()
      requires Fits() && err0 > 0.0 && Sound() && !last && total > 0 && est.varTotal >= 0.0
      requires if n > 1 then HasActive(sizes[..n], fractions[..n]) else fractions[0] == 1.0
      modifies this`phaseSize, this`last, sizes, fractions
      ensures Fits() && (last ==> Done())
      ensures !last ==> phaseSize > 0 && (n > 1 ==> HasActive(sizes[..n], fractions[..n]))
      ensures fractions[..n] == old(fractions[..n])
      ensures !last ==> NextSized(old(sizes[..n]), old(fractions[..n]))
      ensures last <==> Ci() < err0 || Spent() >= budget || Demand().Stop?
      ensures !last && (n > 1 ==> old(ActiveFraction(sizes[..n], fractions[..n], 0)) >= 1.0) ==>
                phaseSize == CappedSize(n, Demand().n, Remaining())
    {
      hide SumN, Describes, Solve, SumOfRoots, HasActive, RootAt, SquaredScale, ActiveFraction, CappedSize, Demanded;
      hide Dealt;
      if Ci() < err0 || Spent() >= budget {
        last := true;
        return;
      }
      var solved := Demand();
      ghost var s2 := Sq(SumOfRoots(Variances(est.part), sqrt, n));
      SolvedIsPositive(SquaredScale(z, err0, sqrt), est.varTotal, s2, total as real, sqrt);
      StopMeansMet(z, err0, est.varTotal, s2, total as real, sqrt);
      if solved.Stop? {
        last := true;
        return;
      }
      DemandIsLeast();
      phaseSize := solved.n;
      Cap();
    }

    // ----- uniform fallback

    lemma PhaseVariance()
      requires PhaseMixes()
      ensures est.varPhase >= 0.0
    {
    }

    /** Sets the uniform draws to be made next. */
    method DemandUniform(remaining: nat)
      requires est.part != [] && err0 > 0.0 && remaining == Remaining() > 0
      modifies this`uniformSize, this`phaseRemaining
      ensures phaseRemaining == UniformDue(old(phaseRemaining), old(uniformSize))
      ensures roundSize >= 1 ==> phaseRemaining >= 1
    {
      hide UniformDemand;
      if phaseRemaining == 0 {
        var raw := uniformSize;
        if raw == 0 { raw := UniformDemand(); }
        if raw == 0 { raw := Min(roundSize, remaining); }
        uniformSize := raw;
        phaseRemaining := Min(raw, remaining);
      }
    }

    /** Sizes the next uniform round, or ends the run. A round that is sized is not empty and fits the budget. */
    method AllocateUniform()
      requires est.part != [] && err0 > 0.0 && sizes.Length >= 1 && fractions.Length >= 1
      modifies this`last, this`uniformSize, this`phaseRemaining, this`phaseSize, this`roundBudget, this`n
      modifies sizes, fractions
      ensures last && !old(last) && roundSize >= 1 ==> Done()
      ensures !last ==> n == 1 && 1 <= phaseSize <= Remaining() && roundBudget == phaseSize == sizes[0]
      ensures !last ==>
                var due := UniformDue(old(phaseRemaining), old(uniformSize));
                phaseSize == Min(roundSize, Min(due, Remaining())) && phaseRemaining == due - phaseSize
      ensures !last && phaseRemaining == 0 ==> uniformSize == 0
    {
      hide Describes, UniformDemand, UniformDue, Ci;
      var remaining := Remaining();
      if Ci() <= err0 || remaining == 0 {
        last := true;
        return;
      }
      DemandUniform(remaining);
      var size := Min(Min(roundSize, phaseRemaining), remaining);
      if size == 0 {
        last := true;
        return;
      }
      phaseRemaining := phaseRemaining - size;
      if phaseRemaining == 0 { uniformSize := 0; }
      OneStratumOf(size);
    }

    method OneStratumOf(size: nat)
      requires sizes.Length >= 1 && fractions.Length >= 1
      modifies this`n, this`phaseSize, this`roundBudget, sizes, fractions
      ensures n == 1 && roundBudget == phaseSize == sizes[0] == size && fractions[0] == 1.0
    {
      n, phaseSize, roundBudget := 1, size, size;
      fractions[0], sizes[0] := 1.0, size;
    }

    /** Uniform sampling goes on with a sized round, or the run is over. */
    ghost predicate UniformGoing()
      reads this`total, this`discarded, this`draws, this`uniformDraws, this`trace, this`origin, this`scans, this`err0
      reads this`last, this`phaseSize, this`log, this`roundStart, this`switchedAt, this`n, this`roundBudget, est, sizes
    {
      && Books() && est.Valid() && PhaseMixes() && EntryZeroGrown() && GivenUp()
      && (if last then Done()
          else 1 <= phaseSize <= Remaining() && n == 1 && sizes.Length >= 1 && roundBudget == phaseSize == sizes[0])
    }

    /** One more uniform round. */
    method NextUniform()
      requires Sound() && UniformGoing() && !last && err0 > 0.0 && sizes.Length >= 1 && fractions.Length >= 1
      modifies this`total, this`draws, this`scans, this`trace, this`uniformDraws, this`last, this`uniformSize
      modifies this`phaseRemaining, this`phaseSize, this`roundBudget, this`n, sizes, fractions
      modifies est`part, est`muTotal, est`varTotal
      ensures UniformGoing() && draws > old(draws) && est.part[1..] == old(est.part[1..])
      ensures trace == old(trace) + [ScanRecord(0, old(phaseSize))]
    {
      hide Describes, PhaseMixes, Sound, DrawsAsAsked, Scan, Ci, Traced, EntryZeroGrown, StreakUndone;
      SoundRounds();
      PhaseVariance();
      StaysUndone(draw, trace, log, roundStart, switchedAt, est.muPhase, est.varPhase, ScanRecord(0, phaseSize));
      UniformRound(phaseSize);
      AllocateUniform();
    }

    /** Uniform sampling to the end of the run. */
    method UniformToEnd()
      requires Sound() && Going() && !last && PhaseMixes() && RolledBack()
      modifies this`total, this`draws, this`scans, this`trace, this`uniformDraws, this`last, this`uniformSize
      modifies this`phaseRemaining, this`phaseSize, this`roundBudget, this`n, sizes, fractions
      modifies this`uniform, this`inRounds, this`switches, this`switchedAt, est`part, est`muTotal, est`varTotal
      ensures PhaseOver() && last && uniform && switches == 1 && draws >= old(draws) && old(trace) <= trace
      ensures est.part[1..] == old(est.part[1..]) && forall k :: old(|trace|) <= k < |trace| ==> trace[k].entry == 0
    {
      hide Describes, PhaseMixes, Sound, Ci, Traced, EntryZeroGrown, SumR, HasActive, Mixable, StreakUndone;
      StartUniform();
      hide UniformGoing;
      while !last
        invariant UniformGoing() && draws >= old(draws) && old(trace) <= trace && est.part[1..] == old(est.part[1..])
        invariant uniform && switches == 1 && switchedAt == old(|trace|)
        decreases if last then 0 else 1 + Remaining()
      {
        UniformCounts();
        NextUniform();
        if !last { UniformCounts(); }
      }
      UniformIsOver();
    }

    /** Gives up on strata and sizes the first uniform round. */
    method StartUniform()
      requires Sound() && Going() && !last && PhaseMixes() && RolledBack()
      modifies this`last, this`uniformSize, this`phaseRemaining, this`phaseSize, this`roundBudget, this`n
      modifies this`uniform, this`inRounds, this`switches, this`switchedAt, sizes, fractions
      ensures UniformGoing() && uniform && switches == 1 && switchedAt == |trace|
    {
      hide Describes, PhaseMixes, Sound, Ci, Traced, EntryZeroGrown, SumR, HasActive, Mixable, StreakUndone;
      SoundRounds();
      uniform, inRounds, switches, switchedAt := true, false, switches + 1, |trace|;
      n, phaseRemaining := 1, 0;
      AllocateUniform();
    }

    lemma UniformCounts()
      requires UniformGoing() && !last
      ensures Spent() == draws && draws < budget
    {
      hide Describes, PhaseMixes, Traced, EntryZeroGrown, StreakUndone;
    }

    lemma UniformIsOver()
      requires UniformGoing() && last && uniform && switches == 1
      ensures PhaseOver() && forall k :: switchedAt <= k < |trace| ==> trace[k].entry == 0
    {
      hide Describes, PhaseMixes, Ci, Traced, EntryZeroGrown, Occurred, Asked, Streak, StreakStart, StreakDraws;
      MixKeepsConsistent();
    }

    // ----- phases

    /** What holds between rounds of a run that is not over. */
    ghost predicate Going()
      reads this`total, this`discarded, this`draws, this`uniformDraws, this`trace, this`origin, this`scans, this`n
      reads this`err0, this`uniform, this`switches, est, sizes, fractions
    {
      && Books() && Fits() && Consistent() && err0 > 0.0 && !uniform && switches == 0 && est.part[0].variance >= 0.0
      && EntryZeroGrown()
      && (if n > 1 then SumR(fractions[..n]) == 1.0 && HasActive(sizes[..n], fractions[..n]) else fractions[0] == 1.0)
    }

    /** What holds between phases, and between rounds that are kept. */
    ghost predicate Between()
      reads this`total, this`discarded, this`draws, this`uniformDraws, this`trace, this`origin, this`scans, this`n
      reads this`err0, this`uniform, this`switches, est, sizes, fractions
    {
      Going() && TotalsMix()
    }

    lemma BetweenPhases()
      requires Between()
      ensures Fits() && Consistent() && (n > 1 ==> SumR(fractions[..n]) == 1.0) && TotalsMix() && EntriesDescribeScans()
      ensures !uniform
    {
      hide Describes, Mixed, SumR, HasActive, Mixable, EntryZeroGrown;
    }

    lemma MixKeepsConsistent()
      requires est.Valid() && 0 < uniformDraws <= total && PhaseMixes()
      ensures Consistent()
    {
      hide Averages, Alpha, MixMean, MixVar, Describes;
      AveragesIff(uniformDraws, total, est.part[0], est.muPhase, est.varPhase, est.muTotal, est.varTotal);
      AlphaMixesNone(est.part[0], est.muPhase, est.varPhase);
      MixVarAtLeast(Alpha(uniformDraws, total), est.part[0].variance, est.varPhase);
      if uniformDraws == total { AlphaOfAll(total); }
    }

    /** A round that keeps the books and leaves consistent totals. */
    method BookedRound(alloc: seq<nat>)
      requires DrawsAsAsked(draw) && Books() && Fits() && |alloc| == n && 0 < SumN(alloc) <= Remaining()
      requires EntryZeroGrown()
      modifies this`total, this`draws, this`scans, this`trace, est
      ensures Books() && est.Valid() && |est.part| == n + 1 && est.part[0] == old(est.part[0]) && Consistent()
      ensures trace == old(trace) + RecordsOf(alloc) && TotalsMix() && EntryZeroGrown()
      ensures est.part[0].variance >= 0.0 ==> est.varTotal >= 0.0
      ensures total == old(total) + SumN(alloc) && draws == old(draws) + SumN(alloc)
      ensures est.muPhase == MuSum(est.part, n) && est.varPhase == VarSum(est.part, n) && PhaseMixes()
    {
      hide Describes, SumN, MixMean, MixVar, Alpha, MuSum, VarSum, Mixable, TracedBy, RecordsOf, EntryZero, Averages;
      EntryZeroIgnoresStrata(draw, trace, origin, alloc);
      StratifiedRound(alloc);
      VarSumNonNegative(est.part, est.hist, n);
      MixKeepsConsistent();
      AveragesIff(uniformDraws, total, est.part[0], est.muPhase, est.varPhase, est.muTotal, est.varTotal);
      MixVarNonNegative(Alpha(uniformDraws, total), est.part[0].variance, est.varPhase);
    }

    /** The totals are the mix of entry 0 with the sum of all strata's estimates. */
    ghost predicate TotalsMix()
      reads this`total, this`uniformDraws, est`part, est`muTotal, est`varTotal
    {
      Mixed(total, uniformDraws, est.muTotal, est.varTotal, est.part)
    }

    /** The totals are that mix or, once strata have been given up, the mix of entry 0 with the phase estimates as they
        were before the streak that was undone. */
    ghost predicate EstimateMixed()
      reads this`total, this`uniformDraws, this`uniform, this`trace, this`log, this`roundStart, this`switchedAt, est
    {
      if uniform then PhaseMixes() && GivenUp() else TotalsMix()
    }

    /** A phase is over: either the run may go on with a next phase of at least one draw, or it may stop. */
    ghost predicate PhaseOver()
      reads this`total, this`discarded, this`draws, this`uniformDraws, this`trace, this`origin, this`scans, this`n
      reads this`err0, this`uniform, this`switches, this`last, this`phaseSize, this`log, this`roundStart
      reads this`switchedAt, est, sizes, fractions
    {
      && Books() && est.Valid() && Consistent() && switches <= 1 && EntryZeroGrown() && EstimateMixed()
      && (if last then Done() else Between() && phaseSize > 0)
    }

    /** End of a phase that was drawn to its end. */
    method EndPhase()
      requires Sound() && Between() && !last && est.varTotal >= 0.0
      modifies this`phaseSize, this`last, sizes, fractions
      ensures PhaseOver() && !uniform && (!last ==> NextSized(old(sizes[..n]), old(fractions[..n])))
    {
      hide Describes, SumN, SumR, TotalsMix, Mixable, HasActive, Sound, Traced, EntryZeroGrown, Ci, Demand, CappedSize;
      hide ActiveFraction, NextSized;
      CheckCi();
    }

    /** A phase drawn in one round. */
    method PlainPhase()
      requires Sound() && Between() && !last && phaseSize == SumN(sizes[..n]) && 0 < phaseSize <= Remaining()
      modifies this`total, this`draws, this`scans, this`trace, this`phaseSize, this`last, est, sizes, fractions
      ensures PhaseOver() && !uniform && draws > old(draws) && trace == old(trace + RecordsOf(sizes[..n]))
      ensures Delivered(trace, old(Due(trace, sizes[..n])), true) && draws == old(draws + phaseSize)
      ensures !last ==> NextSized(old(sizes[..n]), old(fractions[..n]))
    {
      hide Describes, SumN, SumR, TotalsMix, PhaseMixes, MuSum, VarSum, Mixable, HasActive, RootAt, TracedBy, RecordsOf;
      hide EntryZeroGrown, NextSized, Delivered, Due;
      DeliveredAtOnce(trace, sizes[..n]);
      BookedRound(sizes[..n]);
      EndPhase();
    }

    /** A round is ready to be drawn. */
    ghost predicate InRound()
      reads this, est, sizes, fractions
    {
      && Between() && n > 1 && !last && RoundReady(0) && CheckpointAt(0) && roundStart == Now()
      && 0 < roundBudget <= phaseRemaining && lastCi == Ci()
    }

    lemma CountedByTrace()
      requires Traced()
      ensures draws == Asked(trace)
    {
    }

    /** Draws the round. */
    method BookRound()
      requires Sound() && InRound()
      modifies this`total, this`draws, this`scans, this`trace, est
      ensures Between() && est.varTotal >= 0.0 && draws == old(draws) + roundBudget
      ensures trace == old(trace) + RecordsOf(partRound)
      ensures RoundReady(roundBudget) && CheckpointAt(roundBudget)
    {
      hide Describes, SumN, SumR, PhaseMixes, MuSum, VarSum, Mixable, Streak, StreakDraws;
      hide StreakStart, HasActive, Sound;
      hide TracedBy, RecordsOf, TotalsMix, EntryZeroGrown, Occurred, Asked;
      SoundRounds();
      CountedByTrace();
      BookedRound(partRound);
      CountedByTrace();
      HasOccurred(draw, old(trace), trace, StreakStart(log, roundStart));
    }

    /** Draws the round and judges it. If it is given up with the streak it ends, the state is that before the
        streak. */
    method DrawAndJudge() returns (switch: bool)
      requires Sound() && InRound()
      modifies this`total, this`draws, this`scans, this`trace, this`phaseRemaining, this`partRemaining, this`badRounds
      modifies this`lastCi, this`last, this`uniformSize, this`log, this`discarded, this`uniformDraws, est
      ensures Going() && (switch || est.varTotal >= 0.0) && draws > old(draws) && phaseRemaining < old(phaseRemaining)
      ensures trace == old(trace) + RecordsOf(partRound) && RoundsLeft(0)
      ensures draws + phaseRemaining == old(draws + phaseRemaining)
      ensures Due(trace, partRemaining) == old(Due(trace, partRemaining))
      ensures last ==> !switch && Done() && (Ci() <= err0 || phaseRemaining == 0)
      ensures !switch ==> TotalsMix() && discarded == old(discarded)
      ensures switch ==> PhaseMixes() && RolledBack() && log == old(log) + [Round(roundBudget, true, old(Now()))]
      ensures switch ==> discarded == old(discarded) + StreakDraws(log) && State() == StreakStart(log, roundStart).state
      ensures !last && !switch ==> (if badRounds > 0 then CheckpointAt(0) else Streak(log) == 0) && lastCi == Ci()
    {
      hide Describes, SumN, SumR, PhaseMixes, Mixable, Streak, StreakDraws, StreakStart, HasActive, Sound, CheckpointAt;
      hide RoundReady, TracedBy, RecordsOf, Mixed, EntryZero, RolledBack, Due, RoundsLeft;
      CutFits();
      DueAfterRound(trace, partRemaining, partRound);
      BookRound();
      switch := CheckAndSwitch();
    }

    lemma CutFits()
      requires RoundReady(0)
      ensures |partRemaining| == |partRound| && forall i :: 0 <= i < |partRound| ==> partRound[i] <= partRemaining[i]
    {
      hide SumN;
    }

    /** The run is over before its phase is used up: the target is met, or strata have been given up. */
    ghost predicate CutShort()
      reads this`last, this`uniform, this`err0, est`varTotal
    {
      last && (uniform || Ci() <= err0)
    }

    lemma NotCutShort()
      requires !last
      ensures !CutShort()
    {
    }

    lemma RestDelivered()
      requires RoundsLeft(0)
      ensures Delivered(trace, Due(trace, partRemaining), phaseRemaining == 0)
    {
      hide SumN, Due, Delivered;
      DeliveredSoFar(trace, partRemaining);
    }

    lemma StillStratified()
      requires InRound()
      ensures !uniform && n <= sizes.Length && n <= fractions.Length
    {
    }

    lemma OverInRound()
      requires Between() && last && Done()
      ensures PhaseOver() && !uniform
    {
      hide Describes, TotalsMix, Mixable, Traced, EntryZeroGrown, SumR, HasActive;
    }

    /** Uniform sampling to the end of the run leaves the phase as it is. */
    method GiveUpStrata()
      requires Sound() && Going() && !last && PhaseMixes() && RolledBack() && RoundsLeft(0)
      modifies this`total, this`draws, this`scans, this`trace, this`uniformDraws, this`last, this`uniformSize
      modifies this`phaseRemaining, this`phaseSize, this`roundBudget, this`n, sizes, fractions
      modifies this`uniform, this`inRounds, this`switches, this`switchedAt, est`part, est`muTotal, est`varTotal
      ensures PhaseOver() && CutShort() && uniform && draws >= old(draws) && old(trace) <= trace
      ensures Delivered(trace, old(Due(trace, partRemaining)), !CutShort())
    {
      hide PhaseOver, Going, Sound, PhaseMixes, RolledBack, Due, Delivered, Ci, SumN;
      ghost var due, at := Due(trace, partRemaining), trace;
      RestDelivered();
      DeliveredAtMost(trace, due, phaseRemaining == 0, false);
      UniformToEnd();
      assert trace[..|at|] == at;
      DeliveredBefore(trace, |at|, due, false);
    }

    /** Draws the round and goes on to the next one if the phase goes on; otherwise the allocation is used up, the run
        is over, or the switch to uniform sampling has run to the end. */
    method DrawRound() returns (more: bool)
      requires Sound() && InRound()
      modifies this, est, sizes, fractions
      ensures draws > old(draws) && curPhase == old(curPhase) && err0 == old(err0) && old(trace) <= trace
      ensures origin == old(origin) && discarded == old(discarded) + Undone()
      ensures if more then InRound() && phaseRemaining < old(phaseRemaining) else PhaseOver()
      ensures more ==> Due(trace, partRemaining) == old(Due(trace, partRemaining)) && phaseStartCi == old(phaseStartCi)
      ensures more ==> n == old(n) && sizes[..n] == old(sizes[..n]) && fractions[..n] == old(fractions[..n])
      ensures more ==> draws + phaseRemaining == old(draws + phaseRemaining)
      ensures !more ==> Delivered(trace, old(Due(trace, partRemaining)), !CutShort())
      ensures !more && !CutShort() ==> draws == old(draws + phaseRemaining)
      ensures !more && !last ==> NextSized(old(sizes[..n]), old(fractions[..n]))
    {
      hide PhaseOver, Sound, CheckpointAt, RoundsLeft, RoundReady, TotalsMix, PhaseMixes, Streak, StreakDraws;
      hide StreakStart, RecordsOf, Done, State, Going, RolledBack, Now, Due, Delivered, Ci, NextSized;
      more := false;
      StillStratified();
      var switch := DrawAndJudge();
      RestDelivered();
      if last {
        DeliveredAtMost(trace, Due(trace, partRemaining), phaseRemaining == 0, !CutShort());
        OverInRound();
        return;
      }
      if switch {
        GiveUpStrata();
      } else if phaseRemaining == 0 {
        EndPhase();
        DeliveredAtMost(trace, Due(trace, partRemaining), true, !CutShort());
      } else {
        BuildRound();
        StillStratified();
        more := true;
      }
    }

    /** A phase drawn in rounds of about `roundSize` draws, each judged when it is over. */
    method ProgressivePhase()
      requires Sound() && Between() && n > 1 && phaseSize == SumN(sizes[..n]) && 0 < phaseSize <= Remaining()
      requires !last && lastCi == Ci()
      modifies this, est, sizes, fractions
      ensures PhaseOver() && draws > old(draws) && curPhase == old(curPhase) && err0 == old(err0) && old(trace) <= trace
      ensures origin == old(origin) && discarded == old(discarded) + Undone()
      ensures Delivered(trace, old(Due(trace, sizes[..n])), !CutShort())
      ensures !CutShort() ==> draws == old(draws + phaseSize)
      ensures !last ==> NextSized(old(sizes[..n]), old(fractions[..n]))
    {
      hide Sound, Between, PhaseOver, InRound, SumN, Due, Delivered, NextSized, Ci, CutShort, StreakDraws;
      inRounds := true;
      FirstRound();
      DrawRounds();
    }

    method FirstRound()
      requires Between() && n > 1 && phaseSize == SumN(sizes[..n]) && 0 < phaseSize <= Remaining() && !last
      requires lastCi == Ci()
      modifies this`phaseRemaining, this`roundBudget, this`badRounds, this`partRemaining, this`partRound, this`log
      modifies this`checkpoint, this`roundStart
      ensures InRound() && partRemaining == sizes[..n] && phaseRemaining == phaseSize
    {
      hide Between, CheckpointAt, InRound, Streak, SumN, Ci, RoundReady;
      InitPhase();
      BuildRound();
    }

    /** Round after round, to the end of the phase. */
    method DrawRounds()
      requires Sound() && InRound()
      modifies this, est, sizes, fractions
      ensures PhaseOver() && draws > old(draws) && curPhase == old(curPhase) && err0 == old(err0) && old(trace) <= trace
      ensures origin == old(origin) && discarded == old(discarded) + Undone()
      ensures Delivered(trace, old(Due(trace, partRemaining)), !CutShort())
      ensures !CutShort() ==> draws == old(draws + phaseRemaining)
      ensures !last ==> NextSized(old(sizes[..n]), old(fractions[..n]))
    {
      hide Sound, InRound, PhaseOver, StreakDraws, Due, Delivered, NextSized, CutShort;
      StillStratified();
      ghost var ns, fs := sizes[..n], fractions[..n];
      var more := DrawRound();
      while more
        invariant draws > old(draws) && curPhase == old(curPhase) && err0 == old(err0) && old(trace) <= trace
        invariant origin == old(origin) && discarded == old(discarded) + Undone()
        invariant if more then InRound() else PhaseOver()
        invariant more ==> Due(trace, partRemaining) == old(Due(trace, partRemaining))
        invariant more ==> draws + phaseRemaining == old(draws + phaseRemaining)
        invariant !more && !CutShort() ==> draws == old(draws + phaseRemaining)
        invariant more ==> n == |ns| <= sizes.Length && n <= fractions.Length
        invariant more ==> sizes[..n] == ns && fractions[..n] == fs
        invariant !more ==> Delivered(trace, old(Due(trace, partRemaining)), !CutShort())
        invariant !more && !last ==> NextSized(ns, fs)
        decreases if more then phaseRemaining + 1 else 0
      {
        StillStratified();
        more := DrawRound();
      }
    }

    // ----- a whole run

    /** What phase 0 over draws `ds` leaves behind: all draws kept so far are uniform, and so were all scans. */
    ghost predicate Started(ds: seq<Draw>)
      reads this, est
    {
      && Books() && est.Valid() && total == uniformDraws == |ds| && est.varTotal >= 0.0
      && est.muTotal == PhaseZeroEstimate(ds).mu && est.varTotal == PhaseZeroEstimate(ds).variance
      && spreadOfPhaseZero == PhaseZeroSpread(ds)
      && (forall k :: 0 <= k < |trace| ==> trace[k].entry == 0)
      && curPhase == 0 && err0 == 0.0 && !last && !uniform && switches == 0
    }

    /** Nothing has been drawn yet. */
    ghost predicate Unused()
      reads this, est
    {
      && est.Valid() && |est.part| == 1 && total == discarded == draws == scans == 0 && trace == []
      && curPhase == 0 && err0 == 0.0 && !last && !uniform && switches == 0
    }

    /** Phase 0 over a given index. */
    method PhaseZero() returns (ds: seq<Draw>)
      requires DrawsAsAsked(draw) && 0 < initial <= budget && Unused()
      modifies this`total, this`draws, this`scans, this`trace, this`uniformDraws, this`spreadOfPhaseZero, est
      ensures Started(ds) && draws == initial && discarded == 0
      ensures ds == draw(0, initial) && trace == [ScanRecord(0, initial)]
    {
      hide PhaseZeroEstimate, PhaseZeroSpread, Describes, TracedBy;
      ds := draw(scans, initial);
      assert |ds| == initial;
      NothingTraced(draw, est.hist);
      TraceNext(draw, trace, scans, draws, [[]], ScanRecord(0, initial));
      trace := trace + [ScanRecord(0, initial)];
      scans, total, draws, uniformDraws := scans + 1, |ds|, |ds|, initial;
      PhaseZeroVariance(ds);
      est.PhaseZero(PhaseZeroEstimate(ds));
      spreadOfPhaseZero := PhaseZeroSpread(ds);
    }

    /** The draws of the probe of candidate `c`. */
    function Probe(c: nat): seq<Draw> {
      draw(c, initial)
    }

    /** No usable probe of the first `m` candidates has a smaller demand than candidate `best`, nor an equal one if it
        comes before. */
    ghost predicate LeastDemand(m: nat, best: nat, planner: Planner) {
      && best < m && Usable(Probe(best))
      && forall c: nat :: c < m && Usable(Probe(c)) ==>
                            var s, least := planner(c, Probe(c)).size, planner(best, Probe(best)).size;
                            least <= s && (c < best ==> least < s)
    }

    ghost predicate NoneUsable(m: nat) {
      forall c: nat :: c < m ==> !Usable(Probe(c))
    }

    /** Phase 0 over every candidate index in turn, to find the one with the least demand. */
    method ProbeAll(candidates: nat, planner: Planner) returns (found: bool, best: nat, ds: seq<Draw>)
      requires DrawsAsAsked(draw) && Unused()
      modifies this`draws, this`scans, this`trace
      ensures draws == Probed(initial, candidates) && Traced()
      ensures trace == seq(candidates, _ => ScanRecord(0, initial))
      ensures if found then ds == Probe(best) && LeastDemand(candidates, best, planner) else NoneUsable(candidates)
      ensures found ==> |ds| == initial
    {
      hide Usable, TracedBy;
      NothingTraced(draw, est.hist);
      found, best, ds := false, 0, [];
      for c := 0 to candidates
        invariant draws == Probed(initial, c) && scans == c && Traced() && trace == seq(c, _ => ScanRecord(0, initial))
        invariant if found then ds == Probe(best) && LeastDemand(c, best, planner) else NoneUsable(c)
        invariant found ==> |ds| == initial
      {
        var probe := draw(scans, initial);
        assert |probe| == initial && probe == Probe(c);
        TraceNext(draw, trace, scans, draws, est.hist, ScanRecord(0, initial));
        scans, draws, trace := scans + 1, draws + |probe|, trace + [ScanRecord(0, initial)];
        if Usable(probe) && (!found || planner(c, probe).size < planner(best, ds).size) {
          found, best, ds := true, c, probe;
        }
      }
    }

    /** Phase 0 with automatic choice of the index. The draws over the chosen one are kept; all others are discarded but
        stay on the books. */
    method ProbePlans(candidates: nat, planner: Planner) returns (out: Outcome, best: nat, ds: seq<Draw>)
      requires DrawsAsAsked(draw) && Unused()
      modifies this`total, this`draws, this`scans, this`trace, this`uniformDraws, this`spreadOfPhaseZero
      modifies this`discarded, est
      ensures out.NoCandidate? <==> candidates == 0
      ensures out.BudgetTooSmall? <==> candidates > 0 && !Affordable(initial, candidates, budget)
      ensures out.ZeroEstimate? <==>
                candidates > 0 && Affordable(initial, candidates, budget) && NoneUsable(candidates)
      ensures out.Finished? <==> !out.NoCandidate? && !out.BudgetTooSmall? && !out.ZeroEstimate?
      ensures draws == if out.NoCandidate? || out.BudgetTooSmall? then 0 else Probed(initial, candidates)
      ensures Spent() == draws <= budget && est.Valid() && Traced() && |est.part| == 1
      ensures out.Finished? ==> Started(ds) && ds == Probe(best) && LeastDemand(candidates, best, planner)
      ensures out.Finished? ==> |trace| == candidates
      ensures !out.Finished? ==> switches == old(switches)
      ensures discarded == if out.Finished? then Probed(initial, candidates) - initial else draws
    {
      hide Usable, PhaseZeroEstimate, PhaseZeroSpread, Describes, Affordable, Probed, Probe, TracedBy;
      out, best, ds := NoCandidate, 0, [];
      NothingTraced(draw, est.hist);
      if candidates == 0 {
        return;
      }
      if !Affordable(initial, candidates, budget) {
        out := BudgetTooSmall;
        return;
      }
      var found;
      found, best, ds := ProbeAll(candidates, planner);
      ProbesFit(initial, candidates, budget);
      KeepProbe(found, Probed(initial, candidates), ds);
      out := if found then Finished else ZeroEstimate;
    }

    /** Books the probes: those of the chosen candidate as kept, all others as discarded. */
    method KeepProbe(found: bool, probed: nat, ds: seq<Draw>)
      requires est.Valid() && |est.part| == 1 && Traced() && total == discarded == 0
      requires found ==> initial == |ds|
      requires draws == probed && 0 < initial <= probed <= budget && trace == seq(|trace|, _ => ScanRecord(0, initial))
      requires curPhase == 0 && err0 == 0.0 && !last && !uniform && switches == 0
      modifies this`total, this`uniformDraws, this`spreadOfPhaseZero, this`discarded, est
      ensures Spent() == draws && est.Valid() && Traced() && |est.part| == 1 && (found ==> Started(ds))
      ensures discarded == if found then probed - initial else probed
    {
      hide PhaseZeroEstimate, PhaseZeroSpread, Describes, TracedBy;
      if !found {
        discarded := probed;
        return;
      }
      total, uniformDraws, discarded := initial, initial, probed - initial;
      PhaseZeroVariance(ds);
      OnlyEntryZero(draw, trace, scans, draws, est.hist, [[]]);
      est.PhaseZero(PhaseZeroEstimate(ds));
      spreadOfPhaseZero := PhaseZeroSpread(ds);
    }

    method CopyStrata(plan: Plan)
      requires plan.k == |plan.sizes| == |plan.fractions| && plan.k <= sizes.Length && plan.k <= fractions.Length
      modifies sizes, fractions
      ensures sizes[..plan.k] == plan.sizes && fractions[..plan.k] == plan.fractions
    {
      for i := 0 to plan.k
        invariant sizes[..i] == plan.sizes[..i] && fractions[..i] == plan.fractions[..i]
      {
        sizes[i], fractions[i] := plan.sizes[i], plan.fractions[i];
      }
    }

    /** Takes over the strata chosen from phase 0. */
    method LoadPlan(plan: Plan, accepted: nat)
      requires Books() && est.Valid() && total == uniformDraws && est.varTotal >= 0.0
      requires err0 > 0.0 && !uniform && switches == 0 && forall k :: 0 <= k < |trace| ==> trace[k].entry == 0
      requires PlanOk(plan, sizes.Length) && sizes.Length == fractions.Length && plan.k >= 1
      modifies this`n, this`phaseSize, this`origin, est`part, est`hist, sizes, fractions
      ensures Between() && phaseSize == plan.size > 0 && n == plan.k
      ensures origin == Origin(|trace|, Stratum(accepted, est.muTotal, est.varTotal))
      ensures sizes[..n] == plan.sizes && fractions[..n] == plan.fractions
    {
      hide Describes, SumN, SumR, TracedBy, Mixed, HasActive;
      n, phaseSize := plan.k, plan.size;
      CopyStrata(plan);
      PlanHasActive(plan, sizes.Length);
      ghost var before := est.hist;
      est.AllocateStrata(plan.k, accepted);
      OnlyEntryZero(draw, trace, scans, draws, before, est.hist);
      MixedOfUniform(total, est.part);
      origin := Origin(|trace|, est.part[0]);
    }

    /** Caps the phase that has been sized. */
    method CapPhase()
      requires Between() && !last && phaseSize > 0 && Remaining() > 0
      modifies this`phaseSize, this`last, sizes, fractions
      ensures Between() && !last && phaseSize == SumN(sizes[..n]) && 0 < phaseSize <= Remaining()
      ensures sizes[..n] == old(Dealt(phaseSize, Remaining(), sizes[..n], fractions[..n]))
      ensures fractions[..n] == old(fractions[..n])
    {
      hide Describes, SumN, SumR, Mixable, HasActive, ActiveFraction, CappedSize, TracedBy, Dealt, Mixed, EntryZero;
      Cap();
    }

    /** Caps the phase that has been sized, and decides whether it is large enough to be drawn in rounds. */
    method EnterPhase()
      requires Between() && !last && phaseSize > 0 && Remaining() > 0
      modifies this`stratifiedSize, this`phaseSize, this`last, this`phaseStartCi, this`lastCi, this`uniformSize
      modifies this`inRounds, sizes, fractions
      ensures Between() && !last && phaseSize == SumN(sizes[..n]) && 0 < phaseSize <= Remaining()
      ensures sizes[..n] == old(Dealt(phaseSize, Remaining(), sizes[..n], fractions[..n]))
      ensures fractions[..n] == old(fractions[..n])
      ensures inRounds <==> progressive && n > 1 && Min(old(phaseSize), Remaining()) > PROBE_ROUNDS * roundSize
      ensures inRounds ==> phaseStartCi == lastCi == Ci() && uniformSize == UniformDemand()
    {
      hide Between, SumN, UniformDemand, Ci, Min, Dealt;
      stratifiedSize := phaseSize;
      CapPhase();
      UniformSizeDefined();
      DecideRounds();
    }

    /** Decides whether the phase is drawn in rounds, and takes the half width to judge them by. */
    method DecideRounds()
      requires err0 > 0.0 && est.part != []
      modifies this`phaseStartCi, this`lastCi, this`uniformSize, this`inRounds
      ensures inRounds <==> progressive && n > 1 && Min(stratifiedSize, Remaining()) > PROBE_ROUNDS * roundSize
      ensures inRounds ==> phaseStartCi == lastCi == Ci() && uniformSize == UniformDemand()
    {
      hide UniformDemand, Ci, Min;
      if progressive && n > 1 {
        phaseStartCi := Ci();
        lastCi := phaseStartCi;
        uniformSize := UniformDemand();
        inRounds := Min(stratifiedSize, Remaining()) > PROBE_ROUNDS * roundSize;
      } else {
        inRounds := false;
      }
    }

    lemma UniformSizeDefined()
      requires Between()
      ensures err0 > 0.0 && est.part != [] && !uniform && 1 <= n <= sizes.Length && n <= fractions.Length
      ensures forall i :: 0 <= i < n ==> fractions[i] >= 0.0
    {
    }

    /** Draws the phase that has been sized, in rounds if it is large. */
    method DrawPhase()
      requires Sound() && Between() && !last && phaseSize > 0 && Remaining() > 0
      modifies this, est, sizes, fractions
      ensures PhaseOver() && draws > old(draws) && err0 == old(err0) && old(trace) <= trace && origin == old(origin)
      ensures discarded == old(discarded) + Undone() && curPhase == old(curPhase)
      ensures Delivered(trace, old(Due(trace, Dealt(phaseSize, Remaining(), sizes[..n], fractions[..n]))), !CutShort())
      ensures !CutShort() ==>
                draws == old(draws + SumN(Dealt(phaseSize, Remaining(), sizes[..n], fractions[..n])))
      ensures !last ==> NextSized(old(Dealt(phaseSize, Remaining(), sizes[..n], fractions[..n])), old(fractions[..n]))
    {
      hide Between, PhaseOver, SumN, UniformDemand, Sound, Ci, RecordsOf, Dealt, Due, Delivered, NextSized, CutShort;
      hide StreakDraws, Min;
      UniformSizeDefined();
      ghost var due := Due(trace, Dealt(phaseSize, Remaining(), sizes[..n], fractions[..n]));
      EnterPhase();
      if inRounds {
        ProgressivePhase();
      } else {
        PlainPhase();
        DeliveredAtMost(trace, due, true, !CutShort());
      }
    }

    /** Sets the target and takes over the plan, or ends the run without any phase after phase 0. */
    method Prepare(plan: Plan, ds: seq<Draw>) returns (out: Outcome)
      requires Started(ds) && (PhaseZeroEstimate(ds).mu != 0.0 ==> PlanOk(plan, sizes.Length))
      requires relativeCi > 0.0 && sizes.Length == fractions.Length
      modifies this`last, this`curPhase, this`err0, this`n, this`phaseSize, this`origin, est, sizes, fractions
      ensures est.Valid() && switches == 0 && Books() && !uniform && total == |ds|
      ensures est.varTotal == PhaseZeroEstimate(ds).variance
      ensures out.ZeroEstimate? <==> Spent() < budget && PhaseZeroEstimate(ds).mu == 0.0
      ensures out.NothingToDo? <==> Spent() < budget && PhaseZeroEstimate(ds).mu != 0.0 && plan.k == 0
      ensures out.Finished? <==> !out.ZeroEstimate? && !out.NothingToDo?
      ensures out.Finished? ==> if Spent() >= budget then last && Done() else !last && Between() && phaseSize > 0
      ensures Spent() < budget ==> err0 == Abs(PhaseZeroEstimate(ds).mu) * relativeCi
      ensures out.Finished? && !last ==> n == plan.k && phaseSize == plan.size && origin == PhaseZeroOrigin(ds, |trace|)
      ensures out.Finished? && !last ==>
                && curPhase == 1 && n <= sizes.Length && n <= fractions.Length
                && sizes[..n] == plan.sizes && fractions[..n] == plan.fractions
    {
      hide Describes, SumN, SumR, Mixable, HasActive, PlanOk, TracedBy, PhaseZeroEstimate, PhaseZeroSpread, Mixed;
      hide EntryZero, Ci;
      out := Finished;
      if Spent() >= budget {
        last := true;
        return;
      }
      curPhase := 1;
      err0 := Abs(est.muTotal) * relativeCi;
      if est.muTotal == 0.0 {
        return ZeroEstimate;
      }
      assert err0 == Mul(Abs(est.muTotal), relativeCi) > 0.0;
      est.ResetPhase();
      if plan.k == 0 {
        last := true;
        return NothingToDo;
      }
      LoadPlan(plan, |Accepted(ds)|);
    }

    /** The phases drawn so far, after which the one to be drawn next is sized. */
    ghost predicate Logged(phases: seq<Phase>)
      reads this`n, this`phaseSize, this`trace, this`err0, sizes, fractions
    {
      && err0 != 0.0 && n <= sizes.Length && n <= fractions.Length
      && (phases != [] ==>
            var p := phases[|phases| - 1];
            && Chain(TheRules(), trace, phases, true)
            && fractions[..n] == p.fractions && Sized(TheRules(), trace, p, phaseSize, sizes[..n]))
    }

    lemma RemainingIsLeft()
      requires Books() && err0 != 0.0
      ensures Remaining() == LeftAfter(TheRules(), trace, |trace|)
    {
      assert trace[..|trace|] == trace;
    }

    /** The end of phase `q`, which was to draw `alloc`, sizes the next one. */
    lemma NextIsSized(q: Phase, alloc: seq<nat>)
      requires Between() && NextSized(alloc, q.fractions)
      requires q.end == |trace| && q.after == Now() && PhaseWithin(trace, q)
      requires alloc == AllocOf(TheRules(), trace, q)
      ensures Sized(TheRules(), trace, q, phaseSize, sizes[..n])
    {
      hide Between, Demand, Demanded, Dealt, SumN, AllocOf, LeftAfter, Occurred, PhaseWithin, Describes, Mixed;
      BetweenPhases();
      BooksBetween();
      RemainingIsLeft();
      OccursNow(draw, trace, Now());
      assert Asks(TheRules(), trace, q, Demand().n, phaseSize, sizes[..n]);
    }

    lemma LoggedBefore(phases: seq<Phase>)
      requires Logged(phases) && phases != []
      ensures err0 != 0.0 && n <= sizes.Length && n <= fractions.Length && Chain(TheRules(), trace, phases, true)
      ensures var p := phases[|phases| - 1];
              && PhaseWithin(trace, p) && fractions[..n] == p.fractions
              && Sized(TheRules(), trace, p, phaseSize, sizes[..n])
    {
      hide Delivered, Due, AllocOf, Linked, Sized;
    }

    lemma NextIsLogged(phases: seq<Phase>, alloc: seq<nat>)
      requires Between() && phases != [] && Chain(TheRules(), trace, phases, true)
      requires var q := phases[|phases| - 1];
               && q.end == |trace| && q.after == Now() && PhaseWithin(trace, q) && NextSized(alloc, q.fractions)
               && alloc == AllocOf(TheRules(), trace, q)
      ensures Logged(phases)
    {
      hide Between, Demand, Demanded, Dealt, SumN, AllocOf, Describes, Chain, Sized, PhaseWithin, Linked;
      UniformSizeDefined();
      NextIsSized(phases[|phases| - 1], alloc);
    }

    lemma PhaseGoesOn()
      requires PhaseOver() && !last
      ensures Between() && phaseSize > 0 && !uniform
    {
      hide Describes, Mixable, HasActive, TracedBy, Mixed, EntryZeroGrown, StreakUndone, SumR, Ci, PhaseMixes;
    }

    lemma BooksOver()
      requires PhaseOver()
      ensures Books()
    {
      hide Describes, Mixable, TracedBy, Mixed, EntryZeroGrown, EstimateMixed, Ci, Between;
    }

    lemma BooksBetween()
      requires Between()
      ensures Books() && err0 > 0.0 && est.Valid()
    {
      hide Describes, Mixed, Mixable, HasActive, SumR, TracedBy, EntryZero;
    }

    /** Draws the phase that has been sized and logs it. */
    method LoggedPhase(ghost phases: seq<Phase>) returns (ghost all: seq<Phase>)
      requires Sound() && Between() && !last && phaseSize > 0 && Remaining() > 0 && Logged(phases)
      modifies this, est, sizes, fractions
      ensures PhaseOver() && draws > old(draws) && err0 == old(err0) != 0.0 && old(trace) <= trace
      ensures origin == old(origin) && discarded == old(discarded) + Undone() && curPhase == old(curPhase)
      ensures |all| == |phases| + 1 && phases <= all && Chain(TheRules(), trace, all, !CutShort())
      ensures !last ==> Logged(all)
      ensures var q := all[|phases|];
              && q.request == old(phaseSize) && q.requests == old(sizes[..n]) && q.fractions == old(fractions[..n])
              && q.start == old(|trace|)
    {
      hide Sound, Between, PhaseOver, Chain, Linked, Sized, Delivered, Due, Dealt, NextSized, CutShort, StreakDraws;
      hide Now, LeftAfter, PhaseDrawn, AllocOf, Logged, SumN, Asked, TracedBy;
      UniformSizeDefined();
      BooksBetween();
      RemainingIsLeft();
      if phases != [] { LoggedBefore(phases); }
      ghost var request, requests, fs, before, rules := phaseSize, sizes[..n], fractions[..n], trace, TheRules();
      ghost var alloc := Dealt(phaseSize, Remaining(), sizes[..n], fractions[..n]);
      CountedByTrace();
      DrawPhase();
      BooksOver();
      CountedByTrace();
      ghost var q := Phase(request, requests, fs, |before|, |trace|, Now());
      all := phases + [q];
      PhaseDone(rules, before, trace, q, !CutShort());
      if phases == [] {
        assert all == [q];
        ChainStarts(rules, trace, q, !CutShort());
      } else {
        LinkedAs(rules, before, phases, q);
        ChainNext(rules, before, trace, phases, q, !CutShort());
      }
      if !last {
        PhaseGoesOn();
        NotCutShort();
        NextIsLogged(all, alloc);
      }
    }

    /** The phases after phase 0, to the end of the run. Every phase draws something, so the budget ends the run at
        last; it ends only when the target is met or the budget used up. Each phase draws what it was sized to, capped
        and dealt out, and the next one is sized by the least number of draws that meets the equation at its end. */
    method RunPhases() returns (ghost phases: seq<Phase>)
      requires Sound() && Between() && !last && phaseSize > 0 && Remaining() > 0 && curPhase == 1
      modifies this, est, sizes, fractions
      ensures Books() && est.Valid() && Consistent() && switches <= 1 && last && Done()
      ensures err0 == old(err0) != 0.0 && old(trace) <= trace && origin == old(origin)
      ensures EntryZeroGrown() && EstimateMixed() && discarded == old(discarded) + Undone()
      ensures Chain(TheRules(), trace, phases, !CutShort()) && curPhase == |phases|
      ensures var q := phases[0];
              && q.request == old(phaseSize) && q.requests == old(sizes[..n]) && q.fractions == old(fractions[..n])
              && q.start == old(|trace|)
    {
      hide Sound, Between, PhaseOver, Chain, CutShort, StreakDraws, Logged, Ci;
      NothingLogged();
      phases := LoggedPhase([]);
      ghost var q := phases[0];
      while !last
        invariant PhaseOver() && err0 == old(err0) != 0.0 && old(trace) <= trace && origin == old(origin)
        invariant discarded == old(discarded) + Undone()
        invariant curPhase == |phases| > 0 && phases[0] == q && Chain(TheRules(), trace, phases, !CutShort())
        invariant !last ==> Logged(phases)
        decreases budget - draws, !last
      {
        PhaseGoesOn();
        BooksBetween();
        if Spent() >= budget {
          NotCutShort();
          StopAtBudget();
          ChainAtMost(TheRules(), trace, phases, true, !CutShort());
        } else {
          BeginPhase();
          phases := LoggedPhase(phases);
        }
      }
      RunIsOver();
    }

    method StopAtBudget()
      requires PhaseOver() && !last && Spent() >= budget
      modifies this`last
      ensures PhaseOver() && last
    {
      hide Describes, Mixable, HasActive, TracedBy, Mixed, EntryZeroGrown, StreakUndone, SumR, Ci, PhaseMixes;
      last := true;
    }

    method BeginPhase()
      requires Between()
      modifies this`curPhase, est`muPhase, est`varPhase
      ensures Between() && curPhase == old(curPhase) + 1
    {
      hide Describes, Mixable, HasActive, TracedBy, Mixed, EntryZeroGrown, SumR;
      curPhase := curPhase + 1;
      est.ResetPhase();
    }

    lemma RunIsOver()
      requires PhaseOver() && last
      ensures Books() && est.Valid() && Consistent() && switches <= 1 && Done() && EntryZeroGrown() && EstimateMixed()
    {
      hide Describes, Mixable, TracedBy, Mixed, EntryZeroGrown, StreakUndone, Ci, PhaseMixes;
    }

    lemma NothingLogged()
      requires Between()
      ensures Logged([])
    {
      hide Describes, Mixable, HasActive, TracedBy, Mixed, EntryZeroGrown, SumR;
    }

    /** How phase 0 went: the scans it made, the index and the draws it kept, and the outcome if it was an error. */
    ghost predicate PhaseZeroWent(auto: bool, candidates: nat, chosen: nat, planner: Planner, out: Outcome, index: nat,
                                  ds: seq<Draw>)
    {
      if auto then
        && (out.NoCandidate? <==> candidates == 0)
        && (out.BudgetTooSmall? <==> candidates > 0 && !Affordable(initial, candidates, budget))
        && (candidates > 0 && Affordable(initial, candidates, budget) ==>
              if out.ZeroEstimate? then NoneUsable(candidates)
              else ds == Probe(index) && LeastDemand(candidates, index, planner))
      else
        index == chosen && ds == draw(0, initial) && !out.NoCandidate? && !out.BudgetTooSmall?
    }

    /** What the optimiser plans for the draws that phase 0 makes fits the arrays; without an estimate nothing is
        planned. */
    ghost predicate PlansFit(auto: bool, candidates: nat, chosen: nat, planner: Planner) {
      if auto then forall c: nat :: c < candidates ==> PlanFits(planner(c, Probe(c)), Probe(c))
      else PlanFits(planner(chosen, draw(0, initial)), draw(0, initial))
    }

    ghost predicate PlanFits(plan: Plan, ds: seq<Draw>) {
      PhaseZeroEstimate(ds).mu != 0.0 ==> PlanOk(plan, sizes.Length)
    }

    lemma PlanAtHand(auto: bool, candidates: nat, chosen: nat, planner: Planner, out: Outcome, index: nat,
                     ds: seq<Draw>)
      requires PlansFit(auto, candidates, chosen, planner) && out.Finished?
      requires PhaseZeroWent(auto, candidates, chosen, planner, out, index, ds)
      ensures PlanFits(planner(index, ds), ds)
    {
      hide Affordable, PhaseZeroEstimate, PlanOk, Usable;
    }

    /** Draws that phase 0 makes unless it ends the run at once. */
    function PhaseZeroDraws(auto: bool, candidates: nat): nat {
      if auto then Probed(initial, candidates) else initial
    }

    /** The first phase is the one planned. */
    ghost predicate StartsAsPlanned(p: Phase, plan: Plan) {
      p.request == plan.size && p.requests == plan.sizes && p.fractions == plan.fractions
    }

    /** Phase 0 came as far as keeping the draws over an index. */
    predicate PhaseZeroKept(auto: bool, out: Outcome) {
      !out.NoCandidate? && !out.BudgetTooSmall? && !(auto && out.ZeroEstimate?)
    }

    /** A whole run. Every draw it makes is on the books, within the budget, and every stratum's entry describes all
        that was drawn in it. It gives up on strata at most once. The target is a fraction of the estimate of phase
        0, and if the run finishes it is met or the budget used up. A run ends otherwise exactly when phase 0 fails
        or the plan made from it has no strata. */
    method Run(auto: bool, candidates: nat, chosen: nat, planner: Planner)
      returns (out: Outcome, index: nat, ds: seq<Draw>, ghost phases: seq<Phase>)
      requires Sound() && Unused() && sizes.Length == fractions.Length && PlansFit(auto, candidates, chosen, planner)
      requires relativeCi > 0.0 && (!auto ==> 0 < initial <= budget)
      modifies this, est, sizes, fractions
      ensures Spent() == draws == Asked(trace) <= budget && EntriesDescribeScans() && switches <= 1
      ensures PhaseZeroWent(auto, candidates, chosen, planner, out, index, ds)
      ensures PhaseZeroKept(auto, out) ==> discarded == PhaseZeroDraws(auto, candidates) - initial + Undone()
      ensures !PhaseZeroKept(auto, out) ==> discarded == draws
      ensures out.Finished? ==> last && Done()
      ensures out.Finished? && PhaseZeroDraws(auto, candidates) < budget ==>
                && EstimateMixed() && EntryZeroGrown() && err0 != 0.0
                && Chain(TheRules(), trace, phases, !CutShort()) && StartsAsPlanned(phases[0], planner(index, ds))
                && phases[0].start == (if auto then candidates else 1) && curPhase == |phases|
                && origin == PhaseZeroOrigin(ds, if auto then candidates else 1)
      ensures out.Finished? || out.NothingToDo? ==>
                PhaseZeroDraws(auto, candidates) < budget ==> err0 == Abs(PhaseZeroEstimate(ds).mu) * relativeCi
      ensures !auto ==> (out.ZeroEstimate? <==> initial < budget && PhaseZeroEstimate(ds).mu == 0.0)
      ensures out.NothingToDo? <==>
                && !out.NoCandidate? && !out.BudgetTooSmall? && !out.ZeroEstimate?
                && PhaseZeroDraws(auto, candidates) < budget && planner(index, ds).k == 0
      ensures out.NothingToDo? ==>
                && 0 < total == |ds| && draws == PhaseZeroDraws(auto, candidates)
                && est.varTotal == PhaseZeroEstimate(ds).variance && PhaseZeroEstimate(ds).mu != 0.0
    {
      hide PlanOk, Sound, Between, Started, LeastDemand, Probe, TracedBy, PhaseZeroEstimate, NoneUsable, Affordable;
      hide Probed, Unused, EntriesDescribeScans, Done, Describes, Consistent;
      hide EstimateMixed, EntryZeroGrown, PhaseZeroOrigin, PlansFit, Chain, CutShort, StreakDraws, Ci;
      SoundRounds();
      phases := [];
      out, index, ds := FirstPhase(auto, candidates, chosen, planner);
      if out.Finished? {
        PlanAtHand(auto, candidates, chosen, planner, out, index, ds);
        out := Prepare(planner(index, ds), ds);
        if out.Finished? && !last {
          phases := RunPhases();
        }
      }
      ScansDescribed();
    }

    /** Phase 0, over a given index or with automatic choice. */
    method FirstPhase(auto: bool, candidates: nat, chosen: nat, planner: Planner)
      returns (out: Outcome, index: nat, ds: seq<Draw>)
      requires DrawsAsAsked(draw) && Unused() && (!auto ==> 0 < initial <= budget)
      modifies this`total, this`draws, this`scans, this`trace, this`uniformDraws, this`spreadOfPhaseZero
      modifies this`discarded, est
      ensures Spent() == draws <= budget && est.Valid() && Traced() && !out.NothingToDo? && switches == 0 && !uniform
      ensures PhaseZeroWent(auto, candidates, chosen, planner, out, index, ds)
      ensures discarded == if out.Finished? then PhaseZeroDraws(auto, candidates) - initial else draws
      ensures out.Finished? ==> Started(ds) && draws == PhaseZeroDraws(auto, candidates)
      ensures out.Finished? ==> |trace| == if auto then candidates else 1
      ensures out.Finished? && auto ==> PhaseZeroEstimate(ds).mu != 0.0
      ensures !auto ==> out.Finished?
    {
      hide LeastDemand, Probe, TracedBy, PhaseZeroEstimate, PhaseZeroSpread, NoneUsable, Affordable, Probed, Describes;
      index := chosen;
      if auto {
        out, index, ds := ProbePlans(candidates, planner);
        if out.Finished? { LeastIsUsable(candidates, index, planner); }
      } else {
        ds := PhaseZero();
        out := Finished;
      }
    }

    /** A probe is usable exactly when phase 0 over it would give an estimate. */
    lemma UsableIff(ds: seq<Draw>)
      ensures Usable(ds) <==> PhaseZeroEstimate(ds).mu != 0.0
    {
      hide Scan, Accepted, Rejections;
    }

    lemma LeastIsUsable(m: nat, best: nat, planner: Planner)
      requires LeastDemand(m, best, planner)
      ensures PhaseZeroEstimate(Probe(best)).mu != 0.0
    {
      hide Usable, PhaseZeroEstimate;
      UsableIff(Probe(best));
    }

    lemma ScansDescribed()
      requires Traced() && est.Valid()
      ensures EntriesDescribeScans() && draws == Asked(trace)
    {
      hide Describes;
    }

    /** The totals are the mix of entry 0 and the phase estimates, whose variance is not negative. */
    ghost predicate PhaseMixes()
      reads this`total, this`uniformDraws, est
    {
      && total > 0 && est.part != [] && est.varPhase >= 0.0
      && Averages(uniformDraws, total, est.part[0], est.muPhase, est.varPhase, est.muTotal, est.varTotal)
    }
  }

  lemma MixedOfUniform(total: nat, part: seq<Stratum>)
    requires total > 0 && part != [] && forall i :: 1 <= i < |part| ==> part[i] == EMPTY
    ensures Mixed(total, total, part[0].mu, part[0].variance, part)
  {
    hide MuSum, VarSum, Averages;
    SumsOfEmpty(part, |part| - 1);
    AlphaMixesAll(total, total, part[0]);
  }

  /** With all draws uniform, the phase estimates do not matter. */
  lemma AlphaMixesAll(uniform: nat, total: nat, p0: Stratum)
    requires total > 0
    ensures uniform == total ==> Averages(uniform, total, p0, 0.0, 0.0, p0.mu, p0.variance)
  {
    AlphaOfAll(total);
    hide Averages, Alpha;
    AveragesIff(total, total, p0, 0.0, 0.0, p0.mu, p0.variance);
  }

  lemma AlphaMixesNone(p0: Stratum, mu: real, v: real)
    ensures MixMean(1.0, p0.mu, mu) == p0.mu && MixVar(1.0, p0.variance, v) == p0.variance
  {
  }

  /** The test before the probes is passed exactly when they are not empty and fit the budget together. */
  lemma AffordableIff(initial: nat, candidates: nat, budget: nat)
    requires candidates > 0
    ensures Affordable(initial, candidates, budget) <==> 0 < initial && Probed(initial, candidates) <= budget
  {
    ProbedIsProduct(initial, candidates);
    WithinQuotient(initial, candidates, budget, budget / candidates, budget % candidates);
  }

  lemma WithinQuotient(x: nat, d: nat, b: nat, q: nat, r: nat)
    requires b == d * q + r && r < d
    ensures x <= q <==> x * d <= b
  {
    if x <= q { assert x * d <= q * d; } else { assert x * d >= (q + 1) * d == d * q + d; }
  }

  lemma ProbesFit(initial: nat, candidates: nat, budget: nat)
    requires candidates > 0 && Affordable(initial, candidates, budget)
    ensures 0 < initial <= Probed(initial, candidates) <= budget
  {
    hide Affordable;
    AffordableIff(initial, candidates, budget);
    ProbedIsProduct(initial, candidates);
    assert initial * 1 <= initial * candidates;
  }

  lemma {:induction false} ProbedIsProduct(initial: nat, candidates: nat)
    ensures Probed(initial, candidates) == initial * candidates
  {
    if candidates > 0 {
      ProbedIsProduct(initial, candidates - 1);
      assert initial * (candidates - 1) + initial == initial * candidates;
    }
  }

  lemma PhaseZeroVariance(ds: seq<Draw>)
    ensures PhaseZeroEstimate(ds).variance >= 0.0
  {
    assert Describes(EMPTY, []);
    hide Scan, Describes;
    if |Accepted(ds)| >= 2 {
      ScanDescribes(EMPTY, [], ds);
      DescribedVarianceNonNegative(Scan(EMPTY, ds), [] + Values(ds));
    }
  }

  lemma PlanHasActive(plan: Plan, capacity: nat)
    requires PlanOk(plan, capacity)
    ensures plan.k > 1 ==> HasActive(plan.sizes, plan.fractions)
  {
    if plan.k > 1 {
      hide SumN, SumR;
      var i := PositiveFraction(plan.fractions);
      assert plan.sizes[i] > 0;
    }
  }

  lemma {:induction false} PositiveFraction(xs: seq<real>) returns (i: nat)
    requires SumR(xs) > 0.0
    ensures i < |xs| && xs[i] > 0.0
  {
    i := |xs| - 1;
    if xs[i] <= 0.0 { i := PositiveFraction(xs[..i]); }
  }
}
