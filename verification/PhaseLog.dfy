/** The phases of a run against its scans: what each was to draw, and what it drew. */
module PhaseLog {
  import opened Reals
  import opened Streaming
  import opened SampleSize
  import opened Allocation
  import opened BudgetCap
  import opened Rounds
  import opened Estimator
  import opened Trace

  // ----- draws of one stratum

  /** Draws asked for in one stratum by the scans of a run. */
  ghost function AskedIn(trace: seq<ScanRecord>, entry: nat): nat {
    if trace == [] then 0
    else
      var k := |trace| - 1;
      AskedIn(trace[..k], entry) + if trace[k].entry == entry then trace[k].size else 0
  }

  lemma AskedInNext(trace: seq<ScanRecord>, r: ScanRecord, entry: nat)
    ensures AskedIn(trace + [r], entry) == AskedIn(trace, entry) + if r.entry == entry then r.size else 0
  {
    assert (trace + [r])[..|trace|] == trace;
  }

  lemma {:induction false} AskedInRound(trace: seq<ScanRecord>, alloc: seq<nat>, i: nat)
    ensures AskedIn(trace + RecordsOf(alloc), i + 1) == AskedIn(trace, i + 1) + if i < |alloc| then alloc[i] else 0
  {
    if alloc == [] {
      assert trace + RecordsOf(alloc) == trace;
    } else {
      hide AskedIn;
      var p := |alloc| - 1;
      AskedInRound(trace, alloc[..p], i);
      RecordsOfPrefix(alloc, p);
      assert alloc[..p + 1] == alloc;
      AskedInNext(trace + RecordsOf(alloc[..p]), ScanRecord(p + 1, alloc[p]), i + 1);
      assert trace + RecordsOf(alloc) == trace + RecordsOf(alloc[..p]) + [ScanRecord(p + 1, alloc[p])];
    }
  }

  lemma {:induction false} AskedInSince(trace: seq<ScanRecord>, at: nat, entry: nat)
    requires at <= |trace| && entry >= 1 && forall k :: at <= k < |trace| ==> trace[k].entry == 0
    ensures AskedIn(trace, entry) == AskedIn(trace[..at], entry)
  {
    if at < |trace| {
      AskedInSince(trace[..|trace| - 1], at, entry);
      assert trace[..|trace| - 1][..at] == trace[..at];
    } else {
      assert trace[..at] == trace;
    }
  }

  /** What will have been asked for in each stratum once `rest` is drawn too. */
  ghost function Due(trace: seq<ScanRecord>, rest: seq<nat>): (due: seq<nat>)
    ensures |due| == |rest|
  {
    seq(|rest|, i requires 0 <= i < |rest| => AskedIn(trace, i + 1) + rest[i])
  }

  /** A round that is drawn and taken off the rest changes nothing about that. */
  lemma DueAfterRound(trace: seq<ScanRecord>, rest: seq<nat>, round: seq<nat>)
    requires |rest| == |round| && forall i :: 0 <= i < |rest| ==> round[i] <= rest[i]
    ensures Due(trace + RecordsOf(round), Minus(rest, round)) == Due(trace, rest)
  {
    hide AskedIn;
    forall i | 0 <= i < |rest| ensures Due(trace + RecordsOf(round), Minus(rest, round))[i] == Due(trace, rest)[i] {
      AskedInRound(trace, round, i);
    }
  }

  /** No stratum was asked for more than was due and, if the phase is drawn as a whole, none for less. */
  ghost predicate Delivered(trace: seq<ScanRecord>, due: seq<nat>, whole: bool) {
    forall i :: 0 <= i < |due| ==> AskedIn(trace, i + 1) <= due[i] && (whole ==> AskedIn(trace, i + 1) == due[i])
  }

  lemma DeliveredSoFar(trace: seq<ScanRecord>, rest: seq<nat>)
    ensures Delivered(trace, Due(trace, rest), SumN(rest) == 0)
  {
    if SumN(rest) == 0 {
      forall i | 0 <= i < |rest| ensures rest[i] == 0 { NothingLeft(rest, i); }
    }
  }

  lemma {:induction false} NothingLeft(rest: seq<nat>, i: nat)
    requires SumN(rest) == 0 && i < |rest|
    ensures rest[i] == 0
  {
    if i < |rest| - 1 { NothingLeft(rest[..|rest| - 1], i); }
  }

  lemma DeliveredAtMost(trace: seq<ScanRecord>, due: seq<nat>, whole: bool, less: bool)
    requires Delivered(trace, due, whole) && (less ==> whole)
    ensures Delivered(trace, due, less)
  {
  }

  lemma DeliveredAtOnce(trace: seq<ScanRecord>, alloc: seq<nat>)
    ensures Delivered(trace + RecordsOf(alloc), Due(trace, alloc), true)
  {
    hide AskedIn;
    forall i | 0 <= i < |alloc| ensures AskedIn(trace + RecordsOf(alloc), i + 1) == Due(trace, alloc)[i] {
      AskedInRound(trace, alloc, i);
    }
  }

  lemma DeliveredBefore(trace: seq<ScanRecord>, at: nat, due: seq<nat>, whole: bool)
    requires at <= |trace| && forall k :: at <= k < |trace| ==> trace[k].entry == 0
    requires Delivered(trace[..at], due, whole)
    ensures Delivered(trace, due, whole)
  {
    hide AskedIn;
    forall i | 0 <= i < |due|
      ensures AskedIn(trace, i + 1) <= due[i] && (whole ==> AskedIn(trace, i + 1) == due[i])
    {
      AskedInSince(trace, at, i + 1);
    }
  }

  // ----- phases

  /** What stays the same through a run: the budget, the squared ratio of quantile to target, square root, sampler. */
  datatype Rules = Rules(budget: nat, scale: real, sqrt: real -> real, draw: Sampler)

  /** A phase: the size asked for, sizes and fractions of the strata before the cap, the scans it made, and the state it
      left. */
  datatype Phase = Phase(request: nat, requests: seq<nat>, fractions: seq<real>, start: nat, end: nat, after: Snapshot)

  /** What is left of the budget after the first `i` scans. */
  ghost function LeftAfter(rules: Rules, trace: seq<ScanRecord>, i: nat): nat
    requires i <= |trace|
  {
    if rules.budget > Asked(trace[..i]) then rules.budget - Asked(trace[..i]) else 0
  }

  ghost predicate PhaseWithin(trace: seq<ScanRecord>, p: Phase) {
    && p.start <= p.end <= |trace| && p.requests != [] && |p.requests| == |p.fractions|
    && forall i :: 0 <= i < |p.fractions| ==> p.fractions[i] >= 0.0
  }

  /** What the strata are to get in a phase: the size asked for, capped and dealt out. */
  ghost function AllocOf(rules: Rules, trace: seq<ScanRecord>, p: Phase): seq<nat>
    requires PhaseWithin(trace, p)
  {
    Dealt(p.request, LeftAfter(rules, trace, p.start), p.requests, p.fractions)
  }

  /** The strata got that in the scans of the phase, which drew nothing else; less, and uniform draws instead, only if
      it is not drawn as a whole. */
  ghost predicate PhaseDrawn(rules: Rules, trace: seq<ScanRecord>, p: Phase, whole: bool) {
    && PhaseWithin(trace, p)
    && Delivered(trace[..p.end], Due(trace[..p.start], AllocOf(rules, trace, p)), whole)
    && (whole ==> Asked(trace[..p.end]) == Asked(trace[..p.start]) + SumN(AllocOf(rules, trace, p)))
  }

  /** Squared deviation that the equation is solved with at the end of a phase. */
  function SquaredRoots(part: seq<Stratum>, sqrt: real -> real): real
    requires part != []
  {
    Sq(SumOfRoots(Variances(part), sqrt, |part| - 1))
  }

  /** What the next phase is to draw after state `s`: the least number of draws that meets the equation. */
  ghost predicate Demanded(rules: Rules, s: Snapshot, size: int) {
    && s.part != []
    && LeastMeeting(rules.scale, s.state.varTotal, SquaredRoots(s.part, rules.sqrt), s.state.total as real, size)
  }

  /** After phase `p` the next one is to draw `size` draws, which are capped and dealt out to the same strata, and so
      asks for `request` draws in all and `requests` in the strata. */
  ghost predicate Asks(rules: Rules, trace: seq<ScanRecord>, p: Phase, size: nat, request: nat, requests: seq<nat>)
    requires PhaseWithin(trace, p)
  {
    && p.after.scans == p.end && Occurred(rules.draw, trace, p.after) && Demanded(rules, p.after, size)
    && requests == Dealt(size, LeftAfter(rules, trace, p.end), AllocOf(rules, trace, p), p.fractions)
    && request == SumN(requests)
  }

  ghost predicate Sized(rules: Rules, trace: seq<ScanRecord>, p: Phase, request: nat, requests: seq<nat>)
    requires PhaseWithin(trace, p)
  {
    exists size: nat :: Asks(rules, trace, p, size, request, requests)
  }

  /** Phase `p` is drawn as a whole, and `q` is sized by the state it leaves. */
  ghost predicate Linked(rules: Rules, trace: seq<ScanRecord>, p: Phase, q: Phase) {
    && PhaseDrawn(rules, trace, p, true)
    && q.start == p.end && q.fractions == p.fractions && Sized(rules, trace, p, q.request, q.requests)
  }

  /** The phases of a run, of which all but the last are drawn as a whole. */
  ghost predicate Chain(rules: Rules, trace: seq<ScanRecord>, phases: seq<Phase>, whole: bool) {
    && phases != []
    && PhaseDrawn(rules, trace, phases[|phases| - 1], whole) && phases[|phases| - 1].end == |trace|
    && forall t :: 0 <= t < |phases| - 1 ==> Linked(rules, trace, phases[t], phases[t + 1])
  }

  // ----- growing traces

  lemma SamePhase(rules: Rules, trace: seq<ScanRecord>, longer: seq<ScanRecord>, p: Phase)
    requires PhaseWithin(trace, p) && trace <= longer
    ensures PhaseWithin(longer, p) && longer[..p.start] == trace[..p.start] && longer[..p.end] == trace[..p.end]
    ensures AllocOf(rules, longer, p) == AllocOf(rules, trace, p)
    ensures LeftAfter(rules, longer, p.end) == LeftAfter(rules, trace, p.end)
  {
    assert longer[..p.start] == trace[..p.start] && longer[..p.end] == trace[..p.end];
    hide Dealt, Asked;
  }

  lemma StaysLinked(rules: Rules, trace: seq<ScanRecord>, longer: seq<ScanRecord>, p: Phase, q: Phase)
    requires Linked(rules, trace, p, q) && trace <= longer
    ensures Linked(rules, longer, p, q)
  {
    hide Dealt, Asked, AllocOf, LeftAfter, Delivered, Due, Occurred, Demanded;
    SamePhase(rules, trace, longer, p);
    var size: nat :| Asks(rules, trace, p, size, q.request, q.requests);
    HasOccurred(rules.draw, trace, longer, p.after);
    assert Asks(rules, longer, p, size, q.request, q.requests);
  }

  lemma PhaseDone(rules: Rules, before: seq<ScanRecord>, trace: seq<ScanRecord>, q: Phase, whole: bool)
    requires before <= trace && q.start == |before| && q.end == |trace| && PhaseWithin(trace, q)
    requires var alloc := Dealt(q.request, LeftAfter(rules, before, |before|), q.requests, q.fractions);
             Delivered(trace, Due(before, alloc), whole) && (whole ==> Asked(trace) == Asked(before) + SumN(alloc))
    ensures PhaseDrawn(rules, trace, q, whole)
    ensures AllocOf(rules, trace, q) == Dealt(q.request, LeftAfter(rules, before, |before|), q.requests, q.fractions)
  {
    hide Dealt, Asked, Delivered, Due, SumN;
    assert trace[..q.start] == before == before[..|before|] && trace[..q.end] == trace;
  }

  lemma LinkedAs(rules: Rules, trace: seq<ScanRecord>, phases: seq<Phase>, q: Phase)
    requires Chain(rules, trace, phases, true) && PhaseWithin(trace, phases[|phases| - 1])
    requires q.start == |trace| && q.fractions == phases[|phases| - 1].fractions
    requires Sized(rules, trace, phases[|phases| - 1], q.request, q.requests)
    ensures Linked(rules, trace, phases[|phases| - 1], q)
  {
    hide Sized, Delivered, Due, AllocOf;
  }

  /** The first phase. */
  lemma ChainStarts(rules: Rules, trace: seq<ScanRecord>, q: Phase, whole: bool)
    requires PhaseDrawn(rules, trace, q, whole) && q.end == |trace|
    ensures Chain(rules, trace, [q], whole)
  {
    hide PhaseDrawn;
  }

  /** One more phase, sized by the state that a phase drawn as a whole left. */
  lemma ChainNext(rules: Rules, trace: seq<ScanRecord>, longer: seq<ScanRecord>, phases: seq<Phase>, q: Phase,
                  whole: bool)
    requires Chain(rules, trace, phases, true) && trace <= longer
    requires Linked(rules, trace, phases[|phases| - 1], q)
    requires PhaseDrawn(rules, longer, q, whole) && q.end == |longer|
    ensures Chain(rules, longer, phases + [q], whole)
  {
    hide PhaseDrawn, Linked;
    var all, n := phases + [q], |phases|;
    forall t | 0 <= t < n ensures Linked(rules, longer, all[t], all[t + 1]) {
      assert t < n - 1 ==> Linked(rules, trace, phases[t], phases[t + 1]);
      StaysLinked(rules, trace, longer, all[t], all[t + 1]);
    }
  }

  lemma ChainAtMost(rules: Rules, trace: seq<ScanRecord>, phases: seq<Phase>, whole: bool, less: bool)
    requires Chain(rules, trace, phases, whole) && (less ==> whole)
    ensures Chain(rules, trace, phases, less)
  {
    hide Linked, Due, AllocOf;
  }
}
