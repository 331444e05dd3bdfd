/** The scans of a run: what they drew in each stratum and in entry 0, and states of the run that they account for. */
module Trace {
  import opened Streaming
  import opened Rounds
  import opened Estimator

  /** The answer of the sampler to its i-th scan, of n draws. */
  type Sampler = (nat, nat) -> seq<Draw>

  ghost predicate DrawsAsAsked(draw: Sampler) {
    forall i, n :: |draw(i, n)| == n
  }

  /** A scan that was made: of a stratum, or of the whole range as entry 0, and of how many draws. */
  datatype ScanRecord = ScanRecord(entry: nat, size: nat)

  /** Everything drawn in a stratum by the scans of a run, of which the k-th is answered by the sampler's k-th
      answer. */
  ghost function History(draw: Sampler, trace: seq<ScanRecord>, entry: nat): seq<real> {
    if trace == [] then []
    else
      var k := |trace| - 1;
      History(draw, trace[..k], entry) + if trace[k].entry == entry then Values(draw(k, trace[k].size)) else []
  }

  /** Draws asked for by the scans of a run. */
  ghost function Asked(trace: seq<ScanRecord>): nat {
    if trace == [] then 0 else Asked(trace[..|trace| - 1]) + trace[|trace| - 1].size
  }

  /** Histories `hist` are what the scans of a run drew, which are `draws` draws. */
  ghost predicate TracedBy(draw: Sampler, trace: seq<ScanRecord>, scans: nat, draws: nat, hist: seq<seq<real>>) {
    && |trace| == scans && Asked(trace) == draws
    && forall i :: 1 <= i < |hist| ==> hist[i] == History(draw, trace, i)
  }

  lemma TraceNext(draw: Sampler, trace: seq<ScanRecord>, scans: nat, draws: nat, hist: seq<seq<real>>, r: ScanRecord)
    requires TracedBy(draw, trace, scans, draws, hist) && r.entry < |hist|
    ensures var next := if r.entry == 0 then hist
                        else hist[r.entry := hist[r.entry] + Values(draw(scans, r.size))];
            TracedBy(draw, trace + [r], scans + 1, draws + r.size, next)
  {
    assert (trace + [r])[..|trace|] == trace;
    assert forall i :: 1 <= i < |hist| && i != r.entry ==> hist[i] + [] == hist[i];
  }

  /** What became of entry 0 since phase 1: where its scans start in the trace, and what it held then. */
  datatype Origin = Origin(first: nat, slot: Stratum)

  /** Entry 0 after the scans of a run, of which those of the whole range grow it. */
  ghost function EntryZero(draw: Sampler, trace: seq<ScanRecord>, origin: Origin): Stratum {
    if |trace| <= origin.first then origin.slot
    else
      var k := |trace| - 1;
      var before := EntryZero(draw, trace[..k], origin);
      if trace[k].entry == 0 then Scan(before, draw(k, trace[k].size)) else before
  }

  lemma EntryZeroNext(draw: Sampler, trace: seq<ScanRecord>, origin: Origin, r: ScanRecord)
    requires origin.first <= |trace|
    ensures var p := EntryZero(draw, trace, origin);
            EntryZero(draw, trace + [r], origin) == if r.entry == 0 then Scan(p, draw(|trace|, r.size)) else p
  {
    assert (trace + [r])[..|trace|] == trace;
  }

  lemma {:induction false} EntryZeroIgnoresStrata(draw: Sampler, trace: seq<ScanRecord>, origin: Origin,
                                                  alloc: seq<nat>)
    requires origin.first <= |trace|
    ensures EntryZero(draw, trace + RecordsOf(alloc), origin) == EntryZero(draw, trace, origin)
  {
    if alloc == [] {
      assert trace + RecordsOf(alloc) == trace;
    } else {
      var p := |alloc| - 1;
      EntryZeroIgnoresStrata(draw, trace, origin, alloc[..p]);
      RecordsOfPrefix(alloc, p);
      assert alloc[..p + 1] == alloc;
      EntryZeroNext(draw, trace + RecordsOf(alloc[..p]), origin, ScanRecord(p + 1, alloc[p]));
      assert trace + RecordsOf(alloc) == trace + RecordsOf(alloc[..p]) + [ScanRecord(p + 1, alloc[p])];
    }
  }

  /** Nothing was drawn in any stratum as long as all scans are of the whole range. */
  lemma {:induction false} NoHistory(draw: Sampler, trace: seq<ScanRecord>, entry: nat)
    requires entry >= 1 && forall k :: 0 <= k < |trace| ==> trace[k].entry == 0
    ensures History(draw, trace, entry) == []
  {
    if trace != [] { NoHistory(draw, trace[..|trace| - 1], entry); }
  }

  /** The totals are the mix of entry 0 with the sums over all strata, which are zero as long as all draws are
      uniform. */
  ghost predicate Mixed(total: nat, uniform: nat, mu: real, v: real, part: seq<Stratum>) {
    && 0 < total && uniform <= total && part != []
    && var k := |part| - 1;
       && Averages(uniform, total, part[0], MuSum(part, k), VarSum(part, k), mu, v)
       && (uniform == total ==> MuSum(part, k) == VarSum(part, k) == 0.0)
  }

  /** A state of the run: its strata's entries describe what the scans up to it had drawn, and its totals are their mix
      with entry 0. */
  ghost predicate Occurred(draw: Sampler, trace: seq<ScanRecord>, s: Snapshot) {
    && s.scans <= |trace|
    && Mixed(s.state.total, s.state.uniform, s.state.muTotal, s.state.varTotal, s.part)
    && forall i :: 1 <= i < |s.part| ==> Describes(s.part[i], History(draw, trace[..s.scans], i))
  }

  lemma HasOccurred(draw: Sampler, trace: seq<ScanRecord>, longer: seq<ScanRecord>, s: Snapshot)
    requires Occurred(draw, trace, s) && trace <= longer
    ensures Occurred(draw, longer, s) && s.part != [] && s.scans <= |trace| && longer[..s.scans] == trace[..s.scans]
  {
    assert longer[..s.scans] == trace[..s.scans];
    hide Describes, History, Averages, MuSum, VarSum;
  }

  lemma OccursNow(draw: Sampler, trace: seq<ScanRecord>, s: Snapshot)
    requires s.scans == |trace| && Mixed(s.state.total, s.state.uniform, s.state.muTotal, s.state.varTotal, s.part)
    requires forall i :: 1 <= i < |s.part| ==> Describes(s.part[i], History(draw, trace, i))
    ensures Occurred(draw, trace, s) && s.part != []
  {
    assert trace[..s.scans] == trace;
    hide Describes, History, Averages, MuSum, VarSum;
  }

  /** The streak of bad rounds at the end of the log has been undone when `at` scans had been made: the phase estimates
      are the sums over the strata's entries before it, its draws are those of the scans from then on, and all scans
      after it are of the whole range. */
  ghost predicate StreakUndone(draw: Sampler, trace: seq<ScanRecord>, log: seq<Round>, now: Snapshot, at: nat, mu: real,
                               v: real)
  {
    var start := StreakStart(log, now);
    && Streak(log) >= MAX_BAD_ROUNDS && Occurred(draw, trace, start) && start.part != []
    && mu == MuSum(start.part, |start.part| - 1) && v == VarSum(start.part, |start.part| - 1)
    && start.scans <= at <= |trace| && Asked(trace[..at]) == Asked(trace[..start.scans]) + StreakDraws(log)
    && forall k :: at <= k < |trace| ==> trace[k].entry == 0
  }

  lemma StaysUndone(draw: Sampler, trace: seq<ScanRecord>, log: seq<Round>, now: Snapshot, at: nat, mu: real, v: real,
                    r: ScanRecord)
    requires StreakUndone(draw, trace, log, now, at, mu, v) && r.entry == 0
    ensures StreakUndone(draw, trace + [r], log, now, at, mu, v)
  {
    hide Occurred, Streak, StreakStart, StreakDraws, MuSum, VarSum, Asked;
    HasOccurred(draw, trace, trace + [r], StreakStart(log, now));
    assert (trace + [r])[..at] == trace[..at];
  }

  /** Restoring the totals of a state gives the phase estimates of that state. */
  lemma RestoredSums(s: Snapshot, p0: Stratum, mu: real, v: real)
    requires s.part != [] && s.part[0] == p0
    requires Mixed(s.state.total, s.state.uniform, s.state.muTotal, s.state.varTotal, s.part)
    requires s.state.uniform == s.state.total ==> mu == 0.0 && v == 0.0
    requires s.state.uniform < s.state.total ==>
               Averages(s.state.uniform, s.state.total, p0, mu, v, s.state.muTotal, s.state.varTotal)
    ensures mu == MuSum(s.part, |s.part| - 1) && v == VarSum(s.part, |s.part| - 1)
  {
    hide MixMean, MixVar, MuSum, VarSum, Alpha, Averages;
    if s.state.uniform < s.state.total {
      AlphaBelowOne(s.state.uniform, s.state.total);
      AveragesIff(s.state.uniform, s.state.total, p0, mu, v, s.state.muTotal, s.state.varTotal);
      AveragesIff(s.state.uniform, s.state.total, p0, MuSum(s.part, |s.part| - 1), VarSum(s.part, |s.part| - 1),
                  s.state.muTotal, s.state.varTotal);
      MixInjective(Alpha(s.state.uniform, s.state.total), p0.mu, p0.variance, mu, v,
                   MuSum(s.part, |s.part| - 1), VarSum(s.part, |s.part| - 1));
    }
  }

  lemma AsManyScans(draw: Sampler, trace: seq<ScanRecord>, scans: nat, draws: nat, hist: seq<seq<real>>)
    requires TracedBy(draw, trace, scans, draws, hist)
    ensures |trace| == scans
  {
  }

  lemma NothingTraced(draw: Sampler, hist: seq<seq<real>>)
    requires |hist| == 1
    ensures TracedBy(draw, [], 0, 0, hist)
  {
  }

  lemma OnlyEntryZero(draw: Sampler, trace: seq<ScanRecord>, scans: nat, draws: nat, hist: seq<seq<real>>,
                      empty: seq<seq<real>>)
    requires TracedBy(draw, trace, scans, draws, hist) && forall k :: 0 <= k < |trace| ==> trace[k].entry == 0
    requires forall i :: 1 <= i < |empty| ==> empty[i] == []
    ensures TracedBy(draw, trace, scans, draws, empty)
  {
    forall i | 1 <= i < |empty| ensures History(draw, trace, i) == [] {
      NoHistory(draw, trace, i);
    }
  }

  /** The scans of one round over all strata. */
  ghost function RecordsOf(alloc: seq<nat>): seq<ScanRecord> {
    seq(|alloc|, p requires 0 <= p < |alloc| => ScanRecord(p + 1, alloc[p]))
  }

  lemma RecordsOfPrefix(alloc: seq<nat>, p: nat)
    requires p < |alloc|
    ensures RecordsOf(alloc[..p + 1]) == RecordsOf(alloc[..p]) + [ScanRecord(p + 1, alloc[p])]
  {
  }
}
