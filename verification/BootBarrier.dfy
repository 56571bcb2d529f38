/** The boot barrier on the MSIP bits, run by any number of harts in any interleaving. One step of a hart
    is one access to an MSIP register; a spin that reads the bit it does not want leaves the state as it is. */
module BootBarrier {

  /** Where a hart stands. Hart 0 waits for and then clears bit i; the others arrive and spin. */
  datatype Pc = Waiting(i: nat) | Clearing(i: nat) | Arriving | Spinning | Left

  datatype State = State(msip: seq<bool>, pcs: seq<Pc>)

  ghost predicate WellFormed(s: State) {
    && 2 <= |s.pcs| == |s.msip|
    && forall h :: 0 <= h < |s.pcs| && (s.pcs[h].Waiting? || s.pcs[h].Clearing?) ==> 1 <= s.pcs[h].i < |s.pcs|
  }

  function Step(s: State, h: nat): State
    requires WellFormed(s) && h < |s.pcs|
  {
    var n := |s.pcs|;
    match s.pcs[h]
    case Waiting(i) =>
      if !s.msip[i] then s
      else s.(pcs := s.pcs[h := if i + 1 < n then Waiting(i + 1) else Clearing(1)])
    case Clearing(i) =>
      State(s.msip[i := false], s.pcs[h := if i + 1 < n then Clearing(i + 1) else Left])
    case Arriving => State(s.msip[h := true], s.pcs[h := Spinning])
    case Spinning => if s.msip[h] then s else s.(pcs := s.pcs[h := Left])
    case Left => s
  }

  ghost predicate Schedule(sched: seq<nat>, n: nat) {
    forall k :: 0 <= k < |sched| ==> sched[k] < n
  }

  ghost function Run(s: State, sched: seq<nat>): (r: State)
    requires WellFormed(s) && Schedule(sched, |s.pcs|)
    ensures WellFormed(r) && |r.pcs| == |s.pcs|
    decreases |sched|
  {
    if sched == [] then s else Run(Step(s, sched[0]), sched[1..])
  }

  function Init(bits: seq<bool>): (s: State)
    requires 2 <= |bits|
    ensures WellFormed(s)
  {
    State(bits, seq(|bits|, h => if h == 0 then Waiting(1) else Arriving))
  }

  // ---------- the invariant ----------

  ghost predicate Cleared(s: State, j: nat)
    requires WellFormed(s)
  {
    s.pcs[0].Left? || (s.pcs[0].Clearing? && j < s.pcs[0].i)
  }

  ghost predicate HartOk(s: State, j: nat)
    requires WellFormed(s) && 1 <= j < |s.pcs|
  {
    match s.pcs[j]
    case Arriving => !s.msip[j] && s.pcs[0].Waiting? && s.pcs[0].i <= j
    case Spinning => s.msip[j] == !Cleared(s, j)
    case Left => !s.msip[j] && Cleared(s, j)
    case _ => false
  }

  ghost predicate Inv(s: State) {
    && WellFormed(s)
    && (s.pcs[0].Waiting? || s.pcs[0].Clearing? || s.pcs[0].Left?)
    && forall j :: 1 <= j < |s.pcs| ==> HartOk(s, j)
  }

  lemma StepKeepsInv(s: State, h: nat)
    requires Inv(s) && h < |s.pcs|
    ensures Inv(Step(s, h))
  {
    forall j | 1 <= j < |s.pcs|
      ensures HartOk(Step(s, h), j)
    {
      StepKeepsHart(s, h, j);
    }
  }

  lemma StepKeepsHart(s: State, h: nat, j: nat)
    requires Inv(s) && h < |s.pcs| && 1 <= j < |s.pcs|
    ensures WellFormed(Step(s, h)) && HartOk(Step(s, h), j)
  {
    var t := Step(s, h);
    assert HartOk(s, j);
    if h == 0 {
      assert t.pcs[j] == s.pcs[j];
      if s.pcs[0].Clearing? {
        assert Cleared(t, j) == (j <= s.pcs[0].i);
      }
    } else {
      assert HartOk(s, h);
      assert t.pcs[0] == s.pcs[0];
    }
  }

  lemma {:induction false} RunKeepsInv(s: State, sched: seq<nat>)
    requires Inv(s) && Schedule(sched, |s.pcs|)
    ensures Inv(Run(s, sched))
    decreases |sched|
  {
    if sched != [] {
      StepKeepsInv(s, sched[0]);
      RunKeepsInv(Step(s, sched[0]), sched[1..]);
    }
  }

  // ---------- safety ----------

  /** Nobody has left unless everybody has arrived. */
  ghost predicate Safe(s: State) {
    (exists h :: 0 <= h < |s.pcs| && s.pcs[h].Left?) ==> forall j :: 0 <= j < |s.pcs| ==> !s.pcs[j].Arriving?
  }

  lemma InvIsSafe(s: State)
    requires Inv(s)
    ensures Safe(s)
  {
    forall h, j | 0 <= h < |s.pcs| && s.pcs[h].Left? && 0 <= j < |s.pcs|
      ensures !s.pcs[j].Arriving?
    {
      if h > 0 { assert HartOk(s, h); }
      if j > 0 { assert HartOk(s, j); }
    }
  }

  /** No interleaving lets a hart out before all have arrived exactly when every bit but hart 0's own
      starts at zero. */
  lemma BarrierSafeIff(bits: seq<bool>)
    requires 2 <= |bits|
    ensures (forall sched :: Schedule(sched, |bits|) ==> Safe(Run(Init(bits), sched)))
       <==> (forall j :: 1 <= j < |bits| ==> !bits[j])
  {
    if forall j :: 1 <= j < |bits| ==> !bits[j] {
      forall sched | Schedule(sched, |bits|)
        ensures Safe(Run(Init(bits), sched))
      {
        RunKeepsInv(Init(bits), sched);
        InvIsSafe(Run(Init(bits), sched));
      }
    } else {
      var j :| 1 <= j < |bits| && bits[j];
      var sched := EarlyExit(bits, j);
      assert !Safe(Run(Init(bits), sched));
    }
  }

  /** A bit that starts set lets hart 0 through while its hart is still arriving. */
  lemma EarlyExit(bits: seq<bool>, j: nat) returns (sched: seq<nat>)
    requires 1 <= j < |bits| && bits[j]
    ensures Schedule(sched, |bits|) && !Safe(Run(Init(bits), sched))
  {
    var s := Init(bits);
    var arrivals := Arrivals(s, j, 1);
    s := Run(s, arrivals);
    var exit := HartZeroLeaves(s);
    RunConcat(Init(bits), arrivals, exit);
    sched := arrivals + exit;
    var t := Run(s, exit);
    assert t.pcs[0].Left? && t.pcs[j].Arriving?;
  }

  lemma {:induction false} RunConcat(s: State, x: seq<nat>, y: seq<nat>)
    requires WellFormed(s) && Schedule(x, |s.pcs|) && Schedule(y, |s.pcs|)
    ensures Run(s, x + y) == Run(Run(s, x), y)
    decreases |x|
  {
    if x == [] {
      assert x + y == y;
    } else {
      assert (x + y)[1..] == x[1..] + y;
      RunConcat(Step(s, x[0]), x[1..], y);
    }
  }

  /** Every hart from `from` on but j arrives. */
  lemma {:induction false} Arrivals(s: State, j: nat, from: nat) returns (sched: seq<nat>)
    requires WellFormed(s) && 1 <= from <= |s.pcs| && 1 <= j < |s.pcs| && s.msip[j]
    requires s.pcs[0] == Waiting(1) && s.pcs[j] == Arriving
    requires forall h :: 1 <= h < from ==> s.msip[h]
    requires forall h :: from <= h < |s.pcs| ==> s.pcs[h] == Arriving
    ensures Schedule(sched, |s.pcs|)
    ensures var t := Run(s, sched);
      t.pcs[0] == Waiting(1) && t.pcs[j] == Arriving && forall h :: 1 <= h < |s.pcs| ==> t.msip[h]
    decreases |s.pcs| - from
  {
    if from == |s.pcs| {
      sched := [];
    } else if from == j {
      sched := Arrivals(s, j, from + 1);
    } else {
      var rest := Arrivals(Step(s, from), j, from + 1);
      sched := [from] + rest;
      assert sched[1..] == rest;
    }
  }

  /** With every bit it waits for set, hart 0 alone runs to the end of the barrier. */
  lemma {:induction false} HartZeroLeaves(s: State) returns (sched: seq<nat>)
    requires WellFormed(s) && (s.pcs[0].Waiting? || s.pcs[0].Clearing? || s.pcs[0].Left?)
    requires s.pcs[0].Waiting? ==> forall h :: s.pcs[0].i <= h < |s.pcs| ==> s.msip[h]
    ensures Schedule(sched, |s.pcs|)
    ensures Run(s, sched).pcs == s.pcs[0 := Left]
    decreases HartMeasure(s, 0)
  {
    if s.pcs[0].Left? {
      sched := [];
    } else {
      var rest := HartZeroLeaves(Step(s, 0));
      sched := [0] + rest;
      assert sched[1..] == rest;
    }
  }

  // ---------- liveness ----------

  ghost predicate AllLeft(s: State) {
    forall h :: 0 <= h < |s.pcs| ==> s.pcs[h].Left?
  }

  /** The steps hart h has still to take, spins not counted. */
  ghost function HartMeasure(s: State, h: nat): nat
    requires WellFormed(s) && h < |s.pcs|
  {
    match s.pcs[h]
    case Waiting(i) => 2 * |s.pcs| - 1 - i
    case Clearing(i) => |s.pcs| - i
    case Arriving => 2
    case Spinning => 1
    case Left => 0
  }

  ghost function Measure(s: State, n: nat): nat
    requires WellFormed(s) && n <= |s.pcs|
  {
    if n == 0 then 0 else Measure(s, n - 1) + HartMeasure(s, n - 1)
  }

  lemma {:induction false} MeasureStep(s: State, h: nat, n: nat)
    requires WellFormed(s) && h < |s.pcs| && n <= |s.pcs| && Step(s, h) != s
    ensures Measure(Step(s, h), n) == Measure(s, n) - (if h < n then 1 else 0)
  {
    if n > 0 {
      MeasureStep(s, h, n - 1);
    }
  }

  /** Every run from the start takes at most 4(n - 1) steps that are not spins, and one that ends takes
      exactly that many. */
  lemma {:induction false} InitialMeasure(bits: seq<bool>, n: nat)
    requires 2 <= |bits| && 1 <= n <= |bits|
    ensures Measure(Init(bits), n) == 2 * (|bits| - 1) + 2 * (n - 1)
  {
    if n > 1 {
      InitialMeasure(bits, n - 1);
    } else {
      assert Measure(Init(bits), 0) == 0;
    }
  }

  /** Some hart can always take a step that is not a spin. */
  lemma NoDeadlock(s: State) returns (h: nat)
    requires Inv(s) && !AllLeft(s)
    ensures h < |s.pcs| && Step(s, h) != s
  {
    if s.pcs[0].Clearing? {
      return 0;
    } else if s.pcs[0].Waiting? {
      var i := s.pcs[0].i;
      assert HartOk(s, i);
      return if s.msip[i] then 0 else i;
    } else {
      h :| 0 <= h < |s.pcs| && !s.pcs[h].Left?;
      assert HartOk(s, h);
    }
  }

  /** No hart writes the bit of hart 0, which itself never arrives. */
  lemma {:induction false} RunKeepsBitZero(s: State, sched: seq<nat>)
    requires Inv(s) && Schedule(sched, |s.pcs|)
    ensures Run(s, sched).msip[0] == s.msip[0]
    decreases |sched|
  {
    if sched != [] {
      StepKeepsInv(s, sched[0]);
      RunKeepsBitZero(Step(s, sched[0]), sched[1..]);
    }
  }

  /** Every run of a safe start in which all have left has put the MSIP bits back as they were: the only
      final bits are the initial ones, all zero when hart 0's own bit was. */
  lemma FinalBitsAsFound(bits: seq<bool>, sched: seq<nat>)
    requires 2 <= |bits| && (forall j :: 1 <= j < |bits| ==> !bits[j]) && Schedule(sched, |bits|)
    requires AllLeft(Run(Init(bits), sched))
    ensures Run(Init(bits), sched).msip == bits
    ensures !bits[0] ==> forall j :: 0 <= j < |bits| ==> !Run(Init(bits), sched).msip[j]
  {
    RunKeepsInv(Init(bits), sched);
    RunKeepsBitZero(Init(bits), sched);
    FinalBitsZero(Run(Init(bits), sched));
  }

  /** Once all have left, every bit the barrier uses is zero again. */
  lemma FinalBitsZero(s: State)
    requires Inv(s) && AllLeft(s)
    ensures forall j :: 1 <= j < |s.pcs| ==> !s.msip[j]
  {
    forall j | 1 <= j < |s.pcs|
      ensures !s.msip[j]
    {
      assert HartOk(s, j);
    }
  }

  lemma {:induction false} MeasureNeverGrows(s: State, sched: seq<nat>)
    requires WellFormed(s) && Schedule(sched, |s.pcs|)
    ensures Measure(Run(s, sched), |s.pcs|) <= Measure(s, |s.pcs|)
    decreases |sched|
  {
    if sched != [] {
      if Step(s, sched[0]) != s {
        MeasureStep(s, sched[0], |s.pcs|);
      }
      MeasureNeverGrows(Step(s, sched[0]), sched[1..]);
    }
  }

  /** A round in which a hart that can move gets its turn makes progress. */
  lemma {:induction false} RoundProgress(s: State, round: seq<nat>, h: nat)
    requires WellFormed(s) && Schedule(round, |s.pcs|) && h in round && Step(s, h) != s
    ensures Measure(Run(s, round), |s.pcs|) < Measure(s, |s.pcs|)
    decreases |round|
  {
    if Step(s, round[0]) != s {
      MeasureStep(s, round[0], |s.pcs|);
      MeasureNeverGrows(Step(s, round[0]), round[1..]);
    } else {
      RoundProgress(s, round[1..], h);
    }
  }

  /** A round gives every hart at least one turn. */
  ghost predicate FairRound(round: seq<nat>, n: nat) {
    Schedule(round, n) && forall h: nat :: h < n ==> h in round
  }

  ghost function RunRounds(s: State, rounds: seq<seq<nat>>): (r: State)
    requires WellFormed(s) && forall k :: 0 <= k < |rounds| ==> FairRound(rounds[k], |s.pcs|)
    ensures WellFormed(r) && |r.pcs| == |s.pcs|
    decreases |rounds|
  {
    if rounds == [] then s else
      assert FairRound(rounds[0], |s.pcs|);
      RunRounds(Run(s, rounds[0]), rounds[1..])
  }

  lemma {:induction false} FairRunsFinish(s: State, rounds: seq<seq<nat>>)
    requires Inv(s) && (forall k :: 0 <= k < |rounds| ==> FairRound(rounds[k], |s.pcs|))
    requires Measure(s, |s.pcs|) <= |rounds|
    ensures Inv(RunRounds(s, rounds)) && AllLeft(RunRounds(s, rounds))
    decreases |rounds|
  {
    if rounds == [] {
      if !AllLeft(s) {
        var h := NoDeadlock(s);
        MeasureStep(s, h, |s.pcs|);
      }
    } else {
      var t := Run(s, rounds[0]);
      RunKeepsInv(s, rounds[0]);
      MeasureNeverGrows(s, rounds[0]);
      if !AllLeft(s) {
        var h := NoDeadlock(s);
        RoundProgress(s, rounds[0], h);
      } else {
        MeasureAllLeft(s, |s.pcs|);
      }
      FairRunsFinish(t, rounds[1..]);
    }
  }

  lemma {:induction false} MeasureAllLeft(s: State, n: nat)
    requires WellFormed(s) && n <= |s.pcs| && AllLeft(s)
    ensures Measure(s, n) == 0
  {
    if n > 0 {
      MeasureAllLeft(s, n - 1);
    }
  }

  lemma {:induction false} RoundsKeepBitZero(s: State, rounds: seq<seq<nat>>)
    requires Inv(s) && forall k :: 0 <= k < |rounds| ==> FairRound(rounds[k], |s.pcs|)
    ensures RunRounds(s, rounds).msip[0] == s.msip[0]
    decreases |rounds|
  {
    if rounds != [] {
      assert FairRound(rounds[0], |s.pcs|);
      RunKeepsInv(s, rounds[0]);
      RunKeepsBitZero(s, rounds[0]);
      RoundsKeepBitZero(Run(s, rounds[0]), rounds[1..]);
    }
  }

  /** From a safe start any 4(n - 1) fair rounds bring every hart out with the MSIP bits as they were: all
      zero from all-zero bits. */
  lemma BarrierOpens(bits: seq<bool>, rounds: seq<seq<nat>>)
    requires 2 <= |bits| && forall j :: 1 <= j < |bits| ==> !bits[j]
    requires |rounds| == 4 * (|bits| - 1) && forall k :: 0 <= k < |rounds| ==> FairRound(rounds[k], |bits|)
    ensures AllLeft(RunRounds(Init(bits), rounds))
    ensures RunRounds(Init(bits), rounds).msip == bits
    ensures !bits[0] ==> forall j :: 0 <= j < |bits| ==> !RunRounds(Init(bits), rounds).msip[j]
  {
    InitialMeasure(bits, |bits|);
    FairRunsFinish(Init(bits), rounds);
    RoundsKeepBitZero(Init(bits), rounds);
    FinalBitsZero(RunRounds(Init(bits), rounds));
  }
}
