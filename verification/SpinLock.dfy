/** The amoswap spin lock taken and given by any number of harts in any interleaving. One action is one
    atomic swap, or the start of a take. */
module SpinLock {
  import opened Arithmetic

  const BACKOFF_CYCLES: nat := 32
  const BACKOFF_EXPONENT: nat := 2

  datatype Pc = Outside | Trying(backoff: nat) | Holding

  datatype State = State(lock: int, pcs: seq<Pc>)

  datatype Action = Take(h: nat) | Swap(h: nat) | Give(h: nat)

  function MaxBackoff(cores: nat): nat { BACKOFF_CYCLES * cores }

  function NextBackoff(backoff: nat, cores: nat): nat {
    if backoff < MaxBackoff(cores) then backoff * BACKOFF_EXPONENT else backoff
  }

  /** A swap by a hart that is not trying, or a take by one that is not outside, is not an action of the code. */
  ghost predicate Enabled(s: State, a: Action) {
    a.h < |s.pcs| &&
    match a
    case Take(h) => s.pcs[h].Outside?
    case Swap(h) => s.pcs[h].Trying?
    case Give(h) => !s.pcs[h].Trying?
  }

  function Step(s: State, a: Action, cores: nat): State
    requires Enabled(s, a)
  {
    match a
    case Take(h) => s.(pcs := s.pcs[h := Trying(1)])
    case Swap(h) =>
      State(1, s.pcs[h := if s.lock == 0 then Holding else Trying(NextBackoff(s.pcs[h].backoff, cores))])
    case Give(h) => State(0, s.pcs[h := Outside])
  }

  function Init(harts: nat): (s: State)
    ensures Exclusive(s)
  {
    State(0, seq(harts, _ => Outside))
  }

  /** give is called only by the hart that holds the lock. */
  ghost predicate Disciplined(s: State, a: Action) {
    Enabled(s, a) && (a.Give? ==> s.pcs[a.h].Holding?)
  }

  ghost predicate DisciplinedRun(s: State, acts: seq<Action>, cores: nat)
    decreases |acts|
  {
    acts == [] || (Disciplined(s, acts[0]) && DisciplinedRun(Step(s, acts[0], cores), acts[1..], cores))
  }

  ghost function Run(s: State, acts: seq<Action>, cores: nat): State
    requires DisciplinedRun(s, acts, cores)
    decreases |acts|
  {
    if acts == [] then s else Run(Step(s, acts[0], cores), acts[1..], cores)
  }

  // ---------- mutual exclusion ----------

  ghost predicate Holds(s: State, h: nat) {
    h < |s.pcs| && s.pcs[h].Holding?
  }

  ghost predicate Exclusive(s: State) {
    && (s.lock == 0 || s.lock == 1)
    && (s.lock == 1 <==> exists h :: Holds(s, h))
    && forall h, g :: Holds(s, h) && Holds(s, g) ==> h == g
  }

  lemma StepKeepsExclusive(s: State, a: Action, cores: nat)
    requires Exclusive(s) && Disciplined(s, a)
    ensures Exclusive(Step(s, a, cores))
  {
    var t := Step(s, a, cores);
    forall h | Holds(t, h)
      ensures h == a.h || Holds(s, h)
    {
    }
    match a
    case Take(h) =>
      forall g | Holds(s, g) ensures Holds(t, g) {}
    case Swap(h) =>
      if s.lock == 0 {
        assert Holds(t, h);
      } else {
        var g :| Holds(s, g);
        assert Holds(t, g);
      }
    case Give(h) =>
      assert Holds(s, h);
  }

  lemma {:induction false} MutualExclusion(s: State, acts: seq<Action>, cores: nat)
    requires Exclusive(s) && DisciplinedRun(s, acts, cores)
    ensures Exclusive(Run(s, acts, cores))
    decreases |acts|
  {
    if acts != [] {
      StepKeepsExclusive(s, acts[0], cores);
      MutualExclusion(Step(s, acts[0], cores), acts[1..], cores);
    }
  }

  /** The abstract lock: who holds it. */
  datatype Owner = Nobody | Hart(h: nat)

  ghost function OwnerOf(s: State): (o: Owner)
    ensures o.Hart? ==> Holds(s, o.h)
    ensures o.Nobody? ==> !exists h :: Holds(s, h)
  {
    if exists h :: Holds(s, h) then var h :| Holds(s, h); Hart(h) else Nobody
  }

  /** Every step refines an atomic lock: a free lock goes to the hart that swaps, a held one is freed only
      by its owner, and anything else leaves the owner as it is. */
  lemma StepRefinesAtomicLock(s: State, a: Action, cores: nat)
    requires Exclusive(s) && Disciplined(s, a)
    ensures OwnerOf(Step(s, a, cores)) ==
      match a
      case Take(_) => OwnerOf(s)
      case Swap(h) => if OwnerOf(s) == Nobody then Hart(h) else OwnerOf(s)
      case Give(h) => if OwnerOf(s) == Hart(h) then Nobody else OwnerOf(s)
  {
    var t := Step(s, a, cores);
    StepKeepsExclusive(s, a, cores);
    if OwnerOf(s).Hart? && !a.Give? {
      assert Holds(t, OwnerOf(s).h);
    }
    if a.Swap? && s.lock == 0 {
      assert Holds(t, a.h);
    }
    if a.Give? {
      assert Holds(s, a.h);
      forall h: nat
        ensures Holds(t, h) ==> Holds(s, h) && h != a.h
      {
      }
    }
  }

  /** A give is harmless exactly when the hart that gives holds the lock or nobody does; then it changes nothing. */
  lemma GiveKeepsExclusiveIff(s: State, h: nat, cores: nat)
    requires Exclusive(s) && Enabled(s, Give(h))
    ensures Exclusive(Step(s, Give(h), cores)) <==> Holds(s, h) || OwnerOf(s) == Nobody
    ensures OwnerOf(s) == Nobody ==> Step(s, Give(h), cores) == s
  {
    var t := Step(s, Give(h), cores);
    if Holds(s, h) {
      StepKeepsExclusive(s, Give(h), cores);
    } else if OwnerOf(s) == Nobody {
      assert t.pcs == s.pcs;
    } else {
      assert Holds(t, OwnerOf(s).h);
    }
  }

  /** A give by a hart outside lets a second hart in beside the holder. */
  lemma RogueGiveBreaksExclusion(s: State, holder: nat, rogue: nat, cores: nat)
    requires Exclusive(s) && Holds(s, holder) && rogue < |s.pcs| && s.pcs[rogue].Outside?
    ensures var s1 := Step(s, Give(rogue), cores);
      var s2 := Step(s1, Take(rogue), cores);
      !Exclusive(Step(s2, Swap(rogue), cores))
  {
    var s1 := Step(s, Give(rogue), cores);
    var s2 := Step(s1, Take(rogue), cores);
    var s3 := Step(s2, Swap(rogue), cores);
    assert Holds(s3, rogue) && Holds(s3, holder) && rogue != holder;
  }

  // ---------- backoff ----------

  ghost predicate BackoffsOk(s: State, cores: nat) {
    forall h :: 0 <= h < |s.pcs| && s.pcs[h].Trying? ==>
      PowerOfTwo(s.pcs[h].backoff) && s.pcs[h].backoff < 2 * MaxBackoff(cores)
  }

  ghost predicate BackoffsCapped(s: State, cores: nat) {
    forall h :: 0 <= h < |s.pcs| && s.pcs[h].Trying? ==> s.pcs[h].backoff <= MaxBackoff(cores)
  }

  lemma {:induction false} BackoffsStayOk(s: State, acts: seq<Action>, cores: nat)
    requires cores > 0 && BackoffsOk(s, cores) && DisciplinedRun(s, acts, cores)
    ensures BackoffsOk(Run(s, acts, cores), cores)
    decreases |acts|
  {
    if acts != [] {
      BackoffsStayOk(Step(s, acts[0], cores), acts[1..], cores);
    }
  }

  /** Two powers of two that are not equal are at least a factor two apart. */
  lemma {:induction false} PowersApart(a: nat, b: nat)
    requires PowerOfTwo(a) && PowerOfTwo(b) && a < 2 * b
    ensures a <= b
  {
    if a > 1 && b > 1 {
      PowersApart(a / 2, b / 2);
    }
  }

  /** The backoff never exceeds BACKOFF_CYCLES * cores, in any run of two or more harts, exactly when the
      number of cores is a power of two. */
  lemma BackoffCappedIff(harts: nat, cores: nat)
    requires cores > 0 && harts >= 2
    ensures (forall acts :: DisciplinedRun(Init(harts), acts, cores) ==>
              BackoffsCapped(Run(Init(harts), acts, cores), cores))
       <==> PowerOfTwo(cores)
  {
    if PowerOfTwo(cores) {
      MaxIsPower(cores);
      forall acts | DisciplinedRun(Init(harts), acts, cores)
        ensures BackoffsCapped(Run(Init(harts), acts, cores), cores)
      {
        BackoffsStayOk(Init(harts), acts, cores);
        var t := Run(Init(harts), acts, cores);
        forall h | 0 <= h < |t.pcs| && t.pcs[h].Trying?
          ensures t.pcs[h].backoff <= MaxBackoff(cores)
        {
          PowersApart(t.pcs[h].backoff, MaxBackoff(cores));
        }
      }
    } else {
      var acts := OverCap(harts, cores);
    }
  }

  lemma OverCap(harts: nat, cores: nat) returns (acts: seq<Action>)
    requires cores > 0 && harts >= 2 && !PowerOfTwo(cores)
    ensures DisciplinedRun(Init(harts), acts, cores) && !BackoffsCapped(Run(Init(harts), acts, cores), cores)
  {
    var s1 := Step(Init(harts), Take(0), cores);
    var s2 := Step(s1, Swap(0), cores);
    var s3 := Step(s2, Take(1), cores);
    var rest := SpinPastCap(s3, cores);
    acts := [Take(0), Swap(0), Take(1)] + rest;
    assert acts[1..][1..][1..] == rest;
    assert acts[1..][0] == Swap(0) && acts[1..][1..][0] == Take(1);
    assert DisciplinedRun(s2, acts[1..][1..], cores);
    assert DisciplinedRun(s1, acts[1..], cores);
    assert DisciplinedRun(Init(harts), acts, cores);
    assert Run(Init(harts), acts, cores) == Run(s1, acts[1..], cores);
    assert Run(s1, acts[1..], cores) == Run(s2, acts[1..][1..], cores) == Run(s3, rest, cores);
    assert !BackoffsCapped(Run(Init(harts), acts, cores), cores);
  }

  lemma MaxIsPower(cores: nat)
    requires cores > 0
    ensures PowerOfTwo(MaxBackoff(cores)) <==> PowerOfTwo(cores)
  {
    assert PowerOfTwo(2 * cores) == PowerOfTwo(cores);
    assert PowerOfTwo(4 * cores) == PowerOfTwo(2 * cores);
    assert PowerOfTwo(8 * cores) == PowerOfTwo(4 * cores);
    assert PowerOfTwo(16 * cores) == PowerOfTwo(8 * cores);
    assert PowerOfTwo(32 * cores) == PowerOfTwo(16 * cores);
  }

  /** A power of two never meets a cap that is none: it stays below and doubles to a power of two. */
  lemma BelowOddCap(backoff: nat, cores: nat)
    requires PowerOfTwo(backoff) && !PowerOfTwo(cores) && cores > 0 && backoff <= MaxBackoff(cores)
    ensures NextBackoff(backoff, cores) == 2 * backoff && PowerOfTwo(2 * backoff) && backoff < MaxBackoff(cores)
  {
    MaxIsPower(cores);
  }

  /** While hart 0 keeps the lock, hart 1 doubles its backoff past a cap that is not a power of two. */
  lemma {:induction false} SpinPastCap(s: State, cores: nat) returns (acts: seq<Action>)
    requires |s.pcs| >= 2 && s.lock == 1 && s.pcs[1].Trying? && cores > 0
    requires PowerOfTwo(s.pcs[1].backoff) && !PowerOfTwo(cores)
    ensures DisciplinedRun(s, acts, cores) && !BackoffsCapped(Run(s, acts, cores), cores)
    decreases MaxBackoff(cores) - s.pcs[1].backoff
  {
    MaxIsPower(cores);
    if s.pcs[1].backoff > MaxBackoff(cores) {
      acts := [];
    } else {
      BelowOddCap(s.pcs[1].backoff, cores);
      var rest := SpinPastCap(Step(s, Swap(1), cores), cores);
      acts := [Swap(1)] + rest;
      assert acts[1..] == rest;
    }
  }
}
