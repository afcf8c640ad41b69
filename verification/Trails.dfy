/**
 Recorded interleavings: the states that imperative code and everybody else went through. A trail is a run of the
 protocol, so what is proved of runs holds of the code that leaves a trail.
 */
module Trails {
  import opened Protocol

  ghost predicate Linked(s: State, t: State) {
    Shaped(s) && exists step :: Next(s, step, t)
  }

  /** The states of one interleaving, from the beginning. */
  ghost predicate IsTrail(trail: seq<State>) {
    && trail != []
    && Init(trail[0])
    && (forall k | 0 < k < |trail| :: LinkedAt(trail, k))
  }

  ghost predicate LinkedAt(trail: seq<State>, k: nat)
    requires 0 < k < |trail|
  {
    Linked(trail[k-1], trail[k])
  }

  ghost predicate Continues(before: seq<State>, trail: seq<State>) {
    |before| <= |trail| && forall k | 0 <= k < |before| :: trail[k] == before[k]
  }

  lemma LinkKeepsInv(s: State, t: State)
    requires Inv(s) && Linked(s, t)
    ensures Inv(t)
  {
    var step :| Next(s, step, t);
    StepKeepsInv(s, step, t);
  }

  lemma Shorten(trail: seq<State>, n: nat)
    requires IsTrail(trail) && 0 < n <= |trail|
    ensures IsTrail(trail[..n])
  {
    forall k | 0 < k < n ensures LinkedAt(trail[..n], k) {
      assert LinkedAt(trail, k);
    }
  }

  lemma {:induction false} TrailInv(trail: seq<State>)
    requires IsTrail(trail)
    ensures Inv(trail[|trail|-1])
  {
    var n := |trail|;
    if n == 1 {
      InitInv(trail[0]);
    } else {
      Shorten(trail, n - 1);
      TrailInv(trail[..n-1]);
      assert LinkedAt(trail, n - 1);
      LinkKeepsInv(trail[n-2], trail[n-1]);
    }
  }

  lemma NothingOwnedNothingWritten(trail: seq<State>)
    requires IsTrail(trail) && Shaped(trail[|trail|-1])
    ensures var s := trail[|trail|-1];
            s.Last().Devices() == map[] && s.Last().Present? ==> s.written == {}
  {
    TrailInv(trail);
  }

  lemma Extend(trail: seq<State>, step: Step, t: State)
    requires IsTrail(trail) && Shaped(trail[|trail|-1]) && Next(trail[|trail|-1], step, t)
    ensures IsTrail(trail + [t]) && Shaped(t)
  {
    var s := trail[|trail|-1];
    TrailInv(trail);
    StepKeepsInv(s, step, t);
    forall k | 0 < k < |trail + [t]| ensures LinkedAt(trail + [t], k) {
      if k < |trail| {
        assert LinkedAt(trail, k);
      } else {
        assert Linked(s, t);
      }
    }
  }

  /** Every recorded interleaving is a run, so the theorems about runs hold of it. */
  lemma {:induction false} TrailIsRun(trail: seq<State>) returns (steps: seq<Step>)
    requires IsTrail(trail)
    ensures IsRun(trail, steps)
  {
    var n := |trail|;
    if n == 1 {
      steps := [];
    } else {
      Shorten(trail, n - 1);
      steps := TrailIsRun(trail[..n-1]);
      assert LinkedAt(trail, n - 1);
      var step :| Next(trail[n-2], step, trail[n-1]);
      steps := steps + [step];
      RunGrows(trail, steps);
    }
  }

  lemma RunGrows(run: seq<State>, steps: seq<Step>)
    requires |run| == |steps| + 1 && steps != [] && IsRun(run[..|run|-1], steps[..|steps|-1])
    requires Shaped(run[|run|-2]) && Next(run[|run|-2], steps[|steps|-1], run[|run|-1])
    ensures IsRun(run, steps)
  {
    forall k | 0 <= k < |steps| ensures StepsAt(run, steps, k) {
      if k < |steps| - 1 {
        assert StepsAt(run[..|run|-1], steps[..|steps|-1], k);
      }
    }
  }

  /** Versions are never rewritten: the history only grows. */
  ghost predicate Grown(hist: seq<Object>, hist': seq<Object>) {
    |hist| <= |hist'| && forall v | 0 <= v < |hist| :: hist'[v] == hist[v]
  }

  lemma AgentStepGrows(s: State, step: Step, t: State)
    requires Shaped(s) && NextAgent(s, step, t)
    ensures Grown(s.hist, t.hist)
  {}

  lemma CtrlStepGrows(s: State, step: Step, t: State)
    requires Shaped(s) && NextCtrl(s, step, t)
    ensures Grown(s.hist, t.hist)
  {}

  lemma StepGrows(s: State, step: Step, t: State)
    requires Shaped(s) && Next(s, step, t)
    ensures Grown(s.hist, t.hist)
  {
    if NextAgent(s, step, t) {
      AgentStepGrows(s, step, t);
    } else if NextCtrl(s, step, t) {
      CtrlStepGrows(s, step, t);
    } else {
      assert NextEnv(s, step, t);
    }
  }

  lemma {:induction false} TrailGrows(trail: seq<State>, i: nat, j: nat)
    requires IsTrail(trail) && i <= j < |trail|
    ensures Grown(trail[i].hist, trail[j].hist)
    decreases j
  {
    if i < j {
      TrailGrows(trail, i, j - 1);
      assert LinkedAt(trail, j);
      var step :| Next(trail[j-1], step, trail[j]);
      StepGrows(trail[j-1], step, trail[j]);
      GrownTwice(trail[i].hist, trail[j-1].hist, trail[j].hist);
    }
  }

  lemma GrownTwice(a: seq<Object>, b: seq<Object>, c: seq<Object>)
    requires Grown(a, b) && Grown(b, c)
    ensures Grown(a, c)
  {}

  /**
   Wherever an interleaving stands: if the object is gone and its pod was not seen gone, no rule of the agent is
   left.
   */
  lemma LeavesNothing(trail: seq<State>)
    requires IsTrail(trail) && Shaped(trail[|trail|-1])
    ensures var s := trail[|trail|-1];
            s.Last().Absent? && !s.podSeen.Gone? ==> s.written == {}
  {
    var steps := TrailIsRun(trail);
    var s := trail[|trail|-1];
    if s.Last().Absent? && !s.podSeen.Gone? {
      ReleaseSafety(trail, steps, |trail| - 1);
    }
  }

  lemma WroteStays(s: State, step: Step, t: State)
    requires Shaped(s) && Next(s, step, t) && s.agentWrote < |s.hist|
    ensures t.agentWrote < |t.hist|
  {
    if NextAgent(s, step, t) {
      AgentWroteStays(s, step, t);
    } else if NextCtrl(s, step, t) {
      CtrlWroteStays(s, step, t);
    } else {
      assert NextEnv(s, step, t);
    }
  }

  lemma AgentWroteStays(s: State, step: Step, t: State)
    requires Shaped(s) && NextAgent(s, step, t) && s.agentWrote < |s.hist|
    ensures t.agentWrote < |t.hist|
  {}

  lemma CtrlWroteStays(s: State, step: Step, t: State)
    requires Shaped(s) && NextCtrl(s, step, t) && s.agentWrote < |s.hist|
    ensures t.agentWrote < |t.hist|
  {}

  lemma {:induction false} TrailWrote(trail: seq<State>)
    requires IsTrail(trail)
    ensures trail[|trail|-1].agentWrote < |trail[|trail|-1].hist|
  {
    var n := |trail|;
    if n > 1 {
      Shorten(trail, n - 1);
      TrailWrote(trail[..n-1]);
      assert LinkedAt(trail, n - 1);
      var step :| Next(trail[n-2], step, trail[n-1]);
      WroteStays(trail[n-2], step, trail[n-1]);
    }
  }

  // ---------- everybody else ----------

  datatype Party = TheAgent | TheController

  /** The variables of one party are as they were. */
  ghost predicate Untouched(party: Party, s: State, t: State) {
    match party
    case TheAgent =>
      s.agent == t.agent && s.agentSeen == t.agentSeen && s.agentWrote == t.agentWrote && s.written == t.written
      && s.host == t.host
    case TheController => s.ctrl == t.ctrl && s.ctrlSeen == t.ctrlSeen && s.podSeen == t.podSeen
  }

  /** Moves of others: they leave the party's own variables alone. */
  ghost predicate Elsewhere(party: Party, trail: seq<State>, more: seq<State>)
    requires trail != []
  {
    && IsTrail(trail + more)
    && (forall t | t in more :: Untouched(party, trail[|trail|-1], t))
  }

  ghost predicate PlaysAt(party: Party, others: seq<State> -> seq<State>, trail: seq<State>) {
    trail != [] && IsTrail(trail) ==> Elsewhere(party, trail, others(trail))
  }

  /** A strategy of everybody but the party: whatever has happened, it answers with moves of others. */
  ghost predicate IsStrategy(party: Party, others: seq<State> -> seq<State>) {
    forall trail :: PlaysAt(party, others, trail)
  }

  /** After the others have moved, the party's variables are as they were and the history has only grown. */
  lemma OthersMove(party: Party, trail: seq<State>, more: seq<State>)
    requires trail != [] && Elsewhere(party, trail, more)
    ensures var s, t := trail[|trail|-1], (trail + more)[|trail + more|-1];
            IsTrail(trail + more) && Shaped(t) && Untouched(party, s, t) && Grown(s.hist, t.hist)
  {
    TrailInv(trail + more);
    TrailGrows(trail + more, |trail| - 1, |trail + more| - 1);
    assert more != [] ==> (trail + more)[|trail + more|-1] == more[|more|-1] && more[|more|-1] in more;
  }
}
