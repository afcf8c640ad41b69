/**
 The two exceptions of ownership, exactly and with a run each. A reset decided on an old read can reach a
 device the agent itself has already dropped from the record; and once the controller has seen the pod gone
 and stripped the object, an apply that was under way still writes.
 */
module Exceptions {
  import opened Limits
  import opened Kernel
  import opened Grouping
  import opened Status
  import opened Protocol
  import opened Trails

  lemma {:induction false} WroteIsVersion(run: seq<State>, steps: seq<Step>, k: nat)
    requires IsRun(run, steps) && k < |run|
    ensures run[k].agentWrote < |run[k].hist|
  {
    if k > 0 {
      WroteIsVersion(run, steps, k - 1);
      assert StepsAt(run, steps, k - 1);
      WroteStays(run[k-1], steps[k-1], run[k]);
    }
  }

  /**
   In every reachable state, a device that is reset is still in the persisted record exactly when the object
   was not stripped and the agent's own last status update lists the device; a read that is no older than that
   update, or an intent recorded in the same reconcile, ensures the latter.
   */
  lemma ResetIsOwnedExactly(run: seq<State>, steps: seq<Step>, k: nat)
    requires IsRun(run, steps) && k < |steps| && steps[k].AgentReset?
    ensures run[k].agentWrote < |run[k].hist| && run[k].agent.AResetting?
    ensures steps[k].dev in OwnedNow(run[k].hist)
            <==> !Stripped(run[k]) && steps[k].dev in run[k].hist[run[k].agentWrote].Devices()
    ensures run[k].agentWrote <= run[k].agent.idx || run[k].agent.idx < run[k].agent.base ==>
              steps[k].dev in OwnedNow(run[k].hist) || Stripped(run[k])
  {
    RunInv(run, steps, k);
    WroteIsVersion(run, steps, k);
    assert StepsAt(run, steps, k);
  }

  // ---------- runs that reach the exceptions ----------

  lemma Go(trail: seq<State>, step: Step, t: State) returns (longer: seq<State>)
    requires IsTrail(trail) && Shaped(trail[|trail|-1]) && Next(trail[|trail|-1], step, t)
    ensures IsTrail(longer) && longer[|longer|-1] == t && Shaped(t)
  {
    Extend(trail, step, t);
    longer := trail + [t];
  }

  const DISK := "8:0"
  const LIMIT := Limits(Some(4096), None, None, None)
  const SPEC: Spec := [Volume("data", "pvc", LIMIT)]

  function OneDisk(): Host { Host(dir => OnDevice(DISK, "")) }

  lemma DesiredHere()
    ensures Desired(OneDisk(), SPEC) == map[DISK := LIMIT]
  {
    assert SPEC[..0] == [];
    assert Groups(OneDisk(), SPEC[..0]) == map[];
    assert ToUint64(Some(4096)) == Some(4096);
    assert Merge(NO_LIMITS, ToRule(LIMIT)) == LIMIT;
    var g := AddVolume(OneDisk(), map[], SPEC[0]);
    assert Groups(OneDisk(), SPEC) == g;
    assert OneDisk().resolve(SPEC[0].dir) == OnDevice(DISK, "");
    assert g.Keys == {DISK} && g[DISK].rule == LIMIT;
  }

  function Start(): State {
    State(OneDisk(), [Absent], map[], {}, Running, Unscheduled, 0, 0, AIdle, 0, CIdle)
  }

  const CREATED := Present(SPEC, 1, false, true, map[], NO_REPORT)
  const OWNED := map[DISK := Owned(LIMIT, false)]

  lemma Created() returns (trail: seq<State>, s: State)
    ensures IsTrail(trail) && trail[|trail|-1] == s && Shaped(s)
    ensures s == Start().(hist := [Absent, CREATED], podSeen := Running)
  {
    var s0 := Start();
    trail := [s0];
    var s1 := s0.(podSeen := Running, ctrl := CHasPod);
    trail := Go(trail, CtrlPod(Running), s1);
    var s2 := s1.(ctrl := CListed(0));
    trail := Go(trail, CtrlList(0), s2);
    s := s2.(hist := [Absent, CREATED], ctrl := CIdle);
    assert s2.Commit(CREATED).hist == s.hist;
    trail := Go(trail, CtrlCreate(SPEC), s);
  }

  /** The agent has recorded its intent. */
  lemma IntentCommitted() returns (trail: seq<State>, s: State)
    ensures IsTrail(trail) && trail[|trail|-1] == s && Shaped(s)
    ensures s == Start().(hist := [Absent, CREATED, CREATED.(devices := OWNED)], podSeen := Running,
                          agentSeen := 1, agentWrote := 2, agent := AIntended(1, 2, OWNED))
  {
    DesiredHere();
    var s0;
    trail, s0 := Created();
    var s1 := s0.(agentSeen := 1, agent := ALoaded(1));
    trail := Go(trail, AgentRead(1), s1);
    assert Changed(map[DISK := LIMIT], map[]) == {DISK};
    assert WithIntent(map[DISK := LIMIT], map[]) == OWNED;
    s := s1.Commit(CREATED.(devices := OWNED)).(agentWrote := 2, agent := AIntended(1, 2, OWNED));
    trail := Go(trail, AgentIntentCommit, s);
  }

  /** The agent records its intent and crashes. */
  lemma IntentRecorded() returns (trail: seq<State>, s: State)
    ensures IsTrail(trail) && trail[|trail|-1] == s && Shaped(s)
    ensures s == Start().(hist := [Absent, CREATED, CREATED.(devices := OWNED)], podSeen := Running,
                          agentSeen := 1, agentWrote := 2)
  {
    var s0;
    trail, s0 := IntentCommitted();
    s := s0.(agent := AIdle);
    trail := Go(trail, AgentStop, s);
  }

  /** The object is deleted; a release begins and resets its only device. */
  lemma ReleaseBegun() returns (trail: seq<State>, s: State)
    ensures IsTrail(trail) && trail[|trail|-1] == s && Shaped(s)
    ensures s == Start().(hist := [Absent, CREATED, CREATED.(devices := OWNED),
                                   CREATED.(devices := OWNED, deleting := true)],
                          podSeen := Running, agentSeen := 3, agentWrote := 2, agent := AResetting(3, 3, {}, map[]))
  {
    var s0;
    trail, s0 := IntentRecorded();
    var s1 := s0.Commit(CREATED.(devices := OWNED, deleting := true));
    trail := Go(trail, UserDelete, s1);
    var s2 := s1.(agentSeen := 3, agent := ALoaded(3));
    trail := Go(trail, AgentRead(3), s2);
    var s3 := s2.(agent := AResetting(3, 3, OWNED.Keys, OWNED));
    trail := Go(trail, AgentStartRelease, s3);
    assert OWNED - {DISK} == map[] && OWNED.Keys - {DISK} == {};
    assert s3.kernel - {DISK} == s3.kernel && s3.written - {DISK} == s3.written;
    s := s3.(agent := AResetting(3, 3, {}, map[]));
    trail := Go(trail, AgentReset(DISK, true), s);
  }

  /** The release is saved, but the agent's cache has not seen that update yet. */
  lemma ReleasedUnseen() returns (trail: seq<State>, s: State)
    ensures IsTrail(trail) && trail[|trail|-1] == s && Shaped(s)
    ensures s.kernel == map[] && s.pod == Running && s.agentSeen == 3 && s.agent == AIdle
    ensures |s.hist| == 5 && s.hist[3] == CREATED.(devices := OWNED, deleting := true) && s.hist[4].Released()
  {
    var s0;
    trail, s0 := ReleaseBegun();
    var s1 := s0.(agent := ASaving(3, map[], NO_REPORT));
    trail := Go(trail, AgentDecide(NO_REPORT), s1);
    assert DISK in OWNED;
    s := s1.(agent := AIdle).Commit(CREATED.(deleting := true)).(agentWrote := 4);
    trail := Go(trail, AgentSave(3), s);
  }

  /** The next release reads the old version and removes a line, set by somebody else, of a device it no longer owns. */
  lemma ResetOfForeignLine() returns (trail: seq<State>, s: State, t: State)
    ensures IsTrail(trail) && trail[|trail|-1] == s && Shaped(s) && !s.pod.Gone?
    ensures Next(s, AgentReset(DISK, true), t)
    ensures DISK in s.kernel && DISK !in t.kernel && DISK !in s.written && OwnedNow(s.hist) == {}
  {
    var s0;
    trail, s0 := ReleasedUnseen();
    var s1 := s0.(agent := ALoaded(3));
    trail := Go(trail, AgentRead(3), s1);
    var s2 := s1.(agent := AResetting(3, 3, OWNED.Keys, OWNED));
    trail := Go(trail, AgentStartRelease, s2);
    s := s2.(kernel := SetLine(s2.kernel, DISK, Some(LIMIT)));
    trail := Go(trail, Drift(DISK, Some(LIMIT)), s);
    t := s.(kernel := s.kernel - {DISK}, written := s.written - {DISK},
            agent := AResetting(3, 3, OWNED.Keys - {DISK}, OWNED - {DISK}));
    NothingOwnedNothingWritten(trail);
  }

  /** The pod dies while the agent is about to apply; the controller sees that and lists the object. */
  lemma DeathSeen() returns (trail: seq<State>, s: State)
    ensures IsTrail(trail) && trail[|trail|-1] == s && Shaped(s)
    ensures s.host == OneDisk() && s.kernel == map[] && s.written == {} && s.pod == s.podSeen == Gone
    ensures s.hist == [Absent, CREATED, CREATED.(devices := OWNED)]
    ensures s.agent == AApplying(1, 2, map[], {DISK}, OWNED) && s.ctrl == CListed(2) && s.ctrlSeen == 2
  {
    DesiredHere();
    var s0;
    trail, s0 := IntentCommitted();
    var s1 := s0.(agent := AApplying(1, 2, map[], {DISK}, OWNED));
    assert DesiredAt(s0, 1).Keys == {DISK};
    trail := Go(trail, AgentKernelRead, s1);
    var s2 := s1.(pod := Gone);
    trail := Go(trail, PodAdvances(Gone), s2);
    var s3 := s2.(podSeen := Gone, ctrl := CHasPod);
    trail := Go(trail, CtrlPod(Gone), s3);
    s := s3.(ctrlSeen := 2, ctrl := CListed(2));
    trail := Go(trail, CtrlList(2), s);
  }

  /** A direct release strips the object while the agent is mid-apply. */
  lemma DirectRelease() returns (trail: seq<State>, s: State)
    ensures IsTrail(trail) && trail[|trail|-1] == s && Shaped(s)
    ensures s.host == OneDisk() && s.kernel == map[] && s.pod == s.podSeen == Gone
    ensures s.hist == [Absent, CREATED, CREATED.(devices := OWNED), CREATED.(devices := OWNED, deleting := true)]
    ensures s.agent == AApplying(1, 2, map[], {DISK}, OWNED) && s.ctrl == CRemoving(true) && s.ctrlSeen == 2
  {
    var s0;
    trail, s0 := DeathSeen();
    assert s0.Last() == CREATED.(devices := OWNED);
    s := s0.Commit(CREATED.(devices := OWNED, deleting := true)).(ctrl := CRemoving(true));
    trail := Go(trail, CtrlDirect, s);
  }

  /** The finalizer comes off and the object with it. */
  lemma StrippedMidApply() returns (trail: seq<State>, s: State)
    ensures IsTrail(trail) && trail[|trail|-1] == s && Shaped(s) && Stripped(s)
    ensures s.host == OneDisk() && s.kernel == map[] && |s.hist| > 1 && s.hist[1] == CREATED
    ensures s.agent == AApplying(1, 2, map[], {DISK}, OWNED)
  {
    var s1;
    trail, s1 := DirectRelease();
    var s2 := s1.(ctrlSeen := 3, ctrl := CPatching(3, true));
    trail := Go(trail, CtrlRefetch(3), s2);
    s := s2.Commit(Absent).(ctrl := CIdle);
    trail := Go(trail, CtrlUnfinalize, s);
  }

  /** The write that follows lands on a device no record lists: the exception of write-ahead ownership is real. */
  lemma WriteAfterStripping() returns (trail: seq<State>, s: State, t: State)
    ensures IsTrail(trail) && trail[|trail|-1] == s && Shaped(s) && Stripped(s)
    ensures Next(s, AgentApply(DISK, Accept), t)
    ensures DISK in t.written && DISK in t.kernel && OwnedNow(t.hist) == {}
  {
    DesiredHere();
    trail, s := StrippedMidApply();
    t := s.(kernel := map[DISK := LIMIT], written := s.written + {DISK},
            agent := AApplying(1, 2, map[], {}, OWNED[DISK := Owned(LIMIT, true)]));
    assert {DISK} - {DISK} == {};
    assert DesiredAt(s, 1) == map[DISK := LIMIT];
  }
}
