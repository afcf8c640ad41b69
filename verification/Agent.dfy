/**
 The node agent's reconcile under interference, as imperative code. `others` is an arbitrary strategy of everyone
 else: between any two calls of the agent it may run the controller, users, the kernel and the pod for any number
 of steps. Reads may lag; a status update that loses its optimistic lock ends the reconcile.
 */
module Agent {
  import opened Limits
  import opened Kernel
  import opened Grouping
  import opened Status
  import opened Protocol
  import opened Trails
  import opened Outcome
  import opened Reconciler

  /** What the host lets a reconcile do: go on, report one state for all volumes, or fail with an error. */
  datatype Access = Usable | Uniform(state: VolumeState, reason: string) | Failing

  datatype Result = Finished | Conflict | Error

  /** writeUniformStatus: every volume in the same state. */
  function UniformReport(pil: Object, state: VolumeState, reason: string): Report
    requires pil.Present?
  {
    var volumes := map v | v in pil.spec :: v.name := VolumeStatus(None, "", state, reason);
    Report(pil.generation, volumes, Reported(Ready(volumes)))
  }

  /** The observed generation, every volume of the spec in the one state, and the Ready reason that state gives. */
  lemma UniformSays(pil: Object, state: VolumeState, reason: string)
    requires pil.Present?
    ensures var r := UniformReport(pil, state, reason);
            && r.observed == pil.generation
            && r.volumes.Keys == (set v | v in pil.spec :: v.name)
            && (forall n | n in r.volumes :: r.volumes[n] == VolumeStatus(None, "", state, reason))
            && (pil.spec != [] ==> r.ready == Reported(state))
  {
    if pil.spec != [] {
      assert pil.spec[0].name in UniformReport(pil, state, reason).volumes;
    }
  }

  /** What is written is recorded, unless the object was stripped. */
  ghost predicate AllRecorded(s: State)
    requires s.hist != []
  {
    s.written <= OwnedNow(s.hist) || Stripped(s)
  }

  lemma Recorded(trail: seq<State>)
    requires IsTrail(trail) && Shaped(trail[|trail|-1])
    ensures AllRecorded(trail[|trail|-1])
  {
    TrailInv(trail);
  }

  lemma TargetIsRecorded(trail: seq<State>, dev: Device)
    requires IsTrail(trail) && Shaped(trail[|trail|-1])
    requires trail[|trail|-1].agent.AApplying? && dev in trail[|trail|-1].agent.todo
    ensures dev in OwnedNow(trail[|trail|-1].hist) || Stripped(trail[|trail|-1])
  {
    TrailInv(trail);
  }

  lemma {:induction false} MountsNames(host: Host, spec: Spec)
    ensures forall v | v in spec :: v.name in Mounts(host, spec)
  {
    if spec != [] {
      MountsNames(host, spec[..|spec|-1]);
      assert spec == spec[..|spec|-1] + [spec[|spec|-1]];
    }
  }

  /** Everything the decisions of one reconcile depend on: the version read and the kernel lines read. */
  function Seen(host: Host, pil: Object, kernel: map<Device, Rule>): View
    requires pil.Present?
  {
    View(host, pil.spec, pil.generation, Groups(host, pil.spec), kernel, pil.devices, pil.report)
  }

  /** The devices outside `todo` have their outcome and their ownership decided. */
  ghost predicate Decided(a: View, replies: Device -> Reply, todo: set<Device>,
                          outcomes: map<string, VolumeStatus>, final: map<Device, Owned>) {
    && (UniqueNames(a.spec) ==> VolumesDone(a, replies, todo, outcomes))
    && OwnedDone(a, replies, todo, WithIntent(RulesOf(a.wanted), a.devices), final)
  }

  lemma NothingDecided(a: View, replies: Device -> Reply)
    requires a.Grouped()
    ensures Decided(a, replies, a.wanted.Keys, SkippedVolumes(a.host, a.spec), WithIntent(RulesOf(a.wanted), a.devices))
  {
    if UniqueNames(a.spec) {
      SkippedDone(a, replies);
    }
  }

  lemma OneMoreDecided(a: View, replies: Device -> Reply, todo: set<Device>, dev: Device, mounts: map<string, string>,
                       outcomes: map<string, VolumeStatus>, final: map<Device, Owned>)
    requires a.Grouped() && dev in todo && todo <= a.wanted.Keys && mounts == Mounts(a.host, a.spec)
    requires Decided(a, replies, todo, outcomes, final)
    ensures a.wanted[dev].volumes <= mounts.Keys
    ensures var g := a.wanted[dev];
            var (state, reason) := DeviceOutcome(Look(a.kernel, dev), g, replies(dev));
            Decided(a, replies, todo - {dev},
                    outcomes + map n | n in g.volumes :: VolumeStatus(Some(dev), mounts[n], state, reason),
                    if state == Applied then final[dev := Owned(g.rule, true)] else final)
  {
    MountsNames(a.host, a.spec);
    GroupNames(a, dev, mounts);
    OwnedProgress(a, replies, todo, final, dev);
    if UniqueNames(a.spec) {
      MountsOf(a.host, a.spec);
      FinishDevice(a, replies, todo, outcomes, dev, mounts);
    }
  }

  /** Ownership after the devices in `done` were reset. */
  ghost predicate AfterResets(start: map<Device, Owned>, replies: Device -> Reply, done: set<Device>,
                              final: map<Device, Owned>) {
    forall dev :: Look(final, dev) == if dev in done && !replies(dev).Reject? then None else Look(start, dev)
  }

  /** The reset loop that began in `s` has handled `done`; its lines are known if nobody else writes any. */
  ghost predicate ResetSoFar(s: State, t: State, alone: bool, replies: Device -> Reply, done: set<Device>,
                             start: seq<Event>, evs: seq<Event>) {
    && s.agent.AResetting? && t.agent.AResetting? && t.agent.idx == s.agent.idx && t.agent.base == s.agent.base
    && done <= s.agent.todo && t.agent.todo == s.agent.todo - done
    && AfterResets(s.agent.final, replies, done, t.agent.final)
    && t.host == s.host && t.agentWrote == s.agentWrote
    && (alone ==> LinesReset(s.kernel, replies, done, t.kernel))
    && ToldResets(start, replies, done, evs)
  }

  /** One device more, as ResetOne leaves it. */
  ghost predicate ResetTurn(t: State, u: State, alone: bool, dev: Device, reply: Reply) {
    && t.agent.AResetting? && dev in t.agent.todo && u.host == t.host && u.agentWrote == t.agentWrote
    && u.agent == AResetting(t.agent.idx, t.agent.base, t.agent.todo - {dev},
                             if reply.Reject? then t.agent.final else t.agent.final - {dev})
    && (alone ==> u.kernel == if reply.Reject? then t.kernel else t.kernel - {dev})
  }

  lemma ResetFurther(s: State, t: State, u: State, alone: bool, replies: Device -> Reply, done: set<Device>,
                     start: seq<Event>, evs: seq<Event>, dev: Device)
    requires ResetSoFar(s, t, alone, replies, done, start, evs) && ResetTurn(t, u, alone, dev, replies(dev))
    ensures ResetSoFar(s, u, alone, replies, done + {dev}, start,
                       evs + if replies(dev).Reject? then [] else [IOLimitReset(dev)])
  {
    OneMoreReset(start, replies, done, evs, dev);
  }

  /** A version whose status is what an undisturbed reconcile of what was read would have reported. */
  ghost predicate IsVerdict(a: View, replies: Device -> Reply, o: Object) {
    && o.Present?
    && (forall dev ::
          Look(o.devices, dev) == OwnedAfter(Look(a.kernel, dev), a.Want(dev), Look(a.devices, dev), replies(dev)))
    && (UniqueNames(a.spec) ==> ReportsAll(a, replies, o.report.volumes))
    && o.report == Report(a.generation, o.report.volumes, Reported(Ready(o.report.volumes)))
  }

  /** The others leave io.max alone: they are the controller, users and the pod, moving freely. */
  ghost predicate LeavesKernelAt(others: seq<State> -> seq<State>, trail: seq<State>) {
    trail != [] ==> forall t | t in others(trail) :: t.kernel == trail[|trail|-1].kernel
  }

  ghost predicate LeavesKernel(others: seq<State> -> seq<State>) {
    forall trail :: LeavesKernelAt(others, trail)
  }

  /** The kernel after the devices in `done` were reset. */
  ghost predicate LinesReset(start: map<Device, Rule>, replies: Device -> Reply, done: set<Device>,
                             kernel: map<Device, Rule>) {
    forall dev :: Look(kernel, dev) == if dev in done && !replies(dev).Reject? then None else Look(start, dev)
  }

  /** Every version with the verdict is truthful: each volume is in it, and Applied is true of the kernel now. */
  ghost predicate ShowsTruth(s: State, a: View, replies: Device -> Reply) {
    forall v | 0 <= v < |s.hist| && IsVerdict(a, replies, s.hist[v]) :: IsTruthful(s.host, a.spec, s.kernel, s.hist[v])
  }

  ghost predicate IsTruthful(host: Host, spec: Spec, kernel: map<Device, Rule>, o: Object) {
    && o.Present?
    && o.report.volumes.Keys == (set v | v in spec :: v.name)
    && (forall v | v in spec && o.report.volumes[v.name].state == Applied :: ShowsMinimum(host, spec, kernel, v))
  }

  /** Every line is the one decided from the lines and the version read. */
  ghost predicate LinesDecided(a: View, replies: Device -> Reply, kernel: map<Device, Rule>) {
    forall dev :: Look(kernel, dev) == LineAfter(Look(a.kernel, dev), a.Want(dev), dev in a.devices, replies(dev))
  }

  lemma LinesAfterBoth(a: View, replies: Device -> Reply, applied: map<Device, Rule>, kernel: map<Device, Rule>)
    requires LinesDone(a, replies, {}, applied)
    requires LinesReset(applied, replies, a.devices.Keys - a.wanted.Keys, kernel)
    ensures LinesDecided(a, replies, kernel)
  {
    forall dev
      ensures Look(kernel, dev) == LineAfter(Look(a.kernel, dev), a.Want(dev), dev in a.devices, replies(dev))
    {
      assert Look(applied, dev)
          == if dev in a.wanted then LineAfter(Look(a.kernel, dev), a.Want(dev), true, replies(dev))
             else Look(a.kernel, dev);
    }
  }

  /** A verdict together with the lines it speaks of is an undisturbed reconcile's result, and so truthful. */
  lemma VerdictIsTrue(a: View, replies: Device -> Reply, o: Object, kernel: map<Device, Rule>)
    requires a.Grouped() && UniqueNames(a.spec) && IsVerdict(a, replies, o) && LinesDecided(a, replies, kernel)
    ensures IsTruthful(a.host, a.spec, kernel, o)
  {
    var b := a.(kernel := kernel, devices := o.devices, report := o.report);
    assert Reconciled(a, replies, b);
    forall v | v in a.spec && o.report.volumes[v.name].state == Applied
      ensures ShowsMinimum(a.host, a.spec, kernel, v)
    {
      AppliedIsTrue(a, replies, b, v);
    }
  }

  lemma TruthShown(s: State, a: View, replies: Device -> Reply)
    requires a.host == s.host && a.Grouped() && UniqueNames(a.spec) && LinesDecided(a, replies, s.kernel)
    ensures ShowsTruth(s, a, replies)
  {
    forall v | 0 <= v < |s.hist| && IsVerdict(a, replies, s.hist[v])
      ensures IsTruthful(s.host, a.spec, s.kernel, s.hist[v])
    {
      VerdictIsTrue(a, replies, s.hist[v], s.kernel);
    }
  }

  lemma KernelShown(s: State, a: View, replies: Device -> Reply, quiet: bool, applied: map<Device, Rule>)
    requires a.host == s.host && a.Grouped()
    requires quiet ==> LinesDone(a, replies, {}, applied)
    requires quiet ==> LinesReset(applied, replies, a.devices.Keys - a.wanted.Keys, s.kernel)
    ensures quiet ==> LinesDecided(a, replies, s.kernel) && (UniqueNames(a.spec) ==> ShowsTruth(s, a, replies))
  {
    if quiet {
      LinesAfterBoth(a, replies, applied, s.kernel);
      if UniqueNames(a.spec) {
        TruthShown(s, a, replies);
      }
    }
  }

  lemma VerdictReached(a: View, replies: Device -> Reply, outcomes: map<string, VolumeStatus>,
                       applied: map<Device, Owned>, final: map<Device, Owned>, o: Object)
    requires Decided(a, replies, {}, outcomes, applied)
    requires AfterResets(applied, replies, a.devices.Keys - a.wanted.Keys, final)
    requires o.Present? && o.devices == final && o.report == Report(a.generation, outcomes, Reported(Ready(outcomes)))
    ensures IsVerdict(a, replies, o)
  {
    forall dev
      ensures Look(final, dev) == OwnedAfter(Look(a.kernel, dev), a.Want(dev), Look(a.devices, dev), replies(dev))
    {
      if dev !in a.wanted {
        assert Look(WithIntent(RulesOf(a.wanted), a.devices), dev) == Look(a.devices, dev);
      }
    }
  }

  lemma StillThere(trail: seq<State>, k: nat, v: nat, pil: Object)
    requires IsTrail(trail) && k < |trail| && v < |trail[k].hist| && trail[k].hist[v] == pil
    ensures v < |trail[|trail|-1].hist| && trail[|trail|-1].hist[v] == pil
  {
    TrailGrows(trail, k, |trail| - 1);
  }

  /** The version the next update has to replace: the one read, or the one that recorded this reconcile's intent. */
  predicate IsBase(base: nat, idx: nat, wroteBefore: nat, wrote: nat) {
    if wrote == wroteBefore then base == idx else idx < base == wrote
  }

  /**
   A conflict is real: a version newer than the one read exists, and if the reconcile had recorded its intent, one newer
   than that.
   */
  predicate Overtaken(s: State, idx: nat, wroteBefore: nat) {
    idx + 1 < |s.hist| && (s.agentWrote != wroteBefore ==> s.agentWrote + 1 < |s.hist|)
  }

  lemma SavingBase(trail: seq<State>)
    requires IsTrail(trail) && Shaped(trail[|trail|-1]) && trail[|trail|-1].agent.ASaving?
    ensures trail[|trail|-1].agent.base < |trail[|trail|-1].hist|
  {
    TrailInv(trail);
  }

  class NodeAgent {
    const others: seq<State> -> seq<State>
    const lag: seq<State> -> nat
    var trail: seq<State>
    var events: seq<Event>

    ghost predicate Valid()
      reads this`trail
    {
      IsTrail(trail) && Shaped(trail[|trail|-1]) && IsStrategy(TheAgent, others)
    }

    function Now(): State
      requires trail != []
      reads this`trail
    {
      trail[|trail|-1]
    }

    /** The reconcile is at version `idx`, which reads `pil`. */
    ghost predicate At(idx: nat, pil: Object)
      requires trail != []
      reads this`trail
    {
      idx < |Now().hist| && Now().hist[idx] == pil && pil.Present?
    }

    constructor (start: State, others: seq<State> -> seq<State>, lag: seq<State> -> nat)
      requires Init(start) && IsStrategy(TheAgent, others)
      ensures Valid() && trail == [start] && events == []
    {
      this.others, this.lag, trail, events := others, lag, [start], [];
    }

    /** Time passes: others move. */
    method Elapse()
      requires Valid()
      modifies this`trail
      ensures Valid() && Continues(old(trail), trail)
      ensures Untouched(TheAgent, old(Now()), Now()) && Grown(old(Now().hist), Now().hist)
      ensures LeavesKernel(others) ==> Now().kernel == old(Now().kernel)
    {
      assert PlaysAt(TheAgent, others, trail);
      OthersMove(TheAgent, trail, others(trail));
      assert LeavesKernel(others) ==> LeavesKernelAt(others, trail);
      var more := others(trail);
      trail := trail + more;
      assert more != [] ==> trail[|trail|-1] == more[|more|-1] && more[|more|-1] in more;
    }

    method Take(ghost step: Step, t: State)
      requires Valid() && NextAgent(Now(), step, t)
      modifies this`trail
      ensures Valid() && trail == old(trail) + [t] && Now() == t
    {
      Extend(trail, step, t);
      trail := trail + [t];
    }

    /** A cached read: any version from the last one seen on. */
    method PickVersion() returns (i: nat)
      requires Valid()
      ensures Now().agentSeen <= i < |Now().hist|
    {
      i := Now().agentSeen + lag(trail) % (|Now().hist| - Now().agentSeen);
    }

    /** The reconcile returns without another write. */
    method Return()
      requires Valid()
      modifies this`trail
      ensures Valid() && Continues(old(trail), trail) && Now() == old(Now()).(agent := AIdle)
    {
      var s := Now();
      Take(AgentStop, s.(agent := AIdle));
    }

    method ReadObject() returns (pil: Object)
      requires Valid() && Now().agent.AIdle?
      modifies this`trail
      ensures Valid() && Continues(old(trail), trail)
      ensures if pil.Absent? then Now().agent.AIdle? else Now().agent.ALoaded? && At(Now().agent.idx, pil)
      ensures Now().host == old(Now().host) && Now().agentWrote == old(Now().agentWrote)
      ensures LeavesKernel(others) ==> Now().kernel == old(Now().kernel)
      ensures Now().agent.ALoaded? ==> Now().agent.idx == Now().agentSeen
      ensures old(Now().agentSeen) <= Now().agentSeen < |Now().hist| && Now().hist[Now().agentSeen] == pil
    {
      Elapse();
      var i := PickVersion();
      var s := Now();
      pil := s.hist[i];
      Take(AgentRead(i), s.(agentSeen := i, agent := if pil.Absent? then AIdle else ALoaded(i)));
    }

    /**
     recordDeviceIntent: without a change nothing is written; otherwise the intent is committed against the version
     read, or somebody else has committed a newer one, or the object is gone. Then the kernel is left untouched.
     */
    method RecordDeviceIntent(pil: Object, desired: map<Device, Rule>) returns (r: Result)
      requires Valid() && Now().agent.ALoaded? && At(Now().agent.idx, pil) && !pil.deleting
      requires desired == Desired(Now().host, pil.spec)
      modifies this`trail
      ensures Valid() && Continues(old(trail), trail) && Grown(old(Now().hist), Now().hist)
      ensures Now().host == old(Now().host) && Now().written == old(Now().written)
      ensures old(Now().agentSeen) == Now().agentSeen
      ensures !r.Finished? ==> Now().agent.AIdle? && Changed(desired, pil.devices) != {}
      ensures r.Conflict? ==> old(Now().agent.idx) + 1 < |Now().hist|
      ensures r.Error? ==> ShowsGone(Now())
      ensures !r.Finished? ==> Now().agentWrote == old(Now().agentWrote)
      ensures r.Finished? ==>
        && Now().agent.AIntended? && Now().agent.idx == old(Now().agent.idx) && Now().agent.base < |Now().hist|
        && Now().agent.final == Now().hist[Now().agent.base].Devices() == WithIntent(desired, pil.devices)
        && IsBase(Now().agent.base, old(Now().agent.idx), old(Now().agentWrote), Now().agentWrote)
    {
      NoIntent(desired, pil.devices);
      if Changed(desired, pil.devices) == {} {
        var s := Now();
        Take(AgentIntentSkip, s.(agent := AIntended(s.agent.idx, s.agent.idx, pil.devices)));
        return Finished;
      }
      Elapse();
      var s := Now();
      if s.Last().Absent? {
        Return();
        assert Now().hist[|s.hist|-1].Absent?;
        return Error;
      }
      if !s.Current(s.agent.idx) {
        Return();
        return Conflict;
      }
      CommitIntent(pil, desired);
      r := Finished;
    }

    /** The update that records the intent, against the version read. */
    method CommitIntent(pil: Object, desired: map<Device, Rule>)
      requires Valid() && Now().agent.ALoaded? && At(Now().agent.idx, pil) && !pil.deleting
      requires desired == Desired(Now().host, pil.spec) && Changed(desired, pil.devices) != {}
      requires Now().Current(Now().agent.idx)
      modifies this`trail
      ensures Valid() && Continues(old(trail), trail) && Grown(old(Now().hist), Now().hist)
      ensures var s, devices := old(Now()), WithIntent(desired, pil.devices);
              && s.agentWrote < |s.hist|
              && Now() == s.Commit(pil.(devices := devices)).(agentWrote := |s.hist|,
                                                               agent := AIntended(s.agent.idx, |s.hist|, devices))
    {
      var s := Now();
      var devices := WithIntent(desired, pil.devices);
      TrailWrote(trail);
      Take(AgentIntentCommit,
           s.Commit(pil.(devices := devices)).(agentWrote := |s.hist|,
                                               agent := AIntended(s.agent.idx, |s.hist|, devices)));
    }

    /** The kernel's lines, once for all devices. */
    method ReadKernel(pil: Object) returns (kernel: map<Device, Rule>)
      requires Valid() && Now().agent.AIntended? && At(Now().agent.idx, pil)
      modifies this`trail
      ensures Valid() && Continues(old(trail), trail) && Now().host == old(Now().host)
      ensures At(old(Now().agent.idx), pil)
      ensures var a := old(Now().agent);
              Now().agent == AApplying(a.idx, a.base, kernel, Desired(Now().host, pil.spec).Keys, a.final)
      ensures Now().kernel == kernel && |old(trail)| < |trail| && Now().agentWrote == old(Now().agentWrote)
    {
      Elapse();
      var s := Now();
      kernel := s.kernel;
      var todo := Desired(s.host, pil.spec).Keys;
      Take(AgentKernelRead, s.(agent := AApplying(s.agent.idx, s.agent.base, s.kernel, todo, s.agent.final)));
    }

    /** The device of `s` is brought to its rule without anybody in between. */
    method ApplyHere(dev: Device, g: Group, before: Option<Owned>, reply: Reply, mounts: map<string, string>,
                     prev: map<string, VolumeStatus>, outcomes: map<string, VolumeStatus>, evs: seq<Event>)
      returns (outcomes': map<string, VolumeStatus>, evs': seq<Event>)
      requires Valid() && Now().agent.AApplying? && dev in Now().agent.todo
      requires Look(DesiredAt(Now(), Now().agent.idx), dev) == Some(g.rule) && g.volumes <= mounts.Keys
      modifies this`trail
      ensures Valid() && Continues(old(trail), trail)
      ensures var s := old(Now());
              var (state, reason) := DeviceOutcome(Look(s.agent.view, dev), g, reply);
              var final := if state == Applied then s.agent.final[dev := Owned(g.rule, true)] else s.agent.final;
              && Now() == AfterApply(s, dev, g.rule, reply, final)
              && outcomes' == outcomes + (map n | n in g.volumes :: VolumeStatus(Some(dev), mounts[n], state, reason))
              && evs' == evs + ApplyEvent(dev, Look(s.agent.view, dev), g, before, reply, prev)
    {
      var s := Now();
      var line, wrote, final;
      line, wrote, final, outcomes', evs' :=
        ApplyDevice(dev, g, Look(s.agent.view, dev), Look(s.kernel, dev), before, reply, mounts, prev,
                    s.agent.final, outcomes, evs);
      ApplyIsStep(s, dev, g, reply, final);
      Take(AgentApply(dev, reply), AfterApply(s, dev, g.rule, reply, final));
    }

    /**
     One device of the apply loop: a write goes to a device that is recorded at that moment, and when it is reported
     applied after a write the kernel shows exactly the rule.
     */
    method ApplyOne(pil: Object, dev: Device, g: Group, before: Option<Owned>, reply: Reply,
                    mounts: map<string, string>, outcomes: map<string, VolumeStatus>, evs: seq<Event>)
      returns (outcomes': map<string, VolumeStatus>, evs': seq<Event>)
      requires Valid() && Now().agent.AApplying? && At(Now().agent.idx, pil) && dev in Now().agent.todo
      requires Look(Desired(Now().host, pil.spec), dev) == Some(g.rule) && g.volumes <= mounts.Keys
      modifies this`trail
      ensures Valid() && Continues(old(trail), trail) && At(old(Now().agent.idx), pil) && Now().host == old(Now().host)
      ensures Now().agentWrote == old(Now().agentWrote)
      ensures var a := old(Now().agent);
              var (state, reason) := DeviceOutcome(Look(a.view, dev), g, reply);
              && Now().agent == AApplying(a.idx, a.base, a.view, a.todo - {dev},
                                          if state == Applied then a.final[dev := Owned(g.rule, true)] else a.final)
              && outcomes' == outcomes + (map n | n in g.volumes :: VolumeStatus(Some(dev), mounts[n], state, reason))
              && evs' == evs + ApplyEvent(dev, Look(a.view, dev), g, before, reply, pil.report.volumes)
              && (Look(a.view, dev) != Some(g.rule) ==> dev in OwnedNow(Now().hist) || Stripped(Now()))
              && (Look(a.view, dev) != Some(g.rule) && state == Applied ==> Look(Now().kernel, dev) == Some(g.rule))
      ensures LeavesKernel(others) ==>
                var before := old(Now().kernel);
                Now().kernel == if Look(old(Now().agent.view), dev) == Some(g.rule) then before
                                else SetLine(before, dev, WriteLine(Look(before, dev), g.rule, reply))
    {
      Elapse();
      ghost var s := Now();
      TargetIsRecorded(trail, dev);
      outcomes', evs' := ApplyHere(dev, g, before, reply, mounts, pil.report.volumes, outcomes, evs);
      if Look(s.agent.view, dev) != Some(g.rule) && DeviceOutcome(Look(s.agent.view, dev), g, reply).0 == Applied {
        AppliedShowsRule(s, dev, g, reply, Now().agent.final);
      }
    }

    /** The apply loop, in any order. */
    method ApplyAll(pil: Object, groups: map<Device, Group>, replies: Device -> Reply, mounts: map<string, string>,
                    skipped: map<string, VolumeStatus>, ghost a: View)
      returns (outcomes: map<string, VolumeStatus>, evs: seq<Event>)
      requires Valid() && Now().agent.AApplying? && At(Now().agent.idx, pil)
      requires a == Seen(Now().host, pil, Now().agent.view) && groups == a.wanted && mounts == Mounts(a.host, a.spec)
      requires Now().agent.todo == groups.Keys && Decided(a, replies, groups.Keys, skipped, Now().agent.final)
      requires Now().kernel == a.kernel
      modifies this`trail
      ensures Valid() && Continues(old(trail), trail) && At(old(Now().agent.idx), pil) && Now().host == old(Now().host)
      ensures Now().agentWrote == old(Now().agentWrote)
      ensures Now().agent.AApplying? && Now().agent.todo == {} && Now().agent.idx == old(Now().agent.idx)
      ensures Now().agent.base == old(Now().agent.base)
      ensures Decided(a, replies, {}, outcomes, Now().agent.final)
      ensures LeavesKernel(others) ==> LinesDone(a, replies, {}, Now().kernel)
      ensures ToldApplied(a, replies, {}, evs)
    {
      outcomes, evs := skipped, [];
      var todo := groups.Keys;
      while todo != {}
        invariant todo <= groups.Keys && Valid() && Continues(old(trail), trail)
        invariant At(old(Now().agent.idx), pil) && Now().host == a.host && Now().agent.AApplying?
        invariant Now().agentWrote == old(Now().agentWrote)
        invariant Now().agent.idx == old(Now().agent.idx) && Now().agent.base == old(Now().agent.base)
        invariant Now().agent.view == a.kernel && Now().agent.todo == todo
        invariant Decided(a, replies, todo, outcomes, Now().agent.final)
        invariant LeavesKernel(others) ==> LinesDone(a, replies, todo, Now().kernel)
        invariant ToldApplied(a, replies, todo, evs)
      {
        var dev :| dev in todo;
        if LeavesKernel(others) {
          LineProgress(a, replies, todo, Now().kernel, dev);
          assert Look(Now().kernel, dev) == Look(a.kernel, dev);
        }
        OneMoreDecided(a, replies, todo, dev, mounts, outcomes, Now().agent.final);
        OneMoreTold(a, replies, todo, evs, dev);
        outcomes, evs := ApplyOne(pil, dev, groups[dev], Look(pil.devices, dev), replies(dev), mounts, outcomes, evs);
        todo := todo - {dev};
      }
    }

    method StartResets(pil: Object)
      requires Valid() && Now().agent.AApplying? && Now().agent.todo == {} && At(Now().agent.idx, pil)
      modifies this`trail
      ensures Valid() && Continues(old(trail), trail) && At(old(Now().agent.idx), pil) && Now().host == old(Now().host)
      ensures Now().agentWrote == old(Now().agentWrote)
      ensures var a := old(Now().agent);
              Now().agent == AResetting(a.idx, a.base, pil.devices.Keys - Desired(Now().host, pil.spec).Keys, a.final)
      ensures Now().kernel == old(Now().kernel)
    {
      var s := Now();
      Take(AgentStartResets,
           s.(agent := AResetting(s.agent.idx, s.agent.base, pil.devices.Keys - Desired(s.host, pil.spec).Keys,
                                  s.agent.final)));
    }

    method ResetOne(dev: Device, reply: Reply, evs: seq<Event>) returns (evs': seq<Event>)
      requires Valid() && Now().agent.AResetting? && dev in Now().agent.todo
      modifies this`trail
      ensures Valid() && Continues(old(trail), trail) && Grown(old(Now().hist), Now().hist)
      ensures ResetTurn(old(Now()), Now(), LeavesKernel(others), dev, reply)
      ensures !reply.Reject? ==> dev !in Now().kernel && dev !in Now().written
      ensures evs' == evs + (if reply.Reject? then [] else [IOLimitReset(dev)])
    {
      Elapse();
      var s := Now();
      var line, final;
      line, final, evs' := ResetDevice(dev, Look(s.kernel, dev), reply, s.agent.final, evs);
      ResetIsStep(s, dev, reply);
      var t := AfterResetStep(s, dev, reply);
      assert t.agent.final == final && Look(t.kernel, dev) == line;
      Take(AgentReset(dev, !reply.Reject?), t);
    }

    /** The reset loop, in any order. */
    method ResetAll(replies: Device -> Reply, start: seq<Event>) returns (evs: seq<Event>)
      requires Valid() && Now().agent.AResetting?
      modifies this`trail
      ensures Valid() && Continues(old(trail), trail) && Grown(old(Now().hist), Now().hist)
      ensures var a := old(Now().agent);
              && Now().agent.AResetting? && Now().agent.idx == a.idx && Now().agent.base == a.base
              && Now().agent.todo == {}
              && AfterResets(a.final, replies, a.todo, Now().agent.final)
      ensures Now().host == old(Now().host)
      ensures LeavesKernel(others) ==> LinesReset(old(Now().kernel), replies, old(Now().agent.todo), Now().kernel)
      ensures ToldResets(start, replies, old(Now().agent.todo), evs) && Now().agentWrote == old(Now().agentWrote)
    {
      evs := start;
      var todo := Now().agent.todo;
      ghost var done, s := {}, Now();
      while todo != {}
        invariant Valid() && Continues(old(trail), trail) && Grown(s.hist, Now().hist)
        invariant todo == s.agent.todo - done
        invariant ResetSoFar(s, Now(), LeavesKernel(others), replies, done, start, evs)
      {
        var dev :| dev in todo;
        ghost var t, before := Now(), evs;
        evs := ResetOne(dev, replies(dev), evs);
        ResetFurther(s, t, Now(), LeavesKernel(others), replies, done, start, before, dev);
        GrownTwice(s.hist, t.hist, Now().hist);
        done, todo := done + {dev}, todo - {dev};
      }
      assert done == s.agent.todo;
    }

    method Decide(report: Report)
      requires Valid() && Now().agent.AResetting? && Now().agent.todo == {}
      modifies this`trail
      ensures Valid() && Continues(old(trail), trail) && Now().hist == old(Now().hist)
      ensures Now() == old(Now()).(agent := ASaving(old(Now().agent.base), old(Now().agent.final), report))
    {
      var s := Now();
      Take(AgentDecide(report), s.(agent := ASaving(s.agent.base, s.agent.final, report)));
    }

    /** The status update that writes nothing: unchanged, refused, or the object is gone. */
    method SaveNothing(j: nat)
      requires Valid() && Now().agent.ASaving? && Now().agentSeen <= j < |Now().hist|
      requires || Now().hist[j].Absent? || Now().Last().Absent? || !Now().Current(Now().agent.base)
               || Carries(Now().hist[j], Now().agent.final, Now().agent.report)
      modifies this`trail
      ensures Valid() && Continues(old(trail), trail) && Now() == old(Now()).(agentSeen := j, agent := AIdle)
    {
      var s := Now();
      Take(AgentSave(j), s.(agentSeen := j, agent := AIdle));
    }

    /** The status update that wins its lock. */
    method SaveStatus(j: nat)
      requires Valid() && Now().agent.ASaving? && Now().agentSeen <= j < |Now().hist|
      requires Now().hist[j].Present? && !Carries(Now().hist[j], Now().agent.final, Now().agent.report)
      requires Now().Last().Present? && Now().Current(Now().agent.base)
      modifies this`trail
      ensures Valid() && Continues(old(trail), trail) && Now().agent.AIdle? && Grown(old(Now().hist), Now().hist)
      ensures Shows(Now(), old(Now().agent.final), old(Now().agent.report))
      ensures Now().host == old(Now().host) && Now().kernel == old(Now().kernel)
    {
      var s, a := Now(), Now().agent;
      var o := s.Last().(devices := a.final, report := a.report);
      Take(AgentSave(j), s.(agentSeen := j, agent := AIdle).Commit(o).(agentWrote := |s.hist|));
      assert Carries(Now().hist[|s.hist|], a.final, a.report);
    }

    /** The re-read, which may be overtaken before the update. */
    method Reread() returns (j: nat)
      requires Valid() && Now().agent.ASaving?
      modifies this`trail
      ensures Valid() && Continues(old(trail), trail) && Grown(old(Now().hist), Now().hist)
      ensures Untouched(TheAgent, old(Now()), Now()) && Now().agentSeen <= j < |Now().hist|
      ensures LeavesKernel(others) ==> Now().kernel == old(Now().kernel)
    {
      Elapse();
      j := PickVersion();
      ghost var hist := Now().hist;
      Elapse();
      GrownTwice(old(Now().hist), hist, Now().hist);
    }

    /**
     writeStatusIfChanged: finished only when some version carries exactly this status, a conflict only when
     somebody else has committed since the base version, an error only when a version shows the object gone.
     */
    method Save() returns (r: Result)
      requires Valid() && Now().agent.ASaving?
      modifies this`trail
      ensures Valid() && Continues(old(trail), trail) && Now().agent.AIdle? && Grown(old(Now().hist), Now().hist)
      ensures var a := old(Now().agent);
              && (r.Finished? ==> Shows(Now(), a.final, a.report))
              && (r.Conflict? ==> a.base + 1 < |Now().hist|)
              && (r.Error? ==> ShowsGone(Now()))
      ensures !r.Finished? ==> Now().agentWrote == old(Now().agentWrote)
      ensures Now().host == old(Now().host)
      ensures LeavesKernel(others) ==> Now().kernel == old(Now().kernel)
    {
      var j := Reread();
      var s := Now();
      ghost var hist := s.hist;
      if s.hist[j].Absent? {
        SaveNothing(j);
        r := Error;
      } else if Carries(s.hist[j], s.agent.final, s.agent.report) {
        SaveNothing(j);
        r := Finished;
      } else if s.Last().Absent? {
        SaveNothing(j);
        assert Now().hist[|hist|-1].Absent?;
        r := Error;
      } else if !s.Current(s.agent.base) {
        SavingBase(trail);
        SaveNothing(j);
        r := Conflict;
      } else {
        SaveStatus(j);
        GrownTwice(old(Now().hist), hist, Now().hist);
        r := Finished;
      }
    }

    /** Record the intent, then read the kernel. */
    method BeginApply(pil: Object, desired: map<Device, Rule>) returns (r: Result, kernel: map<Device, Rule>)
      requires Valid() && Now().agent.ALoaded? && At(Now().agent.idx, pil) && !pil.deleting
      requires desired == Desired(Now().host, pil.spec)
      modifies this`trail
      ensures Valid() && Continues(old(trail), trail) && Now().host == old(Now().host)
      ensures !r.Finished? ==> Now().agent.AIdle? && Now().agentWrote == old(Now().agentWrote)
      ensures r.Conflict? ==> old(Now().agent.idx) + 1 < |Now().hist|
      ensures r.Error? ==> ShowsGone(Now())
      ensures r.Finished? ==>
        && Now().agent.AApplying? && Now().agent.view == kernel == Now().kernel && Now().agent.todo == desired.Keys
        && At(Now().agent.idx, pil) && Now().agent.final == WithIntent(desired, pil.devices)
        && IsBase(Now().agent.base, old(Now().agent.idx), old(Now().agentWrote), Now().agentWrote)
        && |old(trail)| < |trail|
    {
      kernel := map[];
      r := RecordDeviceIntent(pil, desired);
      if r.Finished? {
        kernel := ReadKernel(pil);
      }
    }

    /** Enforce the limits of `pil` on a usable cgroup. */
    method Enforce(pil: Object, replies: Device -> Reply) returns (r: Result, ghost a: View)
      requires Valid() && Now().agent.ALoaded? && At(Now().agent.idx, pil) && !pil.deleting
      modifies this`trail, this`events
      ensures Valid() && Continues(old(trail), trail) && Now().agent.AIdle?
      ensures r.Conflict? ==> Overtaken(Now(), old(Now().agent.idx), old(Now().agentWrote))
      ensures r.Error? ==> ShowsGone(Now())
      ensures !r.Finished? ==> events == old(events)
      ensures r.Finished? ==> Emitted(old(events), a, replies, events)
      ensures r.Finished? && LeavesKernel(others) ==> LinesDecided(a, replies, Now().kernel)
      ensures r.Finished? ==> a == Seen(old(Now().host), pil, a.kernel) && ShowsVerdict(Now(), a, replies)
      ensures r.Finished? ==> ReadSince(trail, |old(trail)|, a.kernel)
      ensures r.Finished? && LeavesKernel(others) && UniqueNames(pil.spec) ==> ShowsTruth(Now(), a, replies)
    {
      var host := Now().host;
      a := Seen(host, pil, map[]);
      var mounts, skipped, skipEvents := ResolveAll(host, pil.spec, pil.report.volumes);
      var groups := GroupByDevice(host, pil.spec);
      var kernel;
      r, kernel := BeginApply(pil, RulesOf(groups));
      if !r.Finished? {
        return;
      }
      a := Seen(host, pil, kernel);
      ghost var read := |trail| - 1;
      assert trail[read].kernel == kernel;
      r := Apply(pil, groups, replies, mounts, skipped, skipEvents, a);
      assert trail[read].kernel == kernel;
    }

    /** Both loops and the report. */
    method Apply(pil: Object, groups: map<Device, Group>, replies: Device -> Reply, mounts: map<string, string>,
                 skipped: map<string, VolumeStatus>, skipEvents: seq<Event>, ghost a: View)
      returns (r: Result)
      requires Valid() && Now().agent.AApplying? && At(Now().agent.idx, pil) && Now().agent.todo == groups.Keys
      requires a == Seen(Now().host, pil, Now().agent.view) && groups == a.wanted
      requires mounts == Mounts(a.host, a.spec) && skipped == SkippedVolumes(a.host, a.spec)
      requires Now().agent.final == WithIntent(RulesOf(groups), pil.devices) && Now().kernel == a.kernel
      modifies this`trail, this`events
      ensures Valid() && Continues(old(trail), trail) && Now().agent.AIdle?
      ensures r.Finished? ==> ShowsVerdict(Now(), a, replies)
      ensures r.Finished? && LeavesKernel(others) && UniqueNames(a.spec) ==> ShowsTruth(Now(), a, replies)
      ensures r.Finished? && LeavesKernel(others) ==> LinesDecided(a, replies, Now().kernel)
      ensures r.Finished? ==> EmittedAfter(old(events), skipEvents, a, replies, events)
      ensures r.Conflict? ==> old(Now().agent.base) + 1 < |Now().hist|
      ensures r.Error? ==> ShowsGone(Now())
      ensures !r.Finished? ==> events == old(events) && Now().agentWrote == old(Now().agentWrote)
    {
      NothingDecided(a, replies);
      var outcomes, evs := ApplyAll(pil, groups, replies, mounts, skipped, a);
      r := Conclude(pil, replies, outcomes, skipEvents, evs, a);
    }

    /** Reset what is no longer wanted and decide the report. */
    method ResetAndDecide(pil: Object, replies: Device -> Reply, outcomes: map<string, VolumeStatus>, evs: seq<Event>)
      returns (all: seq<Event>)
      requires Valid() && Now().agent.AApplying? && Now().agent.todo == {} && At(Now().agent.idx, pil)
      modifies this`trail
      ensures Valid() && Continues(old(trail), trail)
      ensures Now().host == old(Now().host) && Now().agentWrote == old(Now().agentWrote)
      ensures var stale, a := pil.devices.Keys - Desired(Now().host, pil.spec).Keys, Now().agent;
              && a.ASaving? && a.base == old(Now().agent.base)
              && a.report == Report(pil.generation, outcomes, Reported(Ready(outcomes)))
              && AfterResets(old(Now().agent.final), replies, stale, a.final)
              && ToldResets(evs, replies, stale, all)
              && (LeavesKernel(others) ==> LinesReset(old(Now().kernel), replies, stale, Now().kernel))
    {
      StartResets(pil);
      all := ResetAll(replies, evs);
      var ready := ReadyReasonOf(outcomes);
      Decide(Report(pil.generation, outcomes, Reported(ready)));
    }

    /** The second half of a reconcile: reset what is no longer wanted, report, and only then emit. */
    method Conclude(pil: Object, replies: Device -> Reply, outcomes: map<string, VolumeStatus>,
                    skipEvents: seq<Event>, evs: seq<Event>, ghost a: View)
      returns (r: Result)
      requires Valid() && Now().agent.AApplying? && Now().agent.todo == {} && At(Now().agent.idx, pil)
      requires a == Seen(Now().host, pil, a.kernel) && Decided(a, replies, {}, outcomes, Now().agent.final)
      requires LeavesKernel(others) ==> LinesDone(a, replies, {}, Now().kernel)
      requires ToldApplied(a, replies, {}, evs)
      modifies this`trail, this`events
      ensures Valid() && Continues(old(trail), trail) && Now().agent.AIdle?
      ensures r.Finished? ==> ShowsVerdict(Now(), a, replies)
      ensures r.Finished? && LeavesKernel(others) && UniqueNames(a.spec) ==> ShowsTruth(Now(), a, replies)
      ensures r.Finished? && LeavesKernel(others) ==> LinesDecided(a, replies, Now().kernel)
      ensures r.Finished? ==> EmittedAfter(old(events), skipEvents, a, replies, events)
      ensures r.Conflict? ==> old(Now().agent.base) + 1 < |Now().hist|
      ensures r.Error? ==> ShowsGone(Now())
      ensures !r.Finished? ==> events == old(events) && Now().agentWrote == old(Now().agentWrote)
    {
      ghost var lines := Now().kernel;
      ghost var applied := Now().agent.final;
      var all := ResetAndDecide(pil, replies, outcomes, evs);
      AllTold(a, replies, evs, all);
      r := SaveVerdict(outcomes, a, replies, applied);
      KernelShown(Now(), a, replies, LeavesKernel(others), lines);
      if r.Finished? {
        events := events + (skipEvents + all);
      }
    }

    /** The status update that carries the verdict. */
    method SaveVerdict(ghost outcomes: map<string, VolumeStatus>, ghost a: View, ghost replies: Device -> Reply,
                       ghost applied: map<Device, Owned>)
      returns (r: Result)
      requires Valid() && Now().agent.ASaving? && Decided(a, replies, {}, outcomes, applied)
      requires Now().agent.report == Report(a.generation, outcomes, Reported(Ready(outcomes)))
      requires AfterResets(applied, replies, a.devices.Keys - a.wanted.Keys, Now().agent.final)
      modifies this`trail
      ensures Valid() && Continues(old(trail), trail) && Now().agent.AIdle? && Now().host == old(Now().host)
      ensures r.Finished? ==> ShowsVerdict(Now(), a, replies)
      ensures r.Conflict? ==> old(Now().agent.base) + 1 < |Now().hist|
      ensures r.Error? ==> ShowsGone(Now())
      ensures !r.Finished? ==> Now().agentWrote == old(Now().agentWrote)
      ensures LeavesKernel(others) ==> Now().kernel == old(Now().kernel)
    {
      ghost var final := Now().agent.final;
      r := Save();
      if r.Finished? {
        VerdictShown(Now(), a, replies, outcomes, applied, final);
      }
    }

    /** writeUniformStatus. */
    method ReportUniformly(pil: Object, state: VolumeState, reason: string) returns (r: Result)
      requires Valid() && Now().agent.ALoaded? && At(Now().agent.idx, pil) && !pil.deleting
      modifies this`trail
      ensures Valid() && Continues(old(trail), trail) && Now().agent.AIdle?
      ensures r.Finished? ==> Shows(Now(), pil.devices, UniformReport(pil, state, reason))
      ensures r.Conflict? ==> Overtaken(Now(), old(Now().agent.idx), old(Now().agentWrote))
      ensures r.Error? ==> ShowsGone(Now())
      ensures LeavesKernel(others) ==> Now().kernel == old(Now().kernel)
    {
      var s := Now();
      var report := UniformReport(pil, state, reason);
      Take(AgentUniform(report), s.(agent := ASaving(s.agent.idx, pil.devices, report)));
      r := Save();
    }

    /** release: reset what the version read owns, keep what could not be reset, and say so. */
    method Release(pil: Object, replies: Device -> Reply) returns (r: Result)
      requires Valid() && Now().agent.ALoaded? && At(Now().agent.idx, pil) && pil.deleting
      modifies this`trail, this`events
      ensures Valid() && Continues(old(trail), trail) && Now().agent.AIdle?
      ensures r.Conflict? ==> Overtaken(Now(), old(Now().agent.idx), old(Now().agentWrote))
      ensures r.Error? ==> ShowsGone(Now())
      ensures r.Finished? ==> IsReleased(Now(), pil, replies, old(events), events)
      ensures !r.Finished? ==> events == old(events)
      ensures LeavesKernel(others) ==> LinesReset(old(Now().kernel), replies, pil.devices.Keys, Now().kernel)
    {
      var s := Now();
      Take(AgentStartRelease, s.(agent := AResetting(s.agent.idx, s.agent.idx, pil.devices.Keys, pil.devices)));
      var evs := ResetAll(replies, []);
      var left := Now().agent.final;
      Decide(if left == map[] then pil.report.(ready := Status.Released) else pil.report);
      r := Save();
      if r.Finished? && left == map[] && pil.devices != map[] {
        events := events + [AllReleased];
      }
      assert r.Finished? ==> ReleaseShown(Now(), pil, replies, left, old(events), events);
    }

    /** What a reconcile that read `pil` as version `idx` has done when it ends in `t`. */
    ghost predicate Handled(s: State, pil: Object, idx: nat, access: Access, replies: Device -> Reply, r: Result,
                            a: Option<View>, before: seq<Event>, after: seq<Event>, t: State)
      requires pil.Present?
    {
      && (r.Conflict? ==> Overtaken(t, idx, s.agentWrote))
      && (r.Error? ==> ShowsGone(t) || (access.Failing? && !pil.deleting))
      && (!r.Finished? ==> after == before)
      && (r.Finished? ==>
            if pil.deleting then IsReleased(t, pil, replies, before, after)
            else match access
                 case Usable => && a.Some? && a.value == Seen(s.host, pil, a.value.kernel)
                                && ShowsVerdict(t, a.value, replies) && Emitted(before, a.value, replies, after)
                 case Uniform(state, reason) =>
                   Shows(t, pil.devices, UniformReport(pil, state, reason)) && after == before
                 case Failing => false)
    }

    /** What it has left in the kernel, as long as nobody else writes there; `kernel` is what it was after the read. */
    ghost predicate KernelHandled(pil: Object, access: Access, replies: Device -> Reply, a: Option<View>,
                                  kernel: map<Device, Rule>, t: State)
      requires pil.Present?
    {
      if pil.deleting then LinesReset(kernel, replies, pil.devices.Keys, t.kernel)
      else if access.Usable? then
        && a.Some? && LinesDecided(a.value, replies, t.kernel)
        && (UniqueNames(pil.spec) ==> ShowsTruth(t, a.value, replies))
      else t.kernel == kernel
    }

    /**
     The reconcile of one object under every interleaving. Events go out only after the status is saved; what is
     written stays recorded; a conflict and an error have a cause. A finished release shows what is left. When an
     enforcement finishes, a version no older than the last one read carries the verdict on the version and the
     kernel lines this reconcile read, and each event was told once. As long as nobody else writes to io.max, the
     lines are those decided, and every version with that verdict tells the truth about them.
     */
    method Reconcile(access: Access, replies: Device -> Reply)
      returns (r: Result, pil: Object, ghost idx: nat, ghost a: Option<View>)
      requires Valid() && Now().agent.AIdle?
      modifies this`trail, this`events
      ensures Valid() && Continues(old(trail), trail) && Now().agent.AIdle?
      ensures AllRecorded(Now())
      ensures old(Now().agentSeen) <= idx < |Now().hist| && Now().hist[idx] == pil
      ensures pil.Absent? ==> r.Finished? && events == old(events)
      ensures pil.Present? ==> Handled(old(Now()), pil, idx, access, replies, r, a, old(events), events, Now())
      ensures pil.Present? && r.Finished? && a.Some? ==> ReadSince(trail, |old(trail)|, a.value.kernel)
      ensures LeavesKernel(others) && (pil.Absent? || (access.Failing? && !pil.deleting)) ==>
                Now().kernel == old(Now().kernel)
      ensures LeavesKernel(others) && pil.Present? && r.Finished? ==>
                KernelHandled(pil, access, replies, a, old(Now().kernel), Now())
    {
      a := None;
      pil := ReadObject();
      ghost var read := |trail| - 1;
      idx := Now().agentSeen;
      assert trail[read].hist[idx] == pil;
      if pil.Absent? {
        r := Finished;
      } else {
        r, a := Handle(pil, access, replies);
      }
      Recorded(trail);
      StillThere(trail, read, idx, pil);
    }

    /** The reconcile of the object that was read. */
    method Handle(pil: Object, access: Access, replies: Device -> Reply) returns (r: Result, ghost a: Option<View>)
      requires Valid() && Now().agent.ALoaded? && At(Now().agent.idx, pil)
      modifies this`trail, this`events
      ensures Valid() && Continues(old(trail), trail) && Now().agent.AIdle?
      ensures Handled(old(Now()), pil, old(Now().agent.idx), access, replies, r, a, old(events), events, Now())
      ensures r.Finished? && a.Some? ==> ReadSince(trail, |old(trail)|, a.value.kernel)
      ensures LeavesKernel(others) && r.Finished? ==>
                KernelHandled(pil, access, replies, a, old(Now().kernel), Now())
      ensures LeavesKernel(others) && access.Failing? && !pil.deleting ==> Now().kernel == old(Now().kernel)
    {
      a := None;
      if pil.deleting {
        r := Release(pil, replies);
        return;
      }
      match access {
        case Usable =>
          ghost var seen;
          r, seen := Enforce(pil, replies);
          a := Some(seen);
        case Uniform(state, reason) =>
          r := ReportUniformly(pil, state, reason);
        case Failing =>
          Return();
          r := Error;
      }
    }
  }

  /** Every owned device not refused is released; the status says what is left, and the event that nothing is. */
  ghost predicate ReleaseShown(s: State, pil: Object, replies: Device -> Reply, left: map<Device, Owned>,
                               before: seq<Event>, after: seq<Event>)
    requires pil.Present?
  {
    && AfterResets(pil.devices, replies, pil.devices.Keys, left)
    && Shows(s, left, if left == map[] then pil.report.(ready := Status.Released) else pil.report)
    && after == before + if left == map[] && pil.devices != map[] then [AllReleased] else []
  }

  ghost predicate IsReleased(s: State, pil: Object, replies: Device -> Reply, before: seq<Event>, after: seq<Event>)
    requires pil.Present?
  {
    exists left :: ReleaseShown(s, pil, replies, left, before, after)
  }

  predicate Carries(o: Object, devices: map<Device, Owned>, report: Report) {
    o.Present? && o.devices == devices && o.report == report
  }

  /** A version no older than the last one read carries this status. */
  ghost predicate Shows(s: State, devices: map<Device, Owned>, report: Report) {
    exists v :: s.agentSeen <= v < |s.hist| && Carries(s.hist[v], devices, report)
  }

  /** A version no older than the last one read shows the object gone. */
  ghost predicate ShowsGone(s: State) {
    exists v :: s.agentSeen <= v < |s.hist| && s.hist[v].Absent?
  }

  /** A version no older than the last one read carries the verdict. */
  ghost predicate ShowsVerdict(s: State, a: View, replies: Device -> Reply) {
    exists v :: s.agentSeen <= v < |s.hist| && IsVerdict(a, replies, s.hist[v])
  }

  /** These lines were the kernel's at some moment since the trail had `from` states. */
  ghost predicate ReadSince(trail: seq<State>, from: nat, kernel: map<Device, Rule>) {
    exists k :: from <= k < |trail| && trail[k].kernel == kernel
  }

  lemma VerdictShown(s: State, a: View, replies: Device -> Reply, outcomes: map<string, VolumeStatus>,
                     applied: map<Device, Owned>, final: map<Device, Owned>)
    requires Decided(a, replies, {}, outcomes, applied)
    requires AfterResets(applied, replies, a.devices.Keys - a.wanted.Keys, final)
    requires Shows(s, final, Report(a.generation, outcomes, Reported(Ready(outcomes))))
    ensures ShowsVerdict(s, a, replies)
  {
    var report := Report(a.generation, outcomes, Reported(Ready(outcomes)));
    var v :| s.agentSeen <= v < |s.hist| && Carries(s.hist[v], final, report);
    VerdictReached(a, replies, outcomes, applied, final, s.hist[v]);
  }
}
