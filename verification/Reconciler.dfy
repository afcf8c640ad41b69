/**
 The node agent's reconcile of one PodIOLimit, as imperative code over the object's status, the io.max
 lines of the pod and the events it emits. Every change is also taken as a step of the protocol:
 `trail` records the visited states, so that each run of these methods is one of the interleavings
 the protocol's theorems speak about. Here nobody else moves; see Agent for the same code under interference.
 */
module Reconciler {
  import opened Limits
  import opened Kernel
  import opened Grouping
  import opened Status
  import opened Protocol
  import opened Trails
  import opened Outcome

  /** The two outcomes of AgentApply in one expression. */
  function AfterApply(s: State, dev: Device, rule: Rule, reply: Reply, final: map<Device, Owned>): State
    requires s.agent.AApplying?
  {
    var a := s.agent;
    var pc := AApplying(a.idx, a.base, a.view, a.todo - {dev}, final);
    if Look(a.view, dev) == Some(rule) then s.(agent := pc)
    else s.(kernel := SetLine(s.kernel, dev, WriteLine(Look(s.kernel, dev), rule, reply)),
            written := if reply.Reject? then s.written else s.written + {dev}, agent := pc)
  }

  lemma WantedRule(a: View, s: State, dev: Device, g: Group)
    requires Shaped(s) && s.agent.AApplying? && a.host == s.host && a.Grouped() && a.spec == s.hist[s.agent.idx].spec
    requires Look(a.wanted, dev) == Some(g)
    ensures Look(DesiredAt(s, s.agent.idx), dev) == Some(g.rule)
  {}

  /** Applying is a step of the protocol, whatever happened to the line since it was read. */
  lemma ApplyIsStep(s: State, dev: Device, g: Group, reply: Reply, final: map<Device, Owned>)
    requires Shaped(s) && s.agent.AApplying? && dev in s.agent.todo
    requires Look(DesiredAt(s, s.agent.idx), dev) == Some(g.rule)
    requires final == if DeviceOutcome(Look(s.agent.view, dev), g, reply).0 == Applied
                      then s.agent.final[dev := Owned(g.rule, true)] else s.agent.final
    ensures var t := AfterApply(s, dev, g.rule, reply, final);
            && NextAgent(s, AgentApply(dev, reply), t)
            && t == s.(kernel := t.kernel, written := t.written,
                       agent := AApplying(s.agent.idx, s.agent.base, s.agent.view, s.agent.todo - {dev}, final))
            && t.kernel == if Look(s.agent.view, dev) == Some(g.rule) then s.kernel
                           else SetLine(s.kernel, dev, WriteLine(Look(s.kernel, dev), g.rule, reply))
  {}

  /** The two outcomes of AgentReset in one expression. */
  function AfterResetStep(s: State, dev: Device, reply: Reply): State
    requires s.agent.AResetting?
  {
    var a := s.agent;
    if reply.Reject? then s.(agent := AResetting(a.idx, a.base, a.todo - {dev}, a.final))
    else s.(kernel := s.kernel - {dev}, written := s.written - {dev},
            agent := AResetting(a.idx, a.base, a.todo - {dev}, a.final - {dev}))
  }

  lemma ResetIsStep(s: State, dev: Device, reply: Reply)
    requires Shaped(s) && s.agent.AResetting? && dev in s.agent.todo
    ensures NextAgent(s, AgentReset(dev, !reply.Reject?), AfterResetStep(s, dev, reply))
  {}

  /** Applied means that the line read or the line left is the rule. */
  lemma AppliedShowsRule(s: State, dev: Device, g: Group, reply: Reply, final: map<Device, Owned>)
    requires s.agent.AApplying? && Look(s.agent.view, dev) != Some(g.rule)
    requires DeviceOutcome(Look(s.agent.view, dev), g, reply).0 == Applied
    ensures Look(AfterApply(s, dev, g.rule, reply, final).kernel, dev) == Some(g.rule)
  {}

  // ---------- what the loops have done so far ----------

  ghost predicate LinesDone(a: View, replies: Device -> Reply, todo: set<Device>, kernel: map<Device, Rule>) {
    forall dev :: Look(kernel, dev) ==
      if dev in a.wanted && dev !in todo
      then LineAfter(Look(a.kernel, dev), a.Want(dev), true, replies(dev)) else Look(a.kernel, dev)
  }

  ghost predicate OwnedDone(a: View, replies: Device -> Reply, todo: set<Device>, intended: map<Device, Owned>,
                            final: map<Device, Owned>) {
    forall dev :: Look(final, dev) ==
      if dev in a.wanted && dev !in todo
      then OwnedAfter(Look(a.kernel, dev), a.Want(dev), Look(a.devices, dev), replies(dev)) else Look(intended, dev)
  }

  /** Skipped volumes and those on a finished device have their outcome; no other name is reported. */
  ghost predicate VolumesDone(a: View, replies: Device -> Reply, todo: set<Device>,
                              outcomes: map<string, VolumeStatus>) {
    && outcomes.Keys <= (set v | v in a.spec :: v.name)
    && forall v | v in a.spec && (a.host.resolve(v.dir).OnDevice? ==> a.host.resolve(v.dir).device !in todo) ::
         v.name in outcomes && outcomes[v.name] == OutcomeOf(a.host, a.wanted, a.kernel, replies, v)
  }

  ghost predicate SilentSoFar(a: View, replies: Device -> Reply, todo: set<Device>) {
    forall dev | dev in a.wanted && dev !in todo ::
      ApplyEvent(dev, Look(a.kernel, dev), a.wanted[dev], Look(a.devices, dev), replies(dev), a.report.volumes) == []
  }

  ghost predicate LinesHeld(a: View, todo: set<Device>) {
    forall dev | dev in a.wanted && dev !in todo :: Look(a.kernel, dev) == a.Want(dev)
  }

  lemma SameNameSameVolume(spec: Spec, v: Volume, u: Volume)
    requires UniqueNames(spec) && v in spec && u in spec && v.name == u.name
    ensures v == u
  {}

  /** Only the volumes on the device bear the names of its group. */
  lemma NamesOnDevice(a: View, dev: Device, v: Volume)
    requires a.Grouped() && UniqueNames(a.spec) && dev in a.wanted && v in a.spec
    ensures v.name in a.wanted[dev].volumes <==> IsOn(a.host, v, dev)
  {
    GroupMembers(a.host, a.spec, dev);
    if v.name in a.wanted[dev].volumes {
      var u :| u in a.spec && IsOn(a.host, u, dev) && u.name == v.name;
      SameNameSameVolume(a.spec, v, u);
    }
  }

  lemma NamesOfGroup(a: View, dev: Device)
    requires a.Grouped() && dev in a.wanted
    ensures a.wanted[dev].volumes <= set v | v in a.spec :: v.name
  {
    GroupMembers(a.host, a.spec, dev);
  }

  /** Recording the outcome of one device finishes the volumes on it and no others. */
  lemma FinishDevice(a: View, replies: Device -> Reply, todo: set<Device>, outcomes: map<string, VolumeStatus>,
                     dev: Device, mounts: map<string, string>)
    requires a.Grouped() && UniqueNames(a.spec) && dev in todo && todo <= a.wanted.Keys
    requires forall v | v in a.spec :: v.name in mounts && mounts[v.name] == a.host.resolve(v.dir).mount
    requires a.wanted[dev].volumes <= mounts.Keys
    requires VolumesDone(a, replies, todo, outcomes)
    ensures var (state, reason) := DeviceOutcome(Look(a.kernel, dev), a.wanted[dev], replies(dev));
            VolumesDone(a, replies, todo - {dev},
                        outcomes + map n | n in a.wanted[dev].volumes ::
                                     VolumeStatus(Some(dev), mounts[n], state, reason))
  {
    NamesOfGroup(a, dev);
    forall v | v in a.spec ensures v.name in a.wanted[dev].volumes <==> IsOn(a.host, v, dev) {
      NamesOnDevice(a, dev, v);
    }
  }

  // ---------- which events, and how often ----------

  function EventOf(a: View, replies: Device -> Reply, dev: Device): seq<Event>
    requires dev in a.wanted
  {
    ApplyEvent(dev, Look(a.kernel, dev), a.wanted[dev], Look(a.devices, dev), replies(dev), a.report.volumes)
  }

  ghost predicate FromApply(a: View, replies: Device -> Reply, todo: set<Device>, e: Event) {
    exists dev :: dev in a.wanted && dev !in todo && e in EventOf(a, replies, dev)
  }

  predicate FromReset(replies: Device -> Reply, done: set<Device>, e: Event) {
    e.IOLimitReset? && e.dev in done && !replies(e.dev).Reject?
  }

  function One(b: bool): nat { if b then 1 else 0 }

  /** Each event of the devices applied so far was told once, and nothing else. */
  ghost predicate ToldApplied(a: View, replies: Device -> Reply, todo: set<Device>, evs: seq<Event>) {
    forall e :: multiset(evs)[e] == One(FromApply(a, replies, todo, e))
  }

  /** Each reset not refused was told once more than in `start`, and nothing else. */
  ghost predicate ToldResets(start: seq<Event>, replies: Device -> Reply, done: set<Device>, evs: seq<Event>) {
    forall e :: multiset(evs)[e] == multiset(start)[e] + One(FromReset(replies, done, e))
  }

  /** The events of all wanted devices and of all owned devices no longer wanted, each once. */
  ghost predicate Told(a: View, replies: Device -> Reply, evs: seq<Event>) {
    var stale := a.devices.Keys - a.wanted.Keys;
    forall e :: multiset(evs)[e] == One(FromApply(a, replies, {}, e) || FromReset(replies, stale, e))
  }

  /** An event of the apply loop names its device, and there is at most one. */
  lemma EventNamesDevice(a: View, replies: Device -> Reply, dev: Device, e: Event)
    requires dev in a.wanted && e in EventOf(a, replies, dev)
    ensures EventOf(a, replies, dev) == [e]
    ensures !e.IOLimitReset? && !e.IOLimitSkipped? && !e.AllReleased? && e.dev == dev
  {}

  lemma OneMoreTold(a: View, replies: Device -> Reply, todo: set<Device>, evs: seq<Event>, dev: Device)
    requires ToldApplied(a, replies, todo, evs) && dev in todo && dev in a.wanted
    ensures ToldApplied(a, replies, todo - {dev}, evs + EventOf(a, replies, dev))
  {
    forall e
      ensures multiset(evs + EventOf(a, replies, dev))[e] == One(FromApply(a, replies, todo - {dev}, e))
    {
      TellsOnce(a, replies, todo, dev, e);
    }
  }

  lemma TellsOnce(a: View, replies: Device -> Reply, todo: set<Device>, dev: Device, e: Event)
    requires dev in todo && dev in a.wanted
    ensures One(FromApply(a, replies, todo - {dev}, e))
            == One(FromApply(a, replies, todo, e)) + multiset(EventOf(a, replies, dev))[e]
  {
    if e in EventOf(a, replies, dev) {
      EventNamesDevice(a, replies, dev, e);
      assert multiset([e])[e] == 1;
      assert dev !in todo - {dev};
      if d :| d in a.wanted && d !in todo && e in EventOf(a, replies, d) {
        EventNamesDevice(a, replies, d, e);
        assert false;
      }
    } else {
      if d :| d in a.wanted && d !in todo - {dev} && e in EventOf(a, replies, d) {
        assert d != dev && d !in todo;
      }
      if d :| d in a.wanted && d !in todo && e in EventOf(a, replies, d) {
        assert d !in todo - {dev};
      }
    }
  }

  lemma OneMoreReset(start: seq<Event>, replies: Device -> Reply, done: set<Device>, evs: seq<Event>, dev: Device)
    requires ToldResets(start, replies, done, evs) && dev !in done
    ensures ToldResets(start, replies, done + {dev}, evs + if replies(dev).Reject? then [] else [IOLimitReset(dev)])
  {
    if replies(dev).Reject? {
      assert evs + [] == evs;
    }
  }

  lemma AllTold(a: View, replies: Device -> Reply, applied: seq<Event>, evs: seq<Event>)
    requires ToldApplied(a, replies, {}, applied)
    requires ToldResets(applied, replies, a.devices.Keys - a.wanted.Keys, evs)
    ensures Told(a, replies, evs)
  {
    var stale := a.devices.Keys - a.wanted.Keys;
    forall e
      ensures multiset(evs)[e] == One(FromApply(a, replies, {}, e) || FromReset(replies, stale, e))
    {
      if dev :| dev in a.wanted && e in EventOf(a, replies, dev) {
        EventNamesDevice(a, replies, dev, e);
      }
    }
  }

  /** The events of the skipped volumes in order, then those of the devices, each once. */
  ghost predicate Emitted(before: seq<Event>, a: View, replies: Device -> Reply, after: seq<Event>) {
    EmittedAfter(before, SkipEvents(a.host, a.spec, a.report.volumes), a, replies, after)
  }

  ghost predicate EmittedAfter(before: seq<Event>, skipEvents: seq<Event>, a: View, replies: Device -> Reply,
                               after: seq<Event>)
  {
    exists told :: after == before + (skipEvents + told) && Told(a, replies, told)
  }

  /** What the apply loop has built up. */
  datatype Acc = Acc(kernel: map<Device, Rule>, final: map<Device, Owned>, outcomes: map<string, VolumeStatus>,
                     events: seq<Event>, writes: nat)

  /** The result is settled except for the devices in `todo`. */
  ghost predicate Progress(a: View, replies: Device -> Reply, todo: set<Device>, acc: Acc) {
    && LinesDone(a, replies, todo, acc.kernel)
    && OwnedDone(a, replies, todo, WithIntent(RulesOf(a.wanted), a.devices), acc.final)
    && VolumesDone(a, replies, todo, acc.outcomes)
    && (acc.events == [] <==> SilentSoFar(a, replies, todo))
    && (acc.writes == 0 <==> LinesHeld(a, todo))
    && ToldApplied(a, replies, todo, acc.events)
  }

  function AfterDevice(a: View, reply: Reply, acc: Acc, dev: Device, mounts: map<string, string>): Acc
    requires dev in a.wanted && a.wanted[dev].volumes <= mounts.Keys
  {
    var g := a.wanted[dev];
    var line := Look(a.kernel, dev);
    var (state, reason) := DeviceOutcome(line, g, reply);
    Acc(if line == Some(g.rule) then acc.kernel else SetLine(acc.kernel, dev, WriteLine(line, g.rule, reply)),
        if state == Applied then acc.final[dev := Owned(g.rule, true)] else acc.final,
        acc.outcomes + map n | n in g.volumes :: VolumeStatus(Some(dev), mounts[n], state, reason),
        acc.events + ApplyEvent(dev, line, g, Look(a.devices, dev), reply, a.report.volumes),
        acc.writes + if line == Some(g.rule) then 0 else 1)
  }

  lemma ApplyProgress(a: View, replies: Device -> Reply, todo: set<Device>, acc: Acc, dev: Device,
                      mounts: map<string, string>)
    requires a.Grouped() && UniqueNames(a.spec) && dev in todo && todo <= a.wanted.Keys
    requires forall v | v in a.spec :: v.name in mounts && mounts[v.name] == a.host.resolve(v.dir).mount
    requires a.wanted[dev].volumes <= mounts.Keys
    requires Progress(a, replies, todo, acc)
    ensures Progress(a, replies, todo - {dev}, AfterDevice(a, replies(dev), acc, dev, mounts))
  {
    FinishDevice(a, replies, todo, acc.outcomes, dev, mounts);
    LineProgress(a, replies, todo, acc.kernel, dev);
    OwnedProgress(a, replies, todo, acc.final, dev);
    QuietProgress(a, replies, todo, dev);
    OneMoreTold(a, replies, todo, acc.events, dev);
  }

  lemma QuietProgress(a: View, replies: Device -> Reply, todo: set<Device>, dev: Device)
    requires dev in todo && todo <= a.wanted.Keys
    ensures SilentSoFar(a, replies, todo - {dev}) <==>
              SilentSoFar(a, replies, todo) &&
              ApplyEvent(dev, Look(a.kernel, dev), a.wanted[dev], Look(a.devices, dev), replies(dev),
                         a.report.volumes) == []
    ensures LinesHeld(a, todo - {dev}) <==> LinesHeld(a, todo) && Look(a.kernel, dev) == a.Want(dev)
  {}

  lemma LineProgress(a: View, replies: Device -> Reply, todo: set<Device>, kernel: map<Device, Rule>, dev: Device)
    requires dev in todo && todo <= a.wanted.Keys && LinesDone(a, replies, todo, kernel)
    ensures LinesDone(a, replies, todo - {dev},
              if Look(a.kernel, dev) == a.Want(dev) then kernel
              else SetLine(kernel, dev, WriteLine(Look(a.kernel, dev), a.wanted[dev].rule, replies(dev))))
  {}

  lemma OwnedProgress(a: View, replies: Device -> Reply, todo: set<Device>, final: map<Device, Owned>, dev: Device)
    requires dev in todo && todo <= a.wanted.Keys
    requires OwnedDone(a, replies, todo, WithIntent(RulesOf(a.wanted), a.devices), final)
    ensures OwnedDone(a, replies, todo - {dev}, WithIntent(RulesOf(a.wanted), a.devices),
              if DeviceOutcome(Look(a.kernel, dev), a.wanted[dev], replies(dev)).0 == Applied
              then final[dev := Owned(a.wanted[dev].rule, true)] else final)
  {
    var rule := a.wanted[dev].rule;
    assert Look(WithIntent(RulesOf(a.wanted), a.devices), dev)
        == if dev in a.devices && a.devices[dev].rule == rule then Look(a.devices, dev) else Some(Owned(rule, false));
  }

  lemma GroupNames(a: View, dev: Device, mounts: map<string, string>)
    requires a.Grouped() && dev in a.wanted && forall v | v in a.spec :: v.name in mounts
    ensures a.wanted[dev].volumes <= mounts.Keys
  {
    GroupMembers(a.host, a.spec, dev);
  }

  /**
   After the reset loop handled `done`: a device that was reset has no line and no entry, the rest is as in
   `start`.
   */
  ghost predicate ResetProgress(start: Acc, replies: Device -> Reply, done: set<Device>, acc: Acc) {
    && (forall dev ::
          Look(acc.kernel, dev) == if dev in done && !replies(dev).Reject? then None else Look(start.kernel, dev))
    && (forall dev ::
          Look(acc.final, dev) == if dev in done && !replies(dev).Reject? then None else Look(start.final, dev))
    && acc.outcomes == start.outcomes
    && |start.events| <= |acc.events|
    && (|acc.events| == |start.events| <==> forall dev | dev in done :: replies(dev).Reject?)
    && ToldResets(start.events, replies, done, acc.events)
    && start.writes <= acc.writes && (acc.writes == start.writes <==> done == {})
  }

  function AfterReset(acc: Acc, dev: Device, reply: Reply): Acc {
    if reply.Reject? then acc.(writes := acc.writes + 1)
    else Acc(acc.kernel - {dev}, acc.final - {dev}, acc.outcomes, acc.events + [IOLimitReset(dev)], acc.writes + 1)
  }

  lemma ResetStep(start: Acc, replies: Device -> Reply, done: set<Device>, acc: Acc, dev: Device)
    requires ResetProgress(start, replies, done, acc) && dev !in done
    ensures ResetProgress(start, replies, done + {dev}, AfterReset(acc, dev, replies(dev)))
  {
    assert dev in done + {dev};
    OneMoreReset(start.events, replies, done, acc.events, dev);
    if replies(dev).Reject? {
      assert acc.events + [] == acc.events;
    }
  }

  /** The two loops together leave what a reconcile of `a` must leave. */
  lemma LoopsReconcile(a: View, replies: Device -> Reply, applied: Acc, acc: Acc)
    requires Progress(a, replies, {}, applied)
    requires ResetProgress(applied, replies, a.devices.Keys - a.wanted.Keys, acc)
    ensures Reconciled(a, replies, Saved(a, acc))
  {
    var b := Saved(a, acc);
    forall dev
      ensures Look(b.kernel, dev) == LineAfter(Look(a.kernel, dev), a.Want(dev), dev in a.devices, replies(dev))
    {
      assert Look(applied.kernel, dev)
          == if dev in a.wanted then LineAfter(Look(a.kernel, dev), a.Want(dev), true, replies(dev))
             else Look(a.kernel, dev);
    }
    forall dev
      ensures Look(b.devices, dev) == OwnedAfter(Look(a.kernel, dev), a.Want(dev), Look(a.devices, dev), replies(dev))
    {
      LoopsOwn(a, replies, applied, acc, dev);
    }
  }

  function Saved(a: View, acc: Acc): View {
    a.(kernel := acc.kernel, devices := acc.final,
       report := Report(a.generation, acc.outcomes, Reported(Ready(acc.outcomes))))
  }

  lemma LoopsOwn(a: View, replies: Device -> Reply, applied: Acc, acc: Acc, dev: Device)
    requires OwnedDone(a, replies, {}, WithIntent(RulesOf(a.wanted), a.devices), applied.final)
    requires ResetProgress(applied, replies, a.devices.Keys - a.wanted.Keys, acc)
    ensures Look(acc.final, dev) == OwnedAfter(Look(a.kernel, dev), a.Want(dev), Look(a.devices, dev), replies(dev))
  {
    if dev !in a.wanted {
      assert Look(WithIntent(RulesOf(a.wanted), a.devices), dev) == Look(a.devices, dev);
    }
  }

  lemma LoopsWrite(a: View, applied: Acc, acc: Acc)
    requires applied.writes == 0 <==> LinesHeld(a, {})
    requires applied.writes <= acc.writes && (acc.writes == applied.writes <==> a.devices.Keys - a.wanted.Keys == {})
    ensures acc.writes == 0 <==> !MustWriteKernel(a)
  {
    var stale := a.devices.Keys - a.wanted.Keys;
    if stale != {} {
      var dev :| dev in stale;
      assert dev in a.devices && dev !in a.wanted;
    } else {
      assert forall dev :: dev in a.devices && dev !in a.wanted ==> dev in stale;
    }
  }

  lemma LoopsNotify(a: View, replies: Device -> Reply, applied: Acc, acc: Acc)
    requires applied.events == [] <==> SilentSoFar(a, replies, {})
    requires |applied.events| <= |acc.events|
    requires |acc.events| == |applied.events|
             <==> forall dev | dev in a.devices.Keys - a.wanted.Keys :: replies(dev).Reject?
    ensures (acc.events == [] && SkipEvents(a.host, a.spec, a.report.volumes) == []) <==> Silent(a, replies)
  {
    SkipEventsQuiet(a.host, a.spec, a.report.volumes);
  }

  lemma StartProgress(a: View, replies: Device -> Reply, mounts: map<string, string>, start: Acc)
    requires a.Grouped() && UniqueNames(a.spec) && mounts == Mounts(a.host, a.spec)
    requires start == Acc(a.kernel, WithIntent(RulesOf(a.wanted), a.devices), SkippedVolumes(a.host, a.spec), [], 0)
    ensures Progress(a, replies, a.wanted.Keys, start)
    ensures forall v | v in a.spec :: v.name in mounts && mounts[v.name] == a.host.resolve(v.dir).mount
  {
    MountsOf(a.host, a.spec);
    SkippedDone(a, replies);
  }

  /** What the two loops achieve, put together. */
  lemma LoopsDone(a: View, replies: Device -> Reply, applied: Acc, skipEvents: seq<Event>, acc: Acc)
    requires Progress(a, replies, {}, applied)
    requires ResetProgress(applied, replies, a.devices.Keys - a.wanted.Keys, acc)
    requires skipEvents == SkipEvents(a.host, a.spec, a.report.volumes)
    ensures Reconciled(a, replies, Saved(a, acc))
    ensures acc.writes == 0 <==> !MustWriteKernel(a)
    ensures |skipEvents + acc.events| == 0 <==> Silent(a, replies)
    ensures Told(a, replies, acc.events)
  {
    LoopsReconcile(a, replies, applied, acc);
    LoopsWrite(a, applied, acc);
    LoopsNotify(a, replies, applied, acc);
    AllTold(a, replies, applied.events, acc.events);
  }

  lemma NoIntent(rules: map<Device, Rule>, owned: map<Device, Owned>)
    ensures Changed(rules, owned) == {} ==> WithIntent(rules, owned) == owned
  {}

  // ---------- resolving the volumes ----------

  function Mounts(host: Host, spec: Spec): map<string, string> {
    if spec == [] then map[] else
      var v := spec[|spec|-1];
      Mounts(host, spec[..|spec|-1])[v.name := host.resolve(v.dir).mount]
  }

  function SkippedVolumes(host: Host, spec: Spec): map<string, VolumeStatus> {
    if spec == [] then map[] else
      var v := spec[|spec|-1];
      var rest := SkippedVolumes(host, spec[..|spec|-1]);
      match host.resolve(v.dir)
      case OnDevice(_, _) => rest
      case Skipped(shown, mount, retry, reason) => rest[v.name := VolumeStatus(shown, mount, SkipState(retry), reason)]
  }

  function SkipEvents(host: Host, spec: Spec, prev: map<string, VolumeStatus>): seq<Event> {
    if spec == [] then [] else
      SkipEvents(host, spec[..|spec|-1], prev) + SkipEvent(host, spec[|spec|-1], prev)
  }

  lemma {:induction false} SkipEventsQuiet(host: Host, spec: Spec, prev: map<string, VolumeStatus>)
    ensures SkipEvents(host, spec, prev) == [] <==> forall v | v in spec :: SkipEvent(host, v, prev) == []
  {
    if spec != [] {
      SkipEventsQuiet(host, spec[..|spec|-1], prev);
      assert spec == spec[..|spec|-1] + [spec[|spec|-1]];
    }
  }

  lemma {:induction false} MountsOf(host: Host, spec: Spec)
    requires UniqueNames(spec)
    ensures Mounts(host, spec).Keys == set v | v in spec :: v.name
    ensures forall v | v in spec ::
              v.name in Mounts(host, spec) && Mounts(host, spec)[v.name] == host.resolve(v.dir).mount
  {
    if spec != [] {
      var init, last := spec[..|spec|-1], spec[|spec|-1];
      MountsOf(host, init);
      assert spec == init + [last];
      assert last in spec;
    }
  }

  lemma {:induction false} SkippedOf(host: Host, spec: Spec)
    requires UniqueNames(spec)
    ensures forall n | n in SkippedVolumes(host, spec) :: exists v :: v in spec && v.name == n
    ensures forall v | v in spec && host.resolve(v.dir).Skipped? ::
              var r := host.resolve(v.dir);
              Look(SkippedVolumes(host, spec), v.name)
              == Some(VolumeStatus(r.shown, r.mount, SkipState(r.retry), r.reason))
  {
    if spec != [] {
      var init, last := spec[..|spec|-1], spec[|spec|-1];
      SkippedOf(host, init);
      assert spec == init + [last];
      assert last in spec;
    }
  }

  /** Before the apply loop exactly the skipped volumes have their outcome. */
  lemma SkippedDone(a: View, replies: Device -> Reply)
    requires a.Grouped() && UniqueNames(a.spec)
    ensures VolumesDone(a, replies, a.wanted.Keys, SkippedVolumes(a.host, a.spec))
  {
    SkippedOf(a.host, a.spec);
    forall v | v in a.spec && (a.host.resolve(v.dir).OnDevice? ==> a.host.resolve(v.dir).device !in a.wanted)
      ensures a.host.resolve(v.dir).Skipped?
    {
      if a.host.resolve(v.dir).OnDevice? {
        GroupMembers(a.host, a.spec, a.host.resolve(v.dir).device);
      }
    }
  }

  // ---------- one device, and the volumes without one ----------

  /**
   Bring one device to its rule, unless the kernel was read to have it already, and say how that went. `read` is the
   device's line as parsed before the loop, `line` the one there now; `line'` is what is left.
   */
  method ApplyDevice(dev: Device, g: Group, read: Option<Rule>, line: Option<Rule>, before: Option<Owned>, reply: Reply,
                     mounts: map<string, string>, prev: map<string, VolumeStatus>,
                     final: map<Device, Owned>, outcomes: map<string, VolumeStatus>, evs: seq<Event>)
    returns (line': Option<Rule>, wrote: bool,
             final': map<Device, Owned>, outcomes': map<string, VolumeStatus>, evs': seq<Event>)
    requires g.volumes <= mounts.Keys
    ensures wrote <==> read != Some(g.rule)
    ensures line' == if wrote then WriteLine(line, g.rule, reply) else line
    ensures var (state, reason) := DeviceOutcome(read, g, reply);
            && final' == (if state == Applied then final[dev := Owned(g.rule, true)] else final)
            && outcomes' == outcomes + map n | n in g.volumes :: VolumeStatus(Some(dev), mounts[n], state, reason)
    ensures evs' == evs + ApplyEvent(dev, read, g, before, reply, prev)
  {
    var wasApplied := before == Some(Owned(g.rule, true));
    var shared := if |g.volumes| > 1 then SHARED_DEVICE else "";
    line', wrote, final', evs' := line, false, final, evs;
    var state, reason := Failed, KERNEL_REJECTED;
    if read == Some(g.rule) {
      final' := final[dev := Owned(g.rule, true)];
      state, reason := Applied, shared;
      if !wasApplied {
        evs' := evs + [if before.Some? then IOLimitUpdated(dev) else IOLimitApplied(dev)];
      }
    } else {
      line', wrote := WriteLine(line, g.rule, reply), true;
      if reply.Reject? {
        if !Repeated(prev, g.volumes, reason) {
          evs' := evs + [IOLimitFailed(dev, reason)];
        }
      } else if line' != Some(g.rule) {
        reason := KERNEL_MISMATCH;
        if !Repeated(prev, g.volumes, reason) {
          evs' := evs + [IOLimitFailed(dev, reason)];
        }
      } else {
        final' := final[dev := Owned(g.rule, true)];
        state, reason := Applied, shared;
        evs' := evs + [if wasApplied then IOLimitDriftCorrected(dev)
                       else if before.Some? then IOLimitUpdated(dev) else IOLimitApplied(dev)];
      }
    }
    outcomes' := outcomes + map n | n in g.volumes :: VolumeStatus(Some(dev), mounts[n], state, reason);
  }

  /** Reset one owned device; a failed reset keeps the line and the ownership. */
  method ResetDevice(dev: Device, line: Option<Rule>, reply: Reply, final: map<Device, Owned>, evs: seq<Event>)
    returns (line': Option<Rule>, final': map<Device, Owned>, evs': seq<Event>)
    ensures line' == if reply.Reject? then line else None
    ensures final' == if reply.Reject? then final else final - {dev}
    ensures evs' == if reply.Reject? then evs else evs + [IOLimitReset(dev)]
  {
    line', final', evs' := line, final, evs;
    if !reply.Reject? {
      line', final' := None, final - {dev};
      evs' := evs + [IOLimitReset(dev)];
    }
  }

  /** Resolve every volume: mount devices, outcomes of the skipped ones, and the events those are worth. */
  method ResolveAll(host: Host, spec: Spec, prev: map<string, VolumeStatus>)
    returns (mounts: map<string, string>, outcomes: map<string, VolumeStatus>, evs: seq<Event>)
    ensures mounts == Mounts(host, spec)
    ensures outcomes == SkippedVolumes(host, spec)
    ensures evs == SkipEvents(host, spec, prev)
  {
    mounts, outcomes, evs := map[], map[], [];
    for i := 0 to |spec|
      invariant mounts == Mounts(host, spec[..i])
      invariant outcomes == SkippedVolumes(host, spec[..i])
      invariant evs == SkipEvents(host, spec[..i], prev)
    {
      var v := spec[i];
      assert spec[..i+1][..i] == spec[..i];
      var r := host.resolve(v.dir);
      mounts := mounts[v.name := r.mount];
      if r.Skipped? {
        outcomes := outcomes[v.name := VolumeStatus(r.shown, r.mount, SkipState(r.retry), r.reason)];
      }
      evs := evs + SkipEvent(host, v, prev);
    }
    assert spec[..|spec|] == spec;
  }

  /** The agent while nobody else moves: here one reconcile settles the object. */
  class QuietAgent {
    const host: Host
    var spec: Spec
    var generation: nat
    var deleting: bool
    var devices: map<Device, Owned>   // persisted status.devices
    var report: Report                // the rest of the persisted status
    var kernel: map<Device, Rule>     // io.max of the pod's cgroup
    var kernelWrites: nat
    var statusWrites: nat
    var events: seq<Event>
    ghost var trail: seq<State>

    ghost function Now(): State
      requires trail != []
      reads this`trail
    {
      trail[|trail|-1]
    }

    ghost predicate Valid()
      reads this`spec, this`generation, this`deleting, this`devices, this`report, this`kernel, this`trail
    {
      && IsTrail(trail) && Shaped(Now())
      && Now().host == host && Now().kernel == kernel
      && Now().Last() == Present(spec, generation, deleting, true, devices, report)
    }

    ghost function Read(): View
      reads this`spec, this`generation, this`devices, this`report, this`kernel
    {
      View(host, spec, generation, Groups(host, spec), kernel, devices, report)
    }

    /** The API object and the kernel as some state of the protocol has them, with the agent idle. */
    constructor (s: State, ghost before: seq<State>)
      requires IsTrail(before + [s]) && Shaped(s) && s.Last().Present? && s.Last().finalizer && s.agent.AIdle?
      ensures Valid() && trail == before + [s] && events == [] && kernelWrites == statusWrites == 0
    {
      host := s.host;
      var o := s.Last();
      spec, generation, deleting, devices, report := o.spec, o.generation, o.deleting, o.devices, o.report;
      kernel, kernelWrites, statusWrites, events := s.kernel, 0, 0, [];
      trail := before + [s];
    }

    ghost method Take(step: Step, t: State)
      requires IsTrail(trail) && Shaped(Now()) && NextAgent(Now(), step, t)
      modifies this`trail
      ensures trail == old(trail) + [t] && IsTrail(trail) && Now() == t && Shaped(t)
    {
      Extend(trail, step, t);
      trail := trail + [t];
    }

    /** Persist every new or changed device as Pending before the kernel is touched. */
    method RecordDeviceIntent(desired: map<Device, Rule>)
      requires Valid() && !deleting && desired == Desired(host, spec)
      requires Now().agent.ALoaded? && Now().Current(Now().agent.idx)
      modifies this`devices, this`statusWrites, this`trail
      ensures Valid() && Continues(old(trail), trail)
      ensures devices == WithIntent(desired, old(devices))
      ensures Now().agent.AIntended? && Now().agent.idx == old(Now().agent.idx) && Now().Current(Now().agent.base)
      ensures Now().hist[Now().agent.idx] == old(Now().Last()) && Now().agent.final == devices
      ensures statusWrites == old(statusWrites) + if Changed(desired, old(devices)) == {} then 0 else 1
    {
      if Changed(desired, devices) == {} {
        NoIntent(desired, devices);
        ghost var s := Now();
        Take(AgentIntentSkip, s.(agent := AIntended(s.agent.idx, s.agent.idx, devices)));
      } else {
        CommitIntent(desired);
      }
    }

    method CommitIntent(desired: map<Device, Rule>)
      requires Valid() && !deleting && desired == Desired(host, spec) && Changed(desired, devices) != {}
      requires Now().agent.ALoaded? && Now().Current(Now().agent.idx)
      modifies this`devices, this`statusWrites, this`trail
      ensures Valid() && Continues(old(trail), trail)
      ensures devices == WithIntent(desired, old(devices)) && statusWrites == old(statusWrites) + 1
      ensures Now().agent.AIntended? && Now().agent.idx == old(Now().agent.idx) && Now().Current(Now().agent.base)
      ensures Now().hist[Now().agent.idx] == old(Now().Last()) && Now().agent.final == devices
    {
      ghost var s := Now();
      devices := WithIntent(desired, devices);
      statusWrites := statusWrites + 1;
      Take(AgentIntentCommit,
           s.Commit(s.Last().(devices := devices)).(agentWrote := |s.hist|,
                                                    agent := AIntended(s.agent.idx, |s.hist|, devices)));
    }

    /** ApplyDevice on the kernel's line of the device. */
    method ApplyLine(ghost a: View, dev: Device, g: Group, before: Option<Owned>, reply: Reply,
                     mounts: map<string, string>, prev: map<string, VolumeStatus>, acc: Acc)
      returns (acc': Acc)
      requires Look(a.wanted, dev) == Some(g) && Look(a.kernel, dev) == Look(kernel, dev) && acc.kernel == kernel
      requires Look(a.devices, dev) == before && a.report.volumes == prev && g.volumes <= mounts.Keys
      modifies this`kernel, this`kernelWrites
      ensures acc' == AfterDevice(a, reply, acc, dev, mounts) && acc'.kernel == kernel
      ensures kernelWrites == old(kernelWrites) + acc'.writes - acc.writes
    {
      var line := Look(kernel, dev);
      var line', wrote, final, outcomes, evs :=
        ApplyDevice(dev, g, line, line, before, reply, mounts, prev, acc.final, acc.outcomes, acc.events);
      if wrote {
        kernel, kernelWrites := SetLine(kernel, dev, line'), kernelWrites + 1;
      }
      acc' := Acc(kernel, final, outcomes, evs, acc.writes + if wrote then 1 else 0);
    }

    /** ApplyDevice, taken as one step of the protocol. */
    method ApplyOne(ghost a: View, dev: Device, g: Group, ghost view: map<Device, Rule>, before: Option<Owned>,
                    reply: Reply, mounts: map<string, string>, prev: map<string, VolumeStatus>, acc: Acc)
      returns (acc': Acc)
      requires Valid() && Now().agent.AApplying? && dev in Now().agent.todo
      requires Now().agent.view == view && Now().agent.final == acc.final
      requires a.host == host && a.Grouped() && a.spec == Now().hist[Now().agent.idx].spec
      requires Look(a.wanted, dev) == Some(g) && Look(a.kernel, dev) == Look(view, dev) == Look(kernel, dev)
      requires Look(a.devices, dev) == before && a.report.volumes == prev
      requires g.volumes <= mounts.Keys && acc.kernel == kernel
      modifies this`kernel, this`kernelWrites, this`trail
      ensures Valid() && Continues(old(trail), trail)
      ensures Now() == old(Now()).(kernel := kernel, written := Now().written,
                agent := AApplying(old(Now().agent.idx), old(Now().agent.base), view, old(Now().agent.todo) - {dev},
                                   acc'.final))
      ensures acc' == AfterDevice(a, reply, acc, dev, mounts) && acc'.kernel == kernel
      ensures kernelWrites == old(kernelWrites) + acc'.writes - acc.writes
    {
      ghost var s := Now();
      acc' := ApplyLine(a, dev, g, before, reply, mounts, prev, acc);
      WantedRule(a, s, dev, g);
      ApplyIsStep(s, dev, g, reply, acc'.final);
      Take(AgentApply(dev, reply), AfterApply(s, dev, g.rule, reply, acc'.final));
    }

    /** The apply loop: every wanted device, in any order. */
    method ApplyAll(ghost a: View, groups: map<Device, Group>, view: map<Device, Rule>, owned: map<Device, Owned>,
                    replies: Device -> Reply,
                    mounts: map<string, string>, prev: map<string, VolumeStatus>, start: Acc)
      returns (acc: Acc)
      requires Valid() && Now().agent.AApplying? && Now().agent.view == view && Now().agent.todo == groups.Keys
      requires Now().agent.final == start.final
      requires a.host == host && a.Grouped() && a.wanted == groups && a.kernel == view && a.devices == owned
      requires a.report.volumes == prev
      requires Now().hist[Now().agent.idx].spec == a.spec && UniqueNames(a.spec)
      requires forall v | v in a.spec :: v.name in mounts && mounts[v.name] == a.host.resolve(v.dir).mount
      requires Progress(a, replies, groups.Keys, start) && start.kernel == kernel && start.writes == 0
      modifies this`kernel, this`kernelWrites, this`trail
      ensures Valid() && Continues(old(trail), trail)
      ensures Now() == old(Now()).(kernel := kernel, written := Now().written,
                agent := AApplying(old(Now().agent.idx), old(Now().agent.base), view, {}, acc.final))
      ensures Progress(a, replies, {}, acc) && acc.kernel == kernel
      ensures kernelWrites == old(kernelWrites) + acc.writes
    {
      acc := start;
      var todo := groups.Keys;
      while todo != {}
        invariant todo <= groups.Keys
        invariant Valid() && Continues(old(trail), trail)
        invariant Now() == old(Now()).(kernel := kernel, written := Now().written,
                    agent := AApplying(old(Now().agent.idx), old(Now().agent.base), view, todo, acc.final))
        invariant kernelWrites == old(kernelWrites) + acc.writes && acc.kernel == kernel
        invariant Progress(a, replies, todo, acc)
      {
        var dev :| dev in todo;
        GroupNames(a, dev, mounts);
        ApplyProgress(a, replies, todo, acc, dev, mounts);
        acc := ApplyOne(a, dev, groups[dev], view, Look(owned, dev), replies(dev), mounts, prev, acc);
        todo := todo - {dev};
      }
    }

    /** The reset loop: every owned device that is not in `keep`, in any order. */
    method ResetAll(owned: map<Device, Owned>, keep: set<Device>, replies: Device -> Reply, start: Acc)
      returns (acc: Acc)
      requires Valid() && Now().agent.AResetting? && Now().agent.todo == owned.Keys - keep
      requires Now().agent.final == start.final
      requires start.kernel == kernel
      modifies this`kernel, this`kernelWrites, this`trail
      ensures Valid() && Continues(old(trail), trail)
      ensures Now() == old(Now()).(kernel := kernel, written := Now().written,
                agent := AResetting(old(Now().agent.idx), old(Now().agent.base), {}, acc.final))
      ensures ResetProgress(start, replies, owned.Keys - keep, acc) && acc.kernel == kernel
      ensures kernelWrites == old(kernelWrites) + acc.writes - start.writes
    {
      acc := start;
      var todo := owned.Keys - keep;
      while todo != {}
        invariant todo <= owned.Keys - keep
        invariant Valid() && Continues(old(trail), trail)
        invariant Now() == old(Now()).(kernel := kernel, written := Now().written,
                    agent := AResetting(old(Now().agent.idx), old(Now().agent.base), todo, acc.final))
        invariant kernelWrites == old(kernelWrites) + acc.writes - start.writes && acc.kernel == kernel
        invariant ResetProgress(start, replies, owned.Keys - keep - todo, acc)
      {
        var dev :| dev in todo;
        assert owned.Keys - keep - (todo - {dev}) == (owned.Keys - keep - todo) + {dev};
        ResetStep(start, replies, owned.Keys - keep - todo, acc, dev);
        acc := ResetOne(dev, replies(dev), acc);
        todo := todo - {dev};
      }
      assert owned.Keys - keep - todo == owned.Keys - keep;
    }

    /** ResetDevice, taken as one step of the protocol. */
    method ResetOne(dev: Device, reply: Reply, acc: Acc) returns (acc': Acc)
      requires Valid() && Now().agent.AResetting? && dev in Now().agent.todo && Now().agent.final == acc.final
      requires acc.kernel == kernel
      modifies this`kernel, this`kernelWrites, this`trail
      ensures Valid() && Continues(old(trail), trail)
      ensures Now() == old(Now()).(kernel := kernel, written := Now().written,
                agent := AResetting(old(Now().agent.idx), old(Now().agent.base), old(Now().agent.todo) - {dev},
                                    acc'.final))
      ensures acc' == AfterReset(acc, dev, reply) && acc'.kernel == kernel
      ensures kernelWrites == old(kernelWrites) + 1
    {
      ghost var s := Now();
      acc' := ResetLine(dev, reply, acc);
      ResetIsStep(s, dev, reply);
      Take(AgentReset(dev, !reply.Reject?), AfterResetStep(s, dev, reply));
    }

    /** ResetDevice on the kernel's line of the device. */
    method ResetLine(dev: Device, reply: Reply, acc: Acc) returns (acc': Acc)
      requires acc.kernel == kernel
      modifies this`kernel, this`kernelWrites
      ensures acc' == AfterReset(acc, dev, reply) && acc'.kernel == kernel
      ensures kernelWrites == old(kernelWrites) + 1
    {
      var line, final, evs := ResetDevice(dev, Look(kernel, dev), reply, acc.final, acc.events);
      kernelWrites := kernelWrites + 1;
      if !reply.Reject? {
        kernel := SetLine(kernel, dev, line);
      }
      acc' := Acc(kernel, final, acc.outcomes, evs, acc.writes + 1);
    }

    /** Read the object, record the intent, read the kernel: the agent is then about to apply every wanted device. */
    method BeginApply(groups: map<Device, Group>)
      requires Valid() && Now().agent.AIdle? && !deleting && groups == Groups(host, spec)
      modifies this`devices, this`statusWrites, this`trail
      ensures Valid() && Continues(old(trail), trail)
      ensures devices == WithIntent(RulesOf(groups), old(devices))
      ensures Now().agent.AApplying? && Now().Current(Now().agent.base) && Now().agent.view == kernel
      ensures Now().agent.todo == groups.Keys && Now().agent.final == devices
      ensures Now().hist[Now().agent.idx].devices == old(devices) && Now().hist[Now().agent.idx].spec == spec
      ensures statusWrites == old(statusWrites) + if Changed(RulesOf(groups), old(devices)) == {} then 0 else 1
    {
      ghost var s := Now();
      ghost var n := |s.hist| - 1;
      Take(AgentRead(n), s.(agentSeen := n, agent := ALoaded(n)));
      RecordDeviceIntent(RulesOf(groups));
      ghost var t := Now();
      assert DesiredAt(t, t.agent.idx) == RulesOf(groups);
      Take(AgentKernelRead,
           t.(agent := AApplying(t.agent.idx, t.agent.base, kernel, DesiredAt(t, t.agent.idx).Keys, devices)));
    }

    ghost method Decide(newReport: Report)
      requires Valid() && Now().agent.AResetting? && Now().agent.todo == {} && Now().Current(Now().agent.base)
      modifies this`trail
      ensures Valid() && Continues(old(trail), trail)
      ensures Now() == old(Now()).(agent := ASaving(|Now().hist| - 1, old(Now().agent.final), newReport))
    {
      var s := Now();
      Take(AgentDecide(newReport), s.(agent := ASaving(|s.hist| - 1, s.agent.final, newReport)));
    }

    /** Write the status unless nothing in it changed. */
    method SaveStatus(final: map<Device, Owned>, newReport: Report)
      requires Valid() && Now().agent.AResetting? && Now().agent.todo == {} && Now().agent.final == final
      requires Now().Current(Now().agent.base)
      modifies this`devices, this`report, this`statusWrites, this`trail
      ensures Valid() && Continues(old(trail), trail) && Now().agent.AIdle?
      ensures devices == final && report == newReport
      ensures statusWrites == old(statusWrites) + if old(devices) == final && old(report) == newReport then 0 else 1
      ensures Now().pod == old(Now().pod) && Now().written == old(Now().written)
    {
      Decide(newReport);
      if devices == final && report == newReport {
        ghost var s := Now();
        Take(AgentSave(|s.hist| - 1), s.(agentSeen := |s.hist| - 1, agent := AIdle));
      } else {
        UpdateStatus(final, newReport);
      }
    }

    method UpdateStatus(final: map<Device, Owned>, newReport: Report)
      requires Valid() && Now().agent == ASaving(|Now().hist| - 1, final, newReport)
      requires devices != final || report != newReport
      modifies this`devices, this`report, this`statusWrites, this`trail
      ensures Valid() && Continues(old(trail), trail) && Now().agent.AIdle?
      ensures devices == final && report == newReport && statusWrites == old(statusWrites) + 1
      ensures Now().pod == old(Now().pod) && Now().written == old(Now().written)
    {
      ghost var s := Now();
      ghost var n := |s.hist|;
      devices, report := final, newReport;
      statusWrites := statusWrites + 1;
      ghost var idle := s.(agentSeen := n - 1, agent := AIdle);
      Take(AgentSave(n - 1), idle.Commit(s.Last().(devices := final, report := newReport)).(agentWrote := n));
    }

    /** Every wanted device is done: what the object owned and no longer wants comes next. */
    ghost method BeginResets(wanted: set<Device>)
      requires Valid() && Now().agent.AApplying? && Now().agent.todo == {}
      requires DesiredAt(Now(), Now().agent.idx).Keys == wanted
      modifies this`trail
      ensures Valid() && Continues(old(trail), trail)
      ensures var s, a := old(Now()), old(Now().agent);
              Now() == s.(agent := AResetting(a.idx, a.base, s.hist[a.idx].devices.Keys - wanted, a.final))
    {
      var s := Now();
      var todo := s.hist[s.agent.idx].devices.Keys - wanted;
      Take(AgentStartResets, s.(agent := AResetting(s.agent.idx, s.agent.base, todo, s.agent.final)));
    }

    /** Reset what is no longer wanted, write the status and emit the events. */
    method Finish(ghost a: View, groups: map<Device, Group>, owned: map<Device, Owned>, replies: Device -> Reply,
                  applied: Acc, skipEvents: seq<Event>)
      returns (acc: Acc)
      requires Valid() && Now().agent.AApplying? && Now().agent.todo == {} && Now().agent.final == applied.final
      requires Now().Current(Now().agent.base) && Now().hist[Now().agent.idx].devices == owned
      requires Now().hist[Now().agent.idx].spec == spec
      requires a.host == host && a.spec == spec && a.generation == generation && a.Grouped()
      requires a.wanted == groups && a.devices == owned
      requires applied.kernel == kernel
      modifies this`kernel, this`kernelWrites, this`devices, this`report, this`statusWrites, this`events, this`trail
      ensures Valid() && Continues(old(trail), trail) && Now().agent.AIdle?
      ensures ResetProgress(applied, replies, owned.Keys - groups.Keys, acc)
      ensures Read() == Saved(a, acc)
      ensures events == old(events) + (skipEvents + acc.events)
      ensures kernelWrites == old(kernelWrites) + acc.writes - applied.writes
      ensures statusWrites == old(statusWrites) + if devices == old(devices) && report == old(report) then 0 else 1
    {
      BeginResets(groups.Keys);
      acc := ResetAll(owned, groups.Keys, replies, applied);
      ReportOutcome(acc, skipEvents);
    }

    method ReportOutcome(acc: Acc, skipEvents: seq<Event>)
      requires Valid() && Now().agent.AResetting? && Now().agent.todo == {} && Now().agent.final == acc.final
      requires Now().Current(Now().agent.base)
      modifies this`devices, this`report, this`statusWrites, this`events, this`trail
      ensures Valid() && Continues(old(trail), trail) && Now().agent.AIdle?
      ensures devices == acc.final && report == Report(generation, acc.outcomes, Reported(Ready(acc.outcomes)))
      ensures events == old(events) + (skipEvents + acc.events)
      ensures statusWrites == old(statusWrites) + if devices == old(devices) && report == old(report) then 0 else 1
    {
      var ready := ReadyReasonOf(acc.outcomes);
      SaveStatus(acc.final, Report(generation, acc.outcomes, Reported(ready)));
      events := events + (skipEvents + acc.events);
    }

    /** Resolve, record the intent and apply. */
    method Enforce(ghost a: View, groups: map<Device, Group>, replies: Device -> Reply)
      returns (applied: Acc, skipEvents: seq<Event>)
      requires Valid() && Now().agent.AIdle? && !deleting && UniqueNames(spec)
      requires a == Read() && a.wanted == groups
      modifies this`kernel, this`kernelWrites, this`devices, this`statusWrites, this`trail
      ensures Valid() && Continues(old(trail), trail)
      ensures Now().agent.AApplying? && Now().agent.todo == {} && Now().agent.final == applied.final
      ensures Now().Current(Now().agent.base)
      ensures Now().hist[Now().agent.idx].devices == a.devices && Now().hist[Now().agent.idx].spec == spec
      ensures Progress(a, replies, {}, applied) && applied.kernel == kernel
      ensures devices == WithIntent(RulesOf(groups), a.devices)
      ensures kernelWrites == old(kernelWrites) + applied.writes
      ensures skipEvents == SkipEvents(host, spec, a.report.volumes)
      ensures statusWrites == old(statusWrites) + if Changed(RulesOf(groups), a.devices) == {} then 0 else 1
    {
      var owned, prev := devices, report.volumes;
      var mounts, skipped;
      mounts, skipped, skipEvents := ResolveAll(host, spec, prev);
      BeginApply(groups);
      applied := ApplyFrom(a, groups, owned, replies, mounts, prev, skipped);
    }

    /** The apply loop from the state in which only the skipped volumes are decided. */
    method ApplyFrom(ghost a: View, groups: map<Device, Group>, owned: map<Device, Owned>, replies: Device -> Reply,
                     mounts: map<string, string>, prev: map<string, VolumeStatus>, skipped: map<string, VolumeStatus>)
      returns (acc: Acc)
      requires Valid() && Now().agent.AApplying? && Now().agent.view == kernel && Now().agent.todo == groups.Keys
      requires Now().agent.final == devices == WithIntent(RulesOf(groups), owned)
      requires a.host == host && a.Grouped() && a.wanted == groups && a.kernel == kernel && a.devices == owned
      requires a.report.volumes == prev && Now().hist[Now().agent.idx].spec == a.spec && UniqueNames(a.spec)
      requires mounts == Mounts(host, a.spec) && skipped == SkippedVolumes(host, a.spec)
      modifies this`kernel, this`kernelWrites, this`trail
      ensures Valid() && Continues(old(trail), trail)
      ensures Now() == old(Now()).(kernel := kernel, written := Now().written,
                agent := AApplying(old(Now().agent.idx), old(Now().agent.base), old(kernel), {}, acc.final))
      ensures Progress(a, replies, {}, acc) && acc.kernel == kernel
      ensures kernelWrites == old(kernelWrites) + acc.writes
    {
      var start := Acc(kernel, devices, skipped, [], 0);
      StartProgress(a, replies, mounts, start);
      acc := ApplyAll(a, groups, kernel, owned, replies, mounts, prev, start);
    }

    /** The reconcile as the source runs it. */
    method Run(ghost a: View, replies: Device -> Reply)
      returns (ghost applied: Acc, ghost acc: Acc, ghost skipEvents: seq<Event>)
      requires Valid() && Now().agent.AIdle? && !deleting && UniqueNames(spec) && a == Read()
      modifies this`kernel, this`kernelWrites, this`devices, this`report, this`statusWrites, this`events, this`trail
      ensures Valid() && Continues(old(trail), trail) && Now().agent.AIdle?
      ensures Progress(a, replies, {}, applied)
      ensures ResetProgress(applied, replies, a.devices.Keys - a.wanted.Keys, acc)
      ensures skipEvents == SkipEvents(a.host, a.spec, a.report.volumes)
      ensures Read() == Saved(a, acc)
      ensures kernelWrites == old(kernelWrites) + acc.writes
      ensures events == old(events) + (skipEvents + acc.events)
      ensures statusWrites == old(statusWrites) + (if Changed(RulesOf(a.wanted), a.devices) == {} then 0 else 1)
                              + (if WithIntent(RulesOf(a.wanted), a.devices) == acc.final && a.report == report
                                 then 0 else 1)
    {
      var groups := GroupByDevice(host, spec);
      var owned := devices;
      var applied', skipEvents' := Enforce(a, groups, replies);
      var acc' := Finish(a, groups, owned, replies, applied', skipEvents');
      applied, acc, skipEvents := applied', acc', skipEvents';
    }

    /** One undisturbed reconcile of an object that is not being deleted; the kernel answers with `replies`. */
    method Reconcile(replies: Device -> Reply)
      requires Valid() && Now().agent.AIdle? && !deleting && UniqueNames(spec)
      modifies this`kernel, this`kernelWrites, this`devices, this`report, this`statusWrites, this`events, this`trail
      ensures Valid() && Continues(old(trail), trail) && Now().agent.AIdle?
      ensures Reconciled(old(Read()), replies, Read())
      ensures kernelWrites == old(kernelWrites) <==> !old(MustWriteKernel(Read()))
      ensures events == old(events) <==> old(Silent(Read(), replies))
      ensures Emitted(old(events), old(Read()), replies, events)
      ensures statusWrites == old(statusWrites) <==>
                Changed(Desired(host, spec), old(devices)) == {} && devices == old(devices) && report == old(report)
    {
      ghost var a := Read();
      ghost var applied, acc, skipEvents := Run(a, replies);
      LoopsDone(a, replies, applied, skipEvents, acc);
      NoIntent(RulesOf(a.wanted), a.devices);
    }

    /**
     Reconciling again after a reconcile the kernel accepted costs nothing: no kernel write, no status write, no
     event.
     */
    method Settle(replies: Device -> Reply) returns (writes: nat, updates: nat, emitted: seq<Event>)
      requires Valid() && Now().agent.AIdle? && !deleting && UniqueNames(spec)
      requires forall dev | dev in Groups(host, spec) :: !Groups(host, spec)[dev].rule.Unlimited()
      modifies this`kernel, this`kernelWrites, this`devices, this`report, this`statusWrites, this`events, this`trail
      ensures Valid() && Continues(old(trail), trail) && Now().agent.AIdle?
      ensures kernelWrites == writes && statusWrites == updates && events == emitted
      ensures Reconciled(old(Read()), dev => Accept, Read())
    {
      ghost var a := Read();
      Reconcile(dev => Accept);
      writes, updates, emitted := kernelWrites, statusWrites, events;
      ghost var b := Read();
      SettledAgain(a, b);
      Reconcile(replies);
      assert Read() == b && Silent(b, replies);
    }

    /** Deletion: reset every owned device, keep the ownership of those that could not be reset. */
    method Release(replies: Device -> Reply)
      requires Valid() && Now().agent.AIdle? && deleting
      modifies this`kernel, this`kernelWrites, this`devices, this`report, this`statusWrites, this`events, this`trail
      ensures Valid() && Continues(old(trail), trail) && Now().agent.AIdle?
      ensures forall dev ::
                Look(kernel, dev) ==
                if dev in old(devices) && !replies(dev).Reject? then None else Look(old(kernel), dev)
      ensures forall dev :: Look(devices, dev) == if replies(dev).Reject? then Look(old(devices), dev) else None
      ensures devices == map[] ==> Now().Last().Released() && report.ready == Status.Released
      ensures devices == map[] ==> Now().written == {}
      ensures events == old(events) + if devices == map[] && old(devices) != map[] then [AllReleased] else []
    {
      var owned := devices;
      BeginRelease();
      var acc := ResetAll(owned, {}, replies, Acc(kernel, owned, map[], [], 0));
      assert owned.Keys - {} == owned.Keys;
      SaveRelease(acc.final, owned != map[]);
    }

    /** Record what is left; when nothing is, report Released, with an event if there was something to release. */
    method SaveRelease(remaining: map<Device, Owned>, owning: bool)
      requires Valid() && Now().agent.AResetting? && Now().agent.todo == {} && Now().agent.final == remaining
      requires Now().Current(Now().agent.base)
      requires deleting
      modifies this`devices, this`report, this`statusWrites, this`events, this`trail
      ensures Valid() && Continues(old(trail), trail) && Now().agent.AIdle?
      ensures devices == remaining
      ensures devices == map[] ==> Now().Last().Released() && report.ready == Status.Released
      ensures devices == map[] ==> Now().written == {}
      ensures events == old(events) + if remaining == map[] && owning then [AllReleased] else []
    {
      SaveStatus(remaining, if remaining == map[] then report.(ready := Status.Released) else report);
      if remaining == map[] && owning {
        events := events + [AllReleased];
      }
      NothingOwnedNothingWritten(trail);
    }

    ghost method BeginRelease()
      requires Valid() && Now().agent.AIdle? && deleting
      modifies this`trail
      ensures Valid() && Continues(old(trail), trail)
      ensures Now().agent.AResetting? && Now().agent.todo == devices.Keys && Now().agent.final == devices
      ensures Now().Current(Now().agent.base)
    {
      var s := Now();
      var n := |s.hist| - 1;
      Take(AgentRead(n), s.(agentSeen := n, agent := ALoaded(n)));
      s := Now();
      Take(AgentStartRelease, s.(agent := AResetting(n, n, devices.Keys, devices)));
    }
  }
}
