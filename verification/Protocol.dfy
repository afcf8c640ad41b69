/**
 The ownership and release protocol around one PodIOLimit, as a state machine.

 The API server keeps every version of the object in `hist`; the index of a version is its
 resourceVersion, the last one is current. The agent and the controller read through caches that may
 lag behind arbitrarily but never go back: a read returns any version from the last one seen up to
 the current one. The agent runs one reconcile at a time, so does the controller; their API calls and
 kernel writes interleave with each other, with crashes, and with what users, the kernel and the pod do.
 */
module Protocol {
  import opened Limits
  import opened Kernel
  import opened Grouping
  import opened Status

  datatype Object =
    | Absent
    | Present(spec: Spec, generation: nat, deleting: bool, finalizer: bool, devices: map<Device, Owned>, report: Report)
  {
    function Devices(): map<Device, Owned> {
      if Present? then devices else map[]
    }

    predicate Terminating() { Present? && deleting }

    /** What the controller reads as "the agent has released every device". */
    predicate Released() { Terminating() && devices == map[] }
  }

  /** The life of the pod UID the object was made for; `Gone` is missing, terminal or replaced. */
  datatype PodPhase = Unscheduled | Running | Gone

  function Rank(p: PodPhase): nat {
    match p case Unscheduled => 0 case Running => 1 case Gone => 2
  }

  /** Program counter of the agent; `idx` is the version it read, `base` the version its next update must replace. */
  datatype AgentPc =
    | AIdle
    | ALoaded(idx: nat)
    | AIntended(idx: nat, base: nat, final: map<Device, Owned>)
    | AApplying(idx: nat, base: nat, view: map<Device, Rule>, todo: set<Device>, final: map<Device, Owned>)
    | AResetting(idx: nat, base: nat, todo: set<Device>, final: map<Device, Owned>)
    | ASaving(base: nat, final: map<Device, Owned>, report: Report)

  datatype CtrlPc =
    | CIdle
    | CHasPod
    | CListed(idx: nat)
    | CRemoving(direct: bool)
    | CPatching(idx: nat, direct: bool)

  datatype State = State(
    host: Host,
    hist: seq<Object>,
    kernel: map<Device, Rule>,    // io.max of the pod's cgroup
    written: set<Device>,         // devices the agent wrote a rule to and has not reset since
    pod: PodPhase,
    podSeen: PodPhase,
    agentSeen: nat,
    agentWrote: nat,              // version of the agent's last status update
    agent: AgentPc,
    ctrlSeen: nat,
    ctrl: CtrlPc)
  {
    function Last(): Object requires hist != [] { hist[|hist|-1] }

    function Commit(o: Object): State { this.(hist := hist + [o]) }

    predicate Current(v: nat) { v + 1 == |hist| }

    /** A write to the spec: whoever makes it, the server counts a new generation. */
    function Edit(spec: Spec): State requires hist != [] && Last().Present? {
      Commit(Last().(spec := spec, generation := Last().generation + 1))
    }

    /** An API delete: with a finalizer it only sets deletionTimestamp. */
    function Delete(): State requires hist != [] {
      match Last()
      case Absent => this
      case Present(_, _, deleting, finalizer, _, _) =>
        if !finalizer then Commit(Absent)
        else if deleting then this
        else Commit(Last().(deleting := true))
    }
  }

  /** The devices whose intent must be persisted before the kernel is touched. */
  function Changed(desired: map<Device, Rule>, owned: map<Device, Owned>): set<Device> {
    set d | d in desired && (d !in owned || owned[d].rule != desired[d])
  }

  function WithIntent(desired: map<Device, Rule>, owned: map<Device, Owned>): (r: map<Device, Owned>)
    ensures r.Keys == owned.Keys + Changed(desired, owned)
  {
    owned + (map d | d in Changed(desired, owned) :: Owned(desired[d], false))
  }

  /** A device without its rule on record gets it, not yet applied; any other entry stays. Nothing changes otherwise. */
  lemma IntentSays(desired: map<Device, Rule>, owned: map<Device, Owned>, dev: Device)
    ensures Changed(desired, owned) == {} <==> WithIntent(desired, owned) == owned
    ensures Look(WithIntent(desired, owned), dev) ==
            if dev in desired && (dev !in owned || owned[dev].rule != desired[dev])
            then Some(Owned(desired[dev], false))
            else Look(owned, dev)
  {
    if d :| d in Changed(desired, owned) {
      assert Look(WithIntent(desired, owned), d) != Look(owned, d);
    }
  }

  datatype Step =
    // environment
    | PodAdvances(to: PodPhase)
    | Drift(dev: Device, line: Option<Rule>)
    | UserDelete
    | UserEdit(spec: Spec)
    // agent
    | AgentRead(i: nat)
    | AgentStop                         // an early return, a conflict, an error or a crash
    | AgentUniform(report: Report)
    | AgentIntentSkip
    | AgentIntentCommit
    | AgentKernelRead
    | AgentApply(dev: Device, reply: Reply)
    | AgentStartResets
    | AgentStartRelease
    | AgentReset(dev: Device, ok: bool)
    | AgentDecide(report: Report)
    | AgentSave(j: nat)
    // controller
    | CtrlPod(view: PodPhase)
    | CtrlList(i: nat)
    | CtrlStop
    | CtrlCreate(spec: Spec)
    | CtrlPatch(spec: Spec)
    | CtrlDelete
    | CtrlDirect
    | CtrlHandshake
    | CtrlRefetch(j: nat)
    | CtrlUnfinalize

  ghost predicate Init(s: State) {
    && s.hist == [Absent]
    && s.written == {}
    && s.podSeen == Unscheduled
    && s.agentSeen == 0 && s.agentWrote == 0 && s.agent == AIdle
    && s.ctrlSeen == 0 && s.ctrl == CIdle
  }

  ghost predicate Shaped(s: State) {
    && s.hist != []
    && s.agentSeen < |s.hist| && s.ctrlSeen < |s.hist|
    && (s.agent.ALoaded? || s.agent.AIntended? || s.agent.AApplying? || s.agent.AResetting? ==>
          s.agent.idx <= s.agentSeen && s.hist[s.agent.idx].Present?)
    && (s.ctrl.CListed? || s.ctrl.CPatching? ==> s.ctrl.idx == s.ctrlSeen)
  }

  function DesiredAt(s: State, i: nat): map<Device, Rule>
    requires i < |s.hist| && s.hist[i].Present?
  {
    Desired(s.host, s.hist[i].spec)
  }

  ghost predicate NextEnv(s: State, step: Step, t: State)
    requires Shaped(s)
  {
    match step
    case PodAdvances(to) => Rank(s.pod) < Rank(to) && t == s.(pod := to)
    case Drift(dev, line) => t == s.(kernel := SetLine(s.kernel, dev, line))
    case UserDelete => t == s.Delete()
    case UserEdit(spec) => s.Last().Present? && t == s.Edit(spec)
    case _ => false
  }

  ghost predicate NextAgent(s: State, step: Step, t: State)
    requires Shaped(s)
  {
    match step
    case AgentRead(i) =>
      && s.agent.AIdle? && s.agentSeen <= i < |s.hist|
      && t == s.(agentSeen := i, agent := if s.hist[i].Absent? then AIdle else ALoaded(i))
    case AgentStop => t == s.(agent := AIdle)
    case AgentUniform(report) =>
      && s.agent.ALoaded? && !s.hist[s.agent.idx].deleting
      && t == s.(agent := ASaving(s.agent.idx, s.hist[s.agent.idx].devices, report))
    case AgentIntentSkip =>
      && s.agent.ALoaded? && !s.hist[s.agent.idx].deleting
      && (var i := s.agent.idx; var o := s.hist[i];
          && Changed(DesiredAt(s, i), o.devices) == {}
          && t == s.(agent := AIntended(i, i, o.devices)))
    case AgentIntentCommit =>
      && s.agent.ALoaded? && !s.hist[s.agent.idx].deleting && s.Current(s.agent.idx)
      && (var i := s.agent.idx; var o := s.hist[i]; var devices := WithIntent(DesiredAt(s, i), o.devices);
          && Changed(DesiredAt(s, i), o.devices) != {}
          && t == s.Commit(o.(devices := devices)).(agentWrote := |s.hist|, agent := AIntended(i, |s.hist|, devices)))
    case AgentKernelRead =>
      && s.agent.AIntended?
      && (var a := s.agent;
          t == s.(agent := AApplying(a.idx, a.base, s.kernel, DesiredAt(s, a.idx).Keys, a.final)))
    case AgentApply(dev, reply) =>
      && s.agent.AApplying? && dev in s.agent.todo && dev in DesiredAt(s, s.agent.idx)
      && (var a := s.agent; var rule := DesiredAt(s, a.idx)[dev];
          if Look(a.view, dev) == Some(rule) then
            t == s.(agent := AApplying(a.idx, a.base, a.view, a.todo - {dev}, a.final[dev := Owned(rule, true)]))
          else
            var line := WriteLine(Look(s.kernel, dev), rule, reply);
            t == s.(kernel := SetLine(s.kernel, dev, line),
                    written := if reply.Reject? then s.written else s.written + {dev},
                    agent := AApplying(a.idx, a.base, a.view, a.todo - {dev},
                                       if !reply.Reject? && line == Some(rule)
                                       then a.final[dev := Owned(rule, true)] else a.final)))
    case AgentStartResets =>
      && s.agent.AApplying? && s.agent.todo == {}
      && (var a := s.agent;
          t == s.(agent := AResetting(a.idx, a.base, s.hist[a.idx].devices.Keys - DesiredAt(s, a.idx).Keys, a.final)))
    case AgentStartRelease =>
      && s.agent.ALoaded? && s.hist[s.agent.idx].deleting
      && (var i := s.agent.idx;
          t == s.(agent := AResetting(i, i, s.hist[i].devices.Keys, s.hist[i].devices)))
    case AgentReset(dev, ok) =>
      && s.agent.AResetting? && dev in s.agent.todo
      && (var a := s.agent;
          if ok then
            t == s.(kernel := s.kernel - {dev}, written := s.written - {dev},
                    agent := AResetting(a.idx, a.base, a.todo - {dev}, a.final - {dev}))
          else
            t == s.(agent := AResetting(a.idx, a.base, a.todo - {dev}, a.final)))
    case AgentDecide(report) =>
      && s.agent.AResetting? && s.agent.todo == {}
      && t == s.(agent := ASaving(s.agent.base, s.agent.final, report))
    case AgentSave(j) =>
      && s.agent.ASaving? && s.agentSeen <= j < |s.hist|
      && (var a := s.agent; var idle := s.(agentSeen := j, agent := AIdle);
          if s.hist[j].Absent? || (s.hist[j].devices == a.final && s.hist[j].report == a.report) || !s.Current(a.base)
             || s.Last().Absent? then
            t == idle
          else
            t == idle.Commit(s.Last().(devices := a.final, report := a.report)).(agentWrote := |s.hist|))
    case _ => false
  }

  ghost predicate NextCtrl(s: State, step: Step, t: State)
    requires Shaped(s)
  {
    match step
    case CtrlPod(view) =>
      && s.ctrl.CIdle? && Rank(s.podSeen) <= Rank(view) <= Rank(s.pod)
      && t == s.(podSeen := view, ctrl := CHasPod)
    case CtrlList(i) =>
      && s.ctrl.CHasPod? && s.ctrlSeen <= i < |s.hist|
      && t == s.(ctrlSeen := i, ctrl := CListed(i))
    case CtrlStop => t == s.(ctrl := CIdle)
    case CtrlCreate(spec) =>
      && s.ctrl.CListed? && s.hist[s.ctrl.idx].Absent? && s.podSeen.Running?
      && (if s.Last().Absent?
          then t == s.Commit(Present(spec, 1, false, true, map[], NO_REPORT)).(ctrl := CIdle)
          else t == s.(ctrl := CIdle))
    case CtrlPatch(spec) =>
      && s.ctrl.CListed? && s.hist[s.ctrl.idx].Present? && !s.hist[s.ctrl.idx].deleting && s.podSeen.Running?
      && (if s.Last().Present?
          then t == s.Edit(spec).(ctrl := CIdle)
          else t == s.(ctrl := CIdle))
    case CtrlDelete =>
      && s.ctrl.CListed? && s.hist[s.ctrl.idx].Present? && !s.hist[s.ctrl.idx].deleting && s.podSeen.Running?
      && t == s.Delete().(ctrl := CIdle)
    case CtrlDirect =>
      && s.ctrl.CListed? && s.hist[s.ctrl.idx].Present? && !s.podSeen.Running?
      && t == (if s.hist[s.ctrl.idx].deleting then s else s.Delete()).(ctrl := CRemoving(true))
    case CtrlHandshake =>
      && s.ctrl.CListed? && s.podSeen.Running? && s.hist[s.ctrl.idx].Released()
      && t == s.(ctrl := CRemoving(false))
    case CtrlRefetch(j) =>
      && s.ctrl.CRemoving? && s.ctrlSeen <= j < |s.hist|
      && t == s.(ctrlSeen := j,
                 ctrl := if s.hist[j].Present? && s.hist[j].finalizer then CPatching(j, s.ctrl.direct) else CIdle)
    case CtrlUnfinalize =>
      && s.ctrl.CPatching?
      && (if s.Current(s.ctrl.idx) && s.Last().Present?
          then t == s.Commit(if s.Last().deleting then Absent else s.Last().(finalizer := false)).(ctrl := CIdle)
          else t == s.(ctrl := CIdle))
    case _ => false
  }

  ghost predicate Next(s: State, step: Step, t: State)
    requires Shaped(s)
  {
    NextEnv(s, step, t) || NextAgent(s, step, t) || NextCtrl(s, step, t)
  }

  // ---------- the invariant ----------
  // Each part names the fields it depends on, so that a step that leaves them alone keeps it.

  function Newest(hist: seq<Object>): Object
    requires hist != []
  {
    hist[|hist|-1]
  }

  /** The keys of the persisted `status.devices`. */
  function OwnedNow(hist: seq<Object>): set<Device>
    requires hist != []
  {
    Newest(hist).Devices().Keys
  }

  /** Every device `o` both owns and still wants is in `devs`. */
  ghost predicate StillOwned(host: Host, o: Object, devs: set<Device>) {
    o.Present? && !o.deleting ==> forall d | d in o.devices && d in Desired(host, o.spec) :: d in devs
  }

  /** No version the agent can still read owns and wants a device that `devs` has lost. */
  ghost predicate WindowKept(host: Host, hist: seq<Object>, seen: nat, devs: set<Device>) {
    forall k | seen <= k < |hist| :: StillOwned(host, hist[k], devs)
  }

  /** The record is kept: the object stands, or the controller has not seen the pod gone and so must not strip it. */
  ghost predicate Kept(podSeen: PodPhase, hist: seq<Object>)
    requires hist != []
  {
    !podSeen.Gone? || Newest(hist).Present?
  }

  /** A present object has its finalizer; once terminating it stays so and its devices only shrink. */
  ghost predicate HistoryInv(hist: seq<Object>, podSeen: PodPhase) {
    && (forall k | 0 <= k < |hist| :: hist[k].Present? ==> hist[k].finalizer && podSeen != Unscheduled)
    && (forall k | 0 < k < |hist| :: FollowsAt(hist, k))
  }

  ghost predicate FollowsAt(hist: seq<Object>, k: nat)
    requires 0 < k < |hist|
  {
    Follows(hist[k-1], hist[k])
  }

  ghost predicate Follows(o: Object, o': Object) {
    o.Terminating() && o'.Present? ==> o'.deleting && o'.devices.Keys <= o.devices.Keys
  }

  /** What the controller can still read and act on is not outdated by a newer object. */
  ghost predicate CtrlWindow(hist: seq<Object>, seen: nat)
    requires hist != []
  {
    && (forall k | seen <= k < |hist| && hist[k].Terminating() :: Newest(hist).Absent? || Newest(hist).deleting)
    && (forall k | seen <= k < |hist| && hist[k].Released() :: OwnedNow(hist) == {})
  }

  ghost predicate AbsentWindow(hist: seq<Object>, seen: nat)
    requires hist != []
  {
    Newest(hist).Absent? ==> forall k | seen <= k < |hist| && hist[k].Absent? :: AbsentFrom(hist, k)
  }

  ghost predicate AbsentFrom(hist: seq<Object>, k: nat) {
    forall m | k <= m < |hist| :: hist[m].Absent?
  }

  ghost predicate CtrlInv(hist: seq<Object>, seen: nat, ctrl: CtrlPc, gone: bool)
    requires hist != []
  {
    && CtrlWindow(hist, seen)
    && AbsentWindow(hist, seen)
    && (ctrl.CRemoving? || ctrl.CPatching? ==>
          && (Newest(hist).Absent? || Newest(hist).deleting)
          && (if ctrl.direct then gone else OwnedNow(hist) == {}))
  }

  /** What a running reconcile may rely on as long as nobody else has written since its base version. */
  ghost predicate StillCurrent(hist: seq<Object>, idx: nat, final: set<Device>, written: set<Device>, live: bool)
    requires hist != [] && idx < |hist| && hist[idx].Present?
  {
    && (forall k | idx <= k < |hist| ::
          hist[k].Present? && hist[k].spec == hist[idx].spec && hist[k].deleting == hist[idx].deleting)
    && (live ==> written <= final)
    && (hist[idx].deleting ==> final <= OwnedNow(hist))
  }

  ghost predicate RunningInv(host: Host, hist: seq<Object>, wrote: nat, idx: nat, base: nat, final: set<Device>,
                             written: set<Device>, live: bool)
    requires hist != [] && idx < |hist| && hist[idx].Present?
  {
    var o := hist[idx];
    && idx <= base < |hist|
    && (o.deleting ==> base == idx)
    && (base == |hist| - 1 ==> StillCurrent(hist, idx, final, written, live))
    && (!o.deleting ==> Desired(host, o.spec).Keys <= final)
    && (live && (idx < base || wrote <= idx) ==> o.devices.Keys <= OwnedNow(hist))
  }

  ghost predicate AgentInv(host: Host, hist: seq<Object>, seen: nat, wrote: nat, agent: AgentPc,
                           written: set<Device>, live: bool)
    requires hist != []
    requires agent.ALoaded? || agent.AIntended? || agent.AApplying? || agent.AResetting? ==>
               agent.idx < |hist| && hist[agent.idx].Present?
  {
    match agent
    case AIdle => true
    case ALoaded(idx) => idx == seen
    case ASaving(base, final, _) =>
      && base < |hist|
      && (base == |hist| - 1 ==>
            && Newest(hist).Present?
            && (Newest(hist).deleting ==> final.Keys <= OwnedNow(hist))
            && (live ==> written <= final.Keys && WindowKept(host, hist, seen, final.Keys)))
    case AIntended(idx, base, final) =>
      && RunningInv(host, hist, wrote, idx, base, final.Keys, written, live)
      && !hist[idx].deleting
      && Desired(host, hist[idx].spec).Keys <= hist[base].Devices().Keys
      && (live ==> Desired(host, hist[idx].spec).Keys <= OwnedNow(hist))
    case AApplying(idx, base, _, todo, final) =>
      && RunningInv(host, hist, wrote, idx, base, final.Keys, written, live)
      && !hist[idx].deleting
      && todo <= Desired(host, hist[idx].spec).Keys
      && todo <= hist[base].Devices().Keys
      && (live ==> todo <= OwnedNow(hist))
    case AResetting(idx, base, todo, final) =>
      && RunningInv(host, hist, wrote, idx, base, final.Keys, written, live)
      && todo <= hist[idx].devices.Keys
      && (!hist[idx].deleting ==> todo !! Desired(host, hist[idx].spec).Keys)
  }

  /**
   Write-ahead ownership: what the agent wrote and did not reset is persisted, and no readable version can undo
   that.
   */
  ghost predicate OwnershipInv(host: Host, hist: seq<Object>, seen: nat, wrote: nat, written: set<Device>)
    requires hist != []
  {
    && written <= OwnedNow(hist)
    && WindowKept(host, hist, seen, OwnedNow(hist))
    && (forall k | wrote <= k < |hist| :: hist[k].Devices().Keys == OwnedNow(hist))
  }

  ghost predicate Inv(s: State) {
    && Shaped(s)
    && HistoryInv(s.hist, s.podSeen)
    && Rank(s.podSeen) <= Rank(s.pod)
    && CtrlInv(s.hist, s.ctrlSeen, s.ctrl, s.podSeen.Gone?)
    && AgentInv(s.host, s.hist, s.agentSeen, s.agentWrote, s.agent, s.written, Kept(s.podSeen, s.hist))
    && (Kept(s.podSeen, s.hist) ==> OwnershipInv(s.host, s.hist, s.agentSeen, s.agentWrote, s.written))
  }

  lemma InitInv(s: State)
    requires Init(s)
    ensures Inv(s)
  {}

  // ---------- every step keeps it ----------

  /** A version written by anyone but the agent keeps the set of owned devices as long as the record is kept. */
  lemma OtherWriteKeepsAgentSide(s: State, o: Object)
    requires Inv(s)
    requires Kept(s.podSeen, s.hist + [o]) ==> Kept(s.podSeen, s.hist) && o.Devices().Keys == OwnedNow(s.hist)
    ensures AgentInv(s.host, s.hist + [o], s.agentSeen, s.agentWrote, s.agent, s.written, Kept(s.podSeen, s.hist + [o]))
    ensures Kept(s.podSeen, s.hist + [o]) ==>
              OwnershipInv(s.host, s.hist + [o], s.agentSeen, s.agentWrote, s.written)
  {
    assert Newest(s.hist + [o]) == o;
  }

  lemma AppendFollows(hist: seq<Object>, o: Object, podSeen: PodPhase)
    requires hist != [] && HistoryInv(hist, podSeen)
    requires Follows(Newest(hist), o) && (o.Present? ==> o.finalizer && podSeen != Unscheduled)
    ensures HistoryInv(hist + [o], podSeen)
  {
    forall k | 0 < k < |hist + [o]| ensures FollowsAt(hist + [o], k) {
      if k < |hist| {
        assert FollowsAt(hist, k);
      }
    }
  }

  lemma DeleteKeepsInv(s: State, c: CtrlPc, t: State)
    requires Inv(s) && t == s.Delete().(ctrl := c)
    requires c == s.ctrl || c == CIdle || (c == CRemoving(true) && s.podSeen.Gone?)
    ensures Inv(t)
  {
    if s.Last().Present? && !s.Last().deleting {
      var o := s.Last().(deleting := true);
      OtherWriteKeepsAgentSide(s, o);
      AppendFollows(s.hist, o, s.podSeen);
      MarkKeepsCtrl(s, o, c);
      assert t == s.(hist := s.hist + [o], ctrl := c);
      assert Shaped(t);
    } else {
      NoMarkKeepsCtrl(s, c);
      assert t == s.(ctrl := c);
    }
  }

  /** The deletion mark changes nothing the controller relies on. */
  lemma MarkKeepsCtrl(s: State, o: Object, c: CtrlPc)
    requires Inv(s) && s.Last().Present? && !s.Last().deleting && o == s.Last().(deleting := true)
    requires c == s.ctrl || c == CIdle || (c == CRemoving(true) && s.podSeen.Gone?)
    ensures CtrlInv(s.hist + [o], s.ctrlSeen, c, s.podSeen.Gone?)
  {
    assert Newest(s.hist + [o]) == o;
  }

  lemma NoMarkKeepsCtrl(s: State, c: CtrlPc)
    requires Inv(s) && (s.Last().Absent? || s.Last().deleting)
    requires c == s.ctrl || c == CIdle || (c == CRemoving(true) && s.podSeen.Gone?)
    ensures CtrlInv(s.hist, s.ctrlSeen, c, s.podSeen.Gone?)
  {}

  lemma EnvKeepsInv(s: State, step: Step, t: State)
    requires Inv(s) && NextEnv(s, step, t)
    ensures Inv(t)
  {
    match step
    case UserDelete => DeleteKeepsInv(s, s.ctrl, t);
    case UserEdit(spec) => EditKeepsInv(s, spec, s.ctrl, t);
    case _ =>
  }

  lemma CreateKeepsInv(s: State, spec: Spec, t: State)
    requires Inv(s) && NextCtrl(s, CtrlCreate(spec), t)
    ensures Inv(t)
  {
    if s.Last().Absent? {
      var o := Present(spec, 1, false, true, map[], NO_REPORT);
      OtherWriteKeepsAgentSide(s, o);
      AppendFollows(s.hist, o, s.podSeen);
      assert Newest(t.hist) == o;
      assert AbsentFrom(s.hist, s.ctrlSeen);
      assert CtrlInv(t.hist, t.ctrlSeen, t.ctrl, t.podSeen.Gone?);
    }
  }

  lemma EditKeepsInv(s: State, spec: Spec, c: CtrlPc, t: State)
    requires Inv(s) && s.Last().Present? && t == s.Edit(spec).(ctrl := c) && (c == s.ctrl || c == CIdle)
    ensures Inv(t)
  {
    var o := s.Last().(spec := spec, generation := s.Last().generation + 1);
    OtherWriteKeepsAgentSide(s, o);
    AppendFollows(s.hist, o, s.podSeen);
    assert Newest(t.hist) == o;
    assert CtrlInv(t.hist, t.ctrlSeen, t.ctrl, t.podSeen.Gone?);
  }

  lemma PatchKeepsInv(s: State, spec: Spec, t: State)
    requires Inv(s) && NextCtrl(s, CtrlPatch(spec), t)
    ensures Inv(t)
  {
    if s.Last().Present? {
      EditKeepsInv(s, spec, CIdle, t);
    }
  }

  lemma UnfinalizeKeepsInv(s: State, t: State)
    requires Inv(s) && NextCtrl(s, CtrlUnfinalize, t)
    ensures Inv(t)
  {
    if s.Current(s.ctrl.idx) && s.Last().Present? {
      OtherWriteKeepsAgentSide(s, Absent);
      AppendFollows(s.hist, Absent, s.podSeen);
      assert Newest(t.hist) == Absent;
      assert CtrlInv(t.hist, t.ctrlSeen, t.ctrl, t.podSeen.Gone?);
    }
  }

  lemma CtrlReadKeepsInv(s: State, seen: nat, c: CtrlPc)
    requires Inv(s) && s.ctrlSeen <= seen < |s.hist|
    requires c.CRemoving? || c.CPatching? ==> s.ctrl.CRemoving? && c.direct == s.ctrl.direct
    ensures forall gone | s.podSeen.Gone? ==> gone :: CtrlInv(s.hist, seen, c, gone)
  {}

  lemma DecideRemovalKeepsInv(s: State, direct: bool)
    requires Inv(s) && s.ctrl.CListed? && s.hist[s.ctrl.idx].Terminating()
    requires if direct then s.podSeen.Gone? else s.hist[s.ctrl.idx].Released()
    ensures CtrlInv(s.hist, s.ctrlSeen, CRemoving(direct), s.podSeen.Gone?)
  {}

  lemma CtrlKeepsInv(s: State, step: Step, t: State)
    requires Inv(s) && NextCtrl(s, step, t)
    ensures Inv(t)
  {
    match step
    case CtrlPod(_) => CtrlReadKeepsInv(s, s.ctrlSeen, CHasPod);
    case CtrlList(i) => CtrlReadKeepsInv(s, i, CListed(i));
    case CtrlStop => CtrlReadKeepsInv(s, s.ctrlSeen, CIdle);
    case CtrlCreate(spec) => CreateKeepsInv(s, spec, t);
    case CtrlPatch(spec) => PatchKeepsInv(s, spec, t);
    case CtrlDelete => DeleteKeepsInv(s, CIdle, t);
    case CtrlDirect =>
      if s.hist[s.ctrl.idx].deleting {
        DecideRemovalKeepsInv(s, true);
      } else {
        DeleteKeepsInv(s, CRemoving(true), t);
      }
    case CtrlHandshake => DecideRemovalKeepsInv(s, false);
    case CtrlRefetch(j) => CtrlReadKeepsInv(s, j, t.ctrl);
    case CtrlUnfinalize => UnfinalizeKeepsInv(s, t);
  }

  lemma IntentCommitKeepsInv(s: State, t: State)
    requires Inv(s) && NextAgent(s, AgentIntentCommit, t)
    ensures Inv(t)
  {
    AppendFollows(s.hist, t.hist[|s.hist|], s.podSeen);
    IntentKeepsOwnership(s, t);
    IntentKeepsAgent(s, t);
    assert CtrlInv(t.hist, t.ctrlSeen, t.ctrl, t.podSeen.Gone?);
  }

  lemma IntentKeepsOwnership(s: State, t: State)
    requires Inv(s) && NextAgent(s, AgentIntentCommit, t)
    ensures Kept(t.podSeen, t.hist) && OwnershipInv(t.host, t.hist, t.agentSeen, t.agentWrote, t.written)
  {
    assert Newest(t.hist) == t.hist[|s.hist|];
  }

  lemma IntentKeepsAgent(s: State, t: State)
    requires Inv(s) && NextAgent(s, AgentIntentCommit, t)
    ensures t.agent.idx < |t.hist| && t.hist[t.agent.idx].Present?
    ensures AgentInv(t.host, t.hist, t.agentSeen, t.agentWrote, t.agent, t.written, Kept(t.podSeen, t.hist))
  {
    assert Newest(t.hist) == t.hist[|s.hist|];
  }

  lemma SaveKeepsInv(s: State, j: nat, t: State)
    requires Inv(s) && NextAgent(s, AgentSave(j), t)
    ensures Inv(t)
  {
    if |t.hist| > |s.hist| {
      AppendFollows(s.hist, t.hist[|s.hist|], s.podSeen);
    }
  }

  lemma ApplyKeepsInv(s: State, dev: Device, reply: Reply, t: State)
    requires Inv(s) && NextAgent(s, AgentApply(dev, reply), t)
    ensures Inv(t)
  {
  }

  lemma ResetKeepsInv(s: State, dev: Device, ok: bool, t: State)
    requires Inv(s) && NextAgent(s, AgentReset(dev, ok), t)
    ensures Inv(t)
  {
  }

  lemma AgentKeepsInv(s: State, step: Step, t: State)
    requires Inv(s) && NextAgent(s, step, t)
    ensures Inv(t)
  {
    if step.AgentIntentCommit? {
      IntentCommitKeepsInv(s, t);
    } else if step.AgentApply? {
      ApplyKeepsInv(s, step.dev, step.reply, t);
    } else if step.AgentReset? {
      ResetKeepsInv(s, step.dev, step.ok, t);
    } else if step.AgentSave? {
      SaveKeepsInv(s, step.j, t);
    } else if step.AgentIntentSkip? {
      IntentSkipKeepsInv(s, t);
    } else {
      PlainAgentStepKeepsInv(s, step, t);
    }
  }

  lemma IntentSkipKeepsInv(s: State, t: State)
    requires Inv(s) && NextAgent(s, AgentIntentSkip, t)
    ensures Inv(t)
  {
    NothingChanged(DesiredAt(s, s.agent.idx), s.hist[s.agent.idx].devices);
  }

  lemma PlainAgentStepKeepsInv(s: State, step: Step, t: State)
    requires Inv(s) && NextAgent(s, step, t)
    requires !step.AgentIntentCommit? && !step.AgentApply? && !step.AgentReset? && !step.AgentSave?
    requires !step.AgentIntentSkip?
    ensures Inv(t)
  {}

  lemma NothingChanged(desired: map<Device, Rule>, owned: map<Device, Owned>)
    requires Changed(desired, owned) == {}
    ensures desired.Keys <= owned.Keys
    ensures forall d | d in desired :: owned[d].rule == desired[d]
  {
    forall d | d in desired ensures d in owned && owned[d].rule == desired[d] {
      assert d !in Changed(desired, owned);
    }
  }

  // ---------- runs ----------

  /** `run` visits the states of one interleaving, `steps` says what happened between them. */
  ghost predicate IsRun(run: seq<State>, steps: seq<Step>) {
    && |run| == |steps| + 1
    && Init(run[0])
    && (forall k | 0 <= k < |steps| :: StepsAt(run, steps, k))
  }

  ghost predicate StepsAt(run: seq<State>, steps: seq<Step>, k: nat)
    requires |run| == |steps| + 1 && k < |steps|
  {
    Shaped(run[k]) && Next(run[k], steps[k], run[k+1])
  }

  lemma StepKeepsInv(s: State, step: Step, t: State)
    requires Inv(s) && Next(s, step, t)
    ensures Inv(t)
  {
    if NextEnv(s, step, t) {
      EnvKeepsInv(s, step, t);
    } else if NextAgent(s, step, t) {
      AgentKeepsInv(s, step, t);
    } else {
      CtrlKeepsInv(s, step, t);
    }
  }

  lemma {:induction false} RunInv(run: seq<State>, steps: seq<Step>, k: nat)
    requires IsRun(run, steps) && k < |run|
    ensures Inv(run[k])
  {
    if k == 0 {
      InitInv(run[0]);
    } else {
      RunInv(run, steps, k - 1);
      assert StepsAt(run, steps, k - 1);
      StepKeepsInv(run[k-1], steps[k-1], run[k]);
    }
  }

  /** Once the object is gone before its pod was seen gone, no rule the agent wrote is left behind. */
  lemma ReleaseSafety(run: seq<State>, steps: seq<Step>, k: nat)
    requires IsRun(run, steps) && k < |run|
    requires run[k].hist != [] && run[k].Last().Absent? && !run[k].podSeen.Gone?
    ensures run[k].written == {}
  {
    RunInv(run, steps, k);
  }

  /** The object is gone, and it went because the controller saw its pod gone. */
  ghost predicate Stripped(s: State) {
    s.hist != [] && s.Last().Absent? && s.podSeen.Gone? && s.pod.Gone?
  }

  /**
   Write-ahead ownership, in every reachable state: what the agent wrote and has not reset is listed in the
   persisted status, and a device is listed before a rule is written to it. The one exception is an object
   that a direct release stripped after the pod was seen gone.
   */
  lemma WriteAheadOwnership(run: seq<State>, steps: seq<Step>, k: nat)
    requires IsRun(run, steps) && k < |run|
    ensures run[k].hist != []
    ensures run[k].written <= OwnedNow(run[k].hist) || Stripped(run[k])
    ensures k < |steps| && steps[k].AgentApply? ==> steps[k].dev in OwnedNow(run[k].hist) || Stripped(run[k])
  {
    RunInv(run, steps, k);
    if k < |steps| {
      assert StepsAt(run, steps, k);
    }
  }

  /**
   Apart from drift, only an apply or a reset changes a line, only the line of its own device, and only
   of a device some version of the object listed. Unless the object was stripped, a reset whose read is no
   older than the agent's last status update targets a device that is still listed.
   */
  lemma TouchesOnlyOwnedLines(run: seq<State>, steps: seq<Step>, k: nat, dev: Device)
    requires IsRun(run, steps) && k < |steps| && !steps[k].Drift?
    requires Look(run[k].kernel, dev) != Look(run[k+1].kernel, dev)
    ensures (steps[k].AgentApply? || steps[k].AgentReset?) && steps[k].dev == dev
    ensures exists v | 0 <= v < |run[k].hist| :: dev in run[k].hist[v].Devices()
    ensures steps[k].AgentReset? ==>
              run[k].agent.AResetting? &&
              (run[k].agentWrote <= run[k].agent.idx || run[k].agent.idx < run[k].agent.base ==>
                 dev in OwnedNow(run[k].hist) || Stripped(run[k]))
  {
    RunInv(run, steps, k);
    assert StepsAt(run, steps, k);
    KernelChange(run[k], steps[k], run[k+1], dev);
    if steps[k].AgentApply? {
      assert dev in run[k].hist[run[k].agent.base].Devices();
    } else {
      assert dev in run[k].hist[run[k].agent.idx].Devices();
    }
  }

  lemma KernelChange(s: State, step: Step, t: State, dev: Device)
    requires Shaped(s) && Next(s, step, t) && !step.Drift? && Look(s.kernel, dev) != Look(t.kernel, dev)
    ensures (step.AgentApply? || step.AgentReset?) && step.dev == dev && NextAgent(s, step, t)
    ensures if step.AgentApply? then s.agent.AApplying? && dev in s.agent.todo
            else s.agent.AResetting? && dev in s.agent.todo
  {}

  lemma LinesAreWritten(s: State, step: Step, t: State)
    requires Shaped(s) && Next(s, step, t) && !step.Drift? && s.kernel.Keys <= s.written
    ensures t.kernel.Keys <= t.written
  {}

  /** From an empty io.max and without drift, every line there is one the agent wrote and has not reset. */
  lemma {:induction false} KernelIsWritten(run: seq<State>, steps: seq<Step>, k: nat)
    requires IsRun(run, steps) && k < |run| && run[0].kernel == map[]
    requires forall i | 0 <= i < k :: !steps[i].Drift?
    ensures run[k].kernel.Keys <= run[k].written
  {
    if k > 0 {
      KernelIsWritten(run, steps, k - 1);
      assert StepsAt(run, steps, k - 1);
      LinesAreWritten(run[k-1], steps[k-1], run[k]);
    }
  }

  /** Release safety in terms of the kernel: nobody else having written, a released pod's io.max is empty. */
  lemma ReleaseLeavesKernelEmpty(run: seq<State>, steps: seq<Step>, k: nat)
    requires IsRun(run, steps) && k < |run| && run[0].kernel == map[]
    requires forall i | 0 <= i < k :: !steps[i].Drift?
    requires run[k].hist != [] && run[k].Last().Absent? && !run[k].podSeen.Gone?
    ensures run[k].kernel == map[]
  {
    ReleaseSafety(run, steps, k);
    KernelIsWritten(run, steps, k);
  }

  /** Once an object is terminating, it stays so and its devices can only shrink, until it is gone. */
  lemma {:induction false} EmptinessIsStable(run: seq<State>, steps: seq<Step>, k: nat, v: nat, w: nat)
    requires IsRun(run, steps) && k < |run|
    requires v <= w < |run[k].hist| && run[k].hist[v].Terminating()
    requires forall u | v <= u <= w :: run[k].hist[u].Present?
    ensures run[k].hist[w].deleting && run[k].hist[w].devices.Keys <= run[k].hist[v].devices.Keys
    decreases w - v
  {
    RunInv(run, steps, k);
    if v < w {
      EmptinessIsStable(run, steps, k, v, w - 1);
      assert FollowsAt(run[k].hist, w);
    }
  }

  lemma AgentNeverRemoves(s: State, step: Step, t: State)
    requires Inv(s) && NextAgent(s, step, t) && s.Last().Present?
    ensures t.hist != [] && t.Last().Present? && t.Last().finalizer
  {}

  lemma OnlyUnfinalizeRemoves(s: State, step: Step, t: State)
    requires Inv(s) && NextCtrl(s, step, t) && s.Last().Present?
    ensures t.hist != []
    ensures t.Last().Absent? || !t.Last().finalizer ==>
              step == CtrlUnfinalize && t.Last().Absent? && s.ctrl.CPatching?
  {}

  lemma EnvNeverRemoves(s: State, step: Step, t: State)
    requires Inv(s) && NextEnv(s, step, t) && s.Last().Present?
    ensures t.hist != [] && t.Last().Present? && t.Last().finalizer
  {}

  /** The finalizer comes off an object that still owns devices only after its pod was seen gone, and it is gone. */
  lemma FinalizerComesOffSafely(run: seq<State>, steps: seq<Step>, k: nat)
    requires IsRun(run, steps) && k < |steps|
    requires run[k].hist != [] && run[k].Last().Present?
    requires run[k+1].hist != [] && (run[k+1].Last().Absent? || !run[k+1].Last().finalizer)
    ensures run[k+1].Last().Absent? && run[k].Last().deleting && steps[k] == CtrlUnfinalize
    ensures run[k].Last().devices == map[] || (run[k].podSeen.Gone? && run[k].pod.Gone?)
  {
    var s, step, t := run[k], steps[k], run[k+1];
    RunInv(run, steps, k);
    assert StepsAt(run, steps, k);
    if NextEnv(s, step, t) {
      EnvNeverRemoves(s, step, t);
    } else if NextAgent(s, step, t) {
      AgentNeverRemoves(s, step, t);
    } else {
      OnlyUnfinalizeRemoves(s, step, t);
    }
  }
}
