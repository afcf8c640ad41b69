/**
 What one reconcile of the agent decides, device by device and volume by volume, as functions of the
 kernel line it found, the rule it wants, the ownership it read and the kernel's reply.
 */
module Outcome {
  import opened Limits
  import opened Kernel
  import opened Grouping
  import opened Status
  import opened Protocol

  datatype Event =
    | IOLimitApplied(dev: Device)
    | IOLimitUpdated(dev: Device)
    | IOLimitFailed(dev: Device, reason: string)
    | IOLimitDriftCorrected(dev: Device)
    | IOLimitReset(dev: Device)
    | IOLimitSkipped(volume: string)
    | AllReleased

  const SHARED_DEVICE := "SharedDevice"
  const KERNEL_REJECTED := "KernelRejected"
  const KERNEL_MISMATCH := "KernelMismatch"

  /** State and reason applyDevice gives every volume of a device. */
  function DeviceOutcome(line: Option<Rule>, g: Group, reply: Reply): (VolumeState, string) {
    if line == Some(g.rule) || (!reply.Reject? && WriteLine(line, g.rule, reply) == Some(g.rule)) then
      (Applied, if |g.volumes| > 1 then SHARED_DEVICE else "")
    else if reply.Reject? then (Failed, KERNEL_REJECTED)
    else (Failed, KERNEL_MISMATCH)
  }

  function OutcomeOf(host: Host, groups: map<Device, Group>, kernel: map<Device, Rule>, replies: Device -> Reply,
                     v: Volume): VolumeStatus {
    match host.resolve(v.dir)
    case Skipped(shown, mount, retry, reason) => VolumeStatus(shown, mount, SkipState(retry), reason)
    case OnDevice(dev, mount) =>
      if dev !in groups then VolumeStatus(Some(dev), mount, Pending, "") else
      var (state, reason) := DeviceOutcome(Look(kernel, dev), groups[dev], replies(dev));
      VolumeStatus(Some(dev), mount, state, reason)
  }

  /** The kernel line of a device after the reconcile. */
  function LineAfter(line: Option<Rule>, want: Option<Rule>, owned: bool, reply: Reply): Option<Rule> {
    match want
    case Some(rule) => if line == want then line else WriteLine(line, rule, reply)
    case None => if owned && !reply.Reject? then None else line
  }

  /** The ownership entry of a device after the reconcile. */
  function OwnedAfter(line: Option<Rule>, want: Option<Rule>, prev: Option<Owned>, reply: Reply): Option<Owned> {
    match want
    case Some(rule) =>
      if line == want || (!reply.Reject? && WriteLine(line, rule, reply) == want) then Some(Owned(rule, true))
      else if prev.Some? && prev.value.rule == rule then prev
      else Some(Owned(rule, false))
    case None => if reply.Reject? then prev else None
  }

  /** Every volume of the device was already reported failed for this reason. */
  predicate Repeated(prev: map<string, VolumeStatus>, volumes: set<string>, reason: string) {
    forall n | n in volumes :: n in prev && prev[n].state == Failed && prev[n].reason == reason
  }

  function ApplyEvent(dev: Device, line: Option<Rule>, g: Group, before: Option<Owned>, reply: Reply,
                      prev: map<string, VolumeStatus>): seq<Event> {
    var wasApplied := before == Some(Owned(g.rule, true));
    var (state, reason) := DeviceOutcome(line, g, reply);
    if state == Failed then
      if Repeated(prev, g.volumes, reason) then [] else [IOLimitFailed(dev, reason)]
    else if wasApplied then
      if line == Some(g.rule) then [] else [IOLimitDriftCorrected(dev)]
    else if before.Some? then [IOLimitUpdated(dev)]
    else [IOLimitApplied(dev)]
  }

  function SkipEvent(host: Host, v: Volume, prev: map<string, VolumeStatus>): seq<Event> {
    match host.resolve(v.dir)
    case OnDevice(_, _) => []
    case Skipped(_, _, retry, reason) =>
      if !retry && !(v.name in prev && prev[v.name].state == Unsupported && prev[v.name].reason == reason)
      then [IOLimitSkipped(v.name)] else []
  }

  // ---------- the same, case by case ----------

  /** Applied when the line read is the rule or the write left it; refused or altered writes fail, with their reason. */
  lemma DeviceOutcomeSays(line: Option<Rule>, g: Group, reply: Reply)
    ensures DeviceOutcome(line, g, reply) ==
            if line == Some(g.rule) then (Applied, if |g.volumes| > 1 then "SharedDevice" else "")
            else match reply
                 case Reject => (Failed, "KernelRejected")
                 case Accept => if g.rule.Unlimited() then (Failed, "KernelMismatch")
                                else (Applied, if |g.volumes| > 1 then "SharedDevice" else "")
                 case Coerce(left) => if left != Some(g.rule) then (Failed, "KernelMismatch")
                                      else (Applied, if |g.volumes| > 1 then "SharedDevice" else "")
  {}

  /** A wanted line is there afterwards unless refused, altered or all-max; an owned unwanted one goes. */
  lemma LineSays(line: Option<Rule>, want: Option<Rule>, owned: bool, reply: Reply)
    ensures LineAfter(line, want, owned, reply) ==
            if reply.Reject? || (want.Some? && line == want) || (want.None? && !owned) then line
            else if want.None? || (reply.Accept? && want.value.Unlimited()) then None
            else match reply case Coerce(left) => left case _ => want
  {}

  /**
   A wanted device is owned with its rule, applied when the line shows it or did when it was last recorded; any
   other device is forgotten unless its reset was refused.
   */
  lemma OwnedSays(line: Option<Rule>, want: Option<Rule>, prev: Option<Owned>, reply: Reply)
    ensures var o := OwnedAfter(line, want, prev, reply);
            match want
            case None => o == if reply.Reject? then prev else None
            case Some(rule) =>
              && o.Some? && o.value.rule == rule
              && (o.value.applied <==> line == want || (!reply.Reject? && LineAfter(line, want, true, reply) == want)
                                       || (prev.Some? && prev.value.rule == rule && prev.value.applied))
  {}

  /** A volume without a device is pending if it may come, else unsupported; one with a device has its outcome. */
  lemma OutcomeSays(host: Host, groups: map<Device, Group>, kernel: map<Device, Rule>, replies: Device -> Reply,
                    v: Volume)
    ensures var s, r := OutcomeOf(host, groups, kernel, replies, v), host.resolve(v.dir);
            && s.mount == r.mount
            && (r.Skipped? ==> s.device == r.shown && s.reason == r.reason
                               && s.state == if r.retry then Pending else Unsupported)
            && (r.OnDevice? && r.device in groups ==>
                  && s.device == Some(r.device)
                  && (s.state, s.reason) == DeviceOutcome(Look(kernel, r.device), groups[r.device], replies(r.device)))
  {}

  /** The one event of a device, if any: by what was known, what was read and what came of the write. */
  lemma ApplyEventSays(dev: Device, line: Option<Rule>, g: Group, before: Option<Owned>, reply: Reply,
                       prev: map<string, VolumeStatus>)
    ensures var (state, reason) := DeviceOutcome(line, g, reply);
            var told := forall n | n in g.volumes :: n in prev && prev[n].state == Failed && prev[n].reason == reason;
            ApplyEvent(dev, line, g, before, reply, prev) ==
            if state != Applied then (if told then [] else [IOLimitFailed(dev, reason)])
            else match before
                 case None => [IOLimitApplied(dev)]
                 case Some(owned) =>
                   if owned.rule != g.rule || !owned.applied then [IOLimitUpdated(dev)]
                   else if line != Some(g.rule) then [IOLimitDriftCorrected(dev)]
                   else []
  {}

  /** A volume newly found unsupported, or for a new reason, is told; one that may still come never is. */
  lemma SkipEventSays(host: Host, v: Volume, prev: map<string, VolumeStatus>)
    ensures var r := host.resolve(v.dir);
            SkipEvent(host, v, prev) ==
            if r.Skipped? && !r.retry
               && (v.name !in prev || prev[v.name].state != Unsupported || prev[v.name].reason != r.reason)
            then [IOLimitSkipped(v.name)] else []
  {}

  predicate UniqueNames(spec: Spec) {
    forall i, j | 0 <= i < j < |spec| :: spec[i].name != spec[j].name
  }

  /** Everything a reconcile of a live object reads, and everything it leaves behind. */
  datatype View = View(host: Host, spec: Spec, generation: nat, wanted: map<Device, Group>,
                       kernel: map<Device, Rule>, devices: map<Device, Owned>, report: Report)
  {
    /** The groups are those of this spec on this host. */
    ghost predicate Grouped() { wanted == Groups(host, spec) }

    function Want(dev: Device): Option<Rule> {
      if dev in wanted then Some(wanted[dev].rule) else None
    }
  }

  /** `volumes` reports every volume of the spec exactly once, with the outcome decided for it. */
  ghost predicate ReportsAll(a: View, replies: Device -> Reply, volumes: map<string, VolumeStatus>) {
    && volumes.Keys == (set v | v in a.spec :: v.name)
    && forall v | v in a.spec :: volumes[v.name] == OutcomeOf(a.host, a.wanted, a.kernel, replies, v)
  }

  /** `b` is what an undisturbed reconcile that read `a` leaves, when the kernel answers with `replies`. */
  ghost predicate Reconciled(a: View, replies: Device -> Reply, b: View) {
    && b.host == a.host && b.spec == a.spec && b.generation == a.generation && b.wanted == a.wanted
    && (forall dev ::
          Look(b.kernel, dev) == LineAfter(Look(a.kernel, dev), a.Want(dev), dev in a.devices, replies(dev)))
    && (forall dev ::
          Look(b.devices, dev) == OwnedAfter(Look(a.kernel, dev), a.Want(dev), Look(a.devices, dev), replies(dev)))
    && ReportsAll(a, replies, b.report.volumes)
    && b.report == Report(a.generation, b.report.volumes, Reported(Ready(b.report.volumes)))
  }

  /** The volume sits on a device whose kernel line is the per-field minimum of all volumes of the spec on it. */
  ghost predicate ShowsMinimum(host: Host, spec: Spec, kernel: map<Device, Rule>, v: Volume) {
    var r := host.resolve(v.dir);
    && r.OnDevice? && r.device in kernel
    && (Convertible(spec) ==> forall f :: IsMin(f, LimitsOf(VolumesOn(host, spec, r.device)), kernel[r.device].Get(f)))
  }

  /**
   Truthful status: every volume is reported, and one reported Applied sits on a device whose kernel
   line is the per-field minimum of the limits of all volumes of the object on that device.
   */
  lemma AppliedIsTrue(a: View, replies: Device -> Reply, b: View, v: Volume)
    requires Reconciled(a, replies, b) && a.Grouped() && v in a.spec
    ensures v.name in b.report.volumes
    ensures b.report.volumes[v.name].state == Applied ==> ShowsMinimum(a.host, a.spec, b.kernel, v)
  {
    var r := a.host.resolve(v.dir);
    if b.report.volumes[v.name].state == Applied {
      GroupMembers(a.host, a.spec, r.device);
      assert IsOn(a.host, v, r.device);
      assert Look(b.kernel, r.device) == a.Want(r.device);
      if Convertible(a.spec) {
        forall f ensures IsMin(f, LimitsOf(VolumesOn(a.host, a.spec, r.device)), b.kernel[r.device].Get(f)) {
          GroupRuleIsMin(a.host, a.spec, r.device, f);
        }
      }
    }
  }

  /**
   The reconcile has to write to the kernel: a wanted line is missing or wrong, or an owned device is no longer
   wanted.
   */
  ghost predicate MustWriteKernel(a: View) {
    || (exists dev :: dev in a.wanted && Look(a.kernel, dev) != a.Want(dev))
    || (exists dev :: dev in a.devices && dev !in a.wanted)
  }

  /** No device and no volume of the reconcile is worth an event. */
  ghost predicate Silent(a: View, replies: Device -> Reply) {
    && (forall v | v in a.spec :: SkipEvent(a.host, v, a.report.volumes) == [])
    && (forall dev | dev in a.wanted ::
          ApplyEvent(dev, Look(a.kernel, dev), a.wanted[dev], Look(a.devices, dev), replies(dev),
                     a.report.volumes) == [])
    && (forall dev | dev in a.devices && dev !in a.wanted :: replies(dev).Reject?)
  }

  /**
   Reconciling again changes nothing: no kernel write, no status write, no event, whatever the kernel would
   answer.
   */
  ghost predicate Settled(b: View) {
    && !MustWriteKernel(b)
    && Changed(RulesOf(b.wanted), b.devices) == {}
    && forall replies, c :: Reconciled(b, replies, c) ==> c == b && Silent(b, replies)
  }

  /** No line of the kernel is an all-max line: the kernel drops those. */
  predicate NoEmptyLine(kernel: map<Device, Rule>) {
    forall dev | dev in kernel :: !kernel[dev].Unlimited()
  }

  /**
   Convergence: from any status and any kernel content, one undisturbed reconcile whose writes are
   accepted settles the object, exactly when no device's merged rule is all-max.
   */
  lemma ConvergesInOneReconcile(a: View, b: View)
    requires NoEmptyLine(a.kernel)
    requires Reconciled(a, dev => Accept, b)
    ensures Settled(b) <==> forall dev | dev in a.wanted :: !a.wanted[dev].rule.Unlimited()
  {
    if dev :| dev in a.wanted && a.wanted[dev].rule.Unlimited() {
      assert Look(b.kernel, dev) != b.Want(dev);
    } else {
      StatusSettles(a, b);
      SettledAgain(a, b);
    }
  }

  /** A volume without any limit is enough: its device is written again in every reconcile. */
  lemma AllMaxNeverSettles() returns (a: View)
    ensures a.Grouped() && NoEmptyLine(a.kernel)
    ensures forall b | Reconciled(a, dev => Accept, b) :: !Settled(b)
  {
    var host := Host(dir => OnDevice("8:0", ""));
    var spec := [Volume("data", "pvc", NO_LIMITS)];
    assert spec[..|spec|-1] == [];
    assert Groups(host, spec[..|spec|-1]) == map[];
    a := View(host, spec, 1, Groups(host, spec), map[], map[], NO_REPORT);
    var g := AddVolume(host, map[], spec[0]);
    assert host.resolve(spec[0].dir) == OnDevice("8:0", "");
    assert a.wanted == g && "8:0" in g && g["8:0"].rule == NO_LIMITS;
    forall b | Reconciled(a, dev => Accept, b) ensures !Settled(b) {
      ConvergesInOneReconcile(a, b);
    }
  }

  /** After such a reconcile the kernel and the ownership record hold exactly the wanted rules, all applied. */
  lemma StatusSettles(a: View, b: View)
    requires Reconciled(a, dev => Accept, b)
    requires forall dev | dev in a.wanted :: !a.wanted[dev].rule.Unlimited()
    ensures forall dev | dev in a.wanted :: Look(b.kernel, dev) == a.Want(dev)
    ensures b.devices == map dev | dev in a.wanted :: Owned(a.wanted[dev].rule, true)
  {
    forall dev ensures dev in b.devices <==> dev in a.wanted
               ensures dev in b.devices ==> b.devices[dev] == Owned(a.wanted[dev].rule, true)
    {
      assert Look(b.devices, dev) == OwnedAfter(Look(a.kernel, dev), a.Want(dev), Look(a.devices, dev), Accept);
    }
  }

  lemma SettledAgain(a: View, b: View)
    requires Reconciled(a, dev => Accept, b)
    requires forall dev | dev in a.wanted :: !a.wanted[dev].rule.Unlimited()
    ensures Settled(b)
  {
    StatusSettles(a, b);
    forall replies, c | Reconciled(b, replies, c) ensures c == b && Silent(b, replies) {
      SecondIsNoOp(a, b, replies, c);
    }
  }

  lemma SecondIsNoOp(a: View, b: View, replies: Device -> Reply, c: View)
    requires Reconciled(a, dev => Accept, b) && Reconciled(b, replies, c)
    requires forall dev | dev in a.wanted :: !a.wanted[dev].rule.Unlimited()
    ensures c == b && Silent(b, replies)
  {
    StatusSettles(a, b);
    LinesStay(b, replies, c);
    forall v | v in a.spec
      ensures OutcomeOf(b.host, b.wanted, b.kernel, replies, v) == b.report.volumes[v.name]
    {
      var r := a.host.resolve(v.dir);
      if r.OnDevice? && r.device in a.wanted {
        assert Look(b.kernel, r.device) == a.Want(r.device);
      }
    }
    assert c.report.volumes == b.report.volumes;
    SilentOnceSettled(b, replies);
  }

  lemma LinesStay(b: View, replies: Device -> Reply, c: View)
    requires Reconciled(b, replies, c)
    requires forall dev | dev in b.wanted :: Look(b.kernel, dev) == b.Want(dev)
    requires b.devices == map dev | dev in b.wanted :: Owned(b.wanted[dev].rule, true)
    ensures c.kernel == b.kernel && c.devices == b.devices
  {
    forall dev ensures Look(c.kernel, dev) == Look(b.kernel, dev) && Look(c.devices, dev) == Look(b.devices, dev) {
      assert Look(c.kernel, dev) == LineAfter(Look(b.kernel, dev), b.Want(dev), dev in b.devices, replies(dev));
    }
    SameLooks(c.kernel, b.kernel);
    SameLooks(c.devices, b.devices);
  }

  lemma SilentOnceSettled(b: View, replies: Device -> Reply)
    requires forall dev | dev in b.wanted :: Look(b.kernel, dev) == b.Want(dev)
    requires b.devices == map dev | dev in b.wanted :: Owned(b.wanted[dev].rule, true)
    requires ReportsAll(b, replies, b.report.volumes)
    ensures Silent(b, replies)
  {}
}
