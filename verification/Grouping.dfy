/**
 What the node agent wants on each device: the volumes of one PodIOLimit, resolved by the host to
 whole-disk devices and merged into one io.max rule per device.
 */
module Grouping {
  import opened Limits

  datatype VolumeState = Applied | Pending | Unsupported | Failed

  /** One resolved volume of `PodIOLimit.spec.volumes`, as far as the agent reads it. */
  datatype Volume = Volume(name: string, dir: string, limits: Limits)

  type Spec = seq<Volume>

  /** The outcome of resolveVolume: a usable whole disk, or Pending (to be retried) or Unsupported. */
  datatype Resolution =
    | OnDevice(device: Device, mount: string)
    | Skipped(shown: Option<Device>, mount: string, retry: bool, reason: string)

  function SkipState(retry: bool): VolumeState {
    if retry then Pending else Unsupported
  }

  /** Mountinfo, sysfs and the protected-device rules of one node, as a function of the kubelet directory. */
  datatype Host = Host(resolve: string -> Resolution)

  datatype Group = Group(rule: Rule, volumes: set<string>)

  function AddVolume(host: Host, groups: map<Device, Group>, v: Volume): map<Device, Group> {
    match host.resolve(v.dir)
    case Skipped(_, _, _, _) => groups
    case OnDevice(dev, _) =>
      var g := if dev in groups then groups[dev] else Group(NO_LIMITS, {});
      groups[dev := Group(Merge(g.rule, ToRule(v.limits)), g.volumes + {v.name})]
  }

  /** The value groupByDevice computes. */
  function Groups(host: Host, spec: Spec): map<Device, Group> {
    if spec == [] then map[] else AddVolume(host, Groups(host, spec[..|spec|-1]), spec[|spec|-1])
  }

  /** resolve.go's groupByDevice: one pass over the volumes, updating a map of groups. */
  method GroupByDevice(host: Host, spec: Spec) returns (groups: map<Device, Group>)
    ensures groups == Groups(host, spec)
  {
    groups := map[];
    for i := 0 to |spec|
      invariant groups == Groups(host, spec[..i])
    {
      assert spec[..i+1][..i] == spec[..i];
      groups := AddVolume(host, groups, spec[i]);
    }
    assert spec[..|spec|] == spec;
  }

  function RulesOf(groups: map<Device, Group>): map<Device, Rule> {
    map dev | dev in groups :: groups[dev].rule
  }

  function Desired(host: Host, spec: Spec): map<Device, Rule> {
    RulesOf(Groups(host, spec))
  }

  predicate IsOn(host: Host, v: Volume, dev: Device) {
    var r := host.resolve(v.dir);
    r.OnDevice? && r.device == dev
  }

  /** The volumes of `spec` on one device, in order. */
  function VolumesOn(host: Host, spec: Spec, dev: Device): seq<Volume> {
    if spec == [] then [] else
      var v := spec[|spec|-1];
      VolumesOn(host, spec[..|spec|-1], dev) + (if IsOn(host, v, dev) then [v] else [])
  }

  function LimitsOf(vs: seq<Volume>): seq<Limits> {
    seq(|vs|, i requires 0 <= i < |vs| => vs[i].limits)
  }

  /** Every limit of every volume is a value that survives the conversion to an unsigned word. */
  predicate Convertible(spec: Spec) {
    forall v, f | v in spec :: InRange(v.limits.Get(f), 0, TWO_64 - 1)
  }

  /** A device has a group exactly when some volume resolves to it, and the group names exactly those volumes. */
  lemma {:induction false} GroupMembers(host: Host, spec: Spec, dev: Device)
    ensures dev in Groups(host, spec) <==> exists v :: v in spec && IsOn(host, v, dev)
    ensures dev in Groups(host, spec) ==>
              forall n :: n in Groups(host, spec)[dev].volumes
                          <==> exists v :: v in spec && IsOn(host, v, dev) && v.name == n
  {
    if spec != [] {
      var init, last := spec[..|spec|-1], spec[|spec|-1];
      GroupMembers(host, init, dev);
      assert spec == init + [last];
      assert last in spec;
      assert forall v :: v in spec <==> v in init || v == last;
      assert Groups(host, spec) == AddVolume(host, Groups(host, init), last);
    }
  }

  /** The rule of a device is the per-field minimum of the limits of all volumes on it. */
  lemma {:induction false} GroupRuleIsMin(host: Host, spec: Spec, dev: Device, f: Field)
    requires Convertible(spec) && dev in Groups(host, spec)
    ensures IsMin(f, LimitsOf(VolumesOn(host, spec, dev)), Groups(host, spec)[dev].rule.Get(f))
  {
    var init, v := spec[..|spec|-1], spec[|spec|-1];
    var before := LimitsOf(VolumesOn(host, init, dev));
    assert v in spec;
    ConversionKeeps(v.limits, f);
    if dev in Groups(host, init) {
      assert forall u :: u in init ==> u in spec;
      GroupRuleIsMin(host, init, dev, f);
    } else {
      GroupMembers(host, init, dev);
      NoVolumesOn(host, init, dev);
    }
    if IsOn(host, v, dev) {
      var prev := if dev in Groups(host, init) then Groups(host, init)[dev].rule else NO_LIMITS;
      assert IsMin(f, before, prev.Get(f));
      assert IsMin(f, [v.limits], v.limits.Get(f)) by { assert v.limits in [v.limits]; }
      MinOfTwo(f, before, prev.Get(f), [v.limits], v.limits.Get(f));
      assert LimitsOf(VolumesOn(host, spec, dev)) == before + [v.limits];
    } else {
      assert VolumesOn(host, spec, dev) == VolumesOn(host, init, dev);
    }
  }

  lemma {:induction false} NoVolumesOn(host: Host, spec: Spec, dev: Device)
    requires forall v | v in spec :: !IsOn(host, v, dev)
    ensures VolumesOn(host, spec, dev) == []
  {
    if spec != [] {
      assert forall v :: v in spec[..|spec|-1] ==> v in spec;
      NoVolumesOn(host, spec[..|spec|-1], dev);
    }
  }

  lemma {:induction false} VolumesOnMembers(host: Host, spec: Spec, dev: Device)
    ensures forall v :: v in VolumesOn(host, spec, dev) <==> v in spec && IsOn(host, v, dev)
  {
    if spec != [] {
      var init, last := spec[..|spec|-1], spec[|spec|-1];
      VolumesOnMembers(host, init, dev);
      assert spec == init + [last];
    }
  }

  /** Well-formed volume limits never merge into the all-max rule, and stay in their ranges. */
  lemma GroupRuleWellFormed(host: Host, spec: Spec, dev: Device)
    requires forall v | v in spec :: WellFormed(v.limits)
    requires dev in Groups(host, spec)
    ensures WellFormed(Groups(host, spec)[dev].rule)
  {
    var rule := Groups(host, spec)[dev].rule;
    var vs := VolumesOn(host, spec, dev);
    GroupMembers(host, spec, dev);
    VolumesOnMembers(host, spec, dev);
    assert vs != [];
    forall i | 0 <= i < |vs| ensures WellFormed(LimitsOf(vs)[i]) {
      assert vs[i] in vs;
    }
    forall v, f | v in spec ensures InRange(v.limits.Get(f), 0, TWO_64 - 1) {
      WellFormedFits(v.limits, f);
    }
    forall f ensures IsMin(f, LimitsOf(vs), rule.Get(f)) {
      GroupRuleIsMin(host, spec, dev, f);
    }
    MinWellFormed(LimitsOf(vs), rule);
  }
}
