/**
 The status half of a PodIOLimit: the ownership record, the per-volume states and the Ready reason.
 The source keeps lists sorted by a unique key; they are maps here. Message text is not modelled.
 */
module Status {
  import opened Limits
  import opened Grouping

  /** One entry of `status.devices`: the rule a device may carry and whether it was verified in the kernel. */
  datatype Owned = Owned(rule: Rule, applied: bool)

  datatype VolumeStatus = VolumeStatus(device: Option<Device>, mount: string, state: VolumeState, reason: string)

  /** Ready=True is `Ready(true, Applied)`; every other reason is Ready=False. `Released` is written on deletion. */
  datatype ReadyReason = NeverReported | Reported(state: VolumeState) | Released

  datatype Report = Report(observed: nat, volumes: map<string, VolumeStatus>, ready: ReadyReason)

  const NO_REPORT := Report(0, map[], NeverReported)

  /** What readyReason computes from the states of all volumes. */
  function Ready(volumes: map<string, VolumeStatus>): VolumeState {
    if exists n | n in volumes :: volumes[n].state == Failed then Failed
    else if exists n | n in volumes :: volumes[n].state == Pending then Pending
    else if exists n | n in volumes :: volumes[n].state == Applied then Applied
    else Unsupported
  }

  /** Failed before Pending before Applied; Unsupported when there is none of them, an empty status included. */
  lemma ReadySays(volumes: map<string, VolumeStatus>)
    ensures Ready(volumes) == Failed <==> exists n :: n in volumes && volumes[n].state == Failed
    ensures Ready(volumes) == Pending <==>
              && (forall n | n in volumes :: volumes[n].state != Failed)
              && exists n :: n in volumes && volumes[n].state == Pending
    ensures Ready(volumes) == Applied <==>
              && (forall n | n in volumes :: volumes[n].state == Applied || volumes[n].state == Unsupported)
              && exists n :: n in volumes && volumes[n].state == Applied
    ensures Ready(volumes) == Unsupported <==> forall n | n in volumes :: volumes[n].state == Unsupported
  {}

  /** status.go's readyReason: one pass setting three flags. */
  method ReadyReasonOf(volumes: map<string, VolumeStatus>) returns (reason: VolumeState)
    ensures reason == Ready(volumes)
  {
    var hasFailed, hasPending, hasApplied := false, false, false;
    var todo := volumes.Keys;
    while todo != {}
      invariant todo <= volumes.Keys
      invariant hasFailed <==> exists n | n in volumes.Keys - todo :: volumes[n].state == Failed
      invariant hasPending <==> exists n | n in volumes.Keys - todo :: volumes[n].state == Pending
      invariant hasApplied <==> exists n | n in volumes.Keys - todo :: volumes[n].state == Applied
    {
      var name :| name in todo;
      match volumes[name].state {
        case Failed => hasFailed := true;
        case Pending => hasPending := true;
        case Applied => hasApplied := true;
        case Unsupported =>
      }
      assert volumes.Keys - (todo - {name}) == (volumes.Keys - todo) + {name};
      todo := todo - {name};
    }
    assert volumes.Keys - todo == volumes.Keys;
    reason := if hasFailed then Failed else if hasPending then Pending else if hasApplied then Applied else Unsupported;
  }
}
