/**
 An IOLimiter's own status: every selected pod is judged once, the verdicts are counted, and the counts decide
 Ready.
 */
module Tally {
  import opened Limits
  import opened Names
  import opened Grouping
  import opened Desired
  import opened Rounds
  import opened SpecSync

  // ---------- what the reconciler reads ----------

  datatype NamedState = NamedState(name: string, state: VolumeState)

  datatype Pil = Pil(uid: string, generation: nat, observed: nat, spec: seq<VolumeLimit>, states: seq<NamedState>)

  /**
   A pod, the limiters of its namespace as they stand to it, and the PodIOLimits filed under its name.
   `selected` is the answer of the reconciled limiter's selector. `readable` tells whether the lookups behind the
   pod's volumes answer. PodIOLimits are listed twice: `pils` for computing the volumes, `later` for judging them,
   which may differ or fail.
   */
  datatype Pod = Pod(uid: string, scheduled: bool, terminal: bool, selected: bool, env: Env,
                     limiters: seq<Limiter>, pils: seq<Pil>, readable: bool, later: Option<seq<Pil>>)

  function FindPil(pils: seq<Pil>, uid: string): Option<Pil> {
    if pils == [] then None else if pils[0].uid == uid then Some(pils[0]) else FindPil(pils[1..], uid)
  }

  function FindState(states: seq<NamedState>, name: string): Option<VolumeState> {
    if states == [] then None
    else if states[0].name == name then Some(states[0].state)
    else FindState(states[1..], name)
  }

  function Existing(pod: Pod): seq<VolumeLimit> {
    match FindPil(pod.pils, pod.uid) case None => [] case Some(pil) => pil.spec
  }

  /** What the API server guarantees: names are unique in a namespace, and in a volume list. */
  ghost predicate ApiValid(pod: Pod) {
    WellNamed(pod.limiters) && forall pil | pil in pod.pils :: UniqueVolumes(pil.spec)
  }

  // ---------- the verdict on a pod, declared ----------

  ghost function Wanted(pod: Pod): Table { Round(pod.limiters, TableOf(Existing(pod))) }

  /** The limiter is a source of the volume in what the controller computes for the pod. */
  ghost predicate IsMine(pod: Pod, cr: string, volume: string) {
    exists v :: v in Output(pod.env, Wanted(pod)) && v.name == volume && cr in v.sources
  }

  /** The pod has the volume, but it cannot be limited. */
  predicate Unlimitable(env: Env, volume: string) {
    DirOf(env, volume).NoDir? && !DirOf(env, volume).reason.VolumeNotFound?
  }

  /** Some row of the limiter has an invalid byte limit, or some volume it limits exists but cannot be limited. */
  ghost predicate Blocked(pod: Pod, cr: string) {
    || (exists l, row :: l in pod.limiters && l.name == cr && TakesPart(l, Sources(TableOf(Existing(pod))))
                         && row in l.rows && !RowValid(row.limits))
    || (exists volume :: cr in RowOfTable(Wanted(pod), volume) && Unlimitable(pod.env, volume))
  }

  datatype PodState = PodPending | PodApplied | PodFailed

  /** The pod's PodIOLimit when it can be read and its agent has seen the current spec. */
  function CurrentPil(pod: Pod): Option<Pil> {
    match (if pod.later.Some? then FindPil(pod.later.value, pod.uid) else None)
    case None => None
    case Some(pil) => if pil.observed == pil.generation then Some(pil) else None
  }

  predicate IsBad(s: Option<VolumeState>) { s == Some(Failed) || s == Some(Unsupported) }

  ghost predicate AllMineApplied(pod: Pod, cr: string) {
    && CurrentPil(pod).Some?
    && (exists volume :: IsMine(pod, cr, volume))
    && (forall volume | IsMine(pod, cr, volume) :: FindState(CurrentPil(pod).value.states, volume) == Some(Applied))
  }

  ghost predicate SomeMineFailed(pod: Pod, cr: string) {
    && CurrentPil(pod).Some?
    && (exists volume :: IsMine(pod, cr, volume) && IsBad(FindState(CurrentPil(pod).value.states, volume)))
  }

  ghost function StateFor(pod: Pod, cr: string): PodState {
    if AllMineApplied(pod, cr) then PodApplied else if SomeMineFailed(pod, cr) then PodFailed else PodPending
  }

  predicate HasListedVolume(pod: Pod, cr: Limiter) {
    exists row, v | row in cr.rows && v in pod.env.volumes :: v.name == row.volume
  }

  datatype Outcome = Ignored | WithoutVolumes | Matched(state: PodState)

  ghost function OutcomeOf(pod: Pod, cr: Limiter): Outcome {
    if !pod.scheduled || pod.terminal || !pod.selected then Ignored
    else if !HasListedVolume(pod, cr) then WithoutVolumes
    else if Blocked(pod, cr.name) then Matched(PodFailed)
    else Matched(StateFor(pod, cr.name))
  }

  // ---------- the verdicts in terms of what was read ----------

  /** The pod counts: it is scheduled, still running, selected, and has a volume the limiter lists. */
  ghost predicate Counts(pod: Pod, cr: Limiter) {
    && pod.scheduled && !pod.terminal && pod.selected
    && exists row, v :: row in cr.rows && v in pod.env.volumes && v.name == row.volume
  }

  /** The limiter takes part for the pod, and some row of it has a byte limit that is not acceptable. */
  ghost predicate HasBadRow(pod: Pod, name: string) {
    exists l, row :: l in pod.limiters && l.name == name && row in l.rows && !Acceptable(row.limits)
      && (l.verdict.Matches? || (l.verdict.Invalid? && l.name in Sources(TableOf(Existing(pod)))))
  }

  /** The limiter contributes to a volume that the pod has but that has no kubelet directory. */
  ghost predicate HasBadVolume(pod: Pod, name: string) {
    exists volume :: name in RowOfTable(Wanted(pod), volume)
      && (DirOf(pod.env, volume) == NoDir(UnsupportedVolumeType) || DirOf(pod.env, volume) == NoDir(PVCNotBound)
          || DirOf(pod.env, volume) == NoDir(InvalidLimit))
  }

  /** This is the pod's PodIOLimit and the agent has seen its current generation. */
  ghost predicate IsCurrent(pod: Pod, pil: Pil) {
    pod.later.Some? && FindPil(pod.later.value, pod.uid) == Some(pil) && pil.observed == pil.generation
  }

  ghost predicate ReportsFailure(pod: Pod, name: string) {
    exists pil, volume :: IsCurrent(pod, pil) && IsMine(pod, name, volume)
      && FindState(pil.states, volume) in {Some(VolumeState.Failed), Some(VolumeState.Unsupported)}
  }

  ghost predicate ReportsAllApplied(pod: Pod, name: string) {
    exists pil :: IsCurrent(pod, pil) && (exists volume :: IsMine(pod, name, volume))
      && forall volume | IsMine(pod, name, volume) :: FindState(pil.states, volume) == Some(VolumeState.Applied)
  }

  lemma BlockedSays(pod: Pod, name: string)
    ensures Blocked(pod, name) <==> HasBadRow(pod, name) || HasBadVolume(pod, name)
  {
    forall l, row | l in pod.limiters && row in l.rows ensures RowValid(row.limits) <==> Acceptable(row.limits) {
      ContributionSays(row, name, map[]);
    }
  }

  /** Which pods are not counted at all, and which only as having none of the volumes. */
  lemma UncountedSay(pod: Pod, cr: Limiter)
    ensures OutcomeOf(pod, cr) == Ignored <==> !pod.scheduled || pod.terminal || !pod.selected
    ensures OutcomeOf(pod, cr) == WithoutVolumes <==>
              && pod.scheduled && !pod.terminal && pod.selected
              && forall row, v | row in cr.rows && v in pod.env.volumes :: v.name != row.volume
    ensures OutcomeOf(pod, cr).Matched? <==> Counts(pod, cr)
  {}

  /** When a counted pod fails, is applied, or is pending. */
  lemma VerdictsSay(pod: Pod, cr: Limiter)
    requires Counts(pod, cr)
    ensures var bad := HasBadRow(pod, cr.name) || HasBadVolume(pod, cr.name);
            && (OutcomeOf(pod, cr) == Matched(PodFailed) <==> bad || ReportsFailure(pod, cr.name))
            && (OutcomeOf(pod, cr) == Matched(PodApplied) <==> !bad && ReportsAllApplied(pod, cr.name))
            && (OutcomeOf(pod, cr) == Matched(PodPending) <==>
                  !bad && !ReportsFailure(pod, cr.name) && !ReportsAllApplied(pod, cr.name))
  {
    BlockedSays(pod, cr.name);
    CurrentSays(pod);
    StatesSay(pod, cr.name);
  }

  lemma CurrentSays(pod: Pod)
    ensures forall pil :: IsCurrent(pod, pil) <==> CurrentPil(pod) == Some(pil)
  {}

  lemma StatesSay(pod: Pod, name: string)
    ensures AllMineApplied(pod, name) <==> ReportsAllApplied(pod, name)
    ensures SomeMineFailed(pod, name) <==> ReportsFailure(pod, name)
    ensures !(ReportsAllApplied(pod, name) && ReportsFailure(pod, name))
  {
    CurrentSays(pod);
  }

  /** Judging the pod needs a lookup that fails. */
  predicate Unreadable(pod: Pod, cr: Limiter) {
    pod.scheduled && !pod.terminal && pod.selected && HasListedVolume(pod, cr) && !pod.readable
  }

  // ---------- issues ----------

  lemma {:induction false} IssuesOfRowsAre(limiter: string, rows: seq<Row>, i: Issue)
    ensures i in IssuesOfRows(limiter, rows) <==> exists row :: row in rows && i in RowIssues(row, limiter)
  {
    if rows != [] {
      var init, last := rows[..|rows|-1], rows[|rows|-1];
      IssuesOfRowsAre(limiter, init, i);
      assert rows == init + [last];
    }
  }

  lemma {:induction false} IssuesOfLimitersAre(limiters: seq<Limiter>, i: Issue)
    ensures i in IssuesOfLimiters(limiters)
            <==> exists l, row :: l in limiters && row in l.rows && i in RowIssues(row, l.name)
  {
    if limiters != [] {
      var init, last := limiters[..|limiters|-1], limiters[|limiters|-1];
      IssuesOfLimitersAre(init, i);
      IssuesOfRowsAre(last.name, last.rows, i);
      assert limiters == init + [last];
    }
  }

  lemma {:induction false} UnresolvedIssuesAre(env: Env, t: Table, names: seq<string>, i: Issue)
    ensures i in UnresolvedIssues(env, t, names)
            <==> i.volume in names && DirOf(env, i.volume) == NoDir(i.reason) && i.limiter in RowOfTable(t, i.volume)
  {
    if names != [] {
      var init, name := names[..|names|-1], names[|names|-1];
      UnresolvedIssuesAre(env, t, init, i);
      assert names == init + [name];
      if DirOf(env, name).NoDir? {
        var sources := SortedOf(RowOfTable(t, name).Keys);
        var here := IssuesFor(name, sources, DirOf(env, name).reason);
        if i in here {
          var k :| 0 <= k < |here| && here[k] == i;
          assert sources[k] in sources;
        }
        if i.volume == name && i.reason == DirOf(env, name).reason && i.limiter in RowOfTable(t, name) {
          assert i.limiter in sources;
          var k :| 0 <= k < |sources| && sources[k] == i.limiter;
          assert here[k] == i;
        }
      }
    }
  }

  lemma RowIssuesAre(row: Row, limiter: string)
    ensures forall i | i in RowIssues(row, limiter) :: i == Issue(row.volume, limiter, InvalidLimit)
    ensures RowIssues(row, limiter) != [] <==> !RowValid(row.limits)
  {}

  /** An issue of the limiter that fails the pod. */
  predicate IsBlocking(i: Issue, cr: string) { i.limiter == cr && !i.reason.VolumeNotFound? }

  /** The limiter has a blocking issue among those that Compute reports exactly when it is blocked. */
  lemma BlockingIssues(pod: Pod, limiters: seq<Limiter>, issues: seq<Issue>, cr: string)
    requires forall l :: l in limiters <==> l in pod.limiters && TakesPart(l, Sources(TableOf(Existing(pod))))
    requires issues == IssuesOfLimiters(limiters) + UnresolvedIssues(pod.env, Wanted(pod), SortedOf(Wanted(pod).Keys))
    ensures (exists i :: i in issues && IsBlocking(i, cr)) <==> Blocked(pod, cr)
  {
    var t := Wanted(pod);
    var names := SortedOf(t.Keys);
    forall i | i in issues && IsBlocking(i, cr) ensures Blocked(pod, cr) {
      IssuesOfLimitersAre(limiters, i);
      UnresolvedIssuesAre(pod.env, t, names, i);
      if i in IssuesOfLimiters(limiters) {
        var l, row :| l in limiters && row in l.rows && i in RowIssues(row, l.name);
        RowIssuesAre(row, l.name);
      } else {
        assert cr in RowOfTable(t, i.volume);
      }
    }
    forall l, row | l in limiters && l.name == cr && row in l.rows && !RowValid(row.limits)
      ensures exists i :: i in issues && IsBlocking(i, cr)
    {
      RowIssuesAre(row, cr);
      var i := Issue(row.volume, cr, InvalidLimit);
      assert RowIssues(row, cr)[0] == i;
      IssuesOfLimitersAre(limiters, i);
      assert i in issues;
    }
    forall volume | cr in RowOfTable(t, volume) && Unlimitable(pod.env, volume)
      ensures exists i :: i in issues && IsBlocking(i, cr)
    {
      var i := Issue(volume, cr, DirOf(pod.env, volume).reason);
      assert volume in names;
      UnresolvedIssuesAre(pod.env, t, names, i);
      assert i in issues;
    }
  }

  // ---------- the code ----------

  lemma {:induction false} FindPilIn(pils: seq<Pil>, uid: string)
    ensures FindPil(pils, uid).Some? ==> FindPil(pils, uid).value in pils && FindPil(pils, uid).value.uid == uid
    ensures FindPil(pils, uid).None? ==> forall p | p in pils :: p.uid != uid
  {
    if pils != [] && pils[0].uid != uid {
      FindPilIn(pils[1..], uid);
    }
  }

  /** computeVolumesFor: the same limiters and the same Compute as the writer of the spec uses. */
  method ComputeVolumesFor(pod: Pod) returns (volumes: seq<VolumeLimit>, issues: seq<Issue>)
    requires ApiValid(pod)
    ensures volumes == Output(pod.env, Wanted(pod))
    ensures forall cr :: (exists i :: i in issues && IsBlocking(i, cr)) <==> Blocked(pod, cr)
  {
    FindPilIn(pod.pils, pod.uid);
    var existing := Existing(pod);
    var limiters := LimitersForPod(pod.limiters, existing);
    volumes, issues := Compute(pod.env, limiters, existing);
    SourceNamesAre(existing);
    var sources := Sources(TableOf(existing));
    ParticipantsAre(pod.limiters, sources);
    OrderDoesNotMatter(TableOf(existing), limiters, Participants(pod.limiters, sources));
    forall cr ensures (exists i :: i in issues && IsBlocking(i, cr)) <==> Blocked(pod, cr) {
      BlockingIssues(pod, limiters, issues, cr);
    }
  }

  method PodHasAnyListedVolume(pod: Pod, cr: Limiter) returns (has: bool)
    ensures has == HasListedVolume(pod, cr)
  {
    for i := 0 to |cr.rows|
      invariant forall row, v | row in cr.rows[..i] && v in pod.env.volumes :: v.name != row.volume
    {
      for j := 0 to |pod.env.volumes|
        invariant forall v | v in pod.env.volumes[..j] :: v.name != cr.rows[i].volume
      {
        if pod.env.volumes[j].name == cr.rows[i].volume {
          assert cr.rows[i] in cr.rows && pod.env.volumes[j] in pod.env.volumes;
          return true;
        }
      }
    }
    has := false;
  }

  method MyVolumes(volumes: seq<VolumeLimit>, cr: string) returns (names: seq<string>)
    ensures forall n :: n in names <==> exists v :: v in volumes && v.name == n && cr in v.sources
  {
    names := [];
    for i := 0 to |volumes|
      invariant forall n :: n in names <==> exists v :: v in volumes[..i] && v.name == n && cr in v.sources
    {
      assert volumes[..i+1] == volumes[..i] + [volumes[i]];
      if cr in volumes[i].sources {
        names := names + [volumes[i].name];
      }
    }
    assert volumes[..|volumes|] == volumes;
  }

  /** podIOLimitStateFor: the state of the pod as far as this limiter is concerned. */
  method PodIOLimitStateFor(pod: Pod, cr: string, volumes: seq<VolumeLimit>) returns (state: PodState)
    requires volumes == Output(pod.env, Wanted(pod))
    ensures state == StateFor(pod, cr)
    ensures state == PodFailed <==> ReportsFailure(pod, cr)
    ensures state == PodApplied <==> ReportsAllApplied(pod, cr)
  {
    StatesSay(pod, cr);
    var mine := MyVolumes(volumes, cr);
    assert forall n :: n in mine <==> IsMine(pod, cr, n);
    if mine == [] || pod.later.None? {
      return PodPending;
    }
    var pil := FindPil(pod.later.value, pod.uid);
    if pil.None? || pil.value.observed != pil.value.generation {
      return PodPending;
    }
    state := Aggregate(pil.value.states, mine);
    assert mine[0] in mine;
  }

  /** One pass: failed once any volume failed, applied only while every volume is. */
  method Aggregate(states: seq<NamedState>, names: seq<string>) returns (state: PodState)
    ensures state == PodFailed <==> exists n :: n in names && IsBad(FindState(states, n))
    ensures state == PodFailed <==>
              exists n :: n in names
                && FindState(states, n) in {Some(VolumeState.Failed), Some(VolumeState.Unsupported)}
    ensures state == PodApplied <==> forall n | n in names :: FindState(states, n) == Some(Applied)
  {
    state := PodApplied;
    for i := 0 to |names|
      invariant state == PodFailed <==> exists n :: n in names[..i] && IsBad(FindState(states, n))
      invariant state == PodApplied <==> forall n | n in names[..i] :: FindState(states, n) == Some(Applied)
    {
      assert names[..i+1] == names[..i] + [names[i]] && names[i] in names[..i+1];
      var s := FindState(states, names[i]);
      if s.None? {
        if state != PodFailed {
          state := PodPending;
        }
      } else if s.value == Applied {
      } else if s.value == Failed || s.value == Unsupported {
        state := PodFailed;
      } else if state != PodFailed {
        state := PodPending;
      }
    }
    assert names[..|names|] == names;
  }

  /** The counters one reconcile fills. */
  class PodEvalTally {
    var matched: nat
    var applied: nat
    var failed: nat
    var pending: nat
    var withoutVolumes: nat

    constructor ()
      ensures matched == applied == failed == pending == withoutVolumes == 0
    {
      matched, applied, failed, pending, withoutVolumes := 0, 0, 0, 0, 0;
    }

    /** The counters hold the outcomes of exactly these pods. */
    ghost predicate Holds(os: seq<Outcome>)
      reads this
    {
      && matched == CountMatched(os)
      && applied == Count(os, Matched(PodApplied))
      && failed == Count(os, Matched(PodFailed))
      && pending == Count(os, Matched(PodPending))
      && withoutVolumes == Count(os, WithoutVolumes)
    }

    /** The loop over all pods; false when a lookup fails. */
    method EvalAll(pods: seq<Pod>, cr: Limiter) returns (ok: bool)
      requires Holds([]) && forall pod | pod in pods :: ApiValid(pod)
      modifies this
      ensures !ok <==> exists pod :: pod in pods && Unreadable(pod, cr)
      ensures ok ==> Holds(Outcomes(pods, cr))
    {
      for i := 0 to |pods|
        invariant forall pod | pod in pods[..i] :: !Unreadable(pod, cr)
        invariant Holds(Outcomes(pods[..i], cr))
      {
        var pod := pods[i];
        OneMorePod(pods, i, cr);
        if !pod.scheduled || pod.terminal || !pod.selected {
          continue;
        }
        ok := EvalPod(pod, cr);
        if !ok {
          assert pod in pods;
          return;
        }
      }
      assert pods[..|pods|] == pods;
      ok := true;
    }

    /** evalPod; false when a lookup fails, which ends the whole reconcile. */
    method EvalPod(pod: Pod, cr: Limiter) returns (ok: bool)
      requires ApiValid(pod) && pod.scheduled && !pod.terminal && pod.selected
      modifies this
      ensures ok <==> !Unreadable(pod, cr)
      ensures var o := OutcomeOf(pod, cr);
              ok ==>
              && matched == old(matched) + One(o.Matched?)
              && applied == old(applied) + One(o == Matched(PodApplied))
              && failed == old(failed) + One(o == Matched(PodFailed))
              && pending == old(pending) + One(o == Matched(PodPending))
              && withoutVolumes == old(withoutVolumes) + One(o == WithoutVolumes)
    {
      var has := PodHasAnyListedVolume(pod, cr);
      if !has {
        withoutVolumes := withoutVolumes + 1;
        return true;
      }
      matched := matched + 1;
      if !pod.readable {
        return false;
      }
      ok := true;
      var volumes, issues := ComputeVolumesFor(pod);
      if exists i | i in issues :: IsBlocking(i, cr.name) {
        failed := failed + 1;
        return;
      }
      var state := PodIOLimitStateFor(pod, cr.name, volumes);
      match state {
        case PodApplied => applied := applied + 1;
        case PodFailed => failed := failed + 1;
        case PodPending => pending := pending + 1;
      }
    }
  }

  // ---------- the status ----------

  datatype LimiterReason = NoMatchingPods | AllApplied | SomeFailed | StillPending | InvalidSelector

  datatype LimiterStatus = LimiterStatus(matched: nat, applied: nat, failed: nat, withoutVolumes: nat,
                                         ready: bool, reason: LimiterReason)

  /** setIOLimiterReady. */
  function ReadyOf(matched: nat, applied: nat, failed: nat): (bool, LimiterReason) {
    if matched == 0 then (true, NoMatchingPods)
    else if failed == 0 && applied == matched then (true, AllApplied)
    else if failed > 0 then (false, SomeFailed)
    else (false, StillPending)
  }

  function One(b: bool): nat { if b then 1 else 0 }

  /** The outcomes of all pods, in the order of the listing. */
  ghost function Outcomes(pods: seq<Pod>, cr: Limiter): seq<Outcome> {
    seq(|pods|, i requires 0 <= i < |pods| => OutcomeOf(pods[i], cr))
  }

  ghost function Count(os: seq<Outcome>, o: Outcome): nat {
    if os == [] then 0 else Count(os[..|os|-1], o) + One(os[|os|-1] == o)
  }

  ghost function CountMatched(os: seq<Outcome>): nat {
    if os == [] then 0 else CountMatched(os[..|os|-1]) + One(os[|os|-1].Matched?)
  }

  lemma CountAppend(os: seq<Outcome>, o: Outcome, kind: Outcome)
    ensures Count(os + [o], kind) == Count(os, kind) + One(o == kind)
    ensures CountMatched(os + [o]) == CountMatched(os) + One(o.Matched?)
  {
    assert (os + [o])[..|os|] == os;
  }

  lemma OneMorePod(pods: seq<Pod>, i: nat, cr: Limiter)
    requires i < |pods|
    ensures var before, after, o := Outcomes(pods[..i], cr), Outcomes(pods[..i+1], cr), OutcomeOf(pods[i], cr);
            && CountMatched(after) == CountMatched(before) + One(o.Matched?)
            && forall kind :: Count(after, kind) == Count(before, kind) + One(o == kind)
  {
    var before, o := Outcomes(pods[..i], cr), OutcomeOf(pods[i], cr);
    assert Outcomes(pods[..i+1], cr) == before + [o];
    forall kind ensures Count(before + [o], kind) == Count(before, kind) + One(o == kind) {
      CountAppend(before, o, kind);
    }
    CountAppend(before, o, o);
  }

  /** Every matched pod is counted under exactly one state. */
  lemma {:induction false} CountsAddUp(os: seq<Outcome>)
    ensures CountMatched(os)
            == Count(os, Matched(PodApplied)) + Count(os, Matched(PodFailed)) + Count(os, Matched(PodPending))
  {
    if os != [] {
      CountsAddUp(os[..|os|-1]);
      var last := os[|os|-1];
      if last.Matched? {
        match last.state
        case PodApplied => assert last == Matched(PodApplied);
        case PodFailed => assert last == Matched(PodFailed);
        case PodPending => assert last == Matched(PodPending);
      }
    }
  }

  lemma {:induction false} CountIsZero(os: seq<Outcome>, o: Outcome)
    ensures Count(os, o) == 0 <==> o !in os
  {
    if os != [] {
      var init, last := os[..|os|-1], os[|os|-1];
      CountIsZero(init, o);
      assert os == init + [last];
    }
  }

  lemma MatchedIsZero(os: seq<Outcome>)
    ensures CountMatched(os) == 0 <==> forall o | o in os :: !o.Matched?
  {
    CountsAddUp(os);
    CountIsZero(os, Matched(PodApplied));
    CountIsZero(os, Matched(PodFailed));
    CountIsZero(os, Matched(PodPending));
  }

  ghost predicate SomeMatched(os: seq<Outcome>) {
    exists o :: o in os && o.Matched?
  }

  ghost predicate AllMatchedApplied(os: seq<Outcome>) {
    forall o | o in os && o.Matched? :: o.state == PodApplied
  }

  /** What the Ready reason tells about the pods; a failed write counts as one more failure. */
  ghost predicate ReasonTells(os: seq<Outcome>, writeFailed: bool, reason: LimiterReason) {
    && (reason == NoMatchingPods <==> !SomeMatched(os))
    && (reason == AllApplied <==> SomeMatched(os) && !writeFailed && AllMatchedApplied(os))
    && (reason == SomeFailed <==> SomeMatched(os) && (writeFailed || Matched(PodFailed) in os))
  }

  lemma AllAreApplied(os: seq<Outcome>)
    ensures Count(os, Matched(PodFailed)) == 0 && Count(os, Matched(PodApplied)) == CountMatched(os)
            <==> AllMatchedApplied(os)
  {
    CountsAddUp(os);
    CountIsZero(os, Matched(PodFailed));
    CountIsZero(os, Matched(PodPending));
    forall o | o in os && o.Matched? ensures o in {Matched(PodApplied), Matched(PodFailed), Matched(PodPending)} {
    }
  }

  lemma ReasonIsTrue(os: seq<Outcome>, writeFailed: bool)
    ensures var failed := Count(os, Matched(PodFailed)) + One(writeFailed);
            var (_, reason) := ReadyOf(CountMatched(os), Count(os, Matched(PodApplied)), failed);
            ReasonTells(os, writeFailed, reason)
  {
    MatchedIsZero(os);
    CountIsZero(os, Matched(PodFailed));
    AllAreApplied(os);
  }

  /** The status written when every lookup answered, in terms of the pods' outcomes. */
  ghost predicate IsTally(os: seq<Outcome>, writeFailed: bool, status: LimiterStatus) {
    && status.matched == CountMatched(os)
    && status.applied == Count(os, Matched(PodApplied))
    && status.failed == Count(os, Matched(PodFailed)) + One(writeFailed)
    && status.withoutVolumes == Count(os, WithoutVolumes)
    && status.matched == status.applied + (status.failed - One(writeFailed)) + Count(os, Matched(PodPending))
    && status.ready == (status.reason == NoMatchingPods || status.reason == AllApplied)
    && ReasonTells(os, writeFailed, status.reason)
  }

  /**
   The counting part of the IOLimiter reconcile; `writeFailed` is the condition the spec's writer left on the
   limiter. A failed lookup of any pod that has to be judged ends it without a status.
   */
  method Reconcile(cr: Limiter, selectorValid: bool, pods: seq<Pod>,
                   writeFailed: bool) returns (r: Option<LimiterStatus>)
    requires forall pod | pod in pods :: ApiValid(pod)
    ensures !selectorValid ==> r == Some(LimiterStatus(0, 0, 0, 0, false, InvalidSelector))
    ensures selectorValid ==> (r.None? <==> exists pod :: pod in pods && Unreadable(pod, cr))
    ensures selectorValid && r.Some? ==> IsTally(Outcomes(pods, cr), writeFailed, r.value)
  {
    if !selectorValid {
      return Some(LimiterStatus(0, 0, 0, 0, false, InvalidSelector));
    }
    var tally := new PodEvalTally();
    var ok := tally.EvalAll(pods, cr);
    if !ok {
      return None;
    }
    CountsAddUp(Outcomes(pods, cr));
    ReasonIsTrue(Outcomes(pods, cr), writeFailed);
    if writeFailed {
      tally.failed := tally.failed + 1;
    }
    var (ready, reason) := ReadyOf(tally.matched, tally.applied, tally.failed);
    r := Some(LimiterStatus(tally.matched, tally.applied, tally.failed, tally.withoutVolumes, ready, reason));
  }

  // ---------- what AllApplied promises ----------

  /** A limiting row of a limiter that is not blocked contributes to its volume. */
  lemma UnblockedRowCounts(pod: Pod, cr: Limiter, row: Row)
    requires WellNamed(pod.limiters) && cr in pod.limiters && cr.verdict.Matches? && !Blocked(pod, cr.name)
    requires row in cr.rows && row.limits.SetsSomething()
    ensures cr.name in RowOfTable(Wanted(pod), row.volume)
  {
    RoundIsOwn(pod.limiters, TableOf(Existing(pod)), row.volume, cr.name);
    FindLimiterIn(pod.limiters, cr.name);
    SameNameSameLimiter(pod.limiters);
    FindRowIn(cr.rows, row.volume);
    assert TakesPart(cr, Sources(TableOf(Existing(pod))));
    assert RowValid(row.limits);
    assert Entry(Wanted(pod), row.volume, cr.name).Some?;
  }

  lemma ResolvingVolumeIsMine(pod: Pod, cr: string, volume: string)
    requires cr in RowOfTable(Wanted(pod), volume) && DirOf(pod.env, volume).Dir?
    ensures IsMine(pod, cr, volume)
  {
    var t := Wanted(pod);
    var v := VolumeOf(volume, DirOf(pod.env, volume).name, RowOfTable(t, volume));
    ListedVolumes(pod.env, t, SortedOf(t.Keys), v);
    assert v in Output(pod.env, t) && cr in v.sources;
  }

  /**
   A pod counted as applied has a PodIOLimit of its own UID that the agent has seen in its current generation, and
   every row of the limiter that sets a limit is reported Applied there, unless the pod has no such volume.
   */
  lemma AppliedCoversEveryRow(pod: Pod, cr: Limiter, row: Row)
    requires ApiValid(pod) && cr in pod.limiters && cr.verdict.Matches?
    requires OutcomeOf(pod, cr) == Matched(PodApplied)
    requires row in cr.rows && row.limits.SetsSomething()
    ensures FindPodVolume(pod.env.volumes, row.volume).None?
            || (pod.later.Some?
                && exists pil :: pil in pod.later.value && pil.uid == pod.uid && pil.observed == pil.generation
                                 && FindState(pil.states, row.volume) == Some(Applied))
  {
    FindPilIn(pod.later.value, pod.uid);
    UnblockedRowCounts(pod, cr, row);
    if DirOf(pod.env, row.volume).NoDir? {
      assert !Unlimitable(pod.env, row.volume);
      OnlyMissingIsNotFound(pod.env, row.volume);
    } else {
      ResolvingVolumeIsMine(pod, cr.name, row.volume);
    }
  }

  lemma OnlyMissingIsNotFound(env: Env, volume: string)
    ensures DirOf(env, volume) == NoDir(VolumeNotFound) <==> FindPodVolume(env.volumes, volume).None?
  {}
}
