/**
 The controller's reconcile of one pod's PodIOLimit and its removal of the finalizer, as imperative code.
 `others` is an arbitrary strategy of everyone else: between any two calls of the controller it may run
 the agent, users, the kernel and the pod for any number of steps, so these methods are proved under every interleaving.
 */
module Controller {
  import opened Grouping
  import opened Status
  import opened Protocol
  import opened Trails
  import Desired
  import Rounds
  import SpecSync
  import EndToEnd

  lemma HasFinalizer(trail: seq<State>, v: nat)
    requires IsTrail(trail) && v < |trail[|trail|-1].hist|
    ensures trail[|trail|-1].hist[v].Present? ==> trail[|trail|-1].hist[v].finalizer
  {
    TrailInv(trail);
  }

  lemma RemovedWhileDeleting(trail: seq<State>)
    requires IsTrail(trail) && Shaped(trail[|trail|-1]) && trail[|trail|-1].ctrl.CPatching?
    ensures trail[|trail|-1].Last().Present? ==> trail[|trail|-1].Last().deleting
  {
    TrailInv(trail);
  }

  lemma RemovalStands(trail: seq<State>)
    requires IsTrail(trail) && Shaped(trail[|trail|-1])
    requires trail[|trail|-1].ctrl.CRemoving? || trail[|trail|-1].ctrl.CPatching?
    ensures trail[|trail|-1].Last().Absent? || trail[|trail|-1].Last().deleting
  {
    TrailInv(trail);
  }

  /** Some version from `from` on shows the object gone. */
  ghost predicate GoneSince(hist: seq<Object>, from: nat) {
    exists v :: from <= v < |hist| && hist[v].Absent?
  }

  /** Some version is being deleted and still owns devices. */
  ghost predicate SomeUnreleased(hist: seq<Object>) {
    exists v :: 0 <= v < |hist| && hist[v].Terminating() && hist[v].devices != map[]
  }

  /** The volumes computed for the pod from those its object carries. */
  ghost function Computed(env: Desired.Env, all: seq<Desired.Limiter>, carried: seq<Desired.VolumeLimit>)
    : seq<Desired.VolumeLimit>
  {
    Desired.Output(env, Rounds.Round(all, Desired.TableOf(carried)))
  }

  /**
   What becomes of the history `s.hist` when `o` was listed and `wanted` is to be there: an object nobody wants is
   deleted; one that is missing is created, unless the pod is on its way out; one that differs is patched; and
   nothing is written when there is nothing to do.
   */
  ghost predicate IsSynced(s: State, o: Object, wanted: Spec, differs: bool, podTerminating: bool, t: State)
    requires s.hist != []
  {
    if wanted == [] then t.hist == if o.Present? then s.Delete().hist else s.hist
    else if o.Absent? then
      t.hist == if podTerminating || s.Last().Present? then s.hist
                else s.hist + [Present(wanted, 1, false, true, map[], NO_REPORT)]
    else t.hist == if differs && s.Last().Present? then s.Edit(wanted).hist else s.hist
  }

  /** The same for computed volumes: an object differs when its volumes do, compared by name. */
  ghost predicate Synced(s: State, o: Object, volumes: seq<Desired.VolumeLimit>, current: seq<Desired.VolumeLimit>,
                         podTerminating: bool, t: State)
    requires s.hist != []
  {
    IsSynced(s, o, EndToEnd.AgentSpec(volumes), SpecSync.ByName(volumes) != SpecSync.ByName(current), podTerminating, t)
  }

  datatype Result = Finished | RequeueSoon | Waiting

  class PodController {
    const others: seq<State> -> seq<State>
    const lag: seq<State> -> nat
    const stored: nat -> seq<Desired.VolumeLimit>   // each version's full volumes; the protocol keeps the agent's part
    var trail: seq<State>

    ghost predicate Valid()
      reads this`trail
    {
      && IsTrail(trail) && Shaped(trail[|trail|-1])
      && IsStrategy(TheController, others)
    }

    function Now(): State
      requires trail != []
      reads this`trail
    {
      trail[|trail|-1]
    }

    constructor (start: State, others: seq<State> -> seq<State>, lag: seq<State> -> nat,
                 stored: nat -> seq<Desired.VolumeLimit>)
      requires Init(start) && IsStrategy(TheController, others)
      ensures Valid() && trail == [start] && this.stored == stored
    {
      this.others, this.lag, this.stored, trail := others, lag, stored, [start];
    }

    /** Time passes: others move. */
    method Elapse()
      requires Valid()
      modifies this`trail
      ensures Valid() && Continues(old(trail), trail) && Untouched(TheController, old(Now()), Now())
      ensures Grown(old(Now().hist), Now().hist)
    {
      assert PlaysAt(TheController, others, trail);
      OthersMove(TheController, trail, others(trail));
      trail := trail + others(trail);
    }

    method Take(ghost step: Step, t: State)
      requires Valid() && NextCtrl(Now(), step, t)
      modifies this`trail
      ensures Valid() && trail == old(trail) + [t] && Now() == t
    {
      Extend(trail, step, t);
      trail := trail + [t];
    }

    /** A cached read: any version from the last one seen on. */
    method PickVersion() returns (i: nat)
      requires Valid()
      ensures Now().ctrlSeen <= i < |Now().hist|
    {
      i := Now().ctrlSeen + lag(trail) % (|Now().hist| - Now().ctrlSeen);
    }

    /** getPod; `view` is what the cache or the live read shows. */
    method GetPod(view: PodPhase)
      requires Valid() && Now().ctrl.CIdle? && Rank(Now().podSeen) <= Rank(view) <= Rank(Now().pod)
      modifies this`trail
      ensures Valid() && Continues(old(trail), trail) && Now().ctrl.CHasPod? && Now().podSeen == view
    {
      var s := Now();
      Take(CtrlPod(view), s.(podSeen := view, ctrl := CHasPod));
    }

    method ListObject() returns (o: Object)
      requires Valid() && Now().ctrl.CHasPod?
      modifies this`trail
      ensures Valid() && Continues(old(trail), trail)
      ensures Now().ctrl.CListed? && Now().hist[Now().ctrl.idx] == o && Now().podSeen == old(Now().podSeen)
    {
      var i := PickVersion();
      var s := Now();
      Take(CtrlList(i), s.(ctrlSeen := i, ctrl := CListed(i)));
      o := s.hist[i];
    }

    /** Both reads; others move in between and after. */
    method Observe(view: PodPhase) returns (o: Object)
      requires Valid() && Now().ctrl.CIdle? && Rank(Now().podSeen) <= Rank(view) <= Rank(Now().pod)
      modifies this`trail
      ensures Valid() && Continues(old(trail), trail) && |old(trail)| < |trail|
      ensures Now().ctrl.CListed? && Now().hist[Now().ctrl.idx] == o && Now().podSeen == view
    {
      GetPod(view);
      Elapse();
      o := ListObject();
      Elapse();
    }

    /** The reconcile returns without another write. */
    method Return()
      requires Valid()
      modifies this`trail
      ensures Valid() && Continues(old(trail), trail) && Now().ctrl.CIdle? && Now().hist == old(Now().hist)
    {
      var s := Now();
      Take(CtrlStop, s.(ctrl := CIdle));
    }

    /** The re-read that keys the optimistic lock. */
    method Refetch() returns (copy: Object)
      requires Valid() && Now().ctrl.CRemoving?
      modifies this`trail
      ensures Valid() && Continues(old(trail), trail) && Grown(old(Now().hist), Now().hist)
      ensures old(Now().ctrlSeen) <= Now().ctrlSeen && Now().hist[Now().ctrlSeen] == copy
      ensures copy.Present? ==> copy.finalizer
      ensures Now().Last().Absent? || Now().Last().deleting
      ensures if copy.Present? then Now().ctrl.CPatching? && Now().ctrl.idx == Now().ctrlSeen else Now().ctrl.CIdle?
    {
      Elapse();
      var j := PickVersion();
      var s := Now();
      copy := s.hist[j];
      HasFinalizer(trail, j);
      RemovalStands(trail);
      var next := if copy.Present? && copy.finalizer then CPatching(j, s.ctrl.direct) else CIdle;
      Take(CtrlRefetch(j), s.(ctrlSeen := j, ctrl := next));
    }

    /** The patch with the lock: refused when the version read is no longer current. */
    method PatchLocked() returns (conflict: bool)
      requires Valid() && Now().ctrl.CPatching?
      modifies this`trail
      ensures Valid() && Continues(old(trail), trail) && Now().ctrl.CIdle?
      ensures conflict ==> Now().ctrlSeen + 1 < |Now().hist| && Now().hist == old(Now().hist)
      ensures Now().Last().Absent? || Now().Last().deleting
      ensures !conflict ==> Now().hist[|Now().hist|-1].Absent? && Now().ctrlSeen == old(Now().ctrlSeen)
    {
      var s := Now();
      if s.Last().Absent? {
        Take(CtrlUnfinalize, s.(ctrl := CIdle));
        return false;
      }
      if !s.Current(s.ctrl.idx) {
        RemovalStands(trail);
        Take(CtrlUnfinalize, s.(ctrl := CIdle));
        return true;
      }
      var next := if s.Last().deleting then Absent else s.Last().(finalizer := false);
      RemovedWhileDeleting(trail);
      Take(CtrlUnfinalize, s.Commit(next).(ctrl := CIdle));
      conflict := false;
    }

    /**
     removeFinalizerOptimistic: true only when some version shows the object gone, false only when
     somebody else committed a newer version than the one read.
     */
    method RemoveFinalizerOptimistic() returns (done: bool)
      requires Valid() && Now().ctrl.CRemoving?
      modifies this`trail
      ensures Valid() && Continues(old(trail), trail) && Now().ctrl.CIdle?
      ensures Now().Last().Absent? || Now().Last().deleting
      ensures done ==> GoneSince(Now().hist, old(Now().ctrlSeen))
      ensures !done ==> Now().ctrlSeen + 1 < |Now().hist|
    {
      var copy := Refetch();
      if copy.Absent? || !copy.finalizer {
        return true;
      }
      Elapse();
      var conflict := PatchLocked();
      done := !conflict;
    }

    /** releaseDirect: for a pod with no live cgroup. */
    method ReleaseDirect(o: Object) returns (done: bool)
      requires Valid() && Now().ctrl.CListed? && Now().hist[Now().ctrl.idx] == o && o.Present?
      requires !Now().podSeen.Running?
      modifies this`trail
      ensures Valid() && Continues(old(trail), trail) && Now().ctrl.CIdle?
      ensures Now().Last().Absent? || Now().Last().deleting
      ensures done ==> GoneSince(Now().hist, old(Now().ctrlSeen))
      ensures !done ==> Now().ctrlSeen + 1 < |Now().hist|
    {
      Elapse();
      var s := Now();
      Take(CtrlDirect, (if o.deleting then s else s.Delete()).(ctrl := CRemoving(true)));
      done := RemoveFinalizerOptimistic();
    }

    /** The volumes of the listed version `v`; none when it shows no object. */
    function Carried(o: Object, v: nat): seq<Desired.VolumeLimit> {
      if o.Absent? then [] else stored(v)
    }

    /**
     What a reconcile that listed `o` as version `v` in the state `s` has done by `t`. No object and no live pod:
     nothing. An object but no live pod: it is gone or going, and finished only when it was seen gone. Terminating:
     it waits exactly while devices are owned, and is finished only when it was seen gone. Otherwise it is synced.
     */
    ghost predicate Acted(s: State, o: Object, v: nat, view: PodPhase, env: Desired.Env, all: seq<Desired.Limiter>,
                          podTerminating: bool, r: Result, t: State)
      requires s.hist != [] && t.hist != []
    {
      && (r == RequeueSoon ==> o.Present? && (view != Running || o.deleting) && t.ctrlSeen + 1 < |t.hist|)
      && (r == Waiting ==> view == Running && o.Terminating())
      && (if view != Running then
            if o.Absent? then t.hist == s.hist && r == Finished
            else (t.Last().Absent? || t.Last().deleting) && (r == Finished ==> GoneSince(t.hist, v))
          else if o.Terminating() then
            && (r == Waiting <==> o.devices != map[])
            && (r == Waiting ==> t.hist == s.hist)
            && (r == Finished ==> GoneSince(t.hist, v))
          else
            r == Finished && Synced(s, o, Computed(env, all, Carried(o, v)), Carried(o, v), podTerminating, t))
    }

    /** At some moment since the trail had `from` states the object was listed, and from there on this was done. */
    ghost predicate ActedSince(trail: seq<State>, from: nat, view: PodPhase, env: Desired.Env,
                               all: seq<Desired.Limiter>, podTerminating: bool, r: Result, t: State)
      requires t.hist != []
    {
      exists k :: from <= k < |trail| && ActedAt(trail[k], view, env, all, podTerminating, r, t)
    }

    ghost predicate ActedAt(s: State, view: PodPhase, env: Desired.Env, all: seq<Desired.Limiter>,
                            podTerminating: bool, r: Result, t: State)
      requires t.hist != []
    {
      && s.ctrl.CListed? && s.ctrl.idx < |s.hist| && s.podSeen == view
      && Acted(s, s.hist[s.ctrl.idx], s.ctrl.idx, view, env, all, podTerminating, r, t)
    }

    lemma ActedThen(trail: seq<State>, from: nat, k: nat, view: PodPhase, env: Desired.Env,
                    all: seq<Desired.Limiter>, podTerminating: bool, r: Result, t: State)
      requires t.hist != [] && from <= k < |trail| && ActedAt(trail[k], view, env, all, podTerminating, r, t)
      ensures ActedSince(trail, from, view, env, all, podTerminating, r, t)
    {}

    /**
     The reconcile of one pod under every interleaving: what it did with the object it listed, and that it never
     leaves a rule behind in a live pod whose object is gone. `view` is the pod as read, `env` and `all` the claims
     and limiters as read, `podTerminating` whether a live pod is on its way out.
     */
    method Reconcile(view: PodPhase, env: Desired.Env, all: seq<Desired.Limiter>, podTerminating: bool)
      returns (r: Result)
      requires Valid() && Now().ctrl.CIdle? && Rank(Now().podSeen) <= Rank(view) <= Rank(Now().pod)
      requires Rounds.WellNamed(all) && forall v :: SpecSync.UniqueVolumes(stored(v))
      modifies this`trail
      ensures Valid() && Continues(old(trail), trail) && Now().ctrl.CIdle?
      ensures ActedSince(trail, |old(trail)|, view, env, all, podTerminating, r, Now())
      ensures Now().Last().Absent? && !Now().podSeen.Gone? ==> Now().written == {}
    {
      var o := Observe(view);
      ghost var listed, s := |trail| - 1, Now();
      r := Act(o, view, env, all, podTerminating);
      assert trail[listed] == s;
      ActedThen(trail, |old(trail)|, listed, view, env, all, podTerminating, r, Now());
      LeavesNothing(trail);
    }

    /** What the reconcile does with the object `o` it listed. */
    method Act(o: Object, view: PodPhase, env: Desired.Env, all: seq<Desired.Limiter>, podTerminating: bool)
      returns (r: Result)
      requires Valid() && Now().ctrl.CListed? && Now().hist[Now().ctrl.idx] == o && Now().podSeen == view
      requires Rounds.WellNamed(all) && forall v :: SpecSync.UniqueVolumes(stored(v))
      modifies this`trail
      ensures Valid() && Continues(old(trail), trail) && Now().ctrl.CIdle?
      ensures Acted(old(Now()), o, old(Now().ctrl.idx), view, env, all, podTerminating, r, Now())
    {
      if view != Running {
        if o.Absent? {
          Return();
          return Finished;
        }
        var done := ReleaseDirect(o);
        return if done then Finished else RequeueSoon;
      }
      var current := Carried(o, Now().ctrl.idx);
      var volumes, differs := SpecSync.SyncSpec(env, all, current);
      if o.Present? && o.deleting {
        r := Handshake(o);
      } else {
        Sync(o, volumes, differs, podTerminating);
        r := Finished;
      }
    }

    /** Bring a live object to the computed volumes: delete, create, patch or leave it. */
    method Sync(o: Object, volumes: seq<Desired.VolumeLimit>, differs: bool, podTerminating: bool)
      requires Valid() && Now().ctrl.CListed? && Now().hist[Now().ctrl.idx] == o && Now().podSeen.Running?
      requires !o.Terminating()
      modifies this`trail
      ensures Valid() && Continues(old(trail), trail) && Now().ctrl.CIdle?
      ensures IsSynced(old(Now()), o, EndToEnd.AgentSpec(volumes), differs, podTerminating, Now())
    {
      var s := Now();
      if volumes == [] {
        if o.Present? {
          Take(CtrlDelete, s.Delete().(ctrl := CIdle));
        } else {
          Return();
        }
      } else if o.Absent? {
        if podTerminating {
          Return();
        } else {
          CreateObject(EndToEnd.AgentSpec(volumes));
        }
      } else if differs {
        PatchObject(EndToEnd.AgentSpec(volumes));
      } else {
        Return();
      }
    }

    /** A terminating object is left alone until the agent has released every device. */
    method Handshake(o: Object) returns (r: Result)
      requires Valid() && Now().ctrl.CListed? && Now().hist[Now().ctrl.idx] == o && o.Terminating()
      requires Now().podSeen.Running?
      modifies this`trail
      ensures Valid() && Continues(old(trail), trail) && Now().ctrl.CIdle?
      ensures r == Waiting <==> o.devices != map[]
      ensures r == Waiting ==> Now().hist == old(Now().hist) && SomeUnreleased(Now().hist)
      ensures r == Finished ==> GoneSince(Now().hist, old(Now().ctrlSeen))
      ensures r == RequeueSoon ==> Now().ctrlSeen + 1 < |Now().hist|
    {
      if o.devices != map[] {
        assert SomeUnreleased(Now().hist);
        Return();
        return Waiting;
      }
      var s := Now();
      Take(CtrlHandshake, s.(ctrl := CRemoving(false)));
      var done := RemoveFinalizerOptimistic();
      r := if done then Finished else RequeueSoon;
    }

    /** Create fails with AlreadyExists when an object is there. */
    method CreateObject(wanted: Spec)
      requires Valid() && Now().ctrl.CListed? && Now().hist[Now().ctrl.idx].Absent? && Now().podSeen.Running?
      modifies this`trail
      ensures Valid() && Continues(old(trail), trail) && Now().ctrl.CIdle?
      ensures Now().hist == if old(Now().Last()).Present? then old(Now().hist)
                            else old(Now().hist) + [Present(wanted, 1, false, true, map[], NO_REPORT)]
    {
      var s := Now();
      if s.Last().Absent? {
        Take(CtrlCreate(wanted), s.Commit(Present(wanted, 1, false, true, map[], NO_REPORT)).(ctrl := CIdle));
      } else {
        Take(CtrlCreate(wanted), s.(ctrl := CIdle));
      }
    }

    /** The patch touches the spec only: ownership and the deletion mark stay as the server has them. */
    method PatchObject(wanted: Spec)
      requires Valid() && Now().ctrl.CListed? && Now().podSeen.Running?
      requires Now().hist[Now().ctrl.idx].Present? && !Now().hist[Now().ctrl.idx].deleting
      modifies this`trail
      ensures Valid() && Continues(old(trail), trail) && Now().ctrl.CIdle?
      ensures old(Now().Last()).Present? ==> Now().hist == old(Now().Edit(wanted).hist)
      ensures old(Now().Last()).Present? ==>
                && Now().Last().Present? && Now().Last().spec == wanted
                && Now().Last().generation == old(Now().Last()).generation + 1
                && Now().Last().devices == old(Now().Last()).devices
                && Now().Last().deleting == old(Now().Last()).deleting
      ensures old(Now().Last()).Absent? ==> Now().hist == old(Now().hist)
    {
      var s := Now();
      if s.Last().Present? {
        Take(CtrlPatch(wanted), s.Edit(wanted).(ctrl := CIdle));
      } else {
        Take(CtrlPatch(wanted), s.(ctrl := CIdle));
      }
    }
  }
}
