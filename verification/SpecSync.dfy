/**
 The controller keeps one PodIOLimit spec in step with the limiters: choose the limiters, compute the
 volumes, and patch only when something differs.
 */
module SpecSync {
  import opened Limits
  import opened Names
  import opened Desired
  import opened Rounds

  // ---------- choosing the limiters ----------

  /** The sources named by the contributions of an existing spec. */
  function SourceNames(existing: seq<VolumeLimit>): set<string> {
    set v, c | v in existing && c in v.contributions :: c.source
  }

  /** Some volume of the existing spec has a contribution of this limiter. */
  ghost predicate IsSource(existing: seq<VolumeLimit>, name: string) {
    exists v, c :: v in existing && c in v.contributions && c.source == name
  }

  method ListMatching(all: seq<Limiter>) returns (matched: seq<Limiter>)
    requires WellNamed(all)
    ensures WellNamed(matched)
    ensures forall l :: l in matched <==> l in all && l.verdict.Matches?
  {
    matched := [];
    for i := 0 to |all|
      invariant WellNamed(matched)
      invariant forall l :: l in matched <==> l in all[..i] && l.verdict.Matches?
    {
      assert all[..i+1] == all[..i] + [all[i]];
      if all[i].verdict.Matches? {
        Append(all, i, matched);
        matched := matched + [all[i]];
      }
    }
    assert all[..|all|] == all;
  }

  lemma Append(all: seq<Limiter>, i: nat, chosen: seq<Limiter>)
    requires WellNamed(all) && i < |all| && WellNamed(chosen)
    requires forall l | l in chosen :: l in all && l != all[i]
    ensures WellNamed(chosen + [all[i]])
  {
    SameNameSameLimiter(all);
    assert all[i] in all;
    forall k | 0 <= k < |chosen| ensures chosen[k].name != all[i].name {
      assert chosen[k] in chosen;
    }
  }

  /**
   selector.go's limitersForPod: the matching limiters, and the sources that only a broken selector keeps from
   matching.
   */
  method LimitersForPod(all: seq<Limiter>, existing: seq<VolumeLimit>) returns (chosen: seq<Limiter>)
    requires WellNamed(all)
    ensures WellNamed(chosen)
    ensures forall l :: l in chosen <==> l in all && TakesPart(l, SourceNames(existing))
    ensures forall l | l in all ::
              (l in chosen <==> l.verdict.Matches? || (l.verdict.Invalid? && IsSource(existing, l.name)))
  {
    chosen := ListMatching(all);
    if existing == [] {
      return;
    }
    var todo := SourceNames(existing);
    while todo != {}
      invariant todo <= SourceNames(existing)
      invariant WellNamed(chosen)
      invariant forall l :: l in chosen <==> l in all && TakesPart(l, SourceNames(existing) - todo)
    {
      var name :| name in todo;
      var found := FindLimiter(all, name);
      FindLimiterIn(all, name);
      SameNameSameLimiter(all);
      if found.Some? && found.value.verdict.Invalid? {
        var i :| 0 <= i < |all| && all[i] == found.value;
        Append(all, i, chosen);
        chosen := chosen + [found.value];
      }
      todo := todo - {name};
    }
  }

  // ---------- comparing specs ----------

  function ByName(vs: seq<VolumeLimit>): map<string, VolumeLimit> {
    if vs == [] then map[] else ByName(vs[..|vs|-1])[vs[|vs|-1].name := vs[|vs|-1]]
  }

  method IndexByName(vs: seq<VolumeLimit>) returns (m: map<string, VolumeLimit>)
    ensures m == ByName(vs)
  {
    m := map[];
    for i := 0 to |vs|
      invariant m == ByName(vs[..i])
    {
      assert vs[..i+1][..i] == vs[..i];
      m := m[vs[i].name := vs[i]];
    }
    assert vs[..|vs|] == vs;
  }

  lemma {:induction false} ByNameNames(vs: seq<VolumeLimit>)
    ensures forall n | n in ByName(vs) :: ByName(vs)[n].name == n
  {
    if vs != [] {
      ByNameNames(vs[..|vs|-1]);
    }
  }

  /** pod_controller.go's volumeLimitEqual; the name is compared by the caller. */
  predicate VolumeLimitEqual(a: VolumeLimit, b: VolumeLimit) {
    a.dir == b.dir && a.limits == b.limits && a.sources == b.sources && a.contributions == b.contributions
  }

  /** pod_controller.go's diffVolumes: which names were added, removed or changed. */
  method DiffVolumes(olds: seq<VolumeLimit>,
                     news: seq<VolumeLimit>) returns (added: seq<string>, removed: seq<string>, changed: seq<string>)
    ensures IsSortedOf(added, ByName(news).Keys - ByName(olds).Keys)
    ensures IsSortedOf(removed, ByName(olds).Keys - ByName(news).Keys)
    ensures IsSortedOf(changed, set n | n in ByName(olds) && n in ByName(news) && ByName(olds)[n] != ByName(news)[n])
  {
    var oldByName := IndexByName(olds);
    var newByName := IndexByName(news);
    ByNameNames(olds);
    ByNameNames(news);
    var add, change := {}, {};
    var todo := newByName.Keys;
    while todo != {}
      invariant todo <= newByName.Keys
      invariant add == newByName.Keys - todo - oldByName.Keys
      invariant change == set n | n in newByName && n !in todo && n in oldByName && oldByName[n] != newByName[n]
    {
      var name :| name in todo;
      if name !in oldByName {
        add := add + {name};
      } else if !VolumeLimitEqual(oldByName[name], newByName[name]) {
        change := change + {name};
      }
      todo := todo - {name};
    }
    added := SortKeys(add);
    changed := SortKeys(change);
    removed := SortKeys(oldByName.Keys - newByName.Keys);
  }

  lemma NoDifference(olds: seq<VolumeLimit>, news: seq<VolumeLimit>, added: seq<string>, removed: seq<string>,
                     changed: seq<string>)
    requires IsSortedOf(added, ByName(news).Keys - ByName(olds).Keys)
    requires IsSortedOf(removed, ByName(olds).Keys - ByName(news).Keys)
    requires IsSortedOf(changed, set n | n in ByName(olds) && n in ByName(news) && ByName(olds)[n] != ByName(news)[n])
    ensures added == [] && removed == [] && changed == [] <==> ByName(olds) == ByName(news)
  {
    var o, n := ByName(olds), ByName(news);
    EmptyListing(added, n.Keys - o.Keys);
    EmptyListing(removed, o.Keys - n.Keys);
    EmptyListing(changed, set k | k in o && k in n && o[k] != n[k]);
    if added == [] && removed == [] && changed == [] {
      assert n.Keys == o.Keys;
      forall k | k in o ensures o[k] == n[k] {
        assert k !in set k | k in o && k in n && o[k] != n[k];
      }
    }
  }

  // ---------- one pass of the controller ----------

  ghost predicate UniqueVolumes(vs: seq<VolumeLimit>) {
    forall i, j | 0 <= i < j < |vs| :: vs[i].name != vs[j].name
  }

  lemma {:induction false} ContributionMapKeys(cs: seq<Contribution>, n: string)
    ensures n in ContributionMap(cs) <==> exists c :: c in cs && c.source == n
  {
    if cs != [] {
      var init, last := cs[..|cs|-1], cs[|cs|-1];
      ContributionMapKeys(init, n);
      assert last in cs;
      assert forall c :: c in cs <==> c in init || c == last;
    }
  }

  lemma {:induction false} TableRows(existing: seq<VolumeLimit>, name: string)
    requires UniqueVolumes(existing)
    ensures name in TableOf(existing) <==> exists v :: v in existing && v.name == name
    ensures forall v | v in existing && v.name == name ::
              Look(TableOf(existing), name) == Some(ContributionMap(v.contributions))
  {
    if existing != [] {
      var init, last := existing[..|existing|-1], existing[|existing|-1];
      TableRows(init, name);
      assert last in existing;
      assert forall v :: v in existing <==> v in init || v == last;
    }
  }

  /** With each volume listed once, the sources are those of the indexed contributions. */
  lemma SourceNamesAre(existing: seq<VolumeLimit>)
    requires UniqueVolumes(existing)
    ensures SourceNames(existing) == Sources(TableOf(existing))
  {
    forall n ensures n in SourceNames(existing) <==> n in Sources(TableOf(existing)) {
      if n in SourceNames(existing) {
        var v, c :| v in existing && c in v.contributions && c.source == n;
        TableRows(existing, v.name);
        ContributionMapKeys(v.contributions, n);
        assert v.name in TableOf(existing) && n in TableOf(existing)[v.name];
      }
      if n in Sources(TableOf(existing)) {
        var name :| name in TableOf(existing) && n in TableOf(existing)[name];
        TableRows(existing, name);
        var v :| v in existing && v.name == name;
        ContributionMapKeys(v.contributions, n);
        var c :| c in v.contributions && c.source == n;
        assert v in existing && c in v.contributions;
      }
    }
  }

  /** Compute the volumes from the current spec and say whether they have to be patched in. */
  method SyncSpec(env: Env, all: seq<Limiter>,
                  current: seq<VolumeLimit>) returns (volumes: seq<VolumeLimit>, patch: bool)
    requires WellNamed(all) && UniqueVolumes(current)
    ensures volumes == Output(env, Round(all, TableOf(current)))
    ensures patch <==> ByName(volumes) != ByName(current)
  {
    var limiters := LimitersForPod(all, current);
    var issues;
    volumes, issues := Compute(env, limiters, current);
    SourceNamesAre(current);
    ParticipantsAre(all, Sources(TableOf(current)));
    OrderDoesNotMatter(TableOf(current), limiters, Participants(all, Sources(TableOf(current))));
    var added, removed, changed := DiffVolumes(current, volumes);
    NoDifference(current, volumes, added, removed, changed);
    patch := !(added == [] && removed == [] && changed == []);
  }

  lemma {:induction false} VolumesUnique(env: Env, t: Table, names: seq<string>)
    requires StrictlySorted(names)
    ensures UniqueVolumes(VolumesOf(env, t, names))
  {
    if names != [] {
      var init, name := names[..|names|-1], names[|names|-1];
      VolumesUnique(env, t, init);
      var vs := VolumesOf(env, t, init);
      forall i | 0 <= i < |vs| ensures vs[i].name != name {
        ListedVolumes(env, t, init, vs[i]);
        var j :| 0 <= j < |init| && init[j] == vs[i].name;
        assert Less(names[j], names[|names|-1]);
        LessTotal(name, name);
      }
    }
  }

  /** With the cluster unchanged, the pass after a pass sends no patch. */
  method SyncTwice(env: Env, all: seq<Limiter>,
                   current: seq<VolumeLimit>) returns (volumes: seq<VolumeLimit>, again: bool)
    requires WellNamed(all) && UniqueVolumes(current)
    ensures volumes == Output(env, Round(all, TableOf(current)))
    ensures !again
  {
    var first;
    volumes, first := SyncSpec(env, all, current);
    VolumesUnique(env, Round(all, TableOf(current)), SortedOf(Round(all, TableOf(current)).Keys));
    var second;
    second, again := SyncSpec(env, all, volumes);
    ComputeIsIdempotent(env, all, current);
  }
}
