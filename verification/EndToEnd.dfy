/**
 From limiters to the kernel: the rule written for a device is one flat minimum over all
 contributions, although two implementations of "minimum" take part in it.
 */
module EndToEnd {
  import opened Limits
  import opened Names
  import opened Grouping
  import D = Desired
  import opened Rounds

  /** The part of the controller's output the agent reads. */
  function AgentSpec(out: seq<D.VolumeLimit>): Spec {
    seq(|out|, i requires 0 <= i < |out| => Volume(out[i].name, out[i].dir, out[i].limits))
  }

  /** Every contribution to every volume on one device. */
  function ContributionsOn(host: Host, out: seq<D.VolumeLimit>, dev: Device): seq<Limits> {
    if out == [] then [] else
      var v := out[|out|-1];
      ContributionsOn(host, out[..|out|-1], dev)
        + (if IsOn(host, Volume(v.name, v.dir, v.limits), dev) then D.LimitsIn(v.contributions) else [])
  }

  /** Limits is what compute.go derives it to be: the fold of the contributions. */
  predicate Derived(out: seq<D.VolumeLimit>) {
    forall v | v in out ::
      v.limits == MergeAll(D.LimitsIn(v.contributions)) && forall f :: InRange(v.limits.Get(f), 0, TWO_64 - 1)
  }

  /** The rule of a device's group, or none where there is no group. */
  function RuleField(groups: map<Device, Group>, dev: Device, f: Field): Option<int> {
    if dev in groups then groups[dev].rule.Get(f) else None
  }

  /** One more volume on the device: its contributions join the list, and its minimum the rule. */
  lemma VolumeJoins(f: Field, before: seq<Limits>, rule: Option<int>, cs: seq<Limits>, limits: Limits)
    requires IsMin(f, before, rule) && limits == MergeAll(cs) && InRange(limits.Get(f), 0, TWO_64 - 1)
    ensures IsMin(f, before + cs, MinPtr(rule, ToRule(limits).Get(f)))
  {
    MergeAllIsMin(f, cs);
    ConversionKeeps(limits, f);
    MinOfTwo(f, before, rule, cs, limits.Get(f));
  }

  lemma GroupAfter(host: Host, groups: map<Device, Group>, u: Volume, dev: Device, f: Field)
    ensures RuleField(AddVolume(host, groups, u), dev, f)
            == if IsOn(host, u, dev) then MinPtr(RuleField(groups, dev, f), ToRule(u.limits).Get(f))
               else RuleField(groups, dev, f)
  {}

  lemma AgentSpecAppends(host: Host, init: seq<D.VolumeLimit>, v: D.VolumeLimit)
    ensures Groups(host, AgentSpec(init + [v]))
            == AddVolume(host, Groups(host, AgentSpec(init)), Volume(v.name, v.dir, v.limits))
  {
    assert AgentSpec(init + [v])[..|init|] == AgentSpec(init);
  }

  /** The rule of a device is the flat per-field minimum of all contributions to all volumes on it. */
  lemma {:induction false} RuleIsFlatMinimum(host: Host, out: seq<D.VolumeLimit>, dev: Device, f: Field)
    requires Derived(out)
    ensures var groups := Groups(host, AgentSpec(out));
            IsMin(f, ContributionsOn(host, out, dev), if dev in groups then groups[dev].rule.Get(f) else None)
  {
    if out != [] {
      var init, v := out[..|out|-1], out[|out|-1];
      assert out == init + [v];
      assert v in out && forall x | x in init :: x in out;
      RuleIsFlatMinimum(host, init, dev, f);
      var before := Groups(host, AgentSpec(init));
      var u := Volume(v.name, v.dir, v.limits);
      AgentSpecAppends(host, init, v);
      GroupAfter(host, before, u, dev, f);
      if IsOn(host, u, dev) {
        VolumeJoins(f, ContributionsOn(host, init, dev), RuleField(before, dev, f), D.LimitsIn(v.contributions),
                    v.limits);
      } else {
        assert ContributionsOn(host, out, dev) == ContributionsOn(host, init, dev);
      }
    }
  }

  lemma {:induction false} ContributedOn(host: Host, out: seq<D.VolumeLimit>, dev: Device, c: Limits)
    ensures c in ContributionsOn(host, out, dev) <==>
              exists v :: v in out && IsOn(host, Volume(v.name, v.dir, v.limits), dev)
                          && c in D.LimitsIn(v.contributions)
  {
    if out != [] {
      var init, last := out[..|out|-1], out[|out|-1];
      ContributedOn(host, init, dev, c);
      assert last in out;
      assert forall v :: v in out <==> v in init || v == last;
    }
  }

  lemma OutputDerived(env: D.Env, t: D.Table)
    requires AllWellFormed(t) && NoEmptyRow(t)
    ensures Derived(D.Output(env, t))
  {
    forall v | v in D.Output(env, t)
      ensures v.limits == MergeAll(D.LimitsIn(v.contributions)) && forall f :: InRange(v.limits.Get(f), 0, TWO_64 - 1)
    {
      ListedVolumes(env, t, SortedOf(t.Keys), v);
      OutputWellFormed(env, t, v);
      forall f ensures InRange(v.limits.Get(f), 0, TWO_64 - 1) {
        WellFormedFits(v.limits, f);
      }
    }
  }

  /**
   For every well-formed table of contributions, the agent's rule for a device is their flat minimum,
   is never the all-max rule, and stays within the limits of the schema.
   */
  lemma KernelRuleOfContributions(env: D.Env, t: D.Table, host: Host, dev: Device)
    requires AllWellFormed(t) && NoEmptyRow(t)
    requires dev in Groups(host, AgentSpec(D.Output(env, t)))
    ensures var out := D.Output(env, t);
            var rule := Groups(host, AgentSpec(out))[dev].rule;
            && (forall f :: IsMin(f, ContributionsOn(host, out, dev), rule.Get(f)))
            && WellFormed(rule)
  {
    var out := D.Output(env, t);
    OutputDerived(env, t);
    forall f ensures IsMin(f, ContributionsOn(host, out, dev), Groups(host, AgentSpec(out))[dev].rule.Get(f)) {
      RuleIsFlatMinimum(host, out, dev, f);
    }
    forall v | v in AgentSpec(out) ensures WellFormed(v.limits) {
      var i :| 0 <= i < |out| && AgentSpec(out)[i] == v;
      OutputWellFormed(env, t, out[i]);
    }
    GroupRuleWellFormed(host, AgentSpec(out), dev);
  }

  /**
   Along every sequence of rounds no device's rule formats to the reset line, and no value is changed by the
   conversion.
   */
  lemma NeverAllMax(rounds: seq<Cluster>, now: Cluster, host: Host, dev: Device)
    requires forall c | c in rounds :: WellNamed(c.limiters) && SchemaOk(c.limiters)
    requires WellNamed(now.limiters) && SchemaOk(now.limiters)
    requires dev in Groups(host, AgentSpec(D.Output(now.env, Round(now.limiters, After(map[], rounds)))))
    ensures var spec := AgentSpec(D.Output(now.env, Round(now.limiters, After(map[], rounds))));
            !Groups(host, spec)[dev].rule.Unlimited() && Convertible(spec)
  {
    var prev := After(map[], rounds);
    RoundsWellFormed(rounds);
    RoundWellFormed(now.limiters, prev);
    var t := Round(now.limiters, prev);
    ContributionsFull(prev, Participants(now.limiters, Sources(prev)));
    KernelRuleOfContributions(now.env, t, host, dev);
    var out := D.Output(now.env, t);
    forall v, f | v in AgentSpec(out) ensures InRange(v.limits.Get(f), 0, TWO_64 - 1) {
      var i :| 0 <= i < |out| && AgentSpec(out)[i] == v;
      OutputWellFormed(now.env, t, out[i]);
      WellFormedFits(v.limits, f);
    }
  }

  lemma ContributionOfEntry(row: map<string, Limits>, c: Limits)
    ensures c in D.LimitsIn(D.ContributionList(row)) <==> exists n :: n in row && row[n] == c
  {
    var cs, sources := D.ContributionList(row), SortedOf(row.Keys);
    if n :| n in row && row[n] == c {
      assert n in sources;
      var i :| 0 <= i < |sources| && sources[i] == n;
      assert D.LimitsIn(cs)[i] == c;
    }
    if c in D.LimitsIn(cs) {
      var i :| 0 <= i < |cs| && D.LimitsIn(cs)[i] == c;
      assert sources[i] in sources;
      assert row[sources[i]] == c;
    }
  }

  /** More entries in the table, more contributions on each device. */
  lemma MoreContributions(env: D.Env, t: D.Table, more: D.Table, host: Host, dev: Device, c: Limits)
    requires forall v, n :: D.Entry(t, v, n).Some? ==> D.Entry(more, v, n) == D.Entry(t, v, n)
    requires NoEmptyRow(t)
    requires c in ContributionsOn(host, D.Output(env, t), dev)
    ensures c in ContributionsOn(host, D.Output(env, more), dev)
  {
    ContributedOn(host, D.Output(env, t), dev, c);
    var v :| v in D.Output(env, t) && IsOn(host, Volume(v.name, v.dir, v.limits), dev)
          && c in D.LimitsIn(v.contributions);
    ListedVolumes(env, t, SortedOf(t.Keys), v);
    ContributionOfEntry(D.RowOfTable(t, v.name), c);
    var n :| n in D.RowOfTable(t, v.name) && D.RowOfTable(t, v.name)[n] == c;
    assert D.Entry(t, v.name, n) == Some(c);
    var w := D.VolumeOf(v.name, v.dir, D.RowOfTable(more, v.name));
    assert D.Entry(more, v.name, n) == Some(c);
    ListedVolumes(env, more, SortedOf(more.Keys), w);
    ContributionOfEntry(D.RowOfTable(more, v.name), c);
    ContributedOn(host, D.Output(env, more), dev, c);
    assert w in D.Output(env, more) && IsOn(host, Volume(w.name, w.dir, w.limits), dev);
  }

  /** Adding a limiter never raises and never unsets any field of any device's rule. */
  lemma AddingALimiterTightens(env: D.Env, limiters: seq<D.Limiter>, extra: D.Limiter, prev: D.Table, host: Host,
                               dev: Device, f: Field)
    requires WellNamed(limiters + [extra]) && SchemaOk(limiters + [extra]) && AllWellFormed(prev)
    requires dev in Groups(host, AgentSpec(D.Output(env, D.Contributions(prev, limiters))))
    ensures var groups := Groups(host, AgentSpec(D.Output(env, D.Contributions(prev, limiters))));
            var groups' := Groups(host, AgentSpec(D.Output(env, D.Contributions(prev, limiters + [extra]))));
            groups[dev].rule.Get(f).Some? ==>
              && dev in groups' && groups'[dev].rule.Get(f).Some?
              && groups'[dev].rule.Get(f).value <= groups[dev].rule.Get(f).value
  {
    var all := limiters + [extra];
    assert all[..|limiters|] == limiters;
    assert WellNamed(limiters) by {
      forall i, j | 0 <= i < j < |limiters| ensures limiters[i].name != limiters[j].name {
        assert all[i].name != all[j].name;
      }
    }
    var t, t' := D.Contributions(prev, limiters), D.Contributions(prev, all);
    ContributionsWellFormed(limiters, prev);
    ContributionsWellFormed(all, prev);
    ContributionsFull(prev, limiters);
    ContributionsFull(prev, all);
    OutputDerived(env, t);
    OutputDerived(env, t');
    RuleIsFlatMinimum(host, D.Output(env, t), dev, f);
    RuleIsFlatMinimum(host, D.Output(env, t'), dev, f);
    forall v, n | D.Entry(t, v, n).Some? ensures D.Entry(t', v, n) == D.Entry(t, v, n) {
      ExtraKeepsEntries(prev, limiters, extra, v, n);
    }
    var cs, cs' := ContributionsOn(host, D.Output(env, t), dev), ContributionsOn(host, D.Output(env, t'), dev);
    forall c | c in cs ensures c in cs' {
      MoreContributions(env, t, t', host, dev, c);
    }
    var groups, groups' := Groups(host, AgentSpec(D.Output(env, t))), Groups(host, AgentSpec(D.Output(env, t')));
    MoreLimitsTighten(f, cs, groups[dev].rule.Get(f), cs', if dev in groups' then groups'[dev].rule.Get(f) else None);
  }

  lemma ExtraKeepsEntries(prev: D.Table, limiters: seq<D.Limiter>, extra: D.Limiter, v: string, n: string)
    requires WellNamed(limiters + [extra]) && WellNamed(limiters)
    requires D.Entry(D.Contributions(prev, limiters), v, n).Some?
    ensures D.Entry(D.Contributions(prev, limiters + [extra]), v, n) == D.Entry(D.Contributions(prev, limiters), v, n)
  {
    var all := limiters + [extra];
    assert all[..|limiters|] == limiters;
    ContributionIsOwn(prev, limiters, v, n);
    ContributionIsOwn(prev, all, v, n);
    FindLimiterIn(limiters, n);
    var l := FindLimiter(limiters, n).value;
    var i :| 0 <= i < |limiters| && limiters[i] == l;
    assert all[i].name != all[|limiters|].name;
  }

  lemma ContributionsWellFormed(limiters: seq<D.Limiter>, prev: D.Table)
    requires WellNamed(limiters) && SchemaOk(limiters) && AllWellFormed(prev)
    ensures AllWellFormed(D.Contributions(prev, limiters))
  {
    var t := D.Contributions(prev, limiters);
    forall v, n | v in t && n in t[v] ensures WellFormed(t[v][n]) {
      assert D.Entry(t, v, n) == Some(t[v][n]);
      ContributionIsOwn(prev, limiters, v, n);
      FindLimiterIn(limiters, n);
      var l := FindLimiter(limiters, n).value;
      FindRowIn(l.rows, v);
      ContributesWellFormed(FindRow(l.rows, v).value, n, D.RowOfTable(prev, v));
    }
  }
}
