/**
 What Compute's rounds keep, when each one is fed the contributions of its own previous output.
 */
module Rounds {
  import opened Limits
  import opened Names
  import opened Desired

  // ---------- looking up a contribution ----------

  function FindRow(rows: seq<Row>, volume: string): Option<Row> {
    if rows == [] then None
    else if rows[|rows|-1].volume == volume then Some(rows[|rows|-1])
    else FindRow(rows[..|rows|-1], volume)
  }

  function FindLimiter(limiters: seq<Limiter>, name: string): Option<Limiter> {
    if limiters == [] then None
    else if limiters[|limiters|-1].name == name then Some(limiters[|limiters|-1])
    else FindLimiter(limiters[..|limiters|-1], name)
  }

  predicate UniqueRows(rows: seq<Row>) {
    forall i, j | 0 <= i < j < |rows| :: rows[i].volume != rows[j].volume
  }

  /** Names are unique in a namespace, and a limiter lists a volume once. */
  predicate WellNamed(limiters: seq<Limiter>) {
    && (forall i, j | 0 <= i < j < |limiters| :: limiters[i].name != limiters[j].name)
    && (forall l | l in limiters :: UniqueRows(l.rows))
  }

  /** What limiter `name` contributes to `volume`, read off its own row and its own previous contribution alone. */
  function Expected(prev: Table, limiters: seq<Limiter>, volume: string, name: string): Option<Limits> {
    match FindLimiter(limiters, name)
    case None => None
    case Some(l) =>
      match FindRow(l.rows, volume)
      case None => None
      case Some(row) => Contributes(row, name, RowOfTable(prev, volume))
  }

  lemma {:induction false} AddRowsEntry(prev: Table, t: Table, name: string, rows: seq<Row>, volume: string,
                                        other: string)
    requires UniqueRows(rows)
    ensures Entry(AddRows(prev, t, name, rows), volume, other) ==
      if other != name || FindRow(rows, volume).None? then Entry(t, volume, other)
      else var c := Contributes(FindRow(rows, volume).value, name, RowOfTable(prev, volume));
           if c.Some? then c else Entry(t, volume, other)
  {
    if rows != [] {
      var init, row := rows[..|rows|-1], rows[|rows|-1];
      AddRowsEntry(prev, t, name, init, volume, other);
      FindRowIn(init, volume);
      FindRowIn(rows, volume);
    }
  }

  lemma {:induction false} FindRowIn(rows: seq<Row>, volume: string)
    ensures FindRow(rows, volume).Some? ==>
              FindRow(rows, volume).value in rows && FindRow(rows, volume).value.volume == volume
    ensures FindRow(rows, volume).None? ==> forall r | r in rows :: r.volume != volume
  {
    if rows != [] {
      FindRowIn(rows[..|rows|-1], volume);
      assert rows == rows[..|rows|-1] + [rows[|rows|-1]];
    }
  }

  lemma {:induction false} FindLimiterIn(limiters: seq<Limiter>, name: string)
    ensures FindLimiter(limiters, name).Some? ==>
              FindLimiter(limiters, name).value in limiters && FindLimiter(limiters, name).value.name == name
    ensures FindLimiter(limiters, name).None? ==> forall l | l in limiters :: l.name != name
  {
    if limiters != [] {
      FindLimiterIn(limiters[..|limiters|-1], name);
      assert limiters == limiters[..|limiters|-1] + [limiters[|limiters|-1]];
    }
  }

  /** Each contribution depends on nothing but that limiter's row and its own previous contribution. */
  lemma {:induction false} ContributionIsOwn(prev: Table, limiters: seq<Limiter>, volume: string, name: string)
    requires WellNamed(limiters)
    ensures Entry(Contributions(prev, limiters), volume, name) == Expected(prev, limiters, volume, name)
  {
    if limiters != [] {
      var init, l := limiters[..|limiters|-1], limiters[|limiters|-1];
      assert l in limiters && forall x | x in init :: x in limiters;
      ContributionIsOwn(prev, init, volume, name);
      AddRowsEntry(prev, Contributions(prev, init), l.name, l.rows, volume, name);
      FindLimiterIn(init, name);
    }
  }

  // ---------- the table is determined by its entries ----------

  ghost predicate NoEmptyRow(t: Table) {
    forall v | v in t :: t[v] != map[]
  }

  lemma {:induction false} RowsStayFull(prev: Table, t: Table, name: string, rows: seq<Row>)
    requires NoEmptyRow(t)
    ensures NoEmptyRow(AddRows(prev, t, name, rows))
  {
    if rows != [] {
      RowsStayFull(prev, t, name, rows[..|rows|-1]);
      var t', row := AddRows(prev, t, name, rows[..|rows|-1]), rows[|rows|-1];
      var c := Contributes(row, name, RowOfTable(prev, row.volume));
      if c.Some? {
        assert name in RowOfTable(t', row.volume)[name := c.value];
      }
    }
  }

  lemma {:induction false} ContributionsFull(prev: Table, limiters: seq<Limiter>)
    ensures NoEmptyRow(Contributions(prev, limiters))
  {
    if limiters != [] {
      var l := limiters[|limiters|-1];
      ContributionsFull(prev, limiters[..|limiters|-1]);
      RowsStayFull(prev, Contributions(prev, limiters[..|limiters|-1]), l.name, l.rows);
    }
  }

  lemma SameEntriesSameTable(t: Table, t': Table)
    requires NoEmptyRow(t) && NoEmptyRow(t')
    requires forall v, n :: Entry(t, v, n) == Entry(t', v, n)
    ensures t == t'
  {
    forall v ensures RowOfTable(t, v) == RowOfTable(t', v) {
      SameEntriesSameRow(t, t', v);
    }
    forall v ensures v in t <==> v in t' {
      assert RowOfTable(t, v) == RowOfTable(t', v);
    }
    forall v | v in t ensures t[v] == t'[v] {
      assert RowOfTable(t, v) == RowOfTable(t', v);
    }
  }

  lemma SameEntriesSameRow(t: Table, t': Table, v: string)
    requires forall n :: Entry(t, v, n) == Entry(t', v, n)
    ensures RowOfTable(t, v) == RowOfTable(t', v)
  {
    var r, r' := RowOfTable(t, v), RowOfTable(t', v);
    forall n ensures n in r <==> n in r' {
      assert Entry(t, v, n) == Entry(t', v, n);
    }
    forall n | n in r ensures r[n] == r'[n] {
      assert Entry(t, v, n) == Entry(t', v, n);
    }
  }

  /** Order independence: Compute's result does not depend on the order of the limiters. */
  lemma OrderDoesNotMatter(prev: Table, limiters: seq<Limiter>, shuffled: seq<Limiter>)
    requires WellNamed(limiters) && WellNamed(shuffled)
    requires forall l :: l in limiters <==> l in shuffled
    ensures Contributions(prev, limiters) == Contributions(prev, shuffled)
    ensures forall env :: Output(env, Contributions(prev, limiters)) == Output(env, Contributions(prev, shuffled))
  {
    forall v, n ensures Entry(Contributions(prev, limiters), v, n) == Entry(Contributions(prev, shuffled), v, n) {
      ContributionIsOwn(prev, limiters, v, n);
      ContributionIsOwn(prev, shuffled, v, n);
      FindLimiterIn(limiters, n);
      FindLimiterIn(shuffled, n);
      SameNameSameLimiter(limiters);
    }
    ContributionsFull(prev, limiters);
    ContributionsFull(prev, shuffled);
    SameEntriesSameTable(Contributions(prev, limiters), Contributions(prev, shuffled));
  }

  lemma SameNameSameLimiter(limiters: seq<Limiter>)
    requires WellNamed(limiters)
    ensures forall a, b | a in limiters && b in limiters && a.name == b.name :: a == b
  {}

  // ---------- the output carries the table of the volumes that resolve ----------

  ghost function Resolved(env: Env, t: Table): Table {
    map v | v in t && DirOf(env, v).Dir? :: t[v]
  }

  lemma {:induction false} ContributionMapOf(cs: seq<Contribution>, row: map<string, Limits>, n: string)
    requires forall c | c in cs :: Look(row, c.source) == Some(c.limits)
    ensures Look(ContributionMap(cs), n) == if exists c :: c in cs && c.source == n then Look(row, n) else None
  {
    if cs != [] {
      var init, last := cs[..|cs|-1], cs[|cs|-1];
      assert last in cs && forall c | c in init :: c in cs;
      ContributionMapOf(init, row, n);
      assert forall c :: c in cs <==> c in init || c == last;
    }
  }

  lemma ListRoundTrip(row: map<string, Limits>)
    ensures ContributionMap(ContributionList(row)) == row
  {
    var cs, sources := ContributionList(row), SortedOf(row.Keys);
    forall c | c in cs ensures Look(row, c.source) == Some(c.limits) {
      var i :| 0 <= i < |cs| && cs[i] == c;
      assert sources[i] in sources;
    }
    forall n ensures Look(ContributionMap(cs), n) == Look(row, n) {
      ContributionMapOf(cs, row, n);
      if n in row {
        assert n in sources;
        var i :| 0 <= i < |sources| && sources[i] == n;
        assert cs[i] in cs && cs[i].source == n;
      }
    }
    SameLooks(ContributionMap(cs), row);
  }

  lemma {:induction false} TableOfVolumes(env: Env, t: Table, names: seq<string>, v: string)
    requires forall n | n in names :: n in t
    ensures Look(TableOf(VolumesOf(env, t, names)), v) == if v in names && DirOf(env, v).Dir? then Look(t, v) else None
  {
    if names != [] {
      var init, name := names[..|names|-1], names[|names|-1];
      assert names == init + [name];
      assert name in names;
      TableOfVolumes(env, t, init, v);
      match DirOf(env, name)
      case NoDir(_) => assert VolumesOf(env, t, names) == VolumesOf(env, t, init);
      case Dir(dir) =>
        var out := VolumesOf(env, t, names);
        assert out == VolumesOf(env, t, init) + [VolumeOf(name, dir, t[name])];
        assert out[..|out|-1] == VolumesOf(env, t, init);
        ListRoundTrip(t[name]);
    }
  }

  /** Fed back as `existing`, the output is the table of the volumes that resolve. */
  lemma OutputCarriesTable(env: Env, t: Table)
    ensures TableOf(Output(env, t)) == Resolved(env, t)
  {
    forall v ensures Look(TableOf(Output(env, t)), v) == Look(Resolved(env, t), v) {
      TableOfVolumes(env, t, SortedOf(t.Keys), v);
    }
    SameLooks(TableOf(Output(env, t)), Resolved(env, t));
  }

  // ---------- which limiters take part, and one round ----------

  /** The limiters that are a source of some volume. */
  function Sources(t: Table): set<string> {
    set v, n | v in t && n in t[v] :: n
  }

  /** A limiter takes part when it matches, or when only its broken selector keeps a source from matching. */
  predicate TakesPart(l: Limiter, sources: set<string>) {
    l.verdict.Matches? || (l.verdict.Invalid? && l.name in sources)
  }

  function Participants(all: seq<Limiter>, sources: set<string>): seq<Limiter> {
    if all == [] then [] else
      Participants(all[..|all|-1], sources) + (if TakesPart(all[|all|-1], sources) then [all[|all|-1]] else [])
  }

  /** The contributions computed for one state of the cluster from the previous ones. */
  function Round(all: seq<Limiter>, prev: Table): Table {
    Contributions(prev, Participants(all, Sources(prev)))
  }

  lemma {:induction false} ParticipantsAre(all: seq<Limiter>, sources: set<string>)
    requires WellNamed(all)
    ensures WellNamed(Participants(all, sources))
    ensures forall l :: l in Participants(all, sources) <==> l in all && TakesPart(l, sources)
  {
    if all != [] {
      var init, last := all[..|all|-1], all[|all|-1];
      assert all == init + [last];
      assert last in all && forall l | l in init :: l in all;
      ParticipantsAre(init, sources);
      var ps := Participants(all, sources);
      forall i, j | 0 <= i < j < |ps| ensures ps[i].name != ps[j].name {
        if j == |ps| - 1 && TakesPart(last, sources) {
          assert Participants(init, sources)[i] in init;
        }
      }
    }
  }

  /** The contribution of `name` to `volume` after a round, read off the cluster and its own previous contribution. */
  function RoundEntry(all: seq<Limiter>, prev: Table, volume: string, name: string): Option<Limits> {
    match FindLimiter(all, name)
    case None => None
    case Some(l) =>
      if !TakesPart(l, Sources(prev)) then None else
        match FindRow(l.rows, volume)
        case None => None
        case Some(row) => Contributes(row, name, RowOfTable(prev, volume))
  }

  /**
   After a round a limiter contributes to a volume what its row for it says now, given its own previous contribution,
   if its selector matches, or is broken and it contributed to some volume before; otherwise nothing.
   */
  lemma RoundSays(all: seq<Limiter>, prev: Table, l: Limiter, volume: string)
    requires WellNamed(all) && l in all
    ensures var now, before := Entry(Round(all, prev), volume, l.name), Entry(prev, volume, l.name);
            var kept := l.verdict.Invalid? && exists v :: v in prev && l.name in prev[v];
            if !l.verdict.Matches? && !kept then now.None?
            else if exists row :: row in l.rows && row.volume == volume then
              exists row :: row in l.rows && row.volume == volume && IsContribution(row.limits, before, now)
            else now.None?
  {
    RoundIsOwn(all, prev, volume, l.name);
    FindLimiterIn(all, l.name);
    assert FindLimiter(all, l.name).value == l;
    FindRowIn(l.rows, volume);
    if FindRow(l.rows, volume).Some? {
      ContributionSays(FindRow(l.rows, volume).value, l.name, RowOfTable(prev, volume));
    }
  }

  lemma RoundIsOwn(all: seq<Limiter>, prev: Table, volume: string, name: string)
    requires WellNamed(all)
    ensures Entry(Round(all, prev), volume, name) == RoundEntry(all, prev, volume, name)
  {
    var ps := Participants(all, Sources(prev));
    ParticipantsAre(all, Sources(prev));
    ContributionIsOwn(prev, ps, volume, name);
    FindLimiterIn(ps, name);
    FindLimiterIn(all, name);
    SameNameSameLimiter(all);
  }

  // ---------- quiescence ----------

  function Resolving(env: Env, names: seq<string>): seq<string> {
    if names == [] then [] else
      Resolving(env, names[..|names|-1]) + (if DirOf(env, names[|names|-1]).Dir? then [names[|names|-1]] else [])
  }

  lemma {:induction false} ResolvingSorted(env: Env, names: seq<string>)
    requires StrictlySorted(names)
    ensures StrictlySorted(Resolving(env, names))
    ensures forall n :: n in Resolving(env, names) <==> n in names && DirOf(env, n).Dir?
  {
    if names != [] {
      var init, name := names[..|names|-1], names[|names|-1];
      assert names == init + [name];
      ResolvingSorted(env, init);
      var kept := Resolving(env, init);
      forall i | 0 <= i < |kept| ensures Less(kept[i], name) {
        assert kept[i] in init;
        var j :| 0 <= j < |init| && init[j] == kept[i];
        assert Less(names[j], names[|names|-1]);
      }
    }
  }

  lemma {:induction false} OnlyResolvingCount(env: Env, t: Table, names: seq<string>)
    requires forall n | n in names :: n in t
    ensures VolumesOf(env, t, names) == VolumesOf(env, Resolved(env, t), Resolving(env, names))
  {
    if names != [] {
      var init, name := names[..|names|-1], names[|names|-1];
      assert name in names && forall n | n in init :: n in names;
      OnlyResolvingCount(env, t, init);
      var kept := Resolving(env, names);
      if DirOf(env, name).Dir? {
        assert kept[..|kept|-1] == Resolving(env, init) && kept[|kept|-1] == name;
        assert RowOfTable(t, name) == RowOfTable(Resolved(env, t), name);
      } else {
        assert kept == Resolving(env, init);
      }
    }
  }

  lemma OutputOfResolved(env: Env, t: Table)
    ensures Output(env, t) == Output(env, Resolved(env, t))
  {
    var names := SortedOf(t.Keys);
    OnlyResolvingCount(env, t, names);
    ResolvingSorted(env, names);
    SortedIsUnique(Resolving(env, names), SortedOf(Resolved(env, t).Keys), Resolved(env, t).Keys);
  }

  /** A resolving volume's contribution is reproduced from the output that carries it. */
  lemma EntryIsStable(env: Env, all: seq<Limiter>, prev: Table, volume: string, name: string)
    requires WellNamed(all) && DirOf(env, volume).Dir?
    ensures var t := Round(all, prev); Entry(Round(all, Resolved(env, t)), volume, name) == Entry(t, volume, name)
  {
    var t := Round(all, prev);
    var p := Resolved(env, t);
    RoundIsOwn(all, prev, volume, name);
    RoundIsOwn(all, p, volume, name);
    FindLimiterIn(all, name);
    assert RowOfTable(p, volume) == RowOfTable(t, volume);
    if Entry(t, volume, name).Some? {
      assert name in Sources(p) by { assert volume in p && name in p[volume]; }
    } else if name in Sources(p) {
      var v :| v in p && name in p[v];
      assert Entry(t, v, name).Some?;
      RoundIsOwn(all, prev, v, name);
    }
  }

  /** Quiescence: with the cluster unchanged, computing again from one's own output gives the same volumes. */
  lemma ComputeIsIdempotent(env: Env, all: seq<Limiter>, existing: seq<VolumeLimit>)
    requires WellNamed(all)
    ensures var out := Output(env, Round(all, TableOf(existing)));
            Output(env, Round(all, TableOf(out))) == out
  {
    var t := Round(all, TableOf(existing));
    var p := Resolved(env, t);
    OutputCarriesTable(env, t);
    var t' := Round(all, p);
    forall v, n ensures Entry(Resolved(env, t'), v, n) == Entry(p, v, n) {
      if DirOf(env, v).Dir? {
        EntryIsStable(env, all, TableOf(existing), v, n);
        assert RowOfTable(Resolved(env, t'), v) == RowOfTable(t', v) && RowOfTable(p, v) == RowOfTable(t, v);
      }
    }
    ContributionsFull(TableOf(existing), Participants(all, Sources(TableOf(existing))));
    ContributionsFull(p, Participants(all, Sources(p)));
    SameEntriesSameTable(Resolved(env, t'), p);
    OutputOfResolved(env, t);
    OutputOfResolved(env, t');
  }

  // ---------- freeze, never loosen ----------

  datatype Cluster = Cluster(env: Env, limiters: seq<Limiter>)

  /** The contributions in force after a sequence of rounds, each in its own state of the cluster. */
  ghost function After(prev: Table, rounds: seq<Cluster>): Table {
    if rounds == [] then prev else
      var c := rounds[|rounds|-1];
      Resolved(c.env, Round(c.limiters, After(prev, rounds[..|rounds|-1])))
  }

  /** The limiter exists, still selects the pod or has a broken selector, and its row for the volume sets some limit. */
  ghost predicate Keeps(c: Cluster, volume: string, name: string) {
    && WellNamed(c.limiters)
    && DirOf(c.env, volume).Dir?
    && var l := FindLimiter(c.limiters, name);
       && l.Some? && !l.value.verdict.MatchesNot?
       && var row := FindRow(l.value.rows, volume); row.Some? && row.value.limits.SetsSomething()
  }

  /** The last valid row at or after the start, or what was in force at the start. */
  ghost function Frozen(start: Limits, rounds: seq<Cluster>, volume: string, name: string): Limits
    requires forall c | c in rounds :: Keeps(c, volume, name)
  {
    if rounds == [] then start else
      var c := rounds[|rounds|-1];
      assert c in rounds && forall x | x in rounds[..|rounds|-1] :: x in rounds;
      assert Keeps(c, volume, name);
      var row := FindRow(FindLimiter(c.limiters, name).value.rows, volume).value;
      if RowValid(row.limits) then ValidPart(row.limits) else Frozen(start, rounds[..|rounds|-1], volume, name)
  }

  /** Over any number of rounds an invalid row or selector freezes a limiter's own contribution; it never loosens it. */
  lemma {:induction false} FreezeNeverLoosens(prev: Table, rounds: seq<Cluster>, volume: string, name: string)
    requires Entry(prev, volume, name).Some?
    requires forall c | c in rounds :: Keeps(c, volume, name)
    ensures Entry(After(prev, rounds), volume, name)
            == Some(Frozen(Entry(prev, volume, name).value, rounds, volume, name))
  {
    if rounds != [] {
      var init, c := rounds[..|rounds|-1], rounds[|rounds|-1];
      assert c in rounds && forall x | x in init :: x in rounds;
      FreezeNeverLoosens(prev, init, volume, name);
      var p := After(prev, init);
      RoundIsOwn(c.limiters, p, volume, name);
      FindLimiterIn(c.limiters, name);
      assert name in Sources(p) by { assert volume in p && name in p[volume]; }
      assert RowOfTable(Resolved(c.env, Round(c.limiters, p)), volume) == RowOfTable(Round(c.limiters, p), volume);
    }
  }

  /**
   The freeze lasts only while the volume resolves: after one round in which it did not, an invalid row
   is back to its valid fields, whatever had been in force, and a broken selector may have cut it off.
   */
  lemma FreezeEndsWithTheVolume(prev: Table, away: Cluster, back: Cluster, volume: string, name: string)
    requires WellNamed(away.limiters) && DirOf(away.env, volume).NoDir? && Keeps(back, volume, name)
    requires !RowValid(FindRow(FindLimiter(back.limiters, name).value.rows, volume).value.limits)
    ensures var part := ValidPart(FindRow(FindLimiter(back.limiters, name).value.rows, volume).value.limits);
            Entry(After(prev, [away, back]), volume, name) ==
              if part.Unlimited() || !TakesPart(FindLimiter(back.limiters, name).value, Sources(After(prev, [away])))
              then None else Some(part)
  {
    assert [away, back][..1] == [away] && [away][..0] == [];
    var p := After(prev, [away]);
    assert volume !in p;
    RoundIsOwn(back.limiters, p, volume, name);
    var t := Round(back.limiters, p);
    assert RowOfTable(Resolved(back.env, t), volume) == RowOfTable(t, volume);
  }

  /** The limiter is there, but its row for the volume is broken. */
  ghost predicate Broken(c: Cluster, volume: string, name: string) {
    && WellNamed(c.limiters)
    && var l := FindLimiter(c.limiters, name);
       && l.Some? && !l.value.verdict.MatchesNot?
       && var row := FindRow(l.value.rows, volume); row.Some? && !RowValid(row.value.limits)
  }

  lemma {:induction false} FrozenAllAlong(start: Limits, rounds: seq<Cluster>, volume: string, name: string)
    requires forall c | c in rounds :: Keeps(c, volume, name) && Broken(c, volume, name)
    ensures Frozen(start, rounds, volume, name) == start
  {
    if rounds != [] {
      var init := rounds[..|rounds|-1];
      assert rounds[|rounds|-1] in rounds && forall x | x in init :: x in rounds;
      FrozenAllAlong(start, init, volume, name);
    }
  }

  // ---------- what a round can still tell apart ----------

  /** Same entries in the same places, up to the value at one place, and there too if `same`. */
  ghost predicate Alike(t: Table, t': Table, same: bool, volume: string, name: string) {
    forall v, n :: (Entry(t, v, n).Some? <==> Entry(t', v, n).Some?)
                   && (same || v != volume || n != name ==> Entry(t, v, n) == Entry(t', v, n))
  }

  lemma SourceHasEntry(t: Table, n: string)
    ensures n in Sources(t) <==> exists v :: Entry(t, v, n).Some?
  {
    if n in Sources(t) {
      var v :| v in t && n in t[v];
      assert Entry(t, v, n).Some?;
    }
    if v :| Entry(t, v, n).Some? {
      assert v in t && n in t[v];
    }
  }

  lemma AlikeSources(t: Table, t': Table, same: bool, volume: string, name: string)
    requires Alike(t, t', same, volume, name)
    ensures Sources(t) == Sources(t')
  {
    forall n ensures n in Sources(t) <==> n in Sources(t') {
      SourceHasEntry(t, n);
      SourceHasEntry(t', n);
      if v :| Entry(t, v, n).Some? {
        assert Entry(t', v, n).Some?;
      }
      if v :| Entry(t', v, n).Some? {
        assert Entry(t, v, n).Some?;
      }
    }
  }

  lemma ResolvedEntry(env: Env, t: Table, v: string, n: string)
    ensures Entry(Resolved(env, t), v, n) == if DirOf(env, v).Dir? then Entry(t, v, n) else None
  {}

  /** A round keeps two tables alike; one in which the volume does not resolve makes them the same. */
  lemma AlikeRound(c: Cluster, t: Table, t': Table, same: bool, volume: string, name: string)
    requires WellNamed(c.limiters) && Alike(t, t', same, volume, name)
    ensures Alike(Resolved(c.env, Round(c.limiters, t)), Resolved(c.env, Round(c.limiters, t')),
                  same || DirOf(c.env, volume).NoDir?, volume, name)
  {
    AlikeSources(t, t', same, volume, name);
    forall v, n
      ensures Entry(Round(c.limiters, t), v, n).Some? <==> Entry(Round(c.limiters, t'), v, n).Some?
      ensures same || v != volume || n != name ==>
                Entry(Round(c.limiters, t), v, n) == Entry(Round(c.limiters, t'), v, n)
    {
      RoundIsOwn(c.limiters, t, v, n);
      RoundIsOwn(c.limiters, t', v, n);
      assert Entry(t, v, n).Some? <==> Entry(t', v, n).Some?;
    }
    AlikeResolved(c.env, Round(c.limiters, t), Round(c.limiters, t'), same, volume, name);
  }

  lemma AlikeResolved(env: Env, t: Table, t': Table, same: bool, volume: string, name: string)
    requires Alike(t, t', same, volume, name)
    ensures Alike(Resolved(env, t), Resolved(env, t'), same || DirOf(env, volume).NoDir?, volume, name)
  {
    forall v, n
      ensures Entry(Resolved(env, t), v, n).Some? <==> Entry(Resolved(env, t'), v, n).Some?
      ensures same || DirOf(env, volume).NoDir? || v != volume || n != name ==>
                Entry(Resolved(env, t), v, n) == Entry(Resolved(env, t'), v, n)
    {
      ResolvedEntry(env, t, v, n);
      ResolvedEntry(env, t', v, n);
      assert Entry(t, v, n).Some? <==> Entry(t', v, n).Some?;
    }
  }

  /** The volume does not resolve in some round. */
  ghost predicate SomeGap(rounds: seq<Cluster>, volume: string) {
    exists c :: c in rounds && DirOf(c.env, volume).NoDir?
  }

  lemma {:induction false} AlikeAfter(t: Table, t': Table, rounds: seq<Cluster>, volume: string, name: string)
    requires Alike(t, t', false, volume, name) && forall c | c in rounds :: WellNamed(c.limiters)
    ensures Alike(After(t, rounds), After(t', rounds), SomeGap(rounds, volume), volume, name)
  {
    if rounds != [] {
      var init, last := rounds[..|rounds|-1], rounds[|rounds|-1];
      assert rounds == init + [last];
      assert last in rounds && forall x | x in init :: x in rounds;
      AlikeAfter(t, t', init, volume, name);
      AlikeRound(last, After(t, init), After(t', init), SomeGap(init, volume), volume, name);
    }
  }

  // ---------- the freeze, exactly ----------

  /** Rounds of limiters that the schema and the API server admit. */
  predicate Admitted(rounds: seq<Cluster>) {
    forall c | c in rounds :: WellNamed(c.limiters) && SchemaOk(c.limiters)
  }

  /**
   Whatever the limiter contributed to the volume before these rounds it still contributes after them; `earlier`
   is any history that can have led there.
   */
  ghost predicate StaysInForce(rounds: seq<Cluster>, volume: string, name: string) {
    forall earlier | Admitted(earlier) && Entry(After(map[], earlier), volume, name).Some? ::
      Entry(After(After(map[], earlier), rounds), volume, name) == Entry(After(map[], earlier), volume, name)
  }

  lemma FreezeHolds(prev: Table, rounds: seq<Cluster>, volume: string, name: string)
    requires Entry(prev, volume, name).Some?
    requires forall c | c in rounds :: Broken(c, volume, name) && DirOf(c.env, volume).Dir?
    ensures Entry(After(prev, rounds), volume, name) == Entry(prev, volume, name)
  {
    forall c | c in rounds ensures Keeps(c, volume, name) {
      assert Broken(c, volume, name);
    }
    FreezeNeverLoosens(prev, rounds, volume, name);
    FrozenAllAlong(Entry(prev, volume, name).value, rounds, volume, name);
  }

  /** A round that leaves one contribution, of `rbps` bytes, to a volume of the pod itself. */
  function Single(volume: string, name: string, rbps: real): Cluster {
    Cluster(Env("pod", [PodVolume(volume, InlineCsi)], map[], {}),
            [Limiter(name, Matches, [Row(volume, IOLimits(Some(rbps), None, None, None))])])
  }

  lemma SingleEntry(volume: string, name: string, rbps: real, bytes: int, v: string, n: string)
    requires ValidateBps(rbps) == Some(bytes)
    ensures Entry(Round(Single(volume, name, rbps).limiters, map[]), v, n) ==
              if v == volume && n == name then Some(Limits(Some(bytes), None, None, None)) else None
  {
    var all := Single(volume, name, rbps).limiters;
    RoundIsOwn(all, map[], v, n);
    assert FindLimiter(all, n) == if n == name then Some(all[0]) else None;
    assert FindRow(all[0].rows, v) == if v == volume then Some(all[0].rows[0]) else None;
    assert ValidPart(all[0].rows[0].limits) == Limits(Some(bytes), None, None, None);
  }

  lemma SingleLeaves(volume: string, name: string, rbps: real, bytes: int)
    requires ValidateBps(rbps) == Some(bytes)
    ensures Admitted([Single(volume, name, rbps)])
    ensures forall v, n :: Entry(After(map[], [Single(volume, name, rbps)]), v, n) ==
              if v == volume && n == name then Some(Limits(Some(bytes), None, None, None)) else None
  {
    var c := Single(volume, name, rbps);
    assert [c][..0] == [];
    assert After(map[], [c]) == Resolved(c.env, Round(c.limiters, map[]));
    assert FindPodVolume(c.env.volumes, volume) == Some(PodVolume(volume, InlineCsi));
    forall v, n
      ensures Entry(After(map[], [c]), v, n) ==
                if v == volume && n == name then Some(Limits(Some(bytes), None, None, None)) else None
    {
      SingleEntry(volume, name, rbps, bytes, v, n);
      ResolvedEntry(c.env, Round(c.limiters, map[]), v, n);
    }
  }

  /** After a round without the volume, two histories that left 1024 and 2048 bytes can no longer be told apart. */
  lemma FreezeBreaks(rounds: seq<Cluster>, volume: string, name: string)
    requires SomeGap(rounds, volume)
    requires forall c | c in rounds :: WellNamed(c.limiters)
    ensures !StaysInForce(rounds, volume, name)
  {
    ValidateBpsAccepts(1024.0, 1024);
    ValidateBpsAccepts(2048.0, 2048);
    SingleLeaves(volume, name, 1024.0, 1024);
    SingleLeaves(volume, name, 2048.0, 2048);
    var a, b := [Single(volume, name, 1024.0)], [Single(volume, name, 2048.0)];
    assert Alike(After(map[], a), After(map[], b), false, volume, name);
    AlikeAfter(After(map[], a), After(map[], b), rounds, volume, name);
    assert Entry(After(After(map[], a), rounds), volume, name) == Entry(After(After(map[], b), rounds), volume, name);
    assert Entry(After(map[], a), volume, name) != Entry(After(map[], b), volume, name);
  }

  /**
   The freeze, exactly: over any number of rounds in which the limiter's row stays broken, whatever any history had
   put in force stays in force if and only if the volume resolves in every one of them.
   */
  lemma FreezeLastsExactly(rounds: seq<Cluster>, volume: string, name: string)
    requires forall c | c in rounds :: Broken(c, volume, name)
    ensures StaysInForce(rounds, volume, name) <==> forall c | c in rounds :: DirOf(c.env, volume).Dir?
  {
    if forall c | c in rounds :: DirOf(c.env, volume).Dir? {
      forall earlier | Admitted(earlier) && Entry(After(map[], earlier), volume, name).Some?
        ensures Entry(After(After(map[], earlier), rounds), volume, name) == Entry(After(map[], earlier), volume, name)
      {
        FreezeHolds(After(map[], earlier), rounds, volume, name);
      }
    } else {
      FreezeBreaks(rounds, volume, name);
    }
  }

  // ---------- a freeze that is lost ----------

  function OneClaim(bound: bool): Env {
    Env("pod", [PodVolume("data", Claim("pvc"))], map["pvc" := Pvc(bound, "pv", false)], {})
  }

  function OneLimiter(rbps: real): seq<Limiter> {
    [Limiter("lim", Matches, [Row("data", IOLimits(Some(rbps), None, None, None))])]
  }

  function At(bound: bool, rbps: real): Cluster { Cluster(OneClaim(bound), OneLimiter(rbps)) }

  /** A valid row, then half a byte per second by mistake. */
  function Mistaken(): seq<Cluster> { [At(true, 4096.0)] + [At(true, 0.5)] }

  /** After the mistake the claim is unbound for one round, and bound again. */
  function Lost(): seq<Cluster> { Mistaken() + [At(false, 0.5)] + [At(true, 0.5)] }

  lemma OneRound(prev: Table, rounds: seq<Cluster>, bound: bool, rbps: real)
    ensures Entry(After(prev, rounds + [At(bound, rbps)]), "data", "lim") ==
            if !bound then None
            else Contributes(OneLimiter(rbps)[0].rows[0], "lim", RowOfTable(After(prev, rounds), "data"))
  {
    var all, p := OneLimiter(rbps), After(prev, rounds);
    assert (rounds + [At(bound, rbps)])[..|rounds|] == rounds;
    OneEntry(p, rbps);
    ClaimResolves(bound);
    var t := Round(all, p);
    assert bound ==> RowOfTable(Resolved(OneClaim(bound), t), "data") == RowOfTable(t, "data");
  }

  lemma OneEntry(p: Table, rbps: real)
    ensures Entry(Round(OneLimiter(rbps), p), "data", "lim")
            == Contributes(OneLimiter(rbps)[0].rows[0], "lim", RowOfTable(p, "data"))
  {
    var all := OneLimiter(rbps);
    RoundIsOwn(all, p, "data", "lim");
    assert FindLimiter(all, "lim") == Some(all[0]);
    assert FindRow(all[0].rows, "data") == Some(all[0].rows[0]);
  }

  lemma ClaimResolves(bound: bool)
    ensures DirOf(OneClaim(bound), "data").Dir? <==> bound
  {
    assert FindPodVolume(OneClaim(bound).volumes, "data") == Some(PodVolume("data", Claim("pvc")));
  }

  lemma RowHere(prev: map<string, Limits>)
    ensures Contributes(OneLimiter(4096.0)[0].rows[0], "lim", prev) == Some(Limits(Some(4096), None, None, None))
    ensures Contributes(OneLimiter(0.5)[0].rows[0], "lim", prev) == Look(prev, "lim")
  {
    ValidateBpsAccepts(4096.0, 4096);
    assert ValidateBps(0.5).None?;
  }

  /** The limit survives the mistake and is gone once the claim has been unbound for a round. */
  lemma FreezeIsLost()
    ensures Entry(After(map[], Mistaken()), "data", "lim") == Some(Limits(Some(4096), None, None, None))
    ensures Entry(After(map[], Lost()), "data", "lim") == None
  {
    OneRound(map[], [], true, 4096.0);
    assert [] + [At(true, 4096.0)] == [At(true, 4096.0)];
    RowHere(map[]);
    OneRound(map[], [At(true, 4096.0)], true, 0.5);
    RowHere(RowOfTable(After(map[], [At(true, 4096.0)]), "data"));
    OneRound(map[], Mistaken(), false, 0.5);
    OneRound(map[], Mistaken() + [At(false, 0.5)], true, 0.5);
    RowHere(RowOfTable(After(map[], Mistaken() + [At(false, 0.5)]), "data"));
  }

  /** A deleted limiter, one whose valid selector no longer matches, and one without a row for the volume, drop out. */
  lemma DropsOut(all: seq<Limiter>, prev: Table, volume: string, name: string)
    requires WellNamed(all)
    requires match FindLimiter(all, name)
             case None => true
             case Some(l) => l.verdict.MatchesNot? || FindRow(l.rows, volume).None?
    ensures Entry(Round(all, prev), volume, name) == None
  {
    RoundIsOwn(all, prev, volume, name);
  }

  // ---------- values stay in range ----------

  /** The IOPS bounds the IOLimiter schema enforces. */
  predicate SchemaOk(all: seq<Limiter>) {
    forall l, row | l in all && row in l.rows ::
      InRange(row.limits.riops, 2, 0xFFFF_FFFF) && InRange(row.limits.wiops, 2, 0xFFFF_FFFF)
  }

  ghost predicate AllWellFormed(t: Table) {
    forall v, n | v in t && n in t[v] :: WellFormed(t[v][n])
  }

  lemma ContributesWellFormed(row: Row, name: string, prev: map<string, Limits>)
    requires InRange(row.limits.riops, 2, 0xFFFF_FFFF) && InRange(row.limits.wiops, 2, 0xFFFF_FFFF)
    requires name in prev ==> WellFormed(prev[name])
    ensures Contributes(row, name, prev).Some? ==> WellFormed(Contributes(row, name, prev).value)
  {}

  lemma RoundWellFormed(all: seq<Limiter>, prev: Table)
    requires WellNamed(all) && SchemaOk(all) && AllWellFormed(prev)
    ensures AllWellFormed(Round(all, prev))
  {
    var t := Round(all, prev);
    forall v, n | v in t && n in t[v] ensures WellFormed(t[v][n]) {
      assert Entry(t, v, n) == Some(t[v][n]);
      RoundIsOwn(all, prev, v, n);
      FindLimiterIn(all, n);
      var l := FindLimiter(all, n).value;
      FindRowIn(l.rows, v);
      ContributesWellFormed(FindRow(l.rows, v).value, n, RowOfTable(prev, v));
    }
  }

  /** From no contributions at all, every round keeps every limit set and in range. */
  lemma {:induction false} RoundsWellFormed(rounds: seq<Cluster>)
    requires forall c | c in rounds :: WellNamed(c.limiters) && SchemaOk(c.limiters)
    ensures AllWellFormed(After(map[], rounds))
  {
    if rounds != [] {
      var init, c := rounds[..|rounds|-1], rounds[|rounds|-1];
      assert c in rounds && forall x | x in init :: x in rounds;
      RoundsWellFormed(init);
      RoundWellFormed(c.limiters, After(map[], init));
    }
  }

  // ---------- what the output lists ----------

  /** The output lists exactly the resolving volumes, each with its directory and its row. */
  lemma {:induction false} ListedVolumes(env: Env, t: Table, names: seq<string>, v: VolumeLimit)
    ensures v in VolumesOf(env, t, names) <==>
              && v.name in names && DirOf(env, v.name).Dir?
              && v == VolumeOf(v.name, DirOf(env, v.name).name, RowOfTable(t, v.name))
  {
    if names != [] {
      ListedVolumes(env, t, names[..|names|-1], v);
      assert names == names[..|names|-1] + [names[|names|-1]];
    }
  }

  /** The merged limits of every volume of the output are in range, and at least one is set. */
  lemma OutputWellFormed(env: Env, t: Table, v: VolumeLimit)
    requires AllWellFormed(t) && NoEmptyRow(t) && v in Output(env, t)
    ensures WellFormed(v.limits)
  {
    ListedVolumes(env, t, SortedOf(t.Keys), v);
    var row := RowOfTable(t, v.name);
    var cs := ContributionList(row);
    var sources := SortedOf(row.Keys);
    EmptyListing(sources, row.Keys);
    forall i | 0 <= i < |cs| ensures WellFormed(LimitsIn(cs)[i]) {
      assert sources[i] in sources;
    }
    forall f ensures IsMin(f, LimitsIn(cs), v.limits.Get(f)) {
      MergeAllIsMin(f, LimitsIn(cs));
    }
    MinWellFormed(LimitsIn(cs), v.limits);
  }

  // ---------- what the output says, field by field ----------

  /** The contribution `c` comes from this limiter's own row for the volume. */
  ghost predicate ComesFrom(prev: Table, limiters: seq<Limiter>, volume: string, c: Contribution, l: Limiter, row: Row)
  {
    && l in limiters && l.name == c.source && row in l.rows && row.volume == volume
    && IsContribution(row.limits, Entry(prev, volume, l.name), Some(c.limits))
  }

  lemma EntryComesFrom(prev: Table, limiters: seq<Limiter>, volume: string, c: Contribution)
    requires WellNamed(limiters) && Entry(Contributions(prev, limiters), volume, c.source) == Some(c.limits)
    ensures exists l, row :: ComesFrom(prev, limiters, volume, c, l, row)
  {
    ContributionIsOwn(prev, limiters, volume, c.source);
    FindLimiterIn(limiters, c.source);
    var l := FindLimiter(limiters, c.source).value;
    FindRowIn(l.rows, volume);
    var row := FindRow(l.rows, volume).value;
    ContributionSays(row, l.name, RowOfTable(prev, volume));
    assert ComesFrom(prev, limiters, volume, c, l, row);
  }

  /**
   Every volume of the output is at its own kubelet directory, and each of its contributions is, field by field, what
   the limiter's own row for it says, or that limiter's previous contribution when the row is not acceptable.
   */
  lemma OutputSays(env: Env, prev: Table, limiters: seq<Limiter>, v: VolumeLimit, c: Contribution)
    requires WellNamed(limiters) && v in Output(env, Contributions(prev, limiters)) && c in v.contributions
    ensures DirOf(env, v.name) == Dir(v.dir) && c.source in v.sources
    ensures exists l, row :: ComesFrom(prev, limiters, v.name, c, l, row)
  {
    var t := Contributions(prev, limiters);
    ListedVolumes(env, t, SortedOf(t.Keys), v);
    var row := RowOfTable(t, v.name);
    var i :| 0 <= i < |ContributionList(row)| && ContributionList(row)[i] == c;
    assert c.source in SortedOf(row.Keys) && c.limits == row[c.source];
    EntryComesFrom(prev, limiters, v.name, c);
  }

  /** A volume's limits are the field-wise minimum of its contributions, one for each source, in order of the names. */
  lemma OutputLimits(env: Env, t: Table, v: VolumeLimit)
    requires v in Output(env, t)
    ensures forall f :: IsMin(f, LimitsIn(v.contributions), v.limits.Get(f))
    ensures StrictlySorted(v.sources) && |v.sources| == |v.contributions|
    ensures forall i | 0 <= i < |v.sources| :: v.contributions[i].source == v.sources[i]
  {
    ListedVolumes(env, t, SortedOf(t.Keys), v);
    forall f ensures IsMin(f, LimitsIn(v.contributions), v.limits.Get(f)) {
      MergeAllIsMin(f, LimitsIn(v.contributions));
    }
  }

  // ---------- no row is lost ----------

  lemma {:induction false} EntriesStay(prev: Table, t: Table, name: string, rows: seq<Row>, volume: string,
                                       other: string)
    requires Entry(t, volume, other).Some?
    ensures Entry(AddRows(prev, t, name, rows), volume, other).Some?
  {
    if rows != [] {
      EntriesStay(prev, t, name, rows[..|rows|-1], volume, other);
    }
  }

  lemma {:induction false} RowCounts(prev: Table, t: Table, name: string, rows: seq<Row>, row: Row)
    requires row in rows
    ensures || Entry(AddRows(prev, t, name, rows), row.volume, name).Some?
            || Contributes(row, name, RowOfTable(prev, row.volume)).None?
    ensures forall i | i in RowIssues(row, name) :: i in IssuesOfRows(name, rows)
  {
    var init, last := rows[..|rows|-1], rows[|rows|-1];
    if row != last {
      assert row in init;
      RowCounts(prev, t, name, init, row);
      if Entry(AddRows(prev, t, name, init), row.volume, name).Some? {
        EntriesStay(prev, AddRows(prev, t, name, init), name, [last], row.volume, name);
        assert AddRows(prev, AddRows(prev, t, name, init), name, [last]) == AddRows(prev, t, name, rows) by {
          assert [last][..0] == [];
        }
      }
    }
  }

  lemma {:induction false} LimiterCounts(prev: Table, limiters: seq<Limiter>, l: Limiter, row: Row)
    requires l in limiters && row in l.rows
    ensures || Entry(Contributions(prev, limiters), row.volume, l.name).Some?
            || Contributes(row, l.name, RowOfTable(prev, row.volume)).None?
    ensures forall i | i in RowIssues(row, l.name) :: i in IssuesOfLimiters(limiters)
  {
    var init, last := limiters[..|limiters|-1], limiters[|limiters|-1];
    var t := Contributions(prev, init);
    if l == last {
      RowCounts(prev, t, l.name, l.rows, row);
    } else {
      assert l in init;
      LimiterCounts(prev, init, l, row);
      if Entry(t, row.volume, l.name).Some? {
        EntriesStay(prev, t, last.name, last.rows, row.volume, l.name);
      }
    }
  }

  lemma {:induction false} UnresolvedReported(env: Env, t: Table, names: seq<string>, volume: string, source: string)
    requires volume in names && DirOf(env, volume).NoDir? && source in RowOfTable(t, volume)
    ensures Issue(volume, source, DirOf(env, volume).reason) in UnresolvedIssues(env, t, names)
  {
    var name := names[|names|-1];
    if name == volume {
      var sources := SortedOf(RowOfTable(t, name).Keys);
      assert source in sources;
      var i :| 0 <= i < |sources| && sources[i] == source;
      assert IssuesFor(name, sources, DirOf(env, name).reason)[i] == Issue(volume, source, DirOf(env, volume).reason);
    } else {
      UnresolvedReported(env, t, names[..|names|-1], volume, source);
    }
  }

  /** A row that sets a limit is a source of its volume in the output, or an issue names that limiter and volume. */
  lemma NoRowIsLost(env: Env, limiters: seq<Limiter>, existing: seq<VolumeLimit>, l: Limiter, row: Row)
    requires l in limiters && row in l.rows && row.limits.SetsSomething()
    ensures var t := Contributions(TableOf(existing), limiters);
            || (exists v :: v in Output(env, t) && v.name == row.volume && l.name in v.sources)
            || (exists i :: i in IssuesOfLimiters(limiters) + UnresolvedIssues(env, t, SortedOf(t.Keys))
                            && i.volume == row.volume && i.limiter == l.name)
  {
    var prev := TableOf(existing);
    var t := Contributions(prev, limiters);
    LimiterCounts(prev, limiters, l, row);
    if Entry(t, row.volume, l.name).Some? {
      var names := SortedOf(t.Keys);
      assert row.volume in names;
      match DirOf(env, row.volume)
      case Dir(dir) =>
        var v := VolumeOf(row.volume, dir, RowOfTable(t, row.volume));
        ListedVolumes(env, t, names, v);
        assert v in Output(env, t) && l.name in v.sources;
      case NoDir(reason) =>
        UnresolvedReported(env, t, names, row.volume, l.name);
        assert Issue(row.volume, l.name, reason) in IssuesOfLimiters(limiters) + UnresolvedIssues(env, t, names);
    } else {
      assert Issue(row.volume, l.name, InvalidLimit) in RowIssues(row, l.name);
      assert Issue(row.volume, l.name, InvalidLimit)
          in IssuesOfLimiters(limiters) + UnresolvedIssues(env, t, SortedOf(t.Keys));
    }
  }
}
