/**
 The controller's pure core: `Compute` merges every IOLimiter of a pod into the volumes of its
 PodIOLimit, resolves them to kubelet directories, and reports what it could not use.
 */
module Desired {
  import opened Limits
  import opened Names

  // ---------- inputs ----------

  /** A Kubernetes quantity is a rational number. */
  datatype IOLimits = IOLimits(rbps: Option<real>, wbps: Option<real>, riops: Option<int>, wiops: Option<int>) {
    predicate SetsSomething() { rbps.Some? || wbps.Some? || riops.Some? || wiops.Some? }
  }

  datatype Row = Row(volume: string, limits: IOLimits)

  /** How a limiter's podSelector stands to the pod at hand. */
  datatype Verdict = Matches | MatchesNot | Invalid

  datatype Limiter = Limiter(name: string, verdict: Verdict, rows: seq<Row>)

  datatype VolumeSource = Claim(name: string) | GenericEphemeral | InlineCsi | OtherSource

  datatype PodVolume = PodVolume(name: string, source: VolumeSource)

  datatype Pvc = Pvc(bound: bool, volumeName: string, block: bool)

  /** The pod and the claims and hostPath volumes the lookups answer with. */
  datatype Env = Env(podName: string, volumes: seq<PodVolume>, pvcs: map<string, Pvc>, hostPathPvs: set<string>)

  // ---------- outputs ----------

  datatype Contribution = Contribution(source: string, limits: Limits)

  datatype VolumeLimit = VolumeLimit(name: string, dir: string, limits: Limits,
                                     sources: seq<string>, contributions: seq<Contribution>)

  datatype Reason = VolumeNotFound | UnsupportedVolumeType | PVCNotBound | InvalidLimit

  datatype Issue = Issue(volume: string, limiter: string, reason: Reason)

  // ---------- one volume: where kubelet mounts it ----------

  datatype Dir = Dir(name: string) | NoDir(reason: Reason)

  function FindPodVolume(volumes: seq<PodVolume>, name: string): Option<PodVolume> {
    if volumes == [] then None
    else if volumes[0].name == name then Some(volumes[0])
    else FindPodVolume(volumes[1..], name)
  }

  function ResolvePvcClaim(env: Env, claim: string): Dir {
    if claim !in env.pvcs || !env.pvcs[claim].bound || env.pvcs[claim].volumeName == "" then NoDir(PVCNotBound)
    else if env.pvcs[claim].block then NoDir(UnsupportedVolumeType)
    else if env.pvcs[claim].volumeName in env.hostPathPvs then NoDir(UnsupportedVolumeType)
    else Dir(env.pvcs[claim].volumeName)
  }

  function ResolveKubeletDir(env: Env, v: PodVolume): Dir {
    match v.source
    case Claim(name) => ResolvePvcClaim(env, name)
    case GenericEphemeral => ResolvePvcClaim(env, env.podName + "-" + v.name)
    case InlineCsi => Dir(v.name)
    case OtherSource => NoDir(UnsupportedVolumeType)
  }

  function DirOf(env: Env, name: string): Dir {
    match FindPodVolume(env.volumes, name)
    case None => NoDir(VolumeNotFound)
    case Some(v) => ResolveKubeletDir(env, v)
  }

  /** A claim can be limited exactly when it is bound to a volume that is neither a block device nor a hostPath. */
  lemma ClaimSays(env: Env, claim: string)
    ensures ResolvePvcClaim(env, claim) ==
            match Look(env.pvcs, claim)
            case None => NoDir(PVCNotBound)
            case Some(pvc) =>
              if !pvc.bound || pvc.volumeName == "" then NoDir(PVCNotBound)
              else if pvc.block || pvc.volumeName in env.hostPathPvs then NoDir(UnsupportedVolumeType)
              else Dir(pvc.volumeName)
  {}

  /** The kubelet directory of a pod volume, by the kind of its source; an ephemeral claim is named pod-volume. */
  lemma DirSays(env: Env, name: string)
    ensures DirOf(env, name) ==
            match FindPodVolume(env.volumes, name)
            case None => NoDir(VolumeNotFound)
            case Some(v) =>
              if v.source.Claim? then ResolvePvcClaim(env, v.source.name)
              else if v.source.GenericEphemeral? then ResolvePvcClaim(env, env.podName + "-" + name)
              else if v.source.InlineCsi? then Dir(name)
              else NoDir(UnsupportedVolumeType)
  {
    FindPodVolumeIs(env.volumes, name);
  }

  lemma {:induction false} FindPodVolumeIs(volumes: seq<PodVolume>, name: string)
    ensures match FindPodVolume(volumes, name)
            case None => forall v | v in volumes :: v.name != name
            case Some(v) => v in volumes && v.name == name
  {
    if volumes != [] && volumes[0].name != name {
      FindPodVolumeIs(volumes[1..], name);
    }
  }

  // ---------- one row: what a limiter contributes to a volume ----------

  /** Quantity.Value: rounded up to a whole number. */
  function Value(q: real): int { -((-q).Floor) }

  function ValidateBps(q: real): Option<int> {
    var v := Value(q);
    if v as real != q || v < ONE_KI || v > ONE_PI then None else Some(v)
  }

  /** Exactly the whole numbers of bytes between 1Ki and 1Pi are accepted, as themselves. */
  lemma ValidateBpsAccepts(q: real, v: int)
    ensures ValidateBps(q) == Some(v) <==> q == v as real && ONE_KI <= v <= ONE_PI
  {
    if q == v as real {
      assert -q == (-v) as real;
      assert (-q).Floor == -v;
      assert Value(q) == v;
    }
  }

  function ValidBps(q: Option<real>): Option<int> {
    match q case None => None case Some(r) => ValidateBps(r)
  }

  /** The fields of a row that are valid. */
  function ValidPart(l: IOLimits): Limits {
    Limits(ValidBps(l.rbps), ValidBps(l.wbps), l.riops, l.wiops)
  }

  predicate RowValid(l: IOLimits) {
    (l.rbps.Some? ==> ValidBps(l.rbps).Some?) && (l.wbps.Some? ==> ValidBps(l.wbps).Some?)
  }

  /** A valid row contributes itself; an invalid one its own previous contribution, or else its valid fields. */
  function Contributes(row: Row, limiter: string, prev: map<string, Limits>): Option<Limits> {
    var part := ValidPart(row.limits);
    if !RowValid(row.limits) && limiter in prev then Some(prev[limiter])
    else if part.Unlimited() then None
    else Some(part)
  }

  // ---------- the same in terms of the row's own fields ----------

  predicate IsWhole(q: real, n: int) { n as real == q }

  /** A whole number of bytes between 1Ki and 1Pi. */
  ghost predicate IsBytes(q: real) {
    exists n :: IsWhole(q, n) && 1024 <= n <= 1_125_899_906_842_624
  }

  /** What a byte field of a row gives: itself if it is acceptable, else nothing. */
  ghost predicate Gives(q: Option<real>, v: Option<int>) {
    && (v.Some? <==> q.Some? && IsBytes(q.value))
    && (v.Some? ==> IsWhole(q.value, v.value))
  }

  /** Field by field: the acceptable byte limits and the IOPS limits of the row, each in its own place. */
  ghost predicate TakenFrom(row: IOLimits, l: Limits) {
    && Gives(row.rbps, l.rbps) && Gives(row.wbps, l.wbps)
    && l.riops == row.riops && l.wiops == row.wiops
  }

  ghost predicate Acceptable(l: IOLimits) {
    (l.rbps.Some? ==> IsBytes(l.rbps.value)) && (l.wbps.Some? ==> IsBytes(l.wbps.value))
  }

  /**
   What a row contributes, said of the row as written: itself when it is acceptable or has no previous contribution,
   without its unacceptable fields; nothing when no field is left; else the previous contribution.
   */
  ghost predicate IsContribution(row: IOLimits, prev: Option<Limits>, c: Option<Limits>) {
    if !Acceptable(row) && prev.Some? then c == prev
    else
      && (c.Some? ==> TakenFrom(row, c.value))
      && (c.None? <==> row.riops.None? && row.wiops.None? && (row.rbps.None? || !IsBytes(row.rbps.value))
                       && (row.wbps.None? || !IsBytes(row.wbps.value)))
  }

  lemma BytesAreGiven(q: Option<real>)
    ensures Gives(q, ValidBps(q))
    ensures q.Some? ==> (ValidBps(q).Some? <==> IsBytes(q.value))
  {
    if q.Some? {
      if n :| IsWhole(q.value, n) && 1024 <= n <= 1_125_899_906_842_624 {
        ValidateBpsAccepts(q.value, n);
      }
      if ValidBps(q).Some? {
        ValidateBpsAccepts(q.value, ValidBps(q).value);
        assert IsWhole(q.value, ValidBps(q).value);
      }
    }
  }

  lemma ContributionSays(row: Row, limiter: string, prev: map<string, Limits>)
    ensures IsContribution(row.limits, Look(prev, limiter), Contributes(row, limiter, prev))
    ensures RowValid(row.limits) <==> Acceptable(row.limits)
  {
    BytesAreGiven(row.limits.rbps);
    BytesAreGiven(row.limits.wbps);
  }

  /** One InvalidLimit for each byte field that is set but not acceptable. */
  lemma RowIssuesSay(row: Row, limiter: string)
    ensures |RowIssues(row, limiter)| ==
            (if row.limits.rbps.Some? && !IsBytes(row.limits.rbps.value) then 1 else 0)
            + (if row.limits.wbps.Some? && !IsBytes(row.limits.wbps.value) then 1 else 0)
    ensures forall i | i in RowIssues(row, limiter) ::
              i.volume == row.volume && i.limiter == limiter && i.reason.InvalidLimit?
  {
    BytesAreGiven(row.limits.rbps);
    BytesAreGiven(row.limits.wbps);
  }

  function RowIssues(row: Row, limiter: string): seq<Issue> {
    var issue := [Issue(row.volume, limiter, InvalidLimit)];
    (if row.limits.rbps.Some? && ValidBps(row.limits.rbps).None? then issue else [])
    + (if row.limits.wbps.Some? && ValidBps(row.limits.wbps).None? then issue else [])
  }

  /** compute.go's mergeContribution: field by field, remembering whether any was invalid. */
  method MergeContribution(row: Row, limiter: string,
                           prev: map<string, Limits>) returns (c: Option<Limits>, issues: seq<Issue>)
    ensures c == Contributes(row, limiter, prev)
    ensures IsContribution(row.limits, Look(prev, limiter), c)
    ensures issues == RowIssues(row, limiter)
  {
    ContributionSays(row, limiter, prev);
    var contrib := NO_LIMITS;
    var invalid, contributed := false, false;
    issues := [];
    if row.limits.rbps.Some? {
      var v := ValidateBps(row.limits.rbps.value);
      if v.Some? {
        contrib, contributed := contrib.(rbps := v), true;
      } else {
        invalid, issues := true, issues + [Issue(row.volume, limiter, InvalidLimit)];
      }
    }
    if row.limits.wbps.Some? {
      var v := ValidateBps(row.limits.wbps.value);
      if v.Some? {
        contrib, contributed := contrib.(wbps := v), true;
      } else {
        invalid, issues := true, issues + [Issue(row.volume, limiter, InvalidLimit)];
      }
    }
    if row.limits.riops.Some? {
      contrib, contributed := contrib.(riops := row.limits.riops), true;
    }
    if row.limits.wiops.Some? {
      contrib, contributed := contrib.(wiops := row.limits.wiops), true;
    }
    if invalid && limiter in prev {
      return Some(prev[limiter]), issues;
    }
    c := if contributed then Some(contrib) else None;
  }

  // ---------- all rows: contributions by volume and limiter ----------

  type Table = map<string, map<string, Limits>>

  function RowOfTable(t: Table, volume: string): map<string, Limits> {
    if volume in t then t[volume] else map[]
  }

  function Entry(t: Table, volume: string, limiter: string): Option<Limits> {
    Look(RowOfTable(t, volume), limiter)
  }

  function AddRow(prev: Table, t: Table, limiter: string, row: Row): Table {
    match Contributes(row, limiter, RowOfTable(prev, row.volume))
    case None => t
    case Some(c) => t[row.volume := RowOfTable(t, row.volume)[limiter := c]]
  }

  function AddRows(prev: Table, t: Table, limiter: string, rows: seq<Row>): Table {
    if rows == [] then t else AddRow(prev, AddRows(prev, t, limiter, rows[..|rows|-1]), limiter, rows[|rows|-1])
  }

  /** The contributions of all limiters, given those of the existing PodIOLimit. */
  function Contributions(prev: Table, limiters: seq<Limiter>): Table {
    if limiters == [] then map[] else
      var l := limiters[|limiters|-1];
      AddRows(prev, Contributions(prev, limiters[..|limiters|-1]), l.name, l.rows)
  }

  function IssuesOfRows(limiter: string, rows: seq<Row>): seq<Issue> {
    if rows == [] then [] else IssuesOfRows(limiter, rows[..|rows|-1]) + RowIssues(rows[|rows|-1], limiter)
  }

  function IssuesOfLimiters(limiters: seq<Limiter>): seq<Issue> {
    if limiters == [] then [] else
      var l := limiters[|limiters|-1];
      IssuesOfLimiters(limiters[..|limiters|-1]) + IssuesOfRows(l.name, l.rows)
  }

  // ---------- the output ----------

  function LimitsIn(cs: seq<Contribution>): seq<Limits> {
    seq(|cs|, i requires 0 <= i < |cs| => cs[i].limits)
  }

  ghost function ContributionList(row: map<string, Limits>): seq<Contribution> {
    var sources := SortedOf(row.Keys);
    seq(|sources|, i requires 0 <= i < |sources| =>
          assert sources[i] in sources; Contribution(sources[i], row[sources[i]]))
  }

  ghost function VolumeOf(name: string, dir: string, row: map<string, Limits>): VolumeLimit {
    var cs := ContributionList(row);
    VolumeLimit(name, dir, MergeAll(LimitsIn(cs)), SortedOf(row.Keys), cs)
  }

  ghost function VolumesOf(env: Env, t: Table, names: seq<string>): seq<VolumeLimit> {
    if names == [] then [] else
      var name := names[|names|-1];
      VolumesOf(env, t, names[..|names|-1])
        + (match DirOf(env, name) case Dir(dir) => [VolumeOf(name, dir, RowOfTable(t, name))] case NoDir(_) => [])
  }

  function IssuesFor(volume: string, sources: seq<string>, reason: Reason): seq<Issue> {
    seq(|sources|, i requires 0 <= i < |sources| => Issue(volume, sources[i], reason))
  }

  ghost function UnresolvedIssues(env: Env, t: Table, names: seq<string>): seq<Issue> {
    if names == [] then [] else
      var name := names[|names|-1];
      UnresolvedIssues(env, t, names[..|names|-1])
        + (match DirOf(env, name)
           case Dir(_) => []
           case NoDir(reason) => IssuesFor(name, SortedOf(RowOfTable(t, name).Keys), reason))
  }

  /** The volumes Compute returns, as a function of the contributions. */
  ghost function Output(env: Env, t: Table): seq<VolumeLimit> {
    VolumesOf(env, t, SortedOf(t.Keys))
  }

  function ContributionMap(cs: seq<Contribution>): map<string, Limits> {
    if cs == [] then map[] else ContributionMap(cs[..|cs|-1])[cs[|cs|-1].source := cs[|cs|-1].limits]
  }

  /** The contributions an existing PodIOLimit carries. */
  function TableOf(existing: seq<VolumeLimit>): Table {
    if existing == [] then map[] else
      var v := existing[|existing|-1];
      TableOf(existing[..|existing|-1])[v.name := ContributionMap(v.contributions)]
  }

  // ---------- Compute ----------

  method IndexExisting(existing: seq<VolumeLimit>) returns (t: Table)
    ensures t == TableOf(existing)
  {
    t := map[];
    for i := 0 to |existing|
      invariant t == TableOf(existing[..i])
    {
      var cs := existing[i].contributions;
      var m := map[];
      for j := 0 to |cs|
        invariant m == ContributionMap(cs[..j])
      {
        assert cs[..j+1][..j] == cs[..j];
        m := m[cs[j].source := cs[j].limits];
      }
      assert cs[..|cs|] == cs;
      assert existing[..i+1][..i] == existing[..i];
      t := t[existing[i].name := m];
    }
    assert existing[..|existing|] == existing;
  }

  /** The rows of one limiter. */
  method CollectRows(l: Limiter, prev: Table, before: Table) returns (t: Table, issues: seq<Issue>)
    ensures t == AddRows(prev, before, l.name, l.rows)
    ensures issues == IssuesOfRows(l.name, l.rows)
  {
    t, issues := before, [];
    for j := 0 to |l.rows|
      invariant t == AddRows(prev, before, l.name, l.rows[..j])
      invariant issues == IssuesOfRows(l.name, l.rows[..j])
    {
      var row := l.rows[j];
      assert l.rows[..j+1][..j] == l.rows[..j];
      var c, rowIssues := MergeContribution(row, l.name, RowOfTable(prev, row.volume));
      issues := issues + rowIssues;
      if c.Some? {
        t := t[row.volume := RowOfTable(t, row.volume)[l.name := c.value]];
      }
    }
    assert l.rows[..|l.rows|] == l.rows;
  }

  method Collect(limiters: seq<Limiter>, prev: Table) returns (t: Table, issues: seq<Issue>)
    ensures t == Contributions(prev, limiters)
    ensures issues == IssuesOfLimiters(limiters)
  {
    t, issues := map[], [];
    for i := 0 to |limiters|
      invariant t == Contributions(prev, limiters[..i])
      invariant issues == IssuesOfLimiters(limiters[..i])
    {
      assert limiters[..i+1][..i] == limiters[..i];
      var rowIssues;
      t, rowIssues := CollectRows(limiters[i], prev, t);
      issues := issues + rowIssues;
    }
    assert limiters[..|limiters|] == limiters;
  }

  /** One more contribution, one more value in the minimum. */
  lemma MergeOneMore(cs: seq<Contribution>, c: Contribution)
    ensures MergeAll(LimitsIn(cs + [c])) == MergeMin(MergeAll(LimitsIn(cs)), c.limits)
  {
    assert LimitsIn(cs + [c]) == LimitsIn(cs) + [c.limits];
    assert (LimitsIn(cs) + [c.limits])[..|cs|] == LimitsIn(cs);
  }

  lemma ListAt(row: map<string, Limits>, i: nat)
    requires i < |SortedOf(row.Keys)|
    ensures SortedOf(row.Keys)[i] in row && |ContributionList(row)| == |SortedOf(row.Keys)|
    ensures ContributionList(row)[i] == Contribution(SortedOf(row.Keys)[i], row[SortedOf(row.Keys)[i]])
  {
    assert SortedOf(row.Keys)[i] in SortedOf(row.Keys);
  }

  lemma TakeOneMore(cs: seq<Contribution>, i: nat)
    requires i < |cs|
    ensures cs[..i+1] == cs[..i] + [cs[i]]
  {}

  method MergeVolume(name: string, dir: string, row: map<string, Limits>, sources: seq<string>) returns (v: VolumeLimit)
    requires IsSortedOf(sources, row.Keys)
    ensures v == VolumeOf(name, dir, row)
  {
    SortedIsUnique(sources, SortedOf(row.Keys), row.Keys);
    var merged := NO_LIMITS;
    var cs: seq<Contribution> := [];
    for i := 0 to |sources|
      invariant cs == ContributionList(row)[..i]
      invariant merged == MergeAll(LimitsIn(cs))
    {
      ListAt(row, i);
      TakeOneMore(ContributionList(row), i);
      var c := Contribution(sources[i], row[sources[i]]);
      MergeOneMore(cs, c);
      cs := cs + [c];
      merged := MergeMin(merged, c.limits);
    }
    assert cs == ContributionList(row);
    v := VolumeLimit(name, dir, merged, sources, cs);
  }

  /** One volume of the output, or the issues of its sources when it has no kubelet directory. */
  method Assemble(env: Env, name: string, row: map<string, Limits>) returns (out: seq<VolumeLimit>, issues: seq<Issue>)
    ensures out == match DirOf(env, name) case Dir(dir) => [VolumeOf(name, dir, row)] case NoDir(_) => []
    ensures issues == match DirOf(env, name)
                      case Dir(_) => []
                      case NoDir(reason) => IssuesFor(name, SortedOf(row.Keys), reason)
  {
    var sources := SortKeys(row.Keys);
    SortedIsUnique(sources, SortedOf(row.Keys), row.Keys);
    match DirOf(env, name) {
      case NoDir(reason) =>
        out, issues := [], IssuesFor(name, sources, reason);
      case Dir(dir) =>
        var v := MergeVolume(name, dir, row, sources);
        out, issues := [v], [];
    }
  }

  /** The volumes of the table in order of their names. */
  method AssembleAll(env: Env, t: Table) returns (out: seq<VolumeLimit>, issues: seq<Issue>)
    ensures out == Output(env, t)
    ensures issues == UnresolvedIssues(env, t, SortedOf(t.Keys))
  {
    var names := SortKeys(t.Keys);
    SortedIsUnique(names, SortedOf(t.Keys), t.Keys);
    out, issues := [], [];
    for i := 0 to |names|
      invariant out == VolumesOf(env, t, names[..i])
      invariant issues == UnresolvedIssues(env, t, names[..i])
    {
      AssembleStep(env, t, names, i);
      var vs, more := Assemble(env, names[i], RowOfTable(t, names[i]));
      out, issues := out + vs, issues + more;
    }
    assert names[..|names|] == names;
  }

  lemma AssembleStep(env: Env, t: Table, names: seq<string>, i: nat)
    requires i < |names|
    ensures VolumesOf(env, t, names[..i+1]) == VolumesOf(env, t, names[..i])
              + (match DirOf(env, names[i])
                 case Dir(dir) => [VolumeOf(names[i], dir, RowOfTable(t, names[i]))]
                 case NoDir(_) => [])
    ensures UnresolvedIssues(env, t, names[..i+1]) == UnresolvedIssues(env, t, names[..i])
              + (match DirOf(env, names[i])
                 case Dir(_) => []
                 case NoDir(reason) => IssuesFor(names[i], SortedOf(RowOfTable(t, names[i]).Keys), reason))
  {
    assert names[..i+1][..i] == names[..i];
  }

  /** compute.go's Compute. */
  method Compute(env: Env, limiters: seq<Limiter>,
                 existing: seq<VolumeLimit>) returns (out: seq<VolumeLimit>, issues: seq<Issue>)
    ensures out == Output(env, Contributions(TableOf(existing), limiters))
    ensures issues == IssuesOfLimiters(limiters)
                      + UnresolvedIssues(env, Contributions(TableOf(existing), limiters),
                                         SortedOf(Contributions(TableOf(existing), limiters).Keys))
  {
    var prev := IndexExisting(existing);
    var t, rowIssues := Collect(limiters, prev);
    var more;
    out, more := AssembleAll(env, t);
    issues := rowIssues + more;
  }
}
