/** The cgroup directory of a pod, and why no pod's UID can point it elsewhere. */
module Cgroup {
  import opened Text
  import opened Paths
  import opened Limits

  datatype Driver = Systemd | Cgroupfs | OtherDriver

  datatype Qos = Guaranteed | Burstable | BestEffort

  datatype Layout = Layout(base: string, driver: Driver, prefix: string)

  /** strings.ToLower of the class. */
  function Lower(qos: Qos): string {
    match qos
    case Guaranteed => "guaranteed"
    case Burstable => "burstable"
    case BestEffort => "besteffort"
  }

  /** strings.ReplaceAll(uid, "-", "_"). */
  function Underscored(uid: string): string {
    seq(|uid|, i requires 0 <= i < |uid| => if uid[i] == '-' then '_' else uid[i])
  }

  function PodSlice(prefix: string, uid: string): string { prefix + "-pod" + Underscored(uid) + ".slice" }

  function RelativePath(l: Layout, uid: string, qos: Qos): Option<string> {
    match l.driver
    case Systemd =>
      if qos == Guaranteed then Some(PodSlice(l.prefix, uid))
      else
        var slice := l.prefix + "-" + Lower(qos);
        Some(JoinPath([slice + ".slice", PodSlice(slice, uid)]))
    case Cgroupfs =>
      if qos == Guaranteed then Some("pod" + uid) else Some(JoinPath([Lower(qos), "pod" + uid]))
    case OtherDriver => None
  }

  /** cgroup.go's within. */
  predicate Within(base: string, p: string) {
    match Relative(base, p)
    case NoRel => false
    case Rel(rel) => rel != "." && rel != ".." && !HasPrefix(rel, "../")
  }

  /** cgroup.go's PodPath; `None` is an error. */
  function PodPath(l: Layout, uid: string, qos: Qos): Option<string> {
    match RelativePath(l, uid, qos)
    case None => None
    case Some(rel) =>
      var p := JoinPath([l.base, rel]);
      if Within(l.base, p) then Some(p) else None
  }

  // ---------- the guard says what it is meant to say ----------

  lemma FirstPart(rel: string)
    ensures SplitOn(rel, '/')[0] == ".." ==> rel == ".." || HasPrefix(rel, "../")
    ensures rel == ".." || HasPrefix(rel, "../") ==> SplitOn(rel, '/')[0] == ".."
  {
    var k := IndexOf(rel, '/');
    if 2 < |rel| {
      assert rel[..3] == rel[..2] + [rel[2]];
    }
    if rel == ".." {
      SplitLast("..", '/');
    } else if HasPrefix(rel, "../") {
      assert rel == ".." + ['/'] + rel[3..];
      SplitStep("..", '/', rel[3..]);
    } else {
      assert SplitOn(rel, '/')[0] == rel[..k];
    }
  }

  lemma DotDotShows(parts: seq<string>)
    requires parts != [] && forall p | p in parts :: '/' !in p
    ensures var rel := JoinWith(parts, '/');
            parts[0] == ".." <==> rel == ".." || HasPrefix(rel, "../")
  {
    SplitOfJoin(parts, '/');
    FirstPart(JoinWith(parts, '/'));
  }

  lemma DotShows(parts: seq<string>)
    requires parts != [] && forall p | p in parts :: '/' !in p
    ensures JoinWith(parts, '/') == "." ==> parts == ["."]
  {
    SplitOfJoin(parts, '/');
    SplitLast(".", '/');
  }

  lemma NamesAndDots(n: nat, parts: seq<string>)
    requires forall p | p in parts :: IsName(p) || p == ".."
    ensures forall p | p in seq(n, _ => "..") + parts :: '/' !in p
    ensures forall p | p in parts :: '/' !in p && p != "."
  {}

  /** One cleaned path goes on from another with a step down. */
  ghost predicate Extends(b: seq<string>, t: seq<string>) {
    |b| < |t| && t[..|b|] == b && t[|b|] != ".."
  }

  /** For every two paths, absolute or not: `within` accepts exactly when the one goes on from the other. */
  lemma WithinExtends(base: string, p: string)
    ensures Within(base, p) <==> Rooted(base) == Rooted(p) && Extends(PartsOf(base), PartsOf(p))
  {
    PathIsNormal(base);
    PathIsNormal(p);
    var b, t := PartsOf(base), PartsOf(p);
    var k := Common(b, t);
    NamesAndDots(|b| - k, t[k..]);
    if k < |b| {
      var parts := seq(|b| - k, _ => "..") + t[k..];
      assert parts[0] == "..";
      DotDotShows(parts);
    } else if b != t {
      var parts := t[k..];
      assert seq(|b| - k, _ => "..") + t[k..] == parts;
      assert parts[0] in parts;
      DotDotShows(parts);
      DotShows(parts);
    }
  }

  lemma {:induction false} OnlyDown(rooted: bool, t: seq<string>, k: nat, i: nat)
    requires Normal(rooted, t) && k <= i < |t| && t[k] != ".."
    ensures IsName(t[i])
  {
    assert t[i] in t;
    if i > k {
      OnlyDown(rooted, t, k, i - 1);
    }
  }

  lemma ExtendsIsBelow(rooted: bool, from: Location, b: seq<string>, t: seq<string>)
    requires Normal(rooted, t) && Extends(b, t)
    ensures StrictlyBelow(Walk(from, b), Walk(from, t))
  {
    var names := t[|b|..];
    forall p | p in names ensures IsName(p) {
      var i :| 0 <= i < |names| && names[i] == p;
      OnlyDown(rooted, t, |b|, |b| + i);
    }
    assert t == b + names;
    WalkTwice(from, b, names);
    WalkNames(Walk(from, b), names);
  }

  /**
   What `within` accepts leads strictly below the base from every working directory; of absolute paths it
   accepts every one that does.
   */
  lemma WithinIsBelow(base: string, p: string)
    ensures Within(base, p) ==> forall cwd :: StrictlyBelow(Denotes(cwd, base), Denotes(cwd, p))
    ensures Rooted(base) && Rooted(p) ==> (Within(base, p) <==> StrictlyBelow(Denotes([], base), Denotes([], p)))
  {
    WithinExtends(base, p);
    if Within(base, p) {
      forall cwd ensures StrictlyBelow(Denotes(cwd, base), Denotes(cwd, p)) {
        var from := if Rooted(base) then [] else cwd;
        PathIsNormal(p);
        CleanKeepsMeaning(Rooted(base), from, SplitOn(base, '/'));
        CleanKeepsMeaning(Rooted(p), from, SplitOn(p, '/'));
        ExtendsIsBelow(Rooted(p), from, PartsOf(base), PartsOf(p));
      }
    }
    if Rooted(base) && Rooted(p) {
      RootedParts(base);
      RootedParts(p);
      if |PartsOf(base)| < |PartsOf(p)| {
        assert PartsOf(p)[|PartsOf(base)|] in PartsOf(p);
      }
    }
  }

  // ---------- any UID at all ----------

  /** The components below the base, before any cleaning. */
  function WrittenParts(l: Layout, uid: string, qos: Qos): seq<string> {
    var slice := l.prefix + "-" + Lower(qos);
    match l.driver
    case OtherDriver => []
    case Systemd =>
      if qos == Guaranteed then SplitOn(PodSlice(l.prefix, uid), '/')
      else SplitOn(slice + ".slice", '/') + SplitOn(PodSlice(slice, uid), '/')
    case Cgroupfs =>
      if qos == Guaranteed then SplitOn("pod" + uid, '/') else SplitOn(Lower(qos), '/') + SplitOn("pod" + uid, '/')
  }

  lemma TwoParts(from: Location, a: string, b: string)
    requires a != "" && b != "" && !Rooted(a)
    ensures var rel := JoinPath([a, b]);
            rel != "" && !Rooted(rel) && Walk(from, SplitOn(rel, '/')) == Walk(from, SplitOn(a, '/') + SplitOn(b, '/'))
  {
    DenotesJoin(from, a, b);
    WalkTwice(from, SplitOn(a, '/'), SplitOn(b, '/'));
    assert [a, b][..1] == [a];
    assert NonEmpty([a]) == [a];
    assert NonEmpty([a, b]) == [a, b];
    var s := JoinWith([a, b], '/');
    PathIsNormal(s);
    if PartsOf(s) != [] {
      assert PartsOf(s)[0] in PartsOf(s);
    }
  }

  lemma RelativeLeads(l: Layout, uid: string, qos: Qos, from: Location)
    requires l.driver != OtherDriver && '/' !in l.prefix
    ensures var rel := RelativePath(l, uid, qos);
            rel.Some? && rel.value != "" && Walk(from, SplitOn(rel.value, '/')) == Walk(from, WrittenParts(l, uid, qos))
  {
    if qos != Guaranteed {
      var slice := l.prefix + "-" + Lower(qos);
      if l.driver == Systemd {
        TwoParts(from, slice + ".slice", PodSlice(slice, uid));
      } else {
        TwoParts(from, Lower(qos), "pod" + uid);
      }
    }
  }

  /**
   For every UID whatever its text: the path is returned exactly when the written components lead strictly
   below the base, and then it denotes the place they lead to.
   */
  lemma PodPathStaysBelow(l: Layout, uid: string, qos: Qos)
    requires Rooted(l.base) && '/' !in l.prefix && l.driver != OtherDriver
    ensures var base := Denotes([], l.base);
            var at := Walk(base, WrittenParts(l, uid, qos));
            && (PodPath(l, uid, qos).Some? <==> StrictlyBelow(base, at))
            && (PodPath(l, uid, qos).Some? ==>
                  Rooted(PodPath(l, uid, qos).value) && Denotes([], PodPath(l, uid, qos).value) == at)
  {
    RelativeLeads(l, uid, qos, Denotes([], l.base));
    var rel := RelativePath(l, uid, qos).value;
    DenotesJoin([], l.base, rel);
    WithinIsBelow(l.base, JoinPath([l.base, rel]));
  }

  // ---------- UIDs of the shape Kubernetes uses ----------

  predicate IsHex(c: char) { '0' <= c <= '9' || 'a' <= c <= 'f' || 'A' <= c <= 'F' }

  /** 8-4-4-4-12 hexadecimal digits. */
  predicate IsUuid(uid: string) {
    && |uid| == 36
    && forall i | 0 <= i < 36 :: if i in {8, 13, 18, 23} then uid[i] == '-' else IsHex(uid[i])
  }

  /** The directories below the base when no component needs cleaning. */
  function Names(l: Layout, uid: string, qos: Qos): seq<string> {
    var slice := l.prefix + "-" + Lower(qos);
    match l.driver
    case OtherDriver => []
    case Systemd => if qos == Guaranteed then [PodSlice(l.prefix, uid)] else [slice + ".slice", PodSlice(slice, uid)]
    case Cgroupfs => if qos == Guaranteed then ["pod" + uid] else [Lower(qos), "pod" + uid]
  }

  lemma PlainParts(l: Layout, uid: string, qos: Qos)
    requires l.driver != OtherDriver && '/' !in l.prefix && '/' !in uid
    ensures WrittenParts(l, uid, qos) == Names(l, uid, qos) != []
    ensures forall p | p in Names(l, uid, qos) :: IsName(p)
  {
    var slice := l.prefix + "-" + Lower(qos);
    assert '/' !in slice && '/' !in slice + ".slice";
    assert '/' !in Underscored(uid);
    NoSlash(l.prefix, uid);
    NoSlash(slice, uid);
    SplitLast(PodSlice(l.prefix, uid), '/');
    SplitLast(slice + ".slice", '/');
    SplitLast(PodSlice(slice, uid), '/');
    SplitLast(Lower(qos), '/');
    SplitLast("pod" + uid, '/');
  }

  lemma NoSlash(prefix: string, uid: string)
    requires '/' !in prefix && '/' !in uid
    ensures '/' !in PodSlice(prefix, uid) && |PodSlice(prefix, uid)| > 2
  {
    assert '/' !in Underscored(uid);
  }

  /** A UID without a slash always gets a path: the base followed by the one or two directories named after it. */
  lemma PlainUidGetsPath(l: Layout, uid: string, qos: Qos)
    requires Rooted(l.base) && '/' !in l.prefix && l.driver != OtherDriver && '/' !in uid
    ensures var p := PodPath(l, uid, qos);
            p.Some? && Denotes([], p.value) == Denotes([], l.base) + Names(l, uid, qos)
  {
    PodPathStaysBelow(l, uid, qos);
    PlainParts(l, uid, qos);
    WalkNames(Denotes([], l.base), Names(l, uid, qos));
  }

  /** For a rooted base: the path is the cleaned base, "/" left out, and the joined names below it. */
  lemma PathIsBaseAndNames(l: Layout, uid: string, qos: Qos)
    requires Rooted(l.base) && '/' !in l.prefix && l.driver != OtherDriver && '/' !in uid
    ensures PodPath(l, uid, qos) == Some(Stem(l.base) + "/" + JoinWith(Names(l, uid, qos), '/'))
  {
    PlainUidGetsPath(l, uid, qos);
    PodPathStaysBelow(l, uid, qos);
    PlainParts(l, uid, qos);
    CleanDenotes([], JoinWith(NonEmpty([l.base, RelativePath(l, uid, qos).value]), '/'));
    PathBelow(l.base, PodPath(l, uid, qos).value, Names(l, uid, qos));
  }

  /** The directories of a pod, spelled out, for every rooted base and every UID without a slash. */
  lemma PodPathText(l: Layout, uid: string, dashless: string, qos: Qos)
    requires Rooted(l.base) && '/' !in l.prefix && '/' !in uid && |dashless| == |uid|
    requires forall i | 0 <= i < |uid| :: dashless[i] == if uid[i] == '-' then '_' else uid[i]
    ensures var stem := Stem(l.base) + "/";
            var tier := if qos == Burstable then "burstable" else "besteffort";
            PodPath(l, uid, qos) == match l.driver {
              case OtherDriver => None
              case Systemd =>
                if qos == Guaranteed then Some(stem + (l.prefix + "-pod" + dashless + ".slice"))
                else
                  var dir := l.prefix + "-" + tier;
                  Some(stem + (dir + ".slice" + "/" + (dir + "-pod" + dashless + ".slice")))
              case Cgroupfs =>
                if qos == Guaranteed then Some(stem + ("pod" + uid)) else Some(stem + (tier + "/" + ("pod" + uid)))
            }
  {
    if l.driver != OtherDriver {
      PathIsBaseAndNames(l, uid, qos);
      assert dashless == Underscored(uid);
      var names := Names(l, uid, qos);
      TwoNames(names[0], names[|names|-1]);
    }
  }

  lemma TwoNames(a: string, b: string)
    ensures JoinWith([a], '/') == a && JoinWith([a, b], '/') == a + "/" + b
  {
    JoinStep(a, [b], '/');
    assert [a] + [b] == [a, b];
  }

  lemma SliceKeepsUid(prefix: string, a: string, b: string)
    requires '_' !in a && '_' !in b && PodSlice(prefix, a) == PodSlice(prefix, b)
    ensures a == b
  {
    var n := |prefix + "-pod"|;
    assert |a| == |b| by {
      assert |PodSlice(prefix, a)| == n + |a| + 6 && |PodSlice(prefix, b)| == n + |b| + 6;
    }
    forall i | 0 <= i < |a| ensures a[i] == b[i] {
      assert PodSlice(prefix, a)[n + i] == Underscored(a)[i] && PodSlice(prefix, b)[n + i] == Underscored(b)[i];
      assert a[i] in a && b[i] in b;
    }
  }

  lemma NamesDiffer(l: Layout, uid: string, qos: Qos, uid': string, qos': Qos)
    requires l.driver != OtherDriver && '_' !in uid && '_' !in uid'
    requires Names(l, uid, qos) == Names(l, uid', qos')
    ensures uid == uid' && qos == qos'
  {
    assert |Names(l, uid, qos)| == |Names(l, uid', qos')|;
    var n, n' := Names(l, uid, qos), Names(l, uid', qos');
    assert n[0] == n'[0] && |n[0]| == |n'[0]|;
    assert qos == qos';
    if l.driver == Systemd {
      SliceKeepsUid(if qos == Guaranteed then l.prefix else l.prefix + "-" + Lower(qos), uid, uid');
    } else {
      var last, last' := n[|n|-1], n'[|n|-1];
      assert last[3..] == uid && last'[3..] == uid';
    }
  }

  /** Two pods never share a cgroup path: different UUIDs or QoS classes give different paths below the base. */
  lemma UuidPathsAreDistinct(l: Layout, uid: string, qos: Qos, uid': string, qos': Qos)
    requires Rooted(l.base) && '/' !in l.prefix && l.driver != OtherDriver
    requires IsUuid(uid) && IsUuid(uid')
    ensures PodPath(l, uid, qos).Some? && PodPath(l, uid', qos').Some?
    ensures StrictlyBelow(Denotes([], l.base), Denotes([], PodPath(l, uid, qos).value))
    ensures PodPath(l, uid, qos) == PodPath(l, uid', qos') <==> uid == uid' && qos == qos'
  {
    UuidIsPlain(uid);
    UuidIsPlain(uid');
    PlainUidGetsPath(l, uid, qos);
    PlainUidGetsPath(l, uid', qos');
    PodPathStaysBelow(l, uid, qos);
    if PodPath(l, uid, qos) == PodPath(l, uid', qos') {
      var base := Denotes([], l.base);
      assert (base + Names(l, uid, qos))[|base|..] == Names(l, uid, qos);
      assert (base + Names(l, uid', qos'))[|base|..] == Names(l, uid', qos');
      NamesDiffer(l, uid, qos, uid', qos');
    }
  }

  lemma UuidIsPlain(uid: string)
    requires IsUuid(uid)
    ensures '/' !in uid && '_' !in uid
  {
    forall c | c in uid ensures c != '/' && c != '_' {
      var i :| 0 <= i < |uid| && uid[i] == c;
    }
  }
}
