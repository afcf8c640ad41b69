/**
 Limits on one block device, and the two minimum implementations that combine them:
 the controller's `mergeMin` and the agent's `iomax.Merge`.
 */
module Limits {

  datatype Option<+T> = None | Some(value: T)

  function Look<K, V>(m: map<K, V>, k: K): Option<V> {
    if k in m then Some(m[k]) else None
  }

  lemma SameLooks<K, V>(m: map<K, V>, m': map<K, V>)
    requires forall k :: Look(m, k) == Look(m', k)
    ensures m == m'
  {
    forall k ensures k in m <==> k in m' {
      assert Look(m, k) == Look(m', k);
    }
    forall k | k in m ensures m[k] == m'[k] {
      assert Look(m, k) == Look(m', k);
    }
  }

  /** A block device, as "MAJ:MIN". */
  type Device = string

  datatype Field = ReadBps | WriteBps | ReadIops | WriteIops

  /** Four optional ceilings; `None` is "max". `DeviceLimits` holds int64 values, an io.max rule uint64 ones. */
  datatype Limits = Limits(rbps: Option<int>, wbps: Option<int>, riops: Option<int>, wiops: Option<int>) {
    function Get(f: Field): Option<int> {
      match f
      case ReadBps => rbps
      case WriteBps => wbps
      case ReadIops => riops
      case WriteIops => wiops
    }

    /** The rule that formats to the all-max reset line. */
    predicate Unlimited() {
      rbps.None? && wbps.None? && riops.None? && wiops.None?
    }
  }

  type Rule = Limits

  const NO_LIMITS := Limits(None, None, None, None)

  // ---------- the two implementations of "per-field minimum" ----------

  function MergeMinField(dst: Option<int>, c: Option<int>): Option<int> {
    if c.Some? && (dst.None? || c.value < dst.value) then c else dst
  }

  /** compute.go's mergeMin: folds `c` into `dst`. */
  function MergeMin(dst: Limits, c: Limits): Limits {
    Limits(MergeMinField(dst.rbps, c.rbps), MergeMinField(dst.wbps, c.wbps),
           MergeMinField(dst.riops, c.riops), MergeMinField(dst.wiops, c.wiops))
  }

  function MinPtr(a: Option<int>, b: Option<int>): Option<int> {
    if a.None? then b
    else if b.None? then a
    else if a.value < b.value then a
    else b
  }

  /** iomax.go's Merge. */
  function Merge(a: Rule, b: Rule): Rule {
    Limits(MinPtr(a.rbps, b.rbps), MinPtr(a.wbps, b.wbps), MinPtr(a.riops, b.riops), MinPtr(a.wiops, b.wiops))
  }

  const TWO_64: int := 0x1_0000_0000_0000_0000

  /** Go's int64 to uint64 conversion: a negative value wraps around. */
  function ToUint64(v: Option<int>): Option<int> {
    match v
    case None => None
    case Some(n) => Some(n % TWO_64)
  }

  /** resolve.go's deviceLimitsToRule. */
  function ToRule(l: Limits): Rule {
    Limits(ToUint64(l.rbps), ToUint64(l.wbps), ToUint64(l.riops), ToUint64(l.wiops))
  }

  predicate InRange(v: Option<int>, lo: int, hi: int) {
    v.Some? ==> lo <= v.value <= hi
  }

  lemma ConversionKeeps(l: Limits, f: Field)
    requires InRange(l.Get(f), 0, TWO_64 - 1)
    ensures ToRule(l).Get(f) == l.Get(f)
  {}

  /** Each field by itself; a negative int64 wraps around to the top of the unsigned range. */
  lemma ConversionSays(l: Limits, f: Field)
    requires InRange(l.Get(f), -0x8000_0000_0000_0000, 0x7FFF_FFFF_FFFF_FFFF)
    ensures ToRule(l).Get(f) ==
            match l.Get(f)
            case None => None
            case Some(n) => Some(if n >= 0 then n else n + 0x1_0000_0000_0000_0000)
  {}

  // ---------- reference definition: the minimum of a flat list ----------

  /** `m` is the least value any of `cs` sets for field `f`, or `None` when none sets it. */
  ghost predicate IsMin(f: Field, cs: seq<Limits>, m: Option<int>) {
    match m
    case None => forall c | c in cs :: c.Get(f).None?
    case Some(v) =>
      && (exists c :: c in cs && c.Get(f) == Some(v))
      && (forall c | c in cs && c.Get(f).Some? :: v <= c.Get(f).value)
  }

  function MergeAll(cs: seq<Limits>): Limits {
    if cs == [] then NO_LIMITS else MergeMin(MergeAll(cs[..|cs|-1]), cs[|cs|-1])
  }

  lemma MinOfTwo(f: Field, as_: seq<Limits>, a: Option<int>, bs: seq<Limits>, b: Option<int>)
    requires IsMin(f, as_, a) && IsMin(f, bs, b)
    ensures IsMin(f, as_ + bs, MinPtr(a, b))
    ensures IsMin(f, as_ + bs, MergeMinField(a, b))
  {
    forall c | c in as_ + bs ensures c in as_ || c in bs {}
    if a.Some? {
      var c :| c in as_ && c.Get(f) == a;
      assert c in as_ + bs;
    }
    if b.Some? {
      var c :| c in bs && c.Get(f) == b;
      assert c in as_ + bs;
    }
  }

  /** The controller's fold over a volume's contributions is the minimum of the list. */
  lemma {:induction false} MergeAllIsMin(f: Field, cs: seq<Limits>)
    ensures IsMin(f, cs, MergeAll(cs).Get(f))
  {
    if cs != [] {
      var init, last := cs[..|cs|-1], cs[|cs|-1];
      MergeAllIsMin(f, init);
      assert IsMin(f, [last], last.Get(f)) by { assert last in [last]; }
      MinOfTwo(f, init, MergeAll(init).Get(f), [last], last.Get(f));
      assert cs == init + [last];
    }
  }

  /** Adding limits can only tighten: a set field stays set and never rises. */
  lemma MoreLimitsTighten(f: Field, cs: seq<Limits>, m: Option<int>, more: seq<Limits>, m': Option<int>)
    requires IsMin(f, cs, m) && IsMin(f, more, m')
    requires forall c | c in cs :: c in more
    ensures m.Some? ==> m'.Some? && m'.value <= m.value
  {
    if m.Some? {
      var c :| c in cs && c.Get(f) == m;
      assert c in more;
    }
  }

  // ---------- what a value written to the kernel must satisfy ----------

  const ONE_KI: int := 1024
  const ONE_PI: int := 1024 * 1024 * 1024 * 1024 * 1024

  /** Byte limits in 1Ki..1Pi, IOPS limits in the range of the IOLimiter schema, at least one of the four set. */
  predicate WellFormed(l: Limits) {
    && InRange(l.rbps, ONE_KI, ONE_PI)
    && InRange(l.wbps, ONE_KI, ONE_PI)
    && InRange(l.riops, 2, 0xFFFF_FFFF)
    && InRange(l.wiops, 2, 0xFFFF_FFFF)
    && !l.Unlimited()
  }

  lemma WellFormedFits(l: Limits, f: Field)
    requires WellFormed(l)
    ensures InRange(l.Get(f), 0, TWO_64 - 1)
  {}

  lemma MinInRange(f: Field, cs: seq<Limits>, m: Option<int>, lo: int, hi: int)
    requires IsMin(f, cs, m)
    requires forall c | c in cs :: InRange(c.Get(f), lo, hi)
    ensures InRange(m, lo, hi)
    ensures (exists c :: c in cs && c.Get(f).Some?) ==> m.Some?
  {}

  /** The per-field minimum of a nonempty list of well-formed limits is well formed. */
  lemma MinWellFormed(cs: seq<Limits>, m: Limits)
    requires cs != [] && forall c | c in cs :: WellFormed(c)
    requires forall f :: IsMin(f, cs, m.Get(f))
    ensures WellFormed(m)
  {
    MinInRange(ReadBps, cs, m.Get(ReadBps), ONE_KI, ONE_PI);
    MinInRange(WriteBps, cs, m.Get(WriteBps), ONE_KI, ONE_PI);
    MinInRange(ReadIops, cs, m.Get(ReadIops), 2, 0xFFFF_FFFF);
    MinInRange(WriteIops, cs, m.Get(WriteIops), 2, 0xFFFF_FFFF);
    var c := cs[0];
    assert c in cs && WellFormed(c);
    var f :| c.Get(f).Some? by {
      assert c.Get(ReadBps).Some? || c.Get(WriteBps).Some? || c.Get(ReadIops).Some? || c.Get(WriteIops).Some?;
    }
    assert IsMin(f, cs, m.Get(f));
  }
}
