/**
 The parsed-selector cache shared by all reconcilers. A lookup checks the cache, parses outside the
 lock and stores, as three separate steps, so that lookups interleave and an older generation may
 overwrite a newer entry.
 */
module SelectorCache {

  datatype Requirement = Requirement(key: string, operator: string, values: seq<string>)

  datatype LabelSelector = LabelSelector(matchLabels: map<string, string>, matchExpressions: seq<Requirement>)

  datatype Result = Parsed(selector: LabelSelector) | TooLarge | Malformed

  const MAX_MATCH_EXPRESSIONS := 16
  const MAX_VALUES := 64
  const MAX_MATCH_LABELS := 16
  const MAX_LENGTH := 63

  predicate ShortRequirement(e: Requirement) {
    |e.key| <= MAX_LENGTH && |e.values| <= MAX_VALUES && forall v | v in e.values :: |v| <= MAX_LENGTH
  }

  predicate WithinBounds(ls: LabelSelector) {
    && |ls.matchExpressions| <= MAX_MATCH_EXPRESSIONS
    && |ls.matchLabels| <= MAX_MATCH_LABELS
    && ShortLabels(ls.matchLabels)
    && (forall e | e in ls.matchExpressions :: ShortRequirement(e))
  }

  /** The bounds, in numbers: 16 expressions, 16 labels, 64 values each, 63 characters for every key and value. */
  lemma BoundsSay(ls: LabelSelector)
    ensures WithinBounds(ls) <==>
              && |ls.matchExpressions| <= 16 && |ls.matchLabels| <= 16
              && (forall k | k in ls.matchLabels :: |k| <= 63 && |ls.matchLabels[k]| <= 63)
              && (forall e | e in ls.matchExpressions ::
                    |e.key| <= 63 && |e.values| <= 64 && forall v | v in e.values :: |v| <= 63)
  {}

  predicate ShortLabels(labels: map<string, string>) {
    forall k | k in labels :: |k| <= MAX_LENGTH && |labels[k]| <= MAX_LENGTH
  }

  method LabelsAreShort(labels: map<string, string>) returns (ok: bool)
    ensures ok == ShortLabels(labels)
  {
    var keys := labels.Keys;
    while keys != {}
      invariant keys <= labels.Keys
      invariant forall k | k in labels.Keys - keys :: |k| <= MAX_LENGTH && |labels[k]| <= MAX_LENGTH
    {
      var k :| k in keys;
      if |k| > MAX_LENGTH || |labels[k]| > MAX_LENGTH {
        return false;
      }
      keys := keys - {k};
    }
    return true;
  }

  method RequirementIsShort(e: Requirement) returns (ok: bool)
    ensures ok == ShortRequirement(e)
  {
    if |e.key| > MAX_LENGTH || |e.values| > MAX_VALUES {
      return false;
    }
    for j := 0 to |e.values|
      invariant forall v | v in e.values[..j] :: |v| <= MAX_LENGTH
    {
      assert e.values[j] in e.values;
      if |e.values[j]| > MAX_LENGTH {
        return false;
      }
    }
    return true;
  }

  /** selector.go's validateSelectorBounds: lengths first, then every key and value, stopping at the first excess. */
  method ValidateSelectorBounds(ls: LabelSelector) returns (ok: bool)
    ensures ok == WithinBounds(ls)
  {
    if |ls.matchExpressions| > MAX_MATCH_EXPRESSIONS || |ls.matchLabels| > MAX_MATCH_LABELS {
      return false;
    }
    ok := LabelsAreShort(ls.matchLabels);
    if !ok {
      return;
    }
    for i := 0 to |ls.matchExpressions|
      invariant forall e | e in ls.matchExpressions[..i] :: ShortRequirement(e)
    {
      assert ls.matchExpressions[i] in ls.matchExpressions;
      ok := RequirementIsShort(ls.matchExpressions[i]);
      if !ok {
        return;
      }
    }
    return true;
  }

  /** Which label selectors the apimachinery conversion accepts. */
  datatype Library = Library(accepts: LabelSelector -> bool)

  function Parse(lib: Library, ls: LabelSelector): Result {
    if !WithinBounds(ls) then TooLarge
    else if lib.accepts(ls) then Parsed(ls)
    else Malformed
  }

  // ---------- concurrent lookups ----------

  datatype Limiter = Limiter(uid: string, generation: nat, selector: LabelSelector)

  datatype CacheEntry = CacheEntry(generation: nat, result: Result)

  datatype Lookup =
    | Checking(l: Limiter)
    | Parsing(l: Limiter)
    | Storing(l: Limiter, result: Result)
    | Done(l: Limiter, result: Result)

  datatype Cache = Cache(entries: map<string, CacheEntry>, lookups: seq<Lookup>)

  datatype Step = Call(l: Limiter) | Check(i: nat) | DoParse(i: nat) | Store(i: nat)

  /** The cache after one step, when the step is possible. */
  ghost predicate Next(lib: Library, s: Cache, step: Step, t: Cache) {
    match step
    case Call(l) => t == s.(lookups := s.lookups + [Checking(l)])
    case Check(i) =>
      && i < |s.lookups| && s.lookups[i].Checking?
      && (var l := s.lookups[i].l;
          t == s.(lookups := s.lookups[i := if l.uid in s.entries && s.entries[l.uid].generation == l.generation
                                            then Done(l, s.entries[l.uid].result) else Parsing(l)]))
    case DoParse(i) =>
      && i < |s.lookups| && s.lookups[i].Parsing?
      && t == s.(lookups := s.lookups[i := Storing(s.lookups[i].l, Parse(lib, s.lookups[i].l.selector))])
    case Store(i) =>
      && i < |s.lookups| && s.lookups[i].Storing?
      && (var l, r := s.lookups[i].l, s.lookups[i].result;
          t == Cache(s.entries[l.uid := CacheEntry(l.generation, r)], s.lookups[i := Done(l, r)]))
  }

  const EMPTY := Cache(map[], [])

  ghost predicate IsRun(lib: Library, run: seq<Cache>, steps: seq<Step>) {
    && |run| == |steps| + 1 && run[0] == EMPTY
    && forall k | 0 <= k < |steps| :: Next(lib, run[k], steps[k], run[k+1])
  }

  /** Among the limiters ever looked up, UID and generation determine what parsing gives. */
  ghost predicate Determined(lib: Library, limiters: set<Limiter>) {
    forall a, b | a in limiters && b in limiters && a.uid == b.uid && a.generation == b.generation ::
      Parse(lib, a.selector) == Parse(lib, b.selector)
  }

  ghost predicate AllFrom(run: seq<Cache>, limiters: set<Limiter>) {
    forall k, i | 0 <= k < |run| && 0 <= i < |run[k].lookups| :: run[k].lookups[i].l in limiters
  }

  /** Every entry was parsed from some limiter of that UID and generation. */
  ghost predicate EntriesInv(lib: Library, entries: map<string, CacheEntry>, limiters: set<Limiter>) {
    forall u | u in entries ::
      exists l :: l in limiters && l.uid == u && l.generation == entries[u].generation
                  && Parse(lib, l.selector) == entries[u].result
  }

  /** Every entry is right for what it was stored for, and every result for what it was asked for. */
  ghost predicate CacheInv(lib: Library, s: Cache, limiters: set<Limiter>) {
    && EntriesInv(lib, s.entries, limiters)
    && (forall i | 0 <= i < |s.lookups| && (s.lookups[i].Storing? || s.lookups[i].Done?) ::
          s.lookups[i].result == Parse(lib, s.lookups[i].l.selector))
  }

  lemma StorePreserves(lib: Library, entries: map<string, CacheEntry>, limiters: set<Limiter>, l: Limiter)
    requires EntriesInv(lib, entries, limiters) && l in limiters
    ensures EntriesInv(lib, entries[l.uid := CacheEntry(l.generation, Parse(lib, l.selector))], limiters)
  {}

  lemma HitIsRight(lib: Library, entries: map<string, CacheEntry>, limiters: set<Limiter>, l: Limiter)
    requires EntriesInv(lib, entries, limiters) && l in limiters && Determined(lib, limiters)
    requires l.uid in entries && entries[l.uid].generation == l.generation
    ensures entries[l.uid].result == Parse(lib, l.selector)
  {}

  lemma StepKeepsCache(lib: Library, s: Cache, step: Step, t: Cache, limiters: set<Limiter>)
    requires CacheInv(lib, s, limiters) && Next(lib, s, step, t) && Determined(lib, limiters)
    requires forall i | 0 <= i < |s.lookups| :: s.lookups[i].l in limiters
    ensures CacheInv(lib, t, limiters)
  {
    match step
    case Store(i) =>
      StorePreserves(lib, s.entries, limiters, s.lookups[i].l);
    case Check(i) =>
      var l := s.lookups[i].l;
      if l.uid in s.entries && s.entries[l.uid].generation == l.generation {
        HitIsRight(lib, s.entries, limiters, l);
      }
    case _ =>
  }

  lemma {:induction false} RunKeepsCache(lib: Library, run: seq<Cache>, steps: seq<Step>, limiters: set<Limiter>,
                                         k: nat)
    requires IsRun(lib, run, steps) && AllFrom(run, limiters) && Determined(lib, limiters) && k < |run|
    ensures CacheInv(lib, run[k], limiters)
  {
    if k > 0 {
      RunKeepsCache(lib, run, steps, limiters, k - 1);
      StepKeepsCache(lib, run[k-1], steps[k-1], run[k], limiters);
    }
  }

  /** In this run every finished lookup returned what parsing its own selector gives. */
  ghost predicate AllLookupsRight(lib: Library, run: seq<Cache>) {
    forall k, i | 0 <= k < |run| && 0 <= i < |run[k].lookups| && run[k].lookups[i].Done? ::
      run[k].lookups[i].result == Parse(lib, run[k].lookups[i].l.selector)
  }

  /** Two limiters of one UID and generation that parse differently make some lookup wrong. */
  lemma AmbiguityIsVisible(lib: Library, a: Limiter, b: Limiter) returns (run: seq<Cache>, steps: seq<Step>)
    requires a.uid == b.uid && a.generation == b.generation && Parse(lib, a.selector) != Parse(lib, b.selector)
    ensures IsRun(lib, run, steps) && AllFrom(run, {a, b}) && !AllLookupsRight(lib, run)
  {
    var r := Parse(lib, a.selector);
    var e := map[a.uid := CacheEntry(a.generation, r)];
    steps := [Call(a), Check(0), DoParse(0), Store(0), Call(b), Check(1)];
    run := [EMPTY,
            Cache(map[], [Checking(a)]),
            Cache(map[], [Parsing(a)]),
            Cache(map[], [Storing(a, r)]),
            Cache(e, [Done(a, r)]),
            Cache(e, [Done(a, r), Checking(b)]),
            Cache(e, [Done(a, r), Done(b, r)])];
    assert run[6].lookups[1].result != Parse(lib, run[6].lookups[1].l.selector);
  }

  /**
   The cache refines direct parsing: under every interleaving every lookup over `limiters` returns what
   parsing that limiter's own selector returns, exactly when UID and generation determine that.
   */
  lemma CacheRefinesParsing(lib: Library, limiters: set<Limiter>)
    ensures Determined(lib, limiters) <==>
              forall run, steps | IsRun(lib, run, steps) && AllFrom(run, limiters) :: AllLookupsRight(lib, run)
  {
    if Determined(lib, limiters) {
      forall run, steps | IsRun(lib, run, steps) && AllFrom(run, limiters) ensures AllLookupsRight(lib, run) {
        forall k | 0 <= k < |run| ensures CacheInv(lib, run[k], limiters) {
          RunKeepsCache(lib, run, steps, limiters, k);
        }
      }
    } else {
      var a, b :| a in limiters && b in limiters && a.uid == b.uid && a.generation == b.generation
               && Parse(lib, a.selector) != Parse(lib, b.selector);
      var run, steps := AmbiguityIsVisible(lib, a, b);
      assert AllFrom(run, limiters);
    }
  }
}
