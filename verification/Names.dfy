/** Names in dictionary order: Go collects map keys in random order and sorts them. */
module Names {

  predicate Less(a: string, b: string)
    decreases |a|
  {
    b != [] && (a == [] || a[0] < b[0] || (a[0] == b[0] && Less(a[1..], b[1..])))
  }

  lemma {:induction false} LessTotal(a: string, b: string)
    ensures a == b || Less(a, b) || Less(b, a)
    ensures !(Less(a, b) && Less(b, a)) && !Less(a, a)
    decreases |a|
  {
    if a != [] && b != [] {
      LessTotal(a[1..], b[1..]);
      LessTotal(a[1..], a[1..]);
      assert a == [a[0]] + a[1..] && b == [b[0]] + b[1..];
    } else if a != [] {
      LessTotal(a[1..], a[1..]);
    }
  }

  /** The first `k` characters agree, and then `a` ends or has the smaller one. */
  predicate DiffersAt(a: string, b: string, k: nat) {
    && k <= |a| && k < |b| && a[..k] == b[..k]
    && (k == |a| || a[k] < b[k])
  }

  lemma {:induction false} LessIsDictionaryOrder(a: string, b: string)
    ensures Less(a, b) <==> exists k: nat :: DiffersAt(a, b, k)
    decreases |a|
  {
    if a != [] && b != [] && a[0] == b[0] {
      LessIsDictionaryOrder(a[1..], b[1..]);
      assert a == [a[0]] + a[1..] && b == [b[0]] + b[1..];
      if k: nat :| DiffersAt(a[1..], b[1..], k) {
        assert a[..k+1] == [a[0]] + a[1..][..k] && b[..k+1] == [b[0]] + b[1..][..k];
        assert DiffersAt(a, b, k + 1);
      }
      if k: nat :| DiffersAt(a, b, k) {
        assert k > 0;
        assert a[..k] == [a[0]] + a[1..][..k-1] && b[..k] == [b[0]] + b[1..][..k-1];
        assert DiffersAt(a[1..], b[1..], k - 1);
      }
    } else if Less(a, b) {
      assert DiffersAt(a, b, 0);
    } else {
      forall k: nat ensures !DiffersAt(a, b, k) {
        if 0 < k <= |a| && k < |b| {
          assert a[..k][0] == a[0] && b[..k][0] == b[0];
        }
      }
    }
  }

  lemma {:induction false} LessTransitive(a: string, b: string, c: string)
    requires Less(a, b) && Less(b, c)
    ensures Less(a, c)
    decreases |a|
  {
    if a != [] && a[0] == b[0] == c[0] {
      LessTransitive(a[1..], b[1..], c[1..]);
    }
  }

  predicate StrictlySorted(s: seq<string>) {
    forall i, j | 0 <= i < j < |s| :: Less(s[i], s[j])
  }

  ghost predicate IsSortedOf(s: seq<string>, keys: set<string>) {
    StrictlySorted(s) && forall k :: k in s <==> k in keys
  }

  /** A set has one sorted listing. */
  lemma {:induction false} SortedIsUnique(s: seq<string>, t: seq<string>, keys: set<string>)
    requires IsSortedOf(s, keys) && IsSortedOf(t, keys)
    ensures s == t
    decreases |s|
  {
    EmptyListing(s, keys);
    EmptyListing(t, keys);
    if s != [] {
      assert s[0] in keys && s[0] in t;
      assert t[0] in keys && t[0] in s;
      FirstIsLeast(s, t[0]);
      FirstIsLeast(t, s[0]);
      LessTotal(s[0], t[0]);
      TailSorted(s, keys);
      TailSorted(t, keys);
      SortedIsUnique(s[1..], t[1..], keys - {s[0]});
    }
  }

  lemma EmptyListing(s: seq<string>, keys: set<string>)
    requires IsSortedOf(s, keys)
    ensures s == [] <==> keys == {}
  {
    assert s != [] ==> s[0] in keys;
  }

  lemma FirstIsLeast(s: seq<string>, x: string)
    requires StrictlySorted(s) && x in s
    ensures x == s[0] || Less(s[0], x)
  {}

  lemma TailSorted(s: seq<string>, keys: set<string>)
    requires s != [] && IsSortedOf(s, keys)
    ensures IsSortedOf(s[1..], keys - {s[0]})
  {
    LessTotal(s[0], s[0]);
    forall k ensures k in s[1..] <==> k in keys - {s[0]} {
      if k in keys - {s[0]} {
        assert k in s;
        var i :| 0 <= i < |s| && s[i] == k;
        assert s[1..][i-1] == k;
      }
      if k in s[1..] {
        assert k in s;
        var i :| 0 < i < |s| && s[i] == k;
        assert Less(s[0], s[i]);
      }
    }
  }

  /** Insertion of a new name into a sorted list. */
  function Insert(s: seq<string>, x: string): (r: seq<string>)
    requires StrictlySorted(s) && x !in s
    ensures StrictlySorted(r) && forall k :: k in r <==> k in s || k == x
    decreases |s|
  {
    if s == [] then [x] else
      var last := s[|s|-1];
      assert s == s[..|s|-1] + [last];
      if Less(last, x) then
        assert forall i | 0 <= i < |s| :: Less(s[i], x) by {
          forall i | 0 <= i < |s| - 1 ensures Less(s[i], x) { LessTransitive(s[i], last, x); }
        }
        s + [x]
      else
        var t := Insert(s[..|s|-1], x);
        assert forall i | 0 <= i < |t| :: Less(t[i], last) by {
          LessTotal(last, x);
          forall i | 0 <= i < |t| ensures Less(t[i], last) { assert t[i] in t; }
        }
        t + [last]
  }

  /** The keys of a map, collected in any order and sorted. */
  method SortKeys(keys: set<string>) returns (r: seq<string>)
    ensures IsSortedOf(r, keys)
  {
    r := [];
    var todo := keys;
    while todo != {}
      invariant todo <= keys
      invariant IsSortedOf(r, keys - todo)
    {
      var k :| k in todo;
      r := Insert(r, k);
      todo := todo - {k};
    }
  }

  /** The sorted listing of a set. */
  ghost function SortedOf(keys: set<string>): (r: seq<string>)
    ensures IsSortedOf(r, keys)
  {
    if keys == {} then [] else
      var k :| k in keys;
      Insert(SortedOf(keys - {k}), k)
  }
}
