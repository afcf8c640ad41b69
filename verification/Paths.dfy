/** Slash-separated paths: the lexical cleaning of Go's path/filepath, and what a path denotes. */
module Paths {
  import opened Text

  type Location = seq<string>

  /** A directory entry: one step down. */
  predicate IsName(p: string) { p != "" && p != "." && p != ".." && '/' !in p }

  // ---------- meaning: walking the components as written ----------

  function Step(at: Location, p: string): Location {
    if p == "" || p == "." then at
    else if p == ".." then (if at == [] then [] else at[..|at|-1])
    else at + [p]
  }

  function Walk(from: Location, parts: seq<string>): Location {
    if parts == [] then from else Step(Walk(from, parts[..|parts|-1]), parts[|parts|-1])
  }

  predicate Rooted(path: string) { path != "" && path[0] == '/' }

  /** Where `path` leads from the working directory `cwd`. */
  function Denotes(cwd: Location, path: string): Location {
    Walk(if Rooted(path) then [] else cwd, SplitOn(path, '/'))
  }

  ghost predicate StrictlyBelow(base: Location, at: Location) {
    |base| < |at| && at[..|base|] == base
  }

  lemma {:induction false} WalkTwice(from: Location, a: seq<string>, b: seq<string>)
    ensures Walk(from, a + b) == Walk(Walk(from, a), b)
  {
    if b == [] {
      assert a + b == a;
    } else {
      WalkTwice(from, a, b[..|b|-1]);
      assert (a + b)[..|a + b|-1] == a + b[..|b|-1];
    }
  }

  lemma {:induction false} WalkNames(from: Location, names: seq<string>)
    requires forall p | p in names :: IsName(p)
    ensures Walk(from, names) == from + names
  {
    if names != [] {
      WalkNames(from, names[..|names|-1]);
      assert names[|names|-1] in names;
    }
  }

  // ---------- filepath.Clean, Join and Rel ----------

  /** One component onto the cleaned ones so far. */
  function Push(rooted: bool, stack: seq<string>, p: string): seq<string> {
    if p == "" || p == "." then stack
    else if p != ".." then stack + [p]
    else if stack != [] && stack[|stack|-1] != ".." then stack[..|stack|-1]
    else if rooted then stack
    else stack + [".."]
  }

  function CleanParts(rooted: bool, parts: seq<string>): seq<string> {
    if parts == [] then [] else Push(rooted, CleanParts(rooted, parts[..|parts|-1]), parts[|parts|-1])
  }

  function PartsOf(path: string): seq<string> {
    CleanParts(Rooted(path), SplitOn(path, '/'))
  }

  function Render(rooted: bool, parts: seq<string>): string {
    if rooted then "/" + JoinWith(parts, '/') else if parts == [] then "." else JoinWith(parts, '/')
  }

  /** filepath.Clean. */
  function Clean(path: string): string { Render(Rooted(path), PartsOf(path)) }

  function NonEmpty(elems: seq<string>): seq<string> {
    if elems == [] then [] else NonEmpty(elems[..|elems|-1]) + if elems[|elems|-1] == "" then [] else [elems[|elems|-1]]
  }

  /** filepath.Join. */
  function JoinPath(elems: seq<string>): string {
    if NonEmpty(elems) == [] then "" else Clean(JoinWith(NonEmpty(elems), '/'))
  }

  function Common(a: seq<string>, b: seq<string>): (k: nat)
    ensures k <= |a| && k <= |b| && a[..k] == b[..k]
    ensures k < |a| && k < |b| ==> a[k] != b[k]
  {
    if a == [] || b == [] || a[0] != b[0] then 0 else
      var k := 1 + Common(a[1..], b[1..]);
      assert a[..k] == [a[0]] + a[1..][..k-1] && b[..k] == [b[0]] + b[1..][..k-1];
      k
  }

  datatype RelResult = NoRel | Rel(rel: string)

  /** filepath.Rel. */
  function Relative(base: string, target: string): RelResult {
    var b, t := PartsOf(base), PartsOf(target);
    var k := Common(b, t);
    if Rooted(base) != Rooted(target) || (k < |b| && b[k] == "..") then NoRel
    else if b == t then Rel(".")
    else Rel(JoinWith(seq(|b| - k, _ => "..") + t[k..], '/'))
  }

  // ---------- cleaning is normal form and keeps the meaning ----------

  /** Every component is a step down, save for leading ".." in a relative path. */
  ghost predicate Normal(rooted: bool, parts: seq<string>) {
    && (forall p | p in parts :: IsName(p) || p == "..")
    && (forall i | 0 <= i < |parts| && parts[i] == ".." :: !rooted && (i == 0 || parts[i-1] == ".."))
  }

  lemma {:induction false} CleanIsNormal(rooted: bool, parts: seq<string>)
    requires forall p | p in parts :: '/' !in p
    ensures Normal(rooted, CleanParts(rooted, parts))
  {
    if parts != [] {
      CleanIsNormal(rooted, parts[..|parts|-1]);
      assert parts[|parts|-1] in parts;
    }
  }

  lemma PushKeepsMeaning(rooted: bool, from: Location, stack: seq<string>, p: string)
    requires rooted ==> from == []
    requires forall q | q in stack :: q != "" && q != "." && (rooted ==> q != "..")
    ensures Walk(from, Push(rooted, stack, p)) == Step(Walk(from, stack), p)
  {
    if stack != [] {
      assert stack[|stack|-1] in stack;
    }
    assert (stack + [p])[..|stack|] == stack;
  }

  lemma {:induction false} CleanKeepsMeaning(rooted: bool, from: Location, parts: seq<string>)
    requires rooted ==> from == []
    ensures Walk(from, CleanParts(rooted, parts)) == Walk(from, parts)
  {
    if parts != [] {
      var init, p := parts[..|parts|-1], parts[|parts|-1];
      CleanKeepsMeaning(rooted, from, init);
      var stack := CleanParts(rooted, init);
      StackParts(rooted, init);
      PushKeepsMeaning(rooted, from, stack, p);
    }
  }

  lemma {:induction false} StackParts(rooted: bool, parts: seq<string>)
    ensures forall p | p in CleanParts(rooted, parts) :: p != "" && p != "." && (rooted ==> p != "..")
  {
    if parts != [] {
      StackParts(rooted, parts[..|parts|-1]);
      PushParts(rooted, CleanParts(rooted, parts[..|parts|-1]), parts[|parts|-1]);
    }
  }

  lemma PushParts(rooted: bool, stack: seq<string>, p: string)
    requires forall q | q in stack :: q != "" && q != "." && (rooted ==> q != "..")
    ensures forall q | q in Push(rooted, stack, p) :: q != "" && q != "." && (rooted ==> q != "..")
  {
    forall q | q in Push(rooted, stack, p) ensures q != "" && q != "." && (rooted ==> q != "..") {
      assert q in stack || q == p || (!rooted && q == "..");
    }
  }

  lemma {:induction false} NormalStays(rooted: bool, parts: seq<string>)
    requires Normal(rooted, parts)
    ensures CleanParts(rooted, parts) == parts
  {
    if parts != [] {
      NormalStays(rooted, parts[..|parts|-1]);
      assert parts[|parts|-1] in parts;
    }
  }

  /** Rendering a normal form loses nothing. */
  lemma RenderRoundTrip(rooted: bool, parts: seq<string>)
    requires Normal(rooted, parts)
    ensures Rooted(Render(rooted, parts)) == rooted
    ensures PartsOf(Render(rooted, parts)) == parts
  {
    NormalStays(rooted, parts);
    if parts == [] {
      EmptyPath();
    } else {
      SplitOfJoin(parts, '/');
      if rooted {
        RootedSplit(parts);
        CleanAfterEmpty(rooted, parts);
      } else {
        RelativeStart(parts);
      }
    }
  }

  lemma RootedSplit(parts: seq<string>)
    requires parts != [] && forall p | p in parts :: '/' !in p
    ensures SplitOn("/" + JoinWith(parts, '/'), '/') == [""] + parts
  {
    assert "/" + JoinWith(parts, '/') == "" + ['/'] + JoinWith(parts, '/');
    SplitStep("", '/', JoinWith(parts, '/'));
    SplitOfJoin(parts, '/');
  }

  lemma RelativeStart(parts: seq<string>)
    requires parts != [] && Normal(false, parts)
    ensures !Rooted(JoinWith(parts, '/'))
  {
    var s := JoinWith(parts, '/');
    assert parts[0] in parts && parts[0] != "" && s[0] == parts[0][0];
    assert parts[0][0] in parts[0];
  }

  lemma EmptyPath()
    ensures PartsOf("/") == [] && PartsOf(".") == []
  {
    assert "/" == "" + ['/'] + "";
    SplitStep("", '/', "");
    SplitLast("", '/');
    SplitLast(".", '/');
    assert CleanParts(true, [""]) == [];
    assert ["", ""][..1] == [""];
  }

  lemma {:induction false} CleanAfterEmpty(rooted: bool, parts: seq<string>)
    ensures CleanParts(rooted, [""] + parts) == CleanParts(rooted, parts)
  {
    if parts != [] {
      CleanAfterEmpty(rooted, parts[..|parts|-1]);
      assert ([""] + parts)[..|parts|] == [""] + parts[..|parts|-1];
    }
  }

  lemma PathIsNormal(path: string)
    ensures Normal(Rooted(path), PartsOf(path))
  {
    JoinOfSplit(path, '/');
    CleanIsNormal(Rooted(path), SplitOn(path, '/'));
  }

  /** Cleaning a path changes neither its root nor what it denotes, and cleaning again changes nothing. */
  lemma CleanDenotes(cwd: Location, path: string)
    ensures Rooted(Clean(path)) == Rooted(path)
    ensures Denotes(cwd, Clean(path)) == Denotes(cwd, path)
    ensures Clean(Clean(path)) == Clean(path)
  {
    PathIsNormal(path);
    RenderRoundTrip(Rooted(path), PartsOf(path));
    var from := if Rooted(path) then [] else cwd;
    CleanKeepsMeaning(Rooted(path), from, SplitOn(path, '/'));
    CleanKeepsMeaning(Rooted(path), from, SplitOn(Clean(path), '/'));
  }

  /** A path appended to another is walked from where the first leads. */
  lemma DenotesJoin(cwd: Location, base: string, rel: string)
    requires base != "" && rel != ""
    ensures Rooted(JoinPath([base, rel])) == Rooted(base)
    ensures Denotes(cwd, JoinPath([base, rel])) == Walk(Denotes(cwd, base), SplitOn(rel, '/'))
  {
    assert [base, rel][..1] == [base];
    assert NonEmpty([base]) == [base];
    assert NonEmpty([base, rel]) == [base, rel];
    var s := base + ['/'] + rel;
    assert JoinWith([base, rel], '/') == s;
    CleanDenotes(cwd, s);
    SplitConcat(base, rel);
    WalkTwice(if Rooted(base) then [] else cwd, SplitOn(base, '/'), SplitOn(rel, '/'));
  }

  lemma SplitConcat(a: string, b: string)
    ensures SplitOn(a + ['/'] + b, '/') == SplitOn(a, '/') + SplitOn(b, '/')
  {
    JoinOfSplit(a, '/');
    JoinOfSplit(b, '/');
    JoinConcat(SplitOn(a, '/'), SplitOn(b, '/'), '/');
    SplitOfJoin(SplitOn(a, '/') + SplitOn(b, '/'), '/');
  }

  lemma RootedParts(path: string)
    requires Rooted(path)
    ensures PartsOf(path) == Denotes([], path)
    ensures forall p | p in PartsOf(path) :: IsName(p)
  {
    PathIsNormal(path);
    CleanKeepsMeaning(true, [], SplitOn(path, '/'));
    forall p | p in PartsOf(path) ensures IsName(p) {
      var i :| 0 <= i < |PartsOf(path)| && PartsOf(path)[i] == p;
    }
    WalkNames([], PartsOf(path));
  }

  /** The cleaned path as a prefix of the paths below it. */
  function Stem(path: string): string { if Clean(path) == "/" then "" else Clean(path) }

  /** A cleaned path that leads some names below another is written that way. */
  lemma PathBelow(base: string, p: string, names: seq<string>)
    requires Rooted(base) && Rooted(p) && Clean(p) == p && names != []
    requires Denotes([], p) == Denotes([], base) + names
    ensures p == Stem(base) + "/" + JoinWith(names, '/')
  {
    RootedParts(base);
    RootedParts(p);
    StemText(PartsOf(base), names);
  }

  lemma StemText(parts: seq<string>, names: seq<string>)
    requires names != [] && forall p | p in parts :: IsName(p)
    ensures var base := "/" + JoinWith(parts, '/');
            "/" + JoinWith(parts + names, '/') == (if base == "/" then "" else base) + "/" + JoinWith(names, '/')
  {
    if parts == [] {
      assert parts + names == names;
    } else {
      JoinConcat(parts, names, '/');
      assert parts[0] in parts;
      assert "/" + (JoinWith(parts, '/') + ['/'] + JoinWith(names, '/'))
          == ("/" + JoinWith(parts, '/')) + "/" + JoinWith(names, '/');
    }
  }
}
