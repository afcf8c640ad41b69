/**
 The splitting and joining of text that the parsers share. Text is a sequence of bytes, one char each, as a Go
 string is; white space is that of Unicode, written in UTF-8.
 */
module Text {

  // ---------- white space ----------

  /** White space of one byte. */
  predicate IsSpace(c: char) {
    c == ' ' || c == '\t' || c == '\n' || c == '\r' || c == '\U{000B}' || c == '\U{000C}'
  }

  /** White space of two bytes: next line and no-break space, U+0085 and U+00A0. */
  predicate IsPairSpace(a: char, b: char) {
    a == '\U{00C2}' && (b == '\U{0085}' || b == '\U{00A0}')
  }

  /** White space of three bytes: U+1680, U+2000 to U+200A, U+2028, U+2029, U+202F, U+205F and U+3000. */
  predicate IsTripleSpace(a: char, b: char, c: char) {
    || (a == '\U{00E1}' && b == '\U{009A}' && c == '\U{0080}')
    || (a == '\U{00E2}' && b == '\U{0080}'
        && ('\U{0080}' <= c <= '\U{008A}' || c == '\U{00A8}' || c == '\U{00A9}' || c == '\U{00AF}'))
    || (a == '\U{00E2}' && b == '\U{0081}' && c == '\U{009F}')
    || (a == '\U{00E3}' && b == '\U{0080}' && c == '\U{0080}')
  }

  /**
   How many bytes the white space at the start of `s` takes, 0 when there is none. The first byte of a
   character never continues another one, so looking at every byte finds what decoding would find.
   */
  function SpaceWidth(s: string): (n: nat)
    ensures n <= |s|
  {
    if |s| >= 1 && IsSpace(s[0]) then 1
    else if |s| >= 2 && IsPairSpace(s[0], s[1]) then 2
    else if |s| >= 3 && IsTripleSpace(s[0], s[1], s[2]) then 3
    else 0
  }

  /** How many bytes the white space at the end of `s` takes. */
  function SpaceEnd(s: string): (n: nat)
    ensures n <= |s|
  {
    if |s| >= 1 && IsSpace(s[|s|-1]) then 1
    else if |s| >= 2 && IsPairSpace(s[|s|-2], s[|s|-1]) then 2
    else if |s| >= 3 && IsTripleSpace(s[|s|-3], s[|s|-2], s[|s|-1]) then 3
    else 0
  }

  /** A byte that stands for itself and is not white space. */
  predicate IsPlain(c: char) { !IsSpace(c) && c < '\U{0080}' }

  /** Length of the longest prefix in which no white space starts. */
  function WordLength(s: string): (k: nat)
    ensures k <= |s| && (k < |s| ==> SpaceWidth(s[k..]) > 0)
  {
    if s == [] || SpaceWidth(s) > 0 then 0 else
      var k := 1 + WordLength(s[1..]);
      assert k < |s| ==> s[k..] == s[1..][k-1..];
      k
  }

  predicate IsWord(w: string) { w != [] && WordLength(w) == |w| }

  /** strings.Fields. */
  function Fields(s: string): seq<string>
    decreases |s|
  {
    if s == [] then []
    else if SpaceWidth(s) > 0 then Fields(s[SpaceWidth(s)..])
    else [s[..WordLength(s)]] + Fields(s[WordLength(s)..])
  }

  function TrimLeft(s: string): string
    decreases |s|
  {
    if SpaceWidth(s) > 0 then TrimLeft(s[SpaceWidth(s)..]) else s
  }

  function TrimRight(s: string): string
    decreases |s|
  {
    if SpaceEnd(s) > 0 then TrimRight(s[..|s| - SpaceEnd(s)]) else s
  }

  /** strings.TrimSpace. */
  function TrimSpace(s: string): string { TrimRight(TrimLeft(s)) }

  /** White space stays where it is when more text follows. */
  lemma SpaceStays(s: string, rest: string)
    requires SpaceWidth(s) > 0
    ensures SpaceWidth(s + rest) == SpaceWidth(s)
  {}

  /** The text after a word does not turn its last bytes into white space. */
  lemma NoSpaceAcross(s: string, rest: string)
    requires s != [] && SpaceWidth(s) == 0 && (rest == [] || SpaceWidth(rest) > 0)
    ensures SpaceWidth(s + rest) == 0
  {}

  lemma {:induction false} WordLengthOf(w: string, rest: string)
    requires WordLength(w) == |w| && (rest == [] || SpaceWidth(rest) > 0)
    ensures WordLength(w + rest) == |w|
  {
    if w == [] {
      assert w + rest == rest;
    } else {
      assert SpaceWidth(w) == 0 && WordLength(w[1..]) == |w[1..]|;
      NoSpaceAcross(w, rest);
      assert (w + rest)[1..] == w[1..] + rest;
      WordLengthOf(w[1..], rest);
    }
  }

  lemma FieldsStep(w: string, rest: string)
    requires IsWord(w) && (rest == [] || SpaceWidth(rest) > 0)
    ensures Fields(w + rest) == [w] + Fields(rest)
  {
    WordLengthOf(w, rest);
    assert SpaceWidth(w + rest) == 0;
    assert (w + rest)[..|w|] == w && (w + rest)[|w|..] == rest;
  }

  lemma {:induction false} PlainThen(w: string, rest: string)
    requires forall c | c in w :: IsPlain(c)
    ensures WordLength(w + rest) == |w| + WordLength(rest)
  {
    if w == [] {
      assert w + rest == rest;
    } else {
      assert w[0] in w;
      assert (w + rest)[1..] == w[1..] + rest;
      PlainThen(w[1..], rest);
    }
  }

  lemma PlainIsWord(w: string)
    requires w != [] && forall c | c in w :: IsPlain(c)
    ensures IsWord(w)
  {
    PlainThen(w, "");
    assert w + "" == w;
  }

  lemma {:induction false} WordHasNoSpace(w: string)
    requires WordLength(w) == |w|
    ensures forall c | c in w :: !IsSpace(c)
  {
    if w != [] {
      assert SpaceWidth(w) == 0 && WordLength(w[1..]) == |w[1..]|;
      WordHasNoSpace(w[1..]);
    }
  }

  /** Text that starts outside white space and ends in a plain byte needs no trimming. */
  lemma NothingToTrim(s: string)
    requires s != [] && SpaceWidth(s) == 0 && IsPlain(s[|s|-1])
    ensures TrimSpace(s) == s && DropCr(s) == s
  {}

  // ---------- one separator ----------

  function IndexOf(s: string, c: char): (k: nat)
    ensures k <= |s| && c !in s[..k] && (k < |s| ==> s[k] == c)
  {
    if s == [] || s[0] == c then 0 else
      var k := 1 + IndexOf(s[1..], c);
      assert s[..k] == [s[0]] + s[1..][..k-1];
      k
  }

  lemma {:induction false} IndexOfFirst(w: string, c: char, rest: string)
    requires c !in w && (rest == [] || rest[0] == c)
    ensures IndexOf(w + rest, c) == |w|
  {
    if w == [] {
      assert w + rest == rest;
    } else {
      assert (w + rest)[1..] == w[1..] + rest;
      IndexOfFirst(w[1..], c, rest);
    }
  }

  /** strings.Split on a one-character separator. */
  function SplitOn(s: string, c: char): (parts: seq<string>)
    ensures parts != []
    decreases |s|
  {
    var k := IndexOf(s, c);
    [s[..k]] + if k < |s| then SplitOn(s[k+1..], c) else []
  }

  /** strings.Join. */
  function JoinWith(parts: seq<string>, c: char): string {
    if parts == [] then "" else if |parts| == 1 then parts[0] else parts[0] + [c] + JoinWith(parts[1..], c)
  }

  lemma SplitStep(part: string, c: char, rest: string)
    requires c !in part
    ensures SplitOn(part + [c] + rest, c) == [part] + SplitOn(rest, c)
  {
    var s := part + [c] + rest;
    assert s == part + ([c] + rest);
    IndexOfFirst(part, c, [c] + rest);
    assert s[..|part|] == part && s[|part|+1..] == rest;
  }

  lemma SplitLast(part: string, c: char)
    requires c !in part
    ensures SplitOn(part, c) == [part]
  {
    IndexOfFirst(part, c, "");
    assert part + "" == part;
    assert part[..|part|] == part;
  }

  /** Splitting undoes joining. */
  lemma {:induction false} SplitOfJoin(parts: seq<string>, c: char)
    requires parts != [] && forall p | p in parts :: c !in p
    ensures SplitOn(JoinWith(parts, c), c) == parts
  {
    if |parts| == 1 {
      SplitLast(parts[0], c);
    } else {
      assert parts[0] in parts;
      SplitOfJoin(parts[1..], c);
      SplitStep(parts[0], c, JoinWith(parts[1..], c));
    }
  }

  lemma JoinStep(part: string, rest: seq<string>, c: char)
    requires rest != []
    ensures JoinWith([part] + rest, c) == part + [c] + JoinWith(rest, c)
  {
    assert ([part] + rest)[1..] == rest;
  }

  lemma {:induction false} JoinConcat(a: seq<string>, b: seq<string>, c: char)
    requires a != [] && b != []
    ensures JoinWith(a + b, c) == JoinWith(a, c) + [c] + JoinWith(b, c)
  {
    assert a + b == [a[0]] + (a[1..] + b);
    JoinStep(a[0], a[1..] + b, c);
    if |a| == 1 {
      assert a[1..] + b == b;
    } else {
      JoinConcat(a[1..], b, c);
      var tail, rest := JoinWith(a[1..], c), JoinWith(b, c);
      assert a[0] + [c] + (tail + [c] + rest) == (a[0] + [c] + tail) + [c] + rest;
    }
  }

  lemma {:induction false} NoSeparatorInside(s: string, c: char)
    ensures forall p | p in SplitOn(s, c) :: c !in p
    decreases |s|
  {
    var k := IndexOf(s, c);
    if k < |s| {
      NoSeparatorInside(s[k+1..], c);
    }
  }

  lemma CutAround(s: string, k: nat)
    requires k < |s|
    ensures s == s[..k] + [s[k]] + s[k+1..]
  {}

  lemma {:induction false} JoinSplit(s: string, c: char)
    ensures JoinWith(SplitOn(s, c), c) == s
    decreases |s|
  {
    var k := IndexOf(s, c);
    if k < |s| {
      var part, rest := s[..k], s[k+1..];
      JoinSplit(rest, c);
      CutAround(s, k);
      SplitStep(part, c, rest);
      JoinStep(part, SplitOn(rest, c), c);
    } else {
      assert s[..k] == s;
    }
  }

  /** Joining undoes splitting, and no part holds the separator. */
  lemma JoinOfSplit(s: string, c: char)
    ensures JoinWith(SplitOn(s, c), c) == s
    ensures forall p | p in SplitOn(s, c) :: c !in p
  {
    NoSeparatorInside(s, c);
    JoinSplit(s, c);
  }

  /** Splitting at white space undoes joining words with single spaces. */
  lemma {:induction false} FieldsOfJoin(words: seq<string>)
    requires forall w | w in words :: IsWord(w)
    ensures Fields(JoinWith(words, ' ')) == words
  {
    if words != [] {
      var w := words[0];
      assert w in words;
      if |words| == 1 {
        FieldsStep(w, "");
        assert w + "" == w;
      } else {
        var rest := " " + JoinWith(words[1..], ' ');
        FieldsOfJoin(words[1..]);
        assert JoinWith(words, ' ') == w + rest;
        FieldsStep(w, rest);
        assert rest[1..] == JoinWith(words[1..], ' ');
      }
    }
  }

  /** The same with more text after one more space. */
  lemma FieldsOfJoinThen(words: seq<string>, rest: string)
    requires words != [] && forall w | w in words :: IsWord(w)
    ensures Fields(JoinWith(words, ' ') + " " + rest) == words + Fields(rest)
  {
    JoinConcat(words, [rest], ' ');
    assert [' '] == " ";
    FieldsOfJoinLast(words, rest);
  }

  lemma {:induction false} FieldsOfJoinLast(words: seq<string>, rest: string)
    requires forall w | w in words :: IsWord(w)
    ensures Fields(JoinWith(words + [rest], ' ')) == words + Fields(rest)
  {
    if words == [] {
      assert words + [rest] == [rest];
    } else {
      var w, more := words[0], words[1..] + [rest];
      assert w in words;
      FieldsOfJoinLast(words[1..], rest);
      assert words + [rest] == [w] + more;
      JoinStep(w, more, ' ');
      SpaceThen(w, JoinWith(more, ' '));
      assert words == [w] + words[1..];
    }
  }

  lemma SpaceThen(w: string, rest: string)
    requires IsWord(w)
    ensures Fields(w + [' '] + rest) == [w] + Fields(rest)
  {
    Reassociate(w, [' '], rest);
    FieldsStep(w, [' '] + rest);
    assert ([' '] + rest)[1..] == rest;
  }

  /** Joined words start outside white space, do not end in a white space byte and hold no newline. */
  lemma {:induction false} JoinEnds(words: seq<string>)
    requires words != [] && forall w | w in words :: IsWord(w)
    ensures var s := JoinWith(words, ' ');
            s != [] && SpaceWidth(s) == 0 && !IsSpace(s[|s|-1]) && '\n' !in s
  {
    var w := words[0];
    assert w in words;
    WordHasNoSpace(w);
    if |words| > 1 {
      var rest := " " + JoinWith(words[1..], ' ');
      JoinEnds(words[1..]);
      assert JoinWith(words, ' ') == w + rest;
      NoSpaceAcross(w, rest);
    }
  }

  lemma {:induction false} LastOfJoin(words: seq<string>)
    requires words != [] && words[|words|-1] != ""
    ensures var s, w := JoinWith(words, ' '), words[|words|-1];
            s != "" && s[|s|-1] == w[|w|-1]
  {
    if |words| > 1 {
      LastOfJoin(words[1..]);
    }
  }

  predicate HasPrefix(s: string, prefix: string) {
    |prefix| <= |s| && s[..|prefix|] == prefix
  }

  lemma Reassociate(a: string, b: string, c: string)
    ensures a + b + c == a + (b + c)
  {}

  // ---------- lines ----------

  function DropCr(s: string): string {
    if s != [] && s[|s|-1] == '\r' then s[..|s|-1] else s
  }

  /** bufio.ScanLines. */
  function Lines(s: string): seq<string>
    decreases |s|
  {
    if s == [] then [] else
      var k := IndexOf(s, '\n');
      [DropCr(s[..k])] + if k < |s| then Lines(s[k+1..]) else []
  }

  lemma FirstOfLines(line: string, rest: string)
    requires '\n' !in line
    ensures Lines(line + "\n" + rest) == [DropCr(line)] + Lines(rest)
  {
    var s := line + "\n" + rest;
    assert s == line + ("\n" + rest);
    IndexOfFirst(line, '\n', "\n" + rest);
    assert s[..|line|] == line && s[|line|+1..] == rest;
  }
}
