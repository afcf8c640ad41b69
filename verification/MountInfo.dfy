/** The kernel's list of mounts: undoing its octal escapes, parsing its lines and finding a kubelet volume in it. */
module MountInfo {
  import opened Limits
  import opened Text
  import opened Paths

  // ---------- octal escapes ----------

  predicate IsOctal(c: char) { '0' <= c <= '7' }

  function OctalDigit(n: nat): char
    requires n < 8
  {
    ('0' as int + n) as char
  }

  function DigitValue(c: char): nat
    requires IsOctal(c)
  {
    c as int - '0' as int
  }

  /** strconv.ParseUint in base 8 with 8 bits, on three characters. */
  function ParseOctal(s: string): Option<char>
    requires |s| == 3
  {
    if !(IsOctal(s[0]) && IsOctal(s[1]) && IsOctal(s[2])) then None else
      var v := 64 * DigitValue(s[0]) + 8 * DigitValue(s[1]) + DigitValue(s[2]);
      if v >= 256 then None else Some(v as char)
  }

  predicate IsByte(c: char) { c < 256 as char }

  /** How proc_pid_mountinfo(5) prints one byte: a backslash and three octal digits when it is in `special`. */
  function EscapeByte(c: char, special: set<char>): string
    requires c in special ==> IsByte(c)
  {
    if c !in special then [c] else
      var v := c as int;
      ['\\', OctalDigit(v / 64), OctalDigit(v / 8 % 8), OctalDigit(v % 8)]
  }

  function Escape(s: string, special: set<char>): string
    requires forall c | c in special :: IsByte(c)
  {
    if s == [] then [] else EscapeByte(s[0], special) + Escape(s[1..], special)
  }

  function Unescaped(s: string): string
    decreases |s|
  {
    if s == [] then []
    else if s[0] == '\\' && 3 < |s| && ParseOctal(s[1..4]).Some? then [ParseOctal(s[1..4]).value] + Unescaped(s[4..])
    else [s[0]] + Unescaped(s[1..])
  }

  /** mountinfo.go's unescape. */
  method Unescape(s: string) returns (r: string)
    ensures r == Unescaped(s)
  {
    if '\\' !in s {
      NothingToUndo(s);
      return s;
    }
    r := "";
    var i := 0;
    while i < |s|
      invariant 0 <= i <= |s|
      invariant r + Unescaped(s[i..]) == Unescaped(s)
    {
      UnescapeStep(s, i, r);
      if s[i] == '\\' && i + 3 < |s| {
        var v := ParseOctal(s[i+1..i+4]);
        if v.Some? {
          r := r + [v.value];
          i := i + 4;
          continue;
        }
      }
      r := r + [s[i]];
      i := i + 1;
    }
  }

  predicate IsEscape(s: string, i: nat)
    requires i < |s|
  {
    s[i] == '\\' && i + 3 < |s| && ParseOctal(s[i+1..i+4]).Some?
  }

  lemma UnescapeStep(s: string, i: nat, r: string)
    requires i < |s|
    ensures r + Unescaped(s[i..]) == if IsEscape(s, i) then r + [ParseOctal(s[i+1..i+4]).value] + Unescaped(s[i+4..])
                                     else r + [s[i]] + Unescaped(s[i+1..])
  {
    var rest := s[i..];
    assert rest[1..] == s[i+1..];
    if 3 < |rest| {
      assert rest[1..4] == s[i+1..i+4] && rest[4..] == s[i+4..];
    }
    if IsEscape(s, i) {
      Reassociate(r, [ParseOctal(s[i+1..i+4]).value], Unescaped(s[i+4..]));
    } else {
      Reassociate(r, [s[i]], Unescaped(s[i+1..]));
    }
  }

  lemma {:induction false} NothingToUndo(s: string)
    requires '\\' !in s
    ensures Unescaped(s) == s
  {
    if s != [] {
      NothingToUndo(s[1..]);
    }
  }

  lemma OctalRoundTrip(c: char, special: set<char>)
    requires IsByte(c) && c in special
    ensures var e := EscapeByte(c, special);
            |e| == 4 && e[0] == '\\' && ParseOctal(e[1..4]) == Some(c)
  {
    var v := c as int;
    assert v == 64 * (v / 64) + 8 * (v / 8 % 8) + v % 8;
  }

  /** Unescaping undoes the escaping of every string, whatever set of bytes is escaped, as long as the backslash is. */
  lemma {:induction false} UnescapeUndoesEscape(s: string, special: set<char>)
    requires '\\' in special && forall c | c in special :: IsByte(c)
    ensures Unescaped(Escape(s, special)) == s
  {
    if s != [] {
      var e, rest := EscapeByte(s[0], special), Escape(s[1..], special);
      UnescapeUndoesEscape(s[1..], special);
      if s[0] in special {
        OctalRoundTrip(s[0], special);
        assert (e + rest)[1..4] == e[1..4] && (e + rest)[4..] == rest;
      } else {
        assert (e + rest)[1..] == rest;
      }
    }
  }

  // ---------- whole files ----------

  datatype Entry = Entry(device: string, mountPoint: string)

  function ParseLine(line: string): seq<Entry> {
    var fields := Fields(line);
    if |fields| < 5 then [] else [Entry(fields[2], Unescaped(fields[4]))]
  }

  function ParseLines(lines: seq<string>): seq<Entry> {
    if lines == [] then [] else ParseLines(lines[..|lines|-1]) + ParseLine(lines[|lines|-1])
  }

  /** mountinfo.go's Parse. */
  method Parse(content: string) returns (entries: seq<Entry>)
    ensures entries == ParseLines(Lines(content))
  {
    entries := [];
    var lines := Lines(content);
    for i := 0 to |lines|
      invariant entries == ParseLines(lines[..i])
    {
      assert lines[..i+1][..i] == lines[..i];
      var fields := Fields(lines[i]);
      if |fields| < 5 {
        continue;
      }
      var point := Unescape(fields[4]);
      entries := entries + [Entry(fields[2], point)];
    }
    assert lines[..|lines|] == lines;
  }

  /** The bytes the kernel escapes in a mount point. */
  const KERNEL_ESCAPES: set<char> := {' ', '\t', '\n', '\\'}

  /** White space starts here that the kernel leaves as it is. */
  predicate IsBareSpace(s: string) { SpaceWidth(s) > 0 && s[0] !in KERNEL_ESCAPES }

  /** One line: mount id, parent id, device, root, mount point, then options and the rest. */
  datatype Mount = Mount(id: string, parent: string, device: string, root: string, point: string, more: seq<string>)

  ghost predicate IsMount(m: Mount) {
    && IsWord(m.id) && IsWord(m.parent) && IsWord(m.device) && IsWord(m.root)
    && m.more != [] && (forall w | w in m.more :: IsWord(w))
    && Rooted(m.point)
  }

  function Head(m: Mount): seq<string> { [m.id, m.parent, m.device, m.root] }

  function Print(m: Mount): string {
    JoinWith(Head(m) + [Escape(m.point, KERNEL_ESCAPES)] + m.more, ' ')
  }

  /** No white space that the kernel leaves as it is starts anywhere in `s`. */
  predicate NoBareSpace(s: string) { s == [] || (!IsBareSpace(s) && NoBareSpace(s[1..])) }

  lemma EscapedFirst(s: string)
    requires s != []
    ensures Escape(s, KERNEL_ESCAPES) != []
    ensures Escape(s, KERNEL_ESCAPES)[0] == if s[0] in KERNEL_ESCAPES then '\\' else s[0]
  {}

  lemma EscapedPrefix(s: string)
    requires s != [] && s[0] !in KERNEL_ESCAPES
    ensures Escape(s, KERNEL_ESCAPES) == [s[0]] + Escape(s[1..], KERNEL_ESCAPES)
  {}

  predicate LowAt(s: string, i: nat) { |s| <= i || s[i] < '\U{0080}' }

  /** White space is told by its first bytes: up to the first one that cannot continue a character. */
  lemma SameStart(s: string, t: string)
    requires s != [] && t != [] && s[0] == t[0]
    requires (LowAt(s, 1) && LowAt(t, 1)) || (|s| > 1 && |t| > 1 && s[1] == t[1]
              && ((LowAt(s, 2) && LowAt(t, 2)) || (|s| > 2 && |t| > 2 && s[2] == t[2])))
    ensures SpaceWidth(s) == SpaceWidth(t)
  {}

  /** The first bytes of escaped text: as they were, up to the first escape. */
  lemma EscapedStart(s: string)
    requires |s| > 1 && s[0] !in KERNEL_ESCAPES
    ensures var t := Escape(s, KERNEL_ESCAPES);
            |t| > 1 && t[0] == s[0] && t[1] == if s[1] in KERNEL_ESCAPES then '\\' else s[1]
  {
    EscapedPrefix(s);
    EscapedFirst(s[1..]);
  }

  lemma EscapesAreLow(c: char)
    requires c in KERNEL_ESCAPES
    ensures c < '\U{0080}'
  {}

  lemma KeptSpace(s: string)
    requires |s| > 1 && s[0] !in KERNEL_ESCAPES
    ensures SpaceWidth(Escape(s, KERNEL_ESCAPES)) == SpaceWidth(s)
  {
    EscapedStart(s);
    if s[1] in KERNEL_ESCAPES {
      EscapesAreLow(s[1]);
    } else {
      EscapedThird(s);
      if |s| > 2 && s[2] in KERNEL_ESCAPES {
        EscapesAreLow(s[2]);
      }
    }
    SameStart(s, Escape(s, KERNEL_ESCAPES));
  }

  /** Escaping hides the white space it escapes, and neither hides nor makes any other. */
  lemma EscapedSpace(s: string)
    requires s != []
    ensures SpaceWidth(Escape(s, KERNEL_ESCAPES)) == if s[0] in KERNEL_ESCAPES then 0 else SpaceWidth(s)
  {
    EscapedFirst(s);
    if |s| == 1 {
      assert s == [s[0]];
      assert s[0] !in KERNEL_ESCAPES ==> Escape(s, KERNEL_ESCAPES) == s;
    } else if s[0] !in KERNEL_ESCAPES {
      KeptSpace(s);
    }
  }

  lemma EscapedThird(s: string)
    requires |s| > 1 && s[0] !in KERNEL_ESCAPES && s[1] !in KERNEL_ESCAPES
    ensures var t := Escape(s, KERNEL_ESCAPES);
            if |s| == 2 then |t| == 2
            else |t| > 2 && t[2] == if s[2] in KERNEL_ESCAPES then '\\' else s[2]
  {
    EscapedPrefix(s);
    if |s| == 2 {
      EscapedPrefix(s[1..]);
    } else {
      EscapedStart(s[1..]);
    }
  }

  lemma EscapedByteIsPlain(c: char)
    requires c in KERNEL_ESCAPES
    ensures forall d | d in EscapeByte(c, KERNEL_ESCAPES) :: IsPlain(d)
  {}

  lemma {:induction false} EscapedIsWord(s: string)
    requires NoBareSpace(s)
    ensures WordLength(Escape(s, KERNEL_ESCAPES)) == |Escape(s, KERNEL_ESCAPES)|
  {
    if s != [] {
      EscapedIsWord(s[1..]);
      if s[0] in KERNEL_ESCAPES {
        EscapedByteIsPlain(s[0]);
        PlainThen(EscapeByte(s[0], KERNEL_ESCAPES), Escape(s[1..], KERNEL_ESCAPES));
      } else {
        EscapedSpace(s);
        EscapedPrefix(s);
        assert Escape(s, KERNEL_ESCAPES)[1..] == Escape(s[1..], KERNEL_ESCAPES);
      }
    }
  }

  lemma {:induction false} EscapeConcat(a: string, b: string)
    ensures Escape(a + b, KERNEL_ESCAPES) == Escape(a, KERNEL_ESCAPES) + Escape(b, KERNEL_ESCAPES)
  {
    if a == [] {
      assert a + b == b;
    } else {
      EscapeConcat(a[1..], b);
      assert (a + b)[1..] == a[1..] + b && (a + b)[0] == a[0];
      Reassociate(EscapeByte(a[0], KERNEL_ESCAPES), Escape(a[1..], KERNEL_ESCAPES), Escape(b, KERNEL_ESCAPES));
    }
  }

  /** The longest prefix that the splitter does not cut. */
  function Uncut(s: string): (a: string)
    ensures |a| <= |s| && s[..|a|] == a
    ensures |a| < |s| ==> IsBareSpace(s[|a|..])
    ensures a == s <==> NoBareSpace(s)
  {
    if s == [] || IsBareSpace(s) then [] else
      var a := [s[0]] + Uncut(s[1..]);
      assert s == [s[0]] + s[1..];
      assert s[..|a|] == [s[0]] + s[1..][..|a|-1];
      assert s[|a|..] == s[1..][|a|-1..];
      a
  }

  lemma PrefixIsBare(a: string, b: string)
    ensures IsBareSpace(a) ==> IsBareSpace(a + b)
  {
    if IsBareSpace(a) {
      SpaceStays(a, b);
    }
  }

  lemma UncutStartsClean(s: string)
    requires s != [] && !IsBareSpace(s)
    ensures !IsBareSpace(Uncut(s)) && Uncut(s) == [s[0]] + Uncut(s[1..])
  {
    var a := Uncut(s);
    PrefixIsBare(a, s[|a|..]);
    assert a + s[|a|..] == s;
  }

  lemma CleanStep(a: string)
    requires a != [] && !IsBareSpace(a) && NoBareSpace(a[1..])
    ensures NoBareSpace(a)
  {}

  lemma {:induction false} UncutIsClean(s: string)
    ensures NoBareSpace(Uncut(s))
  {
    if s != [] && !IsBareSpace(s) {
      UncutIsClean(s[1..]);
      UncutStartsClean(s);
      assert ([s[0]] + Uncut(s[1..]))[1..] == Uncut(s[1..]);
      CleanStep([s[0]] + Uncut(s[1..]));
    }
  }

  lemma PrintedLine(m: Mount)
    requires m.more != []
    ensures Print(m) == JoinWith(Head(m), ' ') + " " + (Escape(m.point, KERNEL_ESCAPES) + " " + JoinWith(m.more, ' '))
  {
    var e := Escape(m.point, KERNEL_ESCAPES);
    JoinConcat(Head(m), [e] + m.more, ' ');
    JoinStep(e, m.more, ' ');
    assert Head(m) + [e] + m.more == Head(m) + ([e] + m.more);
  }

  /**
   The first words of a printed line are as they were, and the fifth is the escaped mount point up to its first
   bare space.
   */
  lemma PrintedFields(m: Mount)
    requires IsMount(m)
    ensures |Fields(Print(m))| >= 5
    ensures Fields(Print(m))[2] == m.device && Fields(Print(m))[4] == Escape(Uncut(m.point), KERNEL_ESCAPES)
  {
    var e := Escape(m.point, KERNEL_ESCAPES);
    var rest := e + " " + JoinWith(m.more, ' ');
    PrintedLine(m);
    FieldsOfJoinThen(Head(m), rest);
    CutAt(m.point, " " + JoinWith(m.more, ' '));
    Reassociate(e, " ", JoinWith(m.more, ' '));
  }

  lemma StartsWithSpace(tail: string, after: string)
    requires tail != "" ==> IsBareSpace(tail)
    requires after != "" && IsSpace(after[0])
    ensures SpaceWidth(Escape(tail, KERNEL_ESCAPES) + after) > 0
  {
    if tail == "" {
      assert Escape(tail, KERNEL_ESCAPES) + after == after;
    } else {
      EscapedSpace(tail);
      SpaceStays(Escape(tail, KERNEL_ESCAPES), after);
    }
  }

  /** What the splitter leaves of an absolute path is one word once escaped. */
  lemma UncutIsWord(point: string)
    requires Rooted(point)
    ensures IsWord(Escape(Uncut(point), KERNEL_ESCAPES))
  {
    assert !IsBareSpace(point);
    UncutIsClean(point);
    EscapedIsWord(Uncut(point));
    EscapedFirst(Uncut(point));
  }

  lemma EscapedTail(point: string)
    ensures var a, tail := Uncut(point), point[|Uncut(point)|..];
            && Escape(point, KERNEL_ESCAPES) == Escape(a, KERNEL_ESCAPES) + Escape(tail, KERNEL_ESCAPES)
            && (tail != "" ==> IsBareSpace(tail))
  {
    var a, tail := Uncut(point), point[|Uncut(point)|..];
    assert point == a + tail;
    EscapeConcat(a, tail);
  }

  lemma CutAt(point: string, after: string)
    requires Rooted(point) && after != "" && IsSpace(after[0])
    ensures var fields := Fields(Escape(point, KERNEL_ESCAPES) + after);
            fields != [] && fields[0] == Escape(Uncut(point), KERNEL_ESCAPES)
  {
    var word, tail := Escape(Uncut(point), KERNEL_ESCAPES), point[|Uncut(point)|..];
    UncutIsWord(point);
    EscapedTail(point);
    Reassociate(word, Escape(tail, KERNEL_ESCAPES), after);
    StartsWithSpace(tail, after);
    FieldsStep(word, Escape(tail, KERNEL_ESCAPES) + after);
  }

  /**
   A printed mount is parsed back exactly when its mount point holds no white space that the kernel does not
   escape.
   */
  lemma LineRoundTrip(m: Mount)
    requires IsMount(m)
    ensures ParseLine(Print(m)) == [Entry(m.device, m.point)] <==> NoBareSpace(m.point)
  {
    PrintedFields(m);
    UnescapeUndoesEscape(Uncut(m.point), KERNEL_ESCAPES);
  }

  lemma {:induction false} BareSpaceShows(a: string, b: string)
    requires IsBareSpace(b)
    ensures !NoBareSpace(a + b)
  {
    if a == [] {
      assert a + b == b;
    } else {
      BareSpaceShows(a[1..], b);
      assert (a + b)[1..] == a[1..] + b;
    }
  }

  function Example(point: string): Mount { Mount("36", "35", "8:0", "/", point, ["rw"]) }

  lemma ExampleIsMount(point: string)
    requires Rooted(point)
    ensures IsMount(Example(point))
  {
    PlainIsWord("36");
    PlainIsWord("35");
    PlainIsWord("8:0");
    PlainIsWord("/");
    PlainIsWord("rw");
  }

  /** A mount point with a carriage return in it is not read back. */
  lemma CarriageReturnIsCut()
    ensures var m := Example("/a" + "\rb");
            IsMount(m) && ParseLine(Print(m)) != [Entry(m.device, m.point)]
  {
    ExampleIsMount("/a" + "\rb");
    BareSpaceShows("/a", "\rb");
    LineRoundTrip(Example("/a" + "\rb"));
  }

  /** The two bytes of a no-break space. */
  const NO_BREAK_SPACE := ['\U{00C2}', '\U{00A0}']

  /** Neither is one with a no-break space. */
  lemma NoBreakSpaceIsCut()
    ensures var m := Example("/a" + (NO_BREAK_SPACE + "b"));
            IsMount(m) && ParseLine(Print(m)) != [Entry(m.device, m.point)]
  {
    var b := NO_BREAK_SPACE + "b";
    ExampleIsMount("/a" + b);
    BareSpaceShows("/a", b);
    LineRoundTrip(Example("/a" + b));
  }

  function Content(ms: seq<Mount>): string {
    if ms == [] then "" else Print(ms[0]) + "\n" + Content(ms[1..])
  }

  function EntriesOf(ms: seq<Mount>): seq<Entry> {
    if ms == [] then [] else [Entry(ms[0].device, ms[0].point)] + EntriesOf(ms[1..])
  }

  lemma PrintedEnds(m: Mount)
    requires IsMount(m) && NoBareSpace(m.point)
    ensures '\n' !in Print(m) && DropCr(Print(m)) == Print(m)
  {
    EscapedIsWord(m.point);
    EscapedFirst(m.point);
    JoinEnds(Head(m) + [Escape(m.point, KERNEL_ESCAPES)] + m.more);
  }

  lemma ParseLinesLast(lines: seq<string>, line: string)
    ensures ParseLines(lines + [line]) == ParseLines(lines) + ParseLine(line)
  {
    assert (lines + [line])[..|lines|] == lines;
  }

  lemma {:induction false} ParseLinesFrom(line: string, lines: seq<string>)
    ensures ParseLines([line] + lines) == ParseLine(line) + ParseLines(lines)
  {
    if lines == [] {
      ParseLinesLast([], line);
      assert [line] + lines == [] + [line];
    } else {
      var init, last := lines[..|lines|-1], lines[|lines|-1];
      ParseLinesFrom(line, init);
      ParseLinesLast([line] + init, last);
      assert [line] + lines == ([line] + init) + [last];
    }
  }

  /** Parsing the kernel's text gives every mount back, in order and with its unescaped mount point. */
  lemma {:induction false} ParseUndoesPrinting(ms: seq<Mount>)
    requires forall m | m in ms :: IsMount(m) && NoBareSpace(m.point)
    ensures ParseLines(Lines(Content(ms))) == EntriesOf(ms)
  {
    if ms != [] {
      var m := ms[0];
      assert m in ms;
      ParseUndoesPrinting(ms[1..]);
      PrintedEnds(m);
      FirstOfLines(Print(m), Content(ms[1..]));
      ParseLinesFrom(Print(m), Lines(Content(ms[1..])));
      LineRoundTrip(m);
    }
  }

  // ---------- the texts themselves ----------

  /** The four bytes the kernel escapes, as it writes them, in any context. */
  lemma EscapesAreOctal(rest: string)
    ensures Unescaped("\\040" + rest) == " " + Unescaped(rest) && EscapeByte(' ', KERNEL_ESCAPES) == "\\040"
    ensures Unescaped("\\011" + rest) == "\t" + Unescaped(rest) && EscapeByte('\t', KERNEL_ESCAPES) == "\\011"
    ensures Unescaped("\\012" + rest) == "\n" + Unescaped(rest) && EscapeByte('\n', KERNEL_ESCAPES) == "\\012"
    ensures Unescaped("\\134" + rest) == "\\" + Unescaped(rest) && EscapeByte('\\', KERNEL_ESCAPES) == "\\134"
    ensures forall c | c !in {' ', '\t', '\n', '\\'} :: EscapeByte(c, KERNEL_ESCAPES) == [c]
  {
    EscapeAt("\\040", rest);
    EscapeAt("\\011", rest);
    EscapeAt("\\012", rest);
    EscapeAt("\\134", rest);
  }

  lemma EscapeAt(e: string, rest: string)
    requires |e| == 4 && e[0] == '\\' && ParseOctal(e[1..]).Some?
    ensures Unescaped(e + rest) == [ParseOctal(e[1..]).value] + Unescaped(rest)
  {
    assert (e + rest)[1..4] == e[1..] && (e + rest)[4..] == rest;
  }

  /** A backslash before anything else than three octal digits of a byte stands for itself. */
  lemma NotAnEscape(rest: string)
    requires |rest| < 3 || !('0' <= rest[0] <= '3' && '0' <= rest[1] <= '7' && '0' <= rest[2] <= '7')
    ensures Unescaped(['\\'] + rest) == ['\\'] + Unescaped(rest)
  {
    var s := ['\\'] + rest;
    assert s[1..] == rest && s[0] == '\\';
    if 3 <= |rest| {
      var digits := s[1..4];
      assert digits[0] == rest[0] && digits[1] == rest[1] && digits[2] == rest[2];
      NotOctal(digits);
    }
  }

  lemma NotOctal(s: string)
    requires |s| == 3
    ensures ParseOctal(s).Some? <==> '0' <= s[0] <= '3' && '0' <= s[1] <= '7' && '0' <= s[2] <= '7'
  {}

  /** Of the words of a line, the third and the fifth make the entry; fewer than five make none. */
  lemma ThirdAndFifth(words: seq<string>)
    requires forall w | w in words :: IsWord(w)
    ensures ParseLine(JoinWith(words, ' ')) ==
              if words == [] || |words| in {1, 2, 3, 4} then [] else [Entry(words[2], Unescaped(words[4]))]
  {
    FieldsOfJoin(words);
  }

  /** The directory that holds a pod's volumes, spelled out. */
  lemma VolumesDirText(kubeletRoot: string, podUid: string)
    requires Rooted(kubeletRoot) && IsName(podUid)
    ensures VolumesDir(kubeletRoot, podUid) == Stem(kubeletRoot) + "/" + ("pods" + "/" + podUid + "/" + "volumes") + "/"
  {
    var names := ["pods", podUid, "volumes"];
    assert IsName("pods") && IsName("volumes");
    ThreeJoined("pods", podUid, "volumes");
    JoinedNames(kubeletRoot, names);
    NothingEmpty([kubeletRoot] + names);
    assert [kubeletRoot] + names == [kubeletRoot, "pods", podUid, "volumes"];
  }

  lemma JoinedNames(root: string, names: seq<string>)
    requires Rooted(root) && names != [] && forall p | p in names :: IsName(p)
    ensures Clean(JoinWith([root] + names, '/')) == Stem(root) + "/" + JoinWith(names, '/')
  {
    SplitOfJoin(names, '/');
    var s := JoinWith([root] + names, '/');
    JoinStep(root, names, '/');
    SplitConcat(root, JoinWith(names, '/'));
    WalkTwice([], SplitOn(root, '/'), names);
    WalkNames(Denotes([], root), names);
    CleanDenotes([], s);
    PathBelow(root, Clean(s), names);
  }

  lemma {:induction false} NothingEmpty(elems: seq<string>)
    requires "" !in elems
    ensures NonEmpty(elems) == elems
  {
    if elems != [] {
      NothingEmpty(elems[..|elems|-1]);
      assert elems == elems[..|elems|-1] + [elems[|elems|-1]];
    }
  }

  // ---------- finding a volume ----------

  function VolumesDir(kubeletRoot: string, podUid: string): string {
    JoinPath([kubeletRoot, "pods", podUid, "volumes"]) + "/"
  }

  /** The mount point is <base><plugin>/<dir> or <base><plugin>/<dir>/mount for some single directory `plugin`. */
  ghost predicate IsVolumeMount(point: string, base: string, dir: string) {
    exists plugin: string :: '/' !in plugin && '/' !in dir
      && (point == base + (plugin + "/" + dir) || point == base + (plugin + "/" + dir + "/mount"))
  }

  predicate Fits(rel: string, dir: string) {
    var parts := SplitOn(rel, '/');
    (|parts| == 2 && parts[1] == dir) || (|parts| == 3 && parts[1] == dir && parts[2] == "mount")
  }

  lemma TwoJoined(a: string, b: string)
    ensures JoinWith([a, b], '/') == a + "/" + b
  {
    JoinStep(a, [b], '/');
  }

  lemma ThreeJoined(a: string, b: string, c: string)
    ensures JoinWith([a, b, c], '/') == a + "/" + b + "/" + c
  {
    JoinStep(a, [b, c], '/');
    TwoJoined(b, c);
    assert [a] + [b, c] == [a, b, c];
  }

  lemma FitsIsStructural(rel: string, dir: string)
    ensures Fits(rel, dir) ==>
      var plugin := SplitOn(rel, '/')[0];
      '/' !in plugin && '/' !in dir && (rel == plugin + "/" + dir || rel == plugin + "/" + dir + "/mount")
  {
    if Fits(rel, dir) {
      JoinOfSplit(rel, '/');
      SplitPieces(SplitOn(rel, '/'), dir);
    }
  }

  lemma SplitPieces(parts: seq<string>, dir: string)
    requires (|parts| == 2 && parts[1] == dir) || (|parts| == 3 && parts[1] == dir && parts[2] == "mount")
    requires forall p | p in parts :: '/' !in p
    ensures var rel := JoinWith(parts, '/');
            '/' !in parts[0] && '/' !in dir && (rel == parts[0] + "/" + dir || rel == parts[0] + "/" + dir + "/mount")
  {
    assert parts[0] in parts && parts[1] in parts;
    if |parts| == 2 {
      assert parts == [parts[0], dir];
      TwoJoined(parts[0], dir);
    } else {
      assert parts == [parts[0], dir, "mount"];
      ThreeJoined(parts[0], dir, "mount");
      assert parts[0] + "/" + dir + "/" + "mount" == parts[0] + "/" + dir + "/mount";
    }
  }

  lemma StructuralFits(plugin: string, dir: string)
    requires '/' !in plugin && '/' !in dir
    ensures Fits(plugin + "/" + dir, dir) && Fits(plugin + "/" + dir + "/mount", dir)
  {
    TwoJoined(plugin, dir);
    ThreeJoined(plugin, dir, "mount");
    assert plugin + "/" + dir + "/" + "mount" == plugin + "/" + dir + "/mount";
    SplitOfJoin([plugin, dir], '/');
    SplitOfJoin([plugin, dir, "mount"], '/');
  }

  lemma MatchIsStructural(point: string, base: string, dir: string)
    ensures HasPrefix(point, base) && Fits(point[|base|..], dir) <==> IsVolumeMount(point, base, dir)
  {
    if HasPrefix(point, base) && Fits(point[|base|..], dir) {
      FitsIsStructural(point[|base|..], dir);
      assert point == base + point[|base|..];
    }
    if IsVolumeMount(point, base, dir) {
      var plugin: string :| '/' !in plugin && '/' !in dir
        && (point == base + (plugin + "/" + dir) || point == base + (plugin + "/" + dir + "/mount"));
      StructuralFits(plugin, dir);
      assert point[..|base|] == base;
      assert point[|base|..] == plugin + "/" + dir || point[|base|..] == plugin + "/" + dir + "/mount";
    }
  }

  /** mountinfo.go's FindKubeletVolume: the last structurally matching mount of the list, or none. */
  method FindKubeletVolume(entries: seq<Entry>, kubeletRoot: string, podUid: string,
                           dir: string) returns (r: Option<Entry>)
    ensures var base := VolumesDir(kubeletRoot, podUid);
            match r
            case None => forall e | e in entries :: !IsVolumeMount(e.mountPoint, base, dir)
            case Some(e) => exists i :: 0 <= i < |entries| && entries[i] == e && IsVolumeMount(e.mountPoint, base, dir)
                                     && forall j | i < j < |entries| :: !IsVolumeMount(entries[j].mountPoint, base, dir)
  {
    var base := VolumesDir(kubeletRoot, podUid);
    r := None;
    ghost var last := -1;
    for k := 0 to |entries|
      invariant r.None? <==> last == -1
      invariant r.Some? ==> 0 <= last < k && entries[last] == r.value && IsVolumeMount(r.value.mountPoint, base, dir)
      invariant forall j | last < j < k :: !IsVolumeMount(entries[j].mountPoint, base, dir)
    {
      var e := entries[k];
      MatchIsStructural(e.mountPoint, base, dir);
      if !HasPrefix(e.mountPoint, base) {
        continue;
      }
      var parts := SplitOn(e.mountPoint[|base|..], '/');
      if |parts| == 2 && parts[1] == dir {
        r, last := Some(e), k;
      } else if |parts| == 3 && parts[1] == dir && parts[2] == "mount" {
        r, last := Some(e), k;
      }
    }
  }
}
