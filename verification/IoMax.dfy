/**
 The text of a cgroup v2 io.max file: printing a rule, parsing the file, looking up a device's line,
 and what a write leaves in the kernel.
 */
module IoMax {
  import opened Limits
  import opened Kernel
  import opened Text

  // ---------- numbers ----------

  predicate IsDigit(c: char) { '0' <= c <= '9' }

  function Digits(n: nat): (s: string)
    ensures s != [] && forall c | c in s :: IsDigit(c)
  {
    (if n < 10 then [] else Digits(n / 10)) + [('0' as int + n % 10) as char]
  }

  function Decimal(s: string): nat
    requires forall c | c in s :: IsDigit(c)
  {
    if s == [] then 0 else
      assert s[|s|-1] in s && IsDigit(s[|s|-1]);
      10 * Decimal(s[..|s|-1]) + (s[|s|-1] as int - '0' as int)
  }

  /** strconv.ParseUint in base 10 with 64 bits. */
  function ParseUint(s: string): Option<int> {
    if s == [] || exists c | c in s :: !IsDigit(c) then None
    else if Decimal(s) >= TWO_64 then None
    else Some(Decimal(s))
  }

  lemma {:induction false} DigitsRoundTrip(n: nat)
    ensures Decimal(Digits(n)) == n
  {
    var s := Digits(n);
    if n >= 10 {
      DigitsRoundTrip(n / 10);
    }
    assert s[..|s|-1] == if n < 10 then [] else Digits(n / 10);
  }

  // ---------- printing ----------

  function FormatVal(v: Option<int>): string
    requires InRange(v, 0, TWO_64 - 1)
  {
    match v case None => "max" case Some(n) => Digits(n)
  }

  /** Every field is a 64-bit unsigned number. */
  predicate Is64Bit(r: Rule) {
    && InRange(r.rbps, 0, TWO_64 - 1) && InRange(r.wbps, 0, TWO_64 - 1)
    && InRange(r.riops, 0, TWO_64 - 1) && InRange(r.wiops, 0, TWO_64 - 1)
  }

  const RBPS := "rbps"
  const WBPS := "wbps"
  const RIOPS := "riops"
  const WIOPS := "wiops"

  function Pair(key: string, v: Option<int>): string
    requires InRange(v, 0, TWO_64 - 1)
  {
    key + "=" + FormatVal(v)
  }

  function Words(dev: Device, r: Rule): seq<string>
    requires Is64Bit(r)
  {
    [dev, Pair(RBPS, r.rbps), Pair(WBPS, r.wbps), Pair(RIOPS, r.riops), Pair(WIOPS, r.wiops)]
  }

  /** iomax.go's Rule.Format: all four keys, always in this order. */
  function Format(dev: Device, r: Rule): string
    requires Is64Bit(r)
  {
    JoinWith(Words(dev, r), ' ')
  }

  /** Numbers are written in decimal: the last digit follows those of the tenth. */
  lemma DigitsAreDecimal(n: nat, d: nat)
    requires d < 10
    ensures Digits(d) == ["0123456789"[d]]
    ensures n > 0 ==> Digits(10 * n + d) == Digits(n) + Digits(d)
  {}

  lemma ValueText(v: Option<int>)
    requires InRange(v, 0, TWO_64 - 1)
    ensures v.None? ==> FormatVal(v) == "max"
    ensures v.Some? ==> FormatVal(v) == Digits(v.value)
  {}

  lemma FiveWords(a: string, b: string, c: string, d: string, e: string)
    ensures JoinWith([a, b, c, d, e], ' ') == a + " " + b + " " + c + " " + d + " " + e
  {
    JoinStep(d, [e], ' ');
    JoinStep(c, [d, e], ' ');
    JoinStep(b, [c, d, e], ' ');
    JoinStep(a, [b, c, d, e], ' ');
    assert [d] + [e] == [d, e] && [c] + [d, e] == [c, d, e] && [b] + [c, d, e] == [b, c, d, e];
    assert [a] + [b, c, d, e] == [a, b, c, d, e];
    var s := [' '];
    assert s == " ";
    Reassociate4(a, b, c, d, e);
  }

  lemma Reassociate4(a: string, b: string, c: string, d: string, e: string)
    ensures a + " " + (b + " " + (c + " " + (d + " " + e))) == a + " " + b + " " + c + " " + d + " " + e
  {}

  /** The text of a rule, key names spelled out: all four keys, in this order. */
  lemma FormatText(dev: Device, r: Rule)
    requires Is64Bit(r)
    ensures Format(dev, r) == dev + " " + ("rbps=" + FormatVal(r.rbps)) + " " + ("wbps=" + FormatVal(r.wbps))
                              + " " + ("riops=" + FormatVal(r.riops)) + " " + ("wiops=" + FormatVal(r.wiops))
  {
    PairText("rbps", r.rbps);
    PairText("wbps", r.wbps);
    PairText("riops", r.riops);
    PairText("wiops", r.wiops);
    FiveWords(dev, Pair("rbps", r.rbps), Pair("wbps", r.wbps), Pair("riops", r.riops), Pair("wiops", r.wiops));
  }

  lemma PairText(key: string, v: Option<int>)
    requires InRange(v, 0, TWO_64 - 1)
    ensures Pair(key, v) == key + "=" + FormatVal(v)
    ensures Pair("rbps", v) == "rbps=" + FormatVal(v) && Pair("wbps", v) == "wbps=" + FormatVal(v)
    ensures Pair("riops", v) == "riops=" + FormatVal(v) && Pair("wiops", v) == "wiops=" + FormatVal(v)
  {}

  /** The reset line. */
  lemma ResetText(dev: Device)
    ensures Format(dev, NO_LIMITS) == dev + " rbps=max wbps=max riops=max wiops=max"
  {
    FormatText(dev, NO_LIMITS);
  }

  // ---------- parsing ----------

  function SetField(r: Rule, key: string, v: Option<int>): Rule {
    if key == RBPS then r.(rbps := v)
    else if key == WBPS then r.(wbps := v)
    else if key == RIOPS then r.(riops := v)
    else if key == WIOPS then r.(wiops := v)
    else r
  }

  /** One key=value word; anything malformed is ignored. */
  function ParsePair(r: Rule, kv: string): Rule {
    var k := IndexOf(kv, '=');
    if k == |kv| then r else
      var key, v := kv[..k], kv[k+1..];
      if v == "max" then SetField(r, key, None)
      else if ParseUint(v).None? then r
      else SetField(r, key, ParseUint(v))
  }

  /** A number below 2^64 in plain digits, or "max", sets the field of its key; everything else changes nothing. */
  lemma ParsePairSays(r: Rule, key: string, val: string)
    requires '=' !in key
    ensures var digits := val != "" && forall c | c in val :: '0' <= c <= '9';
            ParsePair(r, key) == r
            && ParsePair(r, key + "=" + val) ==
               if val != "max" && !(digits && Decimal(val) < 18446744073709551616) then r
               else
                 var v := if val == "max" then None else Some(Decimal(val));
                 if key == "rbps" then r.(rbps := v)
                 else if key == "wbps" then r.(wbps := v)
                 else if key == "riops" then r.(riops := v)
                 else if key == "wiops" then r.(wiops := v)
                 else r
  {
    CutPair(key, val);
  }

  function ParsePairs(r: Rule, kvs: seq<string>): Rule {
    if kvs == [] then r else ParsePair(ParsePairs(r, kvs[..|kvs|-1]), kvs[|kvs|-1])
  }

  function ParseLine(m: map<Device, Rule>, line: string): map<Device, Rule> {
    var fields := Fields(line);
    if |fields| < 2 then m else m[fields[0] := ParsePairs(NO_LIMITS, fields[1..])]
  }

  function ParseLines(lines: seq<string>): map<Device, Rule> {
    if lines == [] then map[] else ParseLine(ParseLines(lines[..|lines|-1]), lines[|lines|-1])
  }

  /** iomax.go's Parse. */
  method Parse(content: string) returns (m: map<Device, Rule>)
    ensures m == ParseLines(Lines(content))
  {
    m := map[];
    var lines := Lines(content);
    for i := 0 to |lines|
      invariant m == ParseLines(lines[..i])
    {
      assert lines[..i+1][..i] == lines[..i];
      var fields := Fields(lines[i]);
      if |fields| >= 2 {
        var kvs := fields[1..];
        var r := NO_LIMITS;
        for j := 0 to |kvs|
          invariant r == ParsePairs(NO_LIMITS, kvs[..j])
        {
          assert kvs[..j+1][..j] == kvs[..j];
          r := ParsePair(r, kvs[j]);
        }
        assert kvs[..|kvs|] == kvs;
        m := m[fields[0] := r];
      }
    }
    assert lines[..|lines|] == lines;
  }

  // ---------- one line ----------

  lemma DigitsArePlain(s: string)
    requires forall c | c in s :: IsDigit(c)
    ensures (forall c | c in s :: IsPlain(c)) && '=' !in s && s != "max"
  {
    assert "max"[0] == 'm' && !IsDigit('m');
  }

  lemma DigitsParse(n: nat)
    requires n < TWO_64
    ensures ParseUint(Digits(n)) == Some(n)
  {
    DigitsRoundTrip(n);
  }

  lemma FormatValIsPlain(v: Option<int>)
    requires InRange(v, 0, TWO_64 - 1)
    ensures FormatVal(v) != "" && (forall c | c in FormatVal(v) :: IsPlain(c)) && '=' !in FormatVal(v)
    ensures v.Some? ==> FormatVal(v) != "max" && ParseUint(FormatVal(v)) == v
  {
    if v.Some? {
      DigitsArePlain(Digits(v.value));
      DigitsParse(v.value);
    }
  }

  lemma CutPair(key: string, val: string)
    requires '=' !in key
    ensures var kv := key + "=" + val;
            IndexOf(kv, '=') == |key| < |kv| && kv[..|key|] == key && kv[|key|+1..] == val
  {
    assert key + "=" + val == key + ("=" + val);
    IndexOfFirst(key, '=', "=" + val);
  }

  lemma PairRoundTrip(r: Rule, key: string, v: Option<int>)
    requires InRange(v, 0, TWO_64 - 1) && '=' !in key
    ensures ParsePair(r, Pair(key, v)) == SetField(r, key, v)
  {
    FormatValIsPlain(v);
    CutPair(key, FormatVal(v));
  }

  /** Any word will do for a device, MAJ:MIN among them. */
  predicate IsDevice(dev: Device) { IsWord(dev) }

  lemma PairIsWord(key: string, v: Option<int>)
    requires InRange(v, 0, TWO_64 - 1) && forall c | c in key :: IsPlain(c)
    ensures IsWord(Pair(key, v))
    ensures var s := Pair(key, v);
            IsPlain(s[|s|-1])
  {
    FormatValIsPlain(v);
    var val := FormatVal(v);
    forall c | c in key + "=" + val ensures IsPlain(c) {
      assert c in key || c == '=' || c in val;
    }
    PlainIsWord(Pair(key, v));
    var s := Pair(key, v);
    assert s[|s|-1] in s;
  }

  lemma WordsAreWords(dev: Device, r: Rule)
    requires Is64Bit(r) && IsDevice(dev)
    ensures forall w | w in Words(dev, r) :: IsWord(w)
  {
    PairIsWord(RBPS, r.rbps);
    PairIsWord(WBPS, r.wbps);
    PairIsWord(RIOPS, r.riops);
    PairIsWord(WIOPS, r.wiops);
  }

  /** Reading the four pairs of a formatted rule gives that rule, whatever was there before. */
  lemma PairsRoundTrip(r0: Rule, r: Rule)
    requires Is64Bit(r)
    ensures ParsePairs(r0, [Pair(RBPS, r.rbps), Pair(WBPS, r.wbps), Pair(RIOPS, r.riops), Pair(WIOPS, r.wiops)]) == r
  {
    var a, b, c, d := Pair(RBPS, r.rbps), Pair(WBPS, r.wbps), Pair(RIOPS, r.riops), Pair(WIOPS, r.wiops);
    assert [a, b, c, d][..3] == [a, b, c] && [a, b, c][..2] == [a, b] && [a, b][..1] == [a] && [a][..0] == [];
    var r1 := r0.(rbps := r.rbps);
    var r2 := r1.(wbps := r.wbps);
    var r3 := r2.(riops := r.riops);
    PairRoundTrip(r0, RBPS, r.rbps);
    PairRoundTrip(r1, WBPS, r.wbps);
    PairRoundTrip(r2, RIOPS, r.riops);
    PairRoundTrip(r3, WIOPS, r.wiops);
    assert ParsePairs(r0, [a]) == r1;
    assert ParsePairs(r0, [a, b]) == r2;
    assert ParsePairs(r0, [a, b, c]) == r3;
  }

  lemma LineRoundTrip(m: map<Device, Rule>, dev: Device, r: Rule)
    requires Is64Bit(r) && IsDevice(dev)
    ensures ParseLine(m, Format(dev, r)) == m[dev := r]
  {
    WordsAreWords(dev, r);
    FieldsOfJoin(Words(dev, r));
    PairsRoundTrip(NO_LIMITS, r);
    assert Words(dev, r)[1..] == [Pair(RBPS, r.rbps), Pair(WBPS, r.wbps), Pair(RIOPS, r.riops), Pair(WIOPS, r.wiops)];
  }

  /** Comparing two lines of a device is comparing the rules: the printer loses nothing. */
  lemma FormatIsInjective(dev: Device, r: Rule, dev': Device, r': Rule)
    requires Is64Bit(r) && Is64Bit(r') && IsDevice(dev) && IsDevice(dev')
    ensures Format(dev, r) == Format(dev', r') <==> dev == dev' && r == r'
  {
    WordsAreWords(dev, r);
    WordsAreWords(dev', r');
    FieldsOfJoin(Words(dev, r));
    FieldsOfJoin(Words(dev', r'));
    PairsRoundTrip(NO_LIMITS, r);
    PairsRoundTrip(NO_LIMITS, r');
    assert Words(dev, r)[1..] == [Pair(RBPS, r.rbps), Pair(WBPS, r.wbps), Pair(RIOPS, r.riops), Pair(WIOPS, r.wiops)];
    assert Words(dev', r')[1..]
        == [Pair(RBPS, r'.rbps), Pair(WBPS, r'.wbps), Pair(RIOPS, r'.riops), Pair(WIOPS, r'.wiops)];
  }

  // ---------- whole files ----------

  datatype Entry = Entry(dev: Device, rule: Rule)

  ghost predicate Listing(es: seq<Entry>) {
    && (forall e | e in es :: Is64Bit(e.rule) && IsDevice(e.dev))
    && Distinct(es)
  }

  ghost predicate Distinct(es: seq<Entry>) {
    forall i, j | 0 <= i < j < |es| :: es[i].dev != es[j].dev
  }

  function RulesIn(es: seq<Entry>): map<Device, Rule> {
    if es == [] then map[] else RulesIn(es[..|es|-1])[es[|es|-1].dev := es[|es|-1].rule]
  }

  /** What the kernel shows when io.max is read: one formatted line per limited device. */
  function Content(es: seq<Entry>): string
    requires forall e | e in es :: Is64Bit(e.rule)
  {
    if es == [] then "" else Format(es[0].dev, es[0].rule) + "\n" + Content(es[1..])
  }

  function Formatted(es: seq<Entry>): seq<string>
    requires forall e | e in es :: Is64Bit(e.rule)
  {
    if es == [] then [] else [Format(es[0].dev, es[0].rule)] + Formatted(es[1..])
  }

  lemma FormatEnds(dev: Device, r: Rule)
    requires Is64Bit(r) && IsDevice(dev)
    ensures '\n' !in Format(dev, r) && Format(dev, r) != ""
    ensures DropCr(Format(dev, r)) == Format(dev, r) == TrimSpace(Format(dev, r))
  {
    WordsAreWords(dev, r);
    JoinEnds(Words(dev, r));
    PairIsWord(WIOPS, r.wiops);
    LastOfJoin(Words(dev, r));
    NothingToTrim(Format(dev, r));
  }

  /** Scanning the kernel's text gives its lines. */
  lemma {:induction false} ContentLines(es: seq<Entry>)
    requires forall e | e in es :: Is64Bit(e.rule) && IsDevice(e.dev)
    ensures Lines(Content(es)) == Formatted(es)
  {
    if es != [] {
      ContentLines(es[1..]);
      FormatEnds(es[0].dev, es[0].rule);
      FirstOfLines(Format(es[0].dev, es[0].rule), Content(es[1..]));
    }
  }

  lemma PartsStep(line: string, rest: string, parts: seq<string>)
    requires '\n' !in line && SplitOn(rest, '\n') == parts + [""]
    ensures SplitOn(line + "\n" + rest, '\n') == ([line] + parts) + [""]
  {
    SplitStep(line, '\n', rest);
    assert ['\n'] == "\n";
  }

  /** So does splitting it, with an empty piece after the last newline. */
  lemma {:induction false} ContentParts(es: seq<Entry>)
    requires forall e | e in es :: Is64Bit(e.rule) && IsDevice(e.dev)
    ensures SplitOn(Content(es), '\n') == Formatted(es) + [""]
  {
    if es == [] {
      SplitLast("", '\n');
    } else {
      ContentParts(es[1..]);
      FormatEnds(es[0].dev, es[0].rule);
      PartsStep(Format(es[0].dev, es[0].rule), Content(es[1..]), Formatted(es[1..]));
    }
  }

  lemma {:induction false} FormattedInit(es: seq<Entry>)
    requires es != [] && forall e | e in es :: Is64Bit(e.rule)
    ensures var last := es[|es|-1];
            Formatted(es) == Formatted(es[..|es|-1]) + [Format(last.dev, last.rule)]
  {
    if |es| > 1 {
      FormattedInit(es[1..]);
      assert es[1..][..|es|-2] == es[..|es|-1][1..];
    } else {
      assert es[1..] == [] && es[..0] == [];
    }
  }

  lemma {:induction false} ParseFormatted(es: seq<Entry>)
    requires forall e | e in es :: Is64Bit(e.rule) && IsDevice(e.dev)
    ensures ParseLines(Formatted(es)) == RulesIn(es)
  {
    if es != [] {
      var init, last := es[..|es|-1], es[|es|-1];
      ParseFormatted(init);
      FormattedInit(es);
      assert Formatted(es)[..|Formatted(es)|-1] == Formatted(init);
      LineRoundTrip(RulesIn(init), last.dev, last.rule);
    }
  }

  /** Parsing what was printed gives the same map back, for all 64-bit values and any number of devices. */
  lemma ParseUndoesPrinting(es: seq<Entry>)
    requires Listing(es)
    ensures ParseLines(Lines(Content(es))) == RulesIn(es)
    ensures forall e | e in es :: Look(RulesIn(es), e.dev) == Some(e.rule)
    ensures forall d | d in RulesIn(es) :: exists e :: e in es && e.dev == d
  {
    ContentLines(es);
    ParseFormatted(es);
    RulesInHolds(es);
  }

  lemma {:induction false} RulesInHolds(es: seq<Entry>)
    requires Listing(es)
    ensures forall e | e in es :: Look(RulesIn(es), e.dev) == Some(e.rule)
    ensures forall d | d in RulesIn(es) :: exists e :: e in es && e.dev == d
  {
    if es != [] {
      var init, last := es[..|es|-1], es[|es|-1];
      RulesInHolds(init);
      assert last in es;
      forall e | e in es ensures Look(RulesIn(es), e.dev) == Some(e.rule) {
        if e in init {
          assert e.dev != last.dev;
        }
      }
      forall d | d in RulesIn(es) ensures exists e :: e in es && e.dev == d {
        if d != last.dev {
          var e :| e in init && e.dev == d;
          assert e in es;
        }
      }
    }
  }

  // ---------- looking up one raw line ----------

  const NO_LINE := "<none>"

  predicate IsLineOf(line: string, dev: Device) {
    TrimSpace(line) != "" && Fields(TrimSpace(line)) != [] && Fields(TrimSpace(line))[0] == dev
  }

  function FirstLine(lines: seq<string>, dev: Device): string {
    if lines == [] then NO_LINE
    else if IsLineOf(lines[0], dev) then TrimSpace(lines[0])
    else FirstLine(lines[1..], dev)
  }

  /** iomax.go's readDeviceLine, given what reading the file returned. */
  method ReadDeviceLine(content: Option<string>, dev: Device) returns (line: string)
    ensures line == match content case None => NO_LINE case Some(text) => FirstLine(SplitOn(text, '\n'), dev)
  {
    if content.None? {
      return NO_LINE;
    }
    var lines := SplitOn(content.value, '\n');
    for i := 0 to |lines|
      invariant FirstLine(lines, dev) == FirstLine(lines[i..], dev)
    {
      assert lines[i..][1..] == lines[i+1..];
      line := TrimSpace(lines[i]);
      if line == "" {
        continue;
      }
      var fields := Fields(line);
      if |fields| > 0 && fields[0] == dev {
        return line;
      }
    }
    line := NO_LINE;
  }

  /** reconciler.go's lineFor: the line rebuilt from the parsed map. */
  function LineFor(rules: map<Device, Rule>, dev: Device): string
    requires dev in rules ==> Is64Bit(rules[dev])
  {
    if dev in rules then Format(dev, rules[dev]) else NO_LINE
  }

  lemma FormatIsLineOf(e: Entry, dev: Device)
    requires Is64Bit(e.rule) && IsDevice(e.dev)
    ensures IsLineOf(Format(e.dev, e.rule), dev) <==> e.dev == dev
  {
    FormatEnds(e.dev, e.rule);
    WordsAreWords(e.dev, e.rule);
    FieldsOfJoin(Words(e.dev, e.rule));
  }

  lemma FirstLineStep(line: string, rest: seq<string>, dev: Device)
    ensures FirstLine([line] + rest, dev) == if IsLineOf(line, dev) then TrimSpace(line) else FirstLine(rest, dev)
  {
    assert ([line] + rest)[1..] == rest;
  }

  lemma FirstEntryLine(es: seq<Entry>, dev: Device)
    requires es != [] && forall e | e in es :: Is64Bit(e.rule)
    requires IsDevice(es[0].dev)
    ensures FirstLine(Formatted(es) + [""], dev) ==
            if es[0].dev == dev then Format(dev, es[0].rule) else FirstLine(Formatted(es[1..]) + [""], dev)
  {
    var line, rest := Format(es[0].dev, es[0].rule), Formatted(es[1..]) + [""];
    FormatIsLineOf(es[0], dev);
    FormatEnds(es[0].dev, es[0].rule);
    assert Formatted(es) + [""] == [line] + rest;
    FirstLineStep(line, rest, dev);
  }

  lemma {:induction false} FirstLineAt(es: seq<Entry>, i: nat)
    requires Listing(es) && i < |es|
    ensures FirstLine(Formatted(es) + [""], es[i].dev) == Format(es[i].dev, es[i].rule)
  {
    FirstEntryLine(es, es[i].dev);
    if i > 0 {
      FirstLineAt(es[1..], i - 1);
    }
  }

  lemma {:induction false} NoFirstLine(es: seq<Entry>, dev: Device)
    requires Listing(es) && forall e | e in es :: e.dev != dev
    ensures FirstLine(Formatted(es) + [""], dev) == NO_LINE
  {
    if es == [] {
      FirstLineStep("", [], dev);
    } else {
      FirstEntryLine(es, dev);
      NoFirstLine(es[1..], dev);
    }
  }

  /** The raw lookup and the parsed-then-reformatted line are the same text. */
  lemma LookupAgrees(es: seq<Entry>, dev: Device)
    requires Listing(es)
    ensures var parsed := ParseLines(Lines(Content(es)));
            && (dev in parsed ==> Is64Bit(parsed[dev]))
            && FirstLine(SplitOn(Content(es), '\n'), dev) == LineFor(parsed, dev)
  {
    ParseUndoesPrinting(es);
    ContentParts(es);
    if dev in RulesIn(es) {
      var i :| 0 <= i < |es| && es[i].dev == dev;
      FirstLineAt(es, i);
    } else {
      NoFirstLine(es, dev);
    }
  }

  // ---------- the kernel's side of a write ----------

  function Without(es: seq<Entry>, dev: Device): (r: seq<Entry>)
    ensures forall e :: e in r <==> e in es && e.dev != dev
  {
    if es == [] then [] else
      Without(es[..|es|-1], dev) + if es[|es|-1].dev == dev then [] else [es[|es|-1]]
  }

  function RuleOf(es: seq<Entry>, dev: Device): Rule {
    if dev in RulesIn(es) then RulesIn(es)[dev] else NO_LIMITS
  }

  /** The listing after the line of `dev` became `line`. */
  function Put(es: seq<Entry>, dev: Device, line: Option<Rule>): seq<Entry> {
    Without(es, dev) + match line case None => [] case Some(r) => [Entry(dev, r)]
  }

  /** One key=value word as the kernel reads it, by its own names of the keys; anything else is refused. */
  function KernelWord(r: Rule, word: string): Option<Rule> {
    var k := IndexOf(word, '=');
    if k == |word| || (word[k+1..] != "max" && ParseUint(word[k+1..]).None?) then None else
      var v := if word[k+1..] == "max" then None else ParseUint(word[k+1..]);
      if word[..k] == "rbps" then Some(r.(rbps := v))
      else if word[..k] == "wbps" then Some(r.(wbps := v))
      else if word[..k] == "riops" then Some(r.(riops := v))
      else if word[..k] == "wiops" then Some(r.(wiops := v))
      else None
  }

  /** All words in turn: a key that is not named keeps its value. */
  function KernelWords(r: Rule, words: seq<string>): Option<Rule>
    decreases |words|
  {
    if words == [] then Some(r) else
      match KernelWord(r, words[0])
      case None => None
      case Some(r') => KernelWords(r', words[1..])
  }

  /**
   One write(2) to io.max that the kernel accepts: the named keys are set, the others keep their value,
   and a device left with every key at max loses its line. A second line in the payload is refused.
   */
  function KernelAccepts(es: seq<Entry>, payload: string): Option<seq<Entry>> {
    if |Lines(payload)| != 1 || Fields(Lines(payload)[0]) == [] then None else
      var words := Fields(Lines(payload)[0]);
      match KernelWords(RuleOf(es, words[0]), words[1..])
      case None => None
      case Some(r) => Some(Put(es, words[0], if r.Unlimited() then None else Some(r)))
  }

  lemma KernelReadsPair(r: Rule, key: string, v: Option<int>)
    requires InRange(v, 0, TWO_64 - 1) && '=' !in key
    ensures KernelWord(r, key + "=" + FormatVal(v)) ==
              if key == "rbps" then Some(r.(rbps := v))
              else if key == "wbps" then Some(r.(wbps := v))
              else if key == "riops" then Some(r.(riops := v))
              else if key == "wiops" then Some(r.(wiops := v))
              else None
  {
    FormatValIsPlain(v);
    CutPair(key, FormatVal(v));
  }

  lemma KernelStep(r: Rule, word: string, r': Rule, words: seq<string>)
    requires KernelWord(r, word) == Some(r')
    ensures KernelWords(r, [word] + words) == KernelWords(r', words)
  {
    assert ([word] + words)[1..] == words;
  }

  /** The kernel reads the four words of a rule as that rule, whatever was there before. */
  lemma KernelReadsRule(r0: Rule, r: Rule)
    requires Is64Bit(r)
    ensures KernelWords(r0, ["rbps=" + FormatVal(r.rbps), "wbps=" + FormatVal(r.wbps),
                             "riops=" + FormatVal(r.riops), "wiops=" + FormatVal(r.wiops)]) == Some(r)
  {
    var a, b := "rbps=" + FormatVal(r.rbps), "wbps=" + FormatVal(r.wbps);
    var c, d := "riops=" + FormatVal(r.riops), "wiops=" + FormatVal(r.wiops);
    var r1 := r0.(rbps := r.rbps);
    var r2 := r1.(wbps := r.wbps);
    var r3 := r2.(riops := r.riops);
    KernelReadsPair(r0, "rbps", r.rbps);
    KernelReadsPair(r1, "wbps", r.wbps);
    KernelReadsPair(r2, "riops", r.riops);
    KernelReadsPair(r3, "wiops", r.wiops);
    KernelKeys(r);
    KernelStep(r3, d, r, []);
    KernelStep(r2, c, r3, [d]);
    KernelStep(r1, b, r2, [c, d]);
    KernelStep(r0, a, r1, [b, c, d]);
    assert [d] + [] == [d] && [c] + [d] == [c, d] && [b] + [c, d] == [b, c, d] && [a] + [b, c, d] == [a, b, c, d];
  }

  lemma KernelKeys(r: Rule)
    requires Is64Bit(r)
    ensures "rbps" + "=" + FormatVal(r.rbps) == "rbps=" + FormatVal(r.rbps)
    ensures "wbps" + "=" + FormatVal(r.wbps) == "wbps=" + FormatVal(r.wbps)
    ensures "riops" + "=" + FormatVal(r.riops) == "riops=" + FormatVal(r.riops)
    ensures "wiops" + "=" + FormatVal(r.wiops) == "wiops=" + FormatVal(r.wiops)
  {
    PairText("rbps", r.rbps);
    PairText("wbps", r.wbps);
    PairText("riops", r.riops);
    PairText("wiops", r.wiops);
  }

  /** The words after the device are those the kernel reads as the rule. */
  lemma WordsText(dev: Device, r: Rule)
    requires Is64Bit(r)
    ensures Words(dev, r)[1..] == ["rbps=" + FormatVal(r.rbps), "wbps=" + FormatVal(r.wbps),
                                   "riops=" + FormatVal(r.riops), "wiops=" + FormatVal(r.wiops)]
  {
    PairText("rbps", r.rbps);
    PairText("wbps", r.wbps);
    PairText("riops", r.riops);
    PairText("wiops", r.wiops);
  }

  /** Every device of the listing has a limit: the kernel shows no all-max line. */
  ghost predicate KernelListing(es: seq<Entry>) {
    Listing(es) && forall e | e in es :: !e.rule.Unlimited()
  }

  lemma AppendDistinct(es: seq<Entry>, e: Entry)
    requires Distinct(es) && forall x | x in es :: x.dev != e.dev
    ensures Distinct(es + [e])
  {}

  lemma {:induction false} WithoutDistinct(es: seq<Entry>, dev: Device)
    requires Distinct(es)
    ensures Distinct(Without(es, dev))
  {
    if es != [] {
      var init, last := es[..|es|-1], es[|es|-1];
      assert Distinct(init);
      var rest := Without(init, dev);
      assert Distinct(rest) by { WithoutDistinct(init, dev); }
      if last.dev != dev {
        forall x | x in rest ensures x.dev != last.dev {
          var i :| 0 <= i < |init| && init[i] == x;
          assert es[i] == x;
        }
        AppendDistinct(rest, last);
      } else {
        assert rest + [] == rest;
      }
    }
  }

  lemma {:induction false} WithoutKeepsRest(es: seq<Entry>, dev: Device)
    ensures RulesIn(Without(es, dev)) == RulesIn(es) - {dev}
  {
    if es != [] {
      var init, last := es[..|es|-1], es[|es|-1];
      WithoutKeepsRest(init, dev);
      var rest := Without(init, dev);
      if last.dev != dev {
        AppendRule(rest, last);
        PutAfterRemove(RulesIn(init), dev, last.dev, last.rule);
      } else {
        assert rest + [] == rest;
        assert RulesIn(init)[dev := last.rule] - {dev} == RulesIn(init) - {dev};
      }
    }
  }

  lemma PutAfterRemove(m: map<Device, Rule>, dev: Device, other: Device, r: Rule)
    requires other != dev
    ensures (m - {dev})[other := r] == m[other := r] - {dev}
  {}

  lemma AppendRule(es: seq<Entry>, e: Entry)
    ensures RulesIn(es + [e]) == RulesIn(es)[e.dev := e.rule]
  {
    assert (es + [e])[..|es|] == es;
  }

  /**
   A formatted rule decides its device's line by itself: the keys the kernel would keep are all written,
   so what was there before does not matter; no other device's line changes.
   */
  lemma WriteDecidesLine(es: seq<Entry>, dev: Device, r: Rule)
    requires KernelListing(es) && Is64Bit(r) && IsDevice(dev)
    ensures var k := KernelAccepts(es, Format(dev, r) + "\n");
            && k.Some? && KernelListing(k.value)
            && RulesIn(k.value) == SetLine(RulesIn(es), dev, WriteLine(Look(RulesIn(es), dev), r, Accept))
  {
    var payload := Format(dev, r) + "\n";
    FormatEnds(dev, r);
    FirstOfLines(Format(dev, r), "");
    assert payload == Format(dev, r) + "\n" + "";
    assert Lines(payload) == [Format(dev, r)];
    WordsAreWords(dev, r);
    FieldsOfJoin(Words(dev, r));
    WordsText(dev, r);
    KernelReadsRule(RuleOf(es, dev), r);
    PutSetsLine(es, dev, if r.Unlimited() then None else Some(r));
  }

  /** A line the kernel can show. */
  predicate IsLine(line: Option<Rule>) {
    line.Some? ==> Is64Bit(line.value) && !line.value.Unlimited()
  }

  lemma AppendListing(es: seq<Entry>, e: Entry)
    requires KernelListing(es) && Is64Bit(e.rule) && !e.rule.Unlimited() && IsDevice(e.dev)
    requires forall x | x in es :: x.dev != e.dev
    ensures KernelListing(es + [e])
  {
    AppendDistinct(es, e);
    forall x | x in es + [e] ensures Is64Bit(x.rule) && IsDevice(x.dev) && !x.rule.Unlimited() {
      assert x in es || x == e;
    }
  }

  lemma WithoutListing(es: seq<Entry>, dev: Device)
    requires KernelListing(es)
    ensures KernelListing(Without(es, dev))
  {
    WithoutDistinct(es, dev);
  }

  lemma PutSetsLine(es: seq<Entry>, dev: Device, line: Option<Rule>)
    requires KernelListing(es) && IsLine(line) && IsDevice(dev)
    ensures KernelListing(Put(es, dev, line)) && RulesIn(Put(es, dev, line)) == SetLine(RulesIn(es), dev, line)
  {
    var rest := Without(es, dev);
    WithoutListing(es, dev);
    WithoutKeepsRest(es, dev);
    if line.None? {
      assert Put(es, dev, line) == rest;
    } else {
      var e := Entry(dev, line.value);
      assert Put(es, dev, line) == rest + [e];
      AppendListing(rest, e);
      AppendRule(rest, e);
      PutAgain(RulesIn(es), dev, line.value);
    }
  }

  lemma PutAgain(m: map<Device, Rule>, dev: Device, r: Rule)
    ensures (m - {dev})[dev := r] == m[dev := r]
  {}

  // ---------- the file as the agent uses it ----------

  datatype WriteResult = WriteResult(before: string, after: string)

  /** One pod cgroup's io.max. `present` is false once the cgroup is gone. */
  class IoMaxFile {
    var present: bool
    var entries: seq<Entry>

    ghost predicate Valid() reads this { KernelListing(entries) }

    /** The line that a correct lookup shows. */
    ghost function Line(dev: Device): string
      reads this
      requires Valid()
    {
      RulesInHolds(entries);
      if present then LineFor(RulesIn(entries), dev) else NO_LINE
    }

    method ReadLine(dev: Device) returns (line: string)
      requires Valid()
      ensures line == Line(dev)
    {
      LookupAgrees(entries, dev);
      ParseUndoesPrinting(entries);
      line := ReadDeviceLine(if present then Some(Content(entries)) else None, dev);
    }

    /** The single write(2), as the kernel answers it. */
    method Answer(dev: Device, r: Rule, reply: Reply)
      requires Valid() && Is64Bit(r) && IsDevice(dev) && (reply.Coerce? ==> IsLine(reply.line))
      modifies this`entries
      ensures Valid()
      ensures RulesIn(entries) ==
              SetLine(old(RulesIn(entries)), dev, WriteLine(Look(old(RulesIn(entries)), dev), r, reply))
      ensures reply.Reject? ==> entries == old(entries)
    {
      match reply {
        case Accept =>
          WriteDecidesLine(entries, dev, r);
          entries := KernelAccepts(entries, Format(dev, r) + "\n").value;
        case Reject =>
          SameLooks(RulesIn(entries), SetLine(RulesIn(entries), dev, Look(RulesIn(entries), dev)));
        case Coerce(line) =>
          PutSetsLine(entries, dev, line);
          entries := Put(entries, dev, line);
      }
    }

    /**
     iomax.go's writeLine for a formatted rule; `reply` is the kernel's answer to the single write. The result
     shows the device's line before and after, whatever the kernel made of the rule. A short write, which the
     source reports as an error too, is taken to be one the kernel refused.
     */
    method Write(dev: Device, r: Rule, reply: Reply) returns (ok: bool, res: WriteResult)
      requires Valid() && Is64Bit(r) && IsDevice(dev) && (reply.Coerce? ==> IsLine(reply.line))
      requires !present ==> reply.Reject?
      modifies this`entries
      ensures Valid()
      ensures ok == !reply.Reject?
      ensures res == WriteResult(old(Line(dev)), if ok then Line(dev) else "")
      ensures RulesIn(entries) ==
              SetLine(old(RulesIn(entries)), dev, WriteLine(Look(old(RulesIn(entries)), dev), r, reply))
      ensures reply.Accept? ==> res.after == if r.Unlimited() then NO_LINE else Format(dev, r)
    {
      var before := ReadLine(dev);
      Answer(dev, r, reply);
      if reply.Reject? {
        return false, WriteResult(before, "");
      }
      var after := ReadLine(dev);
      ok, res := true, WriteResult(before, after);
    }

    /** A reset of a device that is gone, or in a cgroup that is gone, counts as done; `gone` is that error. */
    method Reset(dev: Device, reply: Reply, gone: bool) returns (ok: bool, res: WriteResult)
      requires Valid() && IsDevice(dev) && (reply.Coerce? ==> IsLine(reply.line))
      requires !present ==> reply.Reject?
      modifies this`entries
      ensures Valid()
      ensures ok == (!reply.Reject? || gone)
      ensures RulesIn(entries) ==
              SetLine(old(RulesIn(entries)), dev, WriteLine(Look(old(RulesIn(entries)), dev), NO_LIMITS, reply))
      ensures reply.Accept? ==> RulesIn(entries) == old(RulesIn(entries)) - {dev} && res.after == NO_LINE
      ensures res == if reply.Reject? && gone then WriteResult(NO_LINE, NO_LINE)
                     else WriteResult(old(Line(dev)), if ok then Line(dev) else "")
    {
      ok, res := Write(dev, NO_LIMITS, reply);
      if !ok && gone {
        ok, res := true, WriteResult(NO_LINE, NO_LINE);
      }
    }
  }

  // ---------- any number of writes ----------

  function AfterWrites(es: seq<Entry>, writes: seq<Entry>): Option<seq<Entry>>
    requires forall w | w in writes :: Is64Bit(w.rule)
  {
    if writes == [] then Some(es) else
      match AfterWrites(es, writes[..|writes|-1])
      case None => None
      case Some(es') => KernelAccepts(es', Format(writes[|writes|-1].dev, writes[|writes|-1].rule) + "\n")
  }

  /** After any number of writes, a device that was written shows its last rule and nothing else of its past. */
  lemma LastWriteWins(es: seq<Entry>, writes: seq<Entry>, last: nat)
    requires KernelListing(es) && forall w | w in writes :: Is64Bit(w.rule) && IsDevice(w.dev)
    requires last < |writes| && forall i | last < i < |writes| :: writes[i].dev != writes[last].dev
    ensures var k := AfterWrites(es, writes);
            && k.Some? && KernelListing(k.value)
            && FirstLine(SplitOn(Content(k.value), '\n'), writes[last].dev)
               == if writes[last].rule.Unlimited() then NO_LINE else Format(writes[last].dev, writes[last].rule)
  {
    WritesUpdate(es, writes);
    var k := AfterWrites(es, writes).value;
    LastUpdate(RulesIn(es), writes, last);
    LookupAgrees(k, writes[last].dev);
    ParseUndoesPrinting(k);
  }

  function Updates(rules: map<Device, Rule>, writes: seq<Entry>): map<Device, Rule> {
    if writes == [] then rules else
      var rules', w := Updates(rules, writes[..|writes|-1]), writes[|writes|-1];
      SetLine(rules', w.dev, WriteLine(Look(rules', w.dev), w.rule, Accept))
  }

  lemma {:induction false} WritesUpdate(es: seq<Entry>, writes: seq<Entry>)
    requires KernelListing(es) && forall w | w in writes :: Is64Bit(w.rule) && IsDevice(w.dev)
    ensures var k := AfterWrites(es, writes);
            k.Some? && KernelListing(k.value) && RulesIn(k.value) == Updates(RulesIn(es), writes)
  {
    if writes != [] {
      var init, w := writes[..|writes|-1], writes[|writes|-1];
      WritesUpdate(es, init);
      WriteDecidesLine(AfterWrites(es, init).value, w.dev, w.rule);
    }
  }

  lemma {:induction false} LastUpdate(rules: map<Device, Rule>, writes: seq<Entry>, last: nat)
    requires last < |writes| && forall i | last < i < |writes| :: writes[i].dev != writes[last].dev
    ensures Look(Updates(rules, writes), writes[last].dev)
            == if writes[last].rule.Unlimited() then None else Some(writes[last].rule)
  {
    if last < |writes| - 1 {
      LastUpdate(rules, writes[..|writes|-1], last);
    }
  }
}
