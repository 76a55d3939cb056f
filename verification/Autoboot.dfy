/**
 autoboot.txt: the file that names the committed pair and the trial target
 (agents/rp5-ota-priv, agents/rp5agent/__init__.py).
 */
module Autoboot {
  import opened ByteStrings

  function Other(pair: int): int
    requires pair == 1 || pair == 2
  {
    if pair == 1 then 2 else 1
  }

  // -------------------------------------------------------- Python text helpers

  /** Line boundaries of str.splitlines. */
  predicate IsBreak(c: char) {
    var n := c as int;
    10 <= n <= 13 || 28 <= n <= 30 || n == 0x85 || n == 0x2028 || n == 0x2029
  }

  predicate IsSpace(c: char) {
    var n := c as int;
    9 <= n <= 13 || 28 <= n <= 32 || n == 0x85 || n == 0xa0 || n == 0x1680 || 0x2000 <= n <= 0x200a
    || n == 0x2028 || n == 0x2029 || n == 0x202f || n == 0x205f || n == 0x3000
  }

  /** The first line and the text after its boundary. */
  function Lines(t: string): seq<string> {
    if t == "" then []
    else if IsBreak(t[0]) then [""] + Lines(t[1..])
    else
      var rest := Lines(t[1..]);
      if t[1..] == "" || IsBreak(t[1]) then
        if rest == [] then [[t[0]]] else [[t[0]]] + rest[1..]
      else if rest == [] then [[t[0]]] else [[t[0]] + rest[0]] + rest[1..]
  }

  function StripLeft(s: string): string {
    if s != "" && IsSpace(s[0]) then StripLeft(s[1..]) else s
  }

  function StripRight(s: string): string {
    if s != "" && IsSpace(s[|s| - 1]) then StripRight(s[..|s| - 1]) else s
  }

  function Strip(s: string): string { StripRight(StripLeft(s)) }

  predicate IsDigit(c: char) { '0' <= c <= '9' }

  /** Decimal digits, single underscores allowed between them. */
  function Digits(s: string): Option<nat> {
    if s == "" then None
    else
      var c := s[|s| - 1];
      if !IsDigit(c) then None
      else
        var d := c as int - '0' as int;
        if |s| == 1 then Some(d)
        else
          var front := if s[|s| - 2] == '_' then s[..|s| - 2] else s[..|s| - 1];
          match Digits(front)
          case None => None
          case Some(n) => Some(10 * n + d)
  }

  function Times(sign: int, n: Option<nat>): Option<int> {
    if n.None? then None else Some(sign * n.value)
  }

  /** int(s) on ASCII text; None is ValueError. */
  function ParseInt(s: string): Option<int> {
    var t := Strip(s);
    if t == "" then None
    else if t[0] == '-' then Times(-1, Digits(t[1..]))
    else if t[0] == '+' then Digits(t[1..])
    else Digits(t)
  }

  // ------------------------------------------------------------ one line at a time

  const KEY: string := "boot_partition="

  predicate IsHeader(line: string) {
    |line| >= 2 && line[0] == '[' && line[|line| - 1] == ']'
  }

  predicate IsAssignment(line: string) {
    !IsHeader(line) && KEY <= line
  }

  function AssignedText(line: string): string
    requires IsAssignment(line)
  {
    line[|KEY|..]
  }

  predicate Tracked(sec: Option<string>) {
    sec == Some("all") || sec == Some("tryboot")
  }

  /** What read_autoboot carries from line to line; failed is the ValueError of int(). */
  datatype Scan = Scan(sec: Option<string>, all: Option<int>, tryboot: Option<int>, failed: bool)

  const START: Scan := Scan(None, None, None, false)

  function ScanLine(s: Scan, line: string): Scan {
    if s.failed then s
    else if IsHeader(line) then s.(sec := Some(line[1..|line| - 1]))
    else if IsAssignment(line) && Tracked(s.sec) then
      match ParseInt(AssignedText(line))
      case None => s.(failed := true)
      case Some(n) => if s.sec == Some("all") then s.(all := Some(n)) else s.(tryboot := Some(n))
    else s
  }

  function ScanAll(lines: seq<string>): Scan {
    if lines == [] then START else ScanLine(ScanAll(lines[..|lines| - 1]), lines[|lines| - 1])
  }

  /** The pair numbers, a refusal ("not a valid A/B file"), or an error from int(). */
  datatype AbResult = Pairs(committed: int, target: int) | NotAb | BadNumber

  function Checked(s: Scan): AbResult {
    if s.failed then BadNumber
    else if s.all.None? || s.tryboot.None? then NotAb
    else if s.all.value != 1 && s.all.value != 2 then NotAb
    else if s.tryboot.value != Other(s.all.value) then NotAb
    else Pairs(s.all.value, s.tryboot.value)
  }

  function StrippedLines(text: string): (lines: seq<string>)
    ensures |lines| == |Lines(text)|
  {
    var ls := Lines(text);
    seq(|ls|, i requires 0 <= i < |ls| => Strip(ls[i]))
  }

  function ReadText(text: string): AbResult {
    Checked(ScanAll(StrippedLines(text)))
  }

  /** The loop's variables `sec` and `out` hold what the scan holds. */
  ghost predicate Holds(s: Scan, sec: Option<string>, out: map<string, int>) {
    && !s.failed && s.sec == sec
    && out.Keys <= {"all", "tryboot"}
    && s.all == (if "all" in out then Some(out["all"]) else None)
    && s.tryboot == (if "tryboot" in out then Some(out["tryboot"]) else None)
  }

  lemma HoldsStored(s: Scan, sec: Option<string>, out: map<string, int>, line: string)
    requires Holds(s, sec, out) && IsAssignment(line) && Tracked(sec)
    ensures match ParseInt(AssignedText(line))
            case None => ScanLine(s, line).failed
            case Some(v) => Holds(ScanLine(s, line), sec, out[sec.value := v])
  {
    assert "all" != "tryboot" by { assert |"all"| != |"tryboot"|; }
  }

  lemma HoldsChecked(s: Scan, sec: Option<string>, out: map<string, int>)
    requires Holds(s, sec, out)
    ensures Checked(s) ==
            if out.Keys != {"all", "tryboot"} || out["all"] !in {1, 2} || out["tryboot"] != Other(out["all"])
            then NotAb else Pairs(out["all"], out["tryboot"])
  {
    assert out.Keys == {"all", "tryboot"} <==> "all" in out && "tryboot" in out;
  }

  lemma ScanOneMore(lines: seq<string>, n: nat)
    requires n < |lines|
    ensures ScanAll(lines[..n + 1]) == ScanLine(ScanAll(lines[..n]), lines[n])
  {
    assert lines[..n + 1][..n] == lines[..n];
  }

  method ReadAutoboot(text: string) returns (r: AbResult)
    ensures r == ReadText(text)
  {
    var lines := Lines(text);
    ghost var stripped := StrippedLines(text);
    var sec: Option<string> := None;
    var out: map<string, int> := map[];
    var n := 0;
    while n < |lines|
      invariant 0 <= n <= |lines|
      invariant Holds(ScanAll(stripped[..n]), sec, out)
    {
      var line := Strip(lines[n]);
      ScanOneMore(stripped, n);
      if IsHeader(line) {
        sec := Some(line[1..|line| - 1]);
      } else if KEY <= line && Tracked(sec) {
        HoldsStored(ScanAll(stripped[..n]), sec, out, line);
        var value := ParseInt(line[|KEY|..]);
        if value.None? {
          FailureStays(stripped, n + 1);
          return BadNumber;
        }
        out := out[sec.value := value.value];
      }
      n := n + 1;
    }
    assert stripped[..n] == stripped;
    HoldsChecked(ScanAll(stripped), sec, out);
    if out.Keys != {"all", "tryboot"} { return NotAb; }
    if out["all"] !in {1, 2} || out["tryboot"] != Other(out["all"]) { return NotAb; }
    r := Pairs(out["all"], out["tryboot"]);
  }

  lemma {:induction false} FailureStays(lines: seq<string>, n: nat)
    requires n <= |lines| && ScanAll(lines[..n]).failed
    ensures ScanAll(lines).failed
    decreases |lines| - n
  {
    if n == |lines| {
      assert lines[..n] == lines;
    } else {
      assert lines[..n + 1][..n] == lines[..n];
      FailureStays(lines, n + 1);
    }
  }

  // ----------------------------------------- the same result, without the running state

  /** The section in force just before line n: the last header above it. */
  function SectionBefore(lines: seq<string>, n: nat): Option<string>
    requires n <= |lines|
  {
    if n == 0 then None
    else if IsHeader(lines[n - 1]) then Some(lines[n - 1][1..|lines[n - 1]| - 1])
    else SectionBefore(lines, n - 1)
  }

  predicate AssignsIn(lines: seq<string>, n: nat, sec: string) {
    n < |lines| && IsAssignment(lines[n]) && SectionBefore(lines, n) == Some(sec)
  }

  predicate LastIn(lines: seq<string>, n: nat, sec: string) {
    AssignsIn(lines, n, sec) && forall k :: n < k < |lines| ==> !AssignsIn(lines, k, sec)
  }

  predicate GivesNumber(lines: seq<string>, n: nat) {
    n < |lines| && IsAssignment(lines[n]) && ParseInt(AssignedText(lines[n])).Some?
  }

  /** Every boot_partition line under [all] or [tryboot] holds a number. */
  predicate AllNumbers(lines: seq<string>) {
    forall n :: 0 <= n < |lines| && (AssignsIn(lines, n, "all") || AssignsIn(lines, n, "tryboot")) ==>
      GivesNumber(lines, n)
  }

  /** v is the number on the last boot_partition line of the section, None when there is none. */
  ghost predicate LastValue(lines: seq<string>, sec: string, v: Option<int>) {
    if v.None? then forall n :: 0 <= n < |lines| ==> !AssignsIn(lines, n, sec)
    else exists n :: 0 <= n < |lines| && LastIn(lines, n, sec) && ParseInt(AssignedText(lines[n])) == v
  }

  lemma {:induction false} SectionOfPrefix(lines: seq<string>, n: nat)
    requires |lines| > 0 && n < |lines|
    ensures SectionBefore(lines[..|lines| - 1], n) == SectionBefore(lines, n)
  {
    if n > 0 { SectionOfPrefix(lines, n - 1); }
  }

  lemma AssignsInPrefix(lines: seq<string>, sec: string)
    requires |lines| > 0
    ensures forall n :: 0 <= n < |lines| - 1 ==> AssignsIn(lines[..|lines| - 1], n, sec) == AssignsIn(lines, n, sec)
  {
    forall n | 0 <= n < |lines| - 1 ensures AssignsIn(lines[..|lines| - 1], n, sec) == AssignsIn(lines, n, sec) {
      SectionOfPrefix(lines, n);
    }
  }

  lemma LastValueStep(lines: seq<string>, sec: string, before: Option<int>, after: Option<int>)
    requires |lines| > 0 && LastValue(lines[..|lines| - 1], sec, before)
    requires if AssignsIn(lines, |lines| - 1, sec)
             then after.Some? && after == ParseInt(AssignedText(lines[|lines| - 1]))
             else after == before
    ensures LastValue(lines, sec, after)
  {
    var front := lines[..|lines| - 1];
    AssignsInPrefix(lines, sec);
    if AssignsIn(lines, |lines| - 1, sec) {
      assert LastIn(lines, |lines| - 1, sec);
    } else if before.Some? {
      var n :| 0 <= n < |front| && LastIn(front, n, sec) && ParseInt(AssignedText(front[n])) == before;
      assert LastIn(lines, n, sec) && front[n] == lines[n];
    }
  }

  lemma {:induction false} ScanIsLastValues(lines: seq<string>)
    ensures ScanAll(lines).failed <==> !AllNumbers(lines)
    ensures AllNumbers(lines) ==> ScanAll(lines).sec == SectionBefore(lines, |lines|)
    ensures AllNumbers(lines) ==> LastValue(lines, "all", ScanAll(lines).all)
    ensures AllNumbers(lines) ==> LastValue(lines, "tryboot", ScanAll(lines).tryboot)
  {
    if lines != [] {
      var front, last := lines[..|lines| - 1], |lines| - 1;
      ScanIsLastValues(front);
      AssignsInPrefix(lines, "all");
      AssignsInPrefix(lines, "tryboot");
      SectionOfPrefix(lines, last);
      forall n | 0 <= n < last ensures GivesNumber(front, n) == GivesNumber(lines, n) {
        assert front[n] == lines[n];
      }
      AllNumbersStep(lines);
      if AllNumbers(lines) {
        LastValueStep(lines, "all", ScanAll(front).all, ScanAll(lines).all);
        LastValueStep(lines, "tryboot", ScanAll(front).tryboot, ScanAll(lines).tryboot);
      }
    }
  }

  lemma AllNumbersStep(lines: seq<string>)
    requires lines != []
    ensures var front, last := lines[..|lines| - 1], |lines| - 1;
            AllNumbers(lines) <==>
            AllNumbers(front)
            && (AssignsIn(lines, last, "all") || AssignsIn(lines, last, "tryboot") ==> GivesNumber(lines, last))
  {
    var front, last := lines[..|lines| - 1], |lines| - 1;
    AssignsInPrefix(lines, "all");
    AssignsInPrefix(lines, "tryboot");
    forall n | 0 <= n < last ensures GivesNumber(front, n) == GivesNumber(lines, n) {
      assert front[n] == lines[n];
    }
    if AllNumbers(lines) {
      forall n | 0 <= n < last && (AssignsIn(front, n, "all") || AssignsIn(front, n, "tryboot"))
        ensures GivesNumber(front, n)
      {
        assert GivesNumber(lines, n);
      }
    }
    if AllNumbers(front) {
      forall n | 0 <= n < last && (AssignsIn(lines, n, "all") || AssignsIn(lines, n, "tryboot"))
        ensures GivesNumber(lines, n)
      {
        assert GivesNumber(front, n);
      }
    }
  }

  lemma LastValueUnique(lines: seq<string>, sec: string, v: Option<int>, w: Option<int>)
    requires LastValue(lines, sec, v) && LastValue(lines, sec, w)
    ensures v == w
  {
  }

  /**
   read_autoboot, for every text: a non-number under a tracked section is an
   error; otherwise (c, t) is returned exactly when the last boot_partition line
   under each section gives c and t and these are the two pairs.
   */
  lemma ReadTextExact(text: string, c: int, t: int)
    ensures var lines := StrippedLines(text);
            ReadText(text) == Pairs(c, t) <==>
            AllNumbers(lines) && LastValue(lines, "all", Some(c)) && LastValue(lines, "tryboot", Some(t))
            && {c, t} == {1, 2}
    ensures ReadText(text) == BadNumber <==> !AllNumbers(StrippedLines(text))
  {
    var lines := StrippedLines(text);
    var s := ScanAll(lines);
    ScanIsLastValues(lines);
    if AllNumbers(lines) {
      if LastValue(lines, "all", Some(c)) { LastValueUnique(lines, "all", Some(c), s.all); }
      if LastValue(lines, "tryboot", Some(t)) { LastValueUnique(lines, "tryboot", Some(t), s.tryboot); }
    }
    if {c, t} == {1, 2} {
      assert c in {1, 2} && t in {1, 2} && 1 in {c, t} && 2 in {c, t};
    }
  }

  // ------------------------------------------------------------- the text it writes

  function Digit(pair: int): string
    requires pair == 1 || pair == 2
  {
    if pair == 1 then "1" else "2"
  }

  const HEAD_ALL: string := "[all]"
  const FLAG: string := "tryboot_a_b=1"
  const HEAD_TRYBOOT: string := "[tryboot]"

  function AutobootText(committed: int): string
    requires committed == 1 || committed == 2
  {
    HEAD_ALL + "\n" + (FLAG + "\n" + (KEY + Digit(committed) + "\n"
      + (HEAD_TRYBOOT + "\n" + (KEY + Digit(Other(committed)) + "\n" + ""))))
  }

  /** The text itself, as the template of the agents has it. */
  lemma AutobootTexts()
    ensures AutobootText(1) == "[all]\ntryboot_a_b=1\n" + "boot_partition=1\n" + "[tryboot]\n" + "boot_partition=2\n"
    ensures AutobootText(2) == "[all]\ntryboot_a_b=1\n" + "boot_partition=2\n" + "[tryboot]\n" + "boot_partition=1\n"
  {
    TextParts(1, "boot_partition=1\n", "boot_partition=2\n");
    TextParts(2, "boot_partition=2\n", "boot_partition=1\n");
  }

  lemma TextParts(committed: int, first: string, second: string)
    requires committed == 1 || committed == 2
    requires first == KEY + Digit(committed) + "\n" && second == KEY + Digit(Other(committed)) + "\n"
    ensures AutobootText(committed) == "[all]\ntryboot_a_b=1\n" + first + "[tryboot]\n" + second
  {
    var all, flag, trial := HEAD_ALL + "\n", FLAG + "\n", HEAD_TRYBOOT + "\n";
    FixedParts();
    assert second + "" == second;
    assert AutobootText(committed) == all + (flag + (first + (trial + second)));
    hide *;
    Regroup(all, flag, first, trial, second);
  }

  lemma FixedParts()
    ensures (HEAD_ALL + "\n") + (FLAG + "\n") == "[all]\ntryboot_a_b=1\n"
    ensures HEAD_TRYBOOT + "\n" == "[tryboot]\n"
  {
  }

  lemma Regroup(a: string, b: string, c: string, d: string, e: string)
    ensures a + (b + (c + (d + e))) == (a + b) + c + d + e
  {
  }

  /** A line that neither contains a boundary nor loses anything to strip(). */
  predicate Plain(line: string) {
    line != "" && (forall i :: 0 <= i < |line| ==> !IsBreak(line[i])) && !IsSpace(line[0]) && !IsSpace(line[|line| - 1])
  }

  lemma {:induction false} FirstLine(line: string, rest: string)
    requires line != "" && forall i :: 0 <= i < |line| ==> !IsBreak(line[i])
    ensures Lines(line + "\n" + rest) == [line] + Lines(rest)
  {
    var t := line + "\n" + rest;
    assert t[1..] == line[1..] + "\n" + rest;
    if |line| == 1 {
      assert t[1..] == "\n" + rest && t[1..][1..] == rest;
      assert Lines(t[1..]) == [""] + Lines(rest);
      assert line == [t[0]];
    } else {
      FirstLine(line[1..], rest);
      assert line == [t[0]] + line[1..];
    }
  }

  lemma PlainStrips(line: string)
    requires Plain(line)
    ensures Strip(line) == line
  {
  }

  function WrittenLines(committed: int): seq<string>
    requires committed == 1 || committed == 2
  {
    [HEAD_ALL, FLAG, KEY + Digit(committed), HEAD_TRYBOOT, KEY + Digit(Other(committed))]
  }

  lemma WrittenLinesPlain(committed: int)
    requires committed == 1 || committed == 2
    ensures forall i :: 0 <= i < 5 ==> Plain(WrittenLines(committed)[i])
  {
    assert forall i :: 0 <= i < |KEY| ==> !IsBreak(KEY[i]);
    assert forall i :: 0 <= i < |HEAD_ALL| ==> !IsBreak(HEAD_ALL[i]);
    assert forall i :: 0 <= i < |FLAG| ==> !IsBreak(FLAG[i]);
    assert forall i :: 0 <= i < |HEAD_TRYBOOT| ==> !IsBreak(HEAD_TRYBOOT[i]);
    assert Plain(KEY + "1") && Plain(KEY + "2") && Plain(HEAD_ALL) && Plain(FLAG) && Plain(HEAD_TRYBOOT);
  }

  lemma LinesOfFive(a: string, b: string, c: string, d: string, e: string)
    requires Plain(a) && Plain(b) && Plain(c) && Plain(d) && Plain(e)
    ensures Lines(a + "\n" + (b + "\n" + (c + "\n" + (d + "\n" + (e + "\n" + ""))))) == [a, b, c, d, e]
  {
    var t4 := e + "\n" + "";
    var t3 := d + "\n" + t4;
    var t2 := c + "\n" + t3;
    var t1 := b + "\n" + t2;
    FirstLine(e, "");
    FirstLine(d, t4);
    FirstLine(c, t3);
    FirstLine(b, t2);
    FirstLine(a, t1);
  }

  /** The text written for a committed pair reads back as that pair and the other one. */
  lemma WrittenTextReadsBack(committed: int)
    requires committed == 1 || committed == 2
    ensures ReadText(AutobootText(committed)) == Pairs(committed, Other(committed))
  {
    var lines := WrittenLines(committed);
    WrittenLinesPlain(committed);
    LinesOfFive(lines[0], lines[1], lines[2], lines[3], lines[4]);
    forall i | 0 <= i < 5 ensures Strip(lines[i]) == lines[i] {
      PlainStrips(lines[i]);
    }
    assert StrippedLines(AutobootText(committed)) == lines;
    ScanWritten(committed);
  }

  lemma ScanFive(a: string, b: string, c: string, d: string, e: string)
    ensures ScanAll([a, b, c, d, e]) ==
            ScanLine(ScanLine(ScanLine(ScanLine(ScanLine(START, a), b), c), d), e)
  {
    hide ScanLine;
    assert [a, b, c, d, e][..4] == [a, b, c, d] && [a, b, c, d][..3] == [a, b, c];
    assert [a, b, c][..2] == [a, b] && [a, b][..1] == [a] && [a][..0] == [];
    assert ScanAll([a, b, c, d]) == ScanLine(ScanAll([a, b, c]), d);
    assert ScanAll([a, b, c]) == ScanLine(ScanAll([a, b]), c);
    assert ScanAll([a, b]) == ScanLine(ScanAll([a]), b);
  }

  lemma ScanWritten(committed: int)
    requires committed == 1 || committed == 2
    ensures ScanAll(WrittenLines(committed)) ==
            Scan(Some("tryboot"), Some(committed), Some(Other(committed)), false)
  {
    var lines := WrittenLines(committed);
    ScanFive(lines[0], lines[1], lines[2], lines[3], lines[4]);
    DigitParses(committed);
    DigitParses(Other(committed));
    KindsOfLines(committed);
    KindsOfLines(Other(committed));
    assert "all" != "tryboot" by { assert |"all"| != |"tryboot"|; }
    hide ParseInt, IsHeader, IsAssignment;
  }

  lemma KindsOfLines(pair: int)
    requires pair == 1 || pair == 2
    ensures IsAssignment(KEY + Digit(pair)) && AssignedText(KEY + Digit(pair)) == Digit(pair)
    ensures !IsHeader(KEY + Digit(pair)) && !IsHeader(FLAG) && !IsAssignment(FLAG)
    ensures IsHeader(HEAD_ALL) && HEAD_ALL[1..|HEAD_ALL| - 1] == "all"
    ensures IsHeader(HEAD_TRYBOOT) && HEAD_TRYBOOT[1..|HEAD_TRYBOOT| - 1] == "tryboot"
  {
    assert (KEY + Digit(pair))[0] == 'b' && FLAG[0] == 't' && KEY[0] == 'b';
    assert (KEY + Digit(pair))[|KEY|..] == Digit(pair);
  }

  lemma DigitParses(pair: int)
    requires pair == 1 || pair == 2
    ensures ParseInt(Digit(pair)) == Some(pair)
  {
    var d := Digit(pair);
    assert Strip(d) == d;
    assert Digits(d) == Some(pair);
  }

  // ------------------------------------------------- what the text helpers mean

  /** A header is a name in brackets, and an assignment is the key with its text behind it; no line is both. */
  lemma LineKinds(line: string)
    ensures IsHeader(line) <==> exists name :: line == "[" + name + "]"
    ensures IsHeader(line) ==> line == "[" + line[1..|line| - 1] + "]"
    ensures IsAssignment(line) <==> exists text :: line == "boot_partition=" + text
    ensures IsAssignment(line) ==> line == "boot_partition=" + AssignedText(line)
  {
    forall name | line == "[" + name + "]" ensures IsHeader(line) { }
    forall text | line == "boot_partition=" + text ensures IsAssignment(line) {
      assert line[0] == 'b';
    }
    if IsHeader(line) { assert line == "[" + line[1..|line| - 1] + "]"; }
    if IsAssignment(line) { assert line == "boot_partition=" + line[|KEY|..]; }
  }

  predicate BreakFree(line: string) {
    forall i :: 0 <= i < |line| ==> !IsBreak(line[i])
  }

  /** The first boundary ends the first line, which may be empty. */
  lemma {:induction false} LineBeforeBreak(line: string, c: char, rest: string)
    requires BreakFree(line) && IsBreak(c)
    ensures Lines(line + [c] + rest) == [line] + Lines(rest)
  {
    var t := line + [c] + rest;
    if line == "" {
      assert t[1..] == rest;
    } else {
      assert t[1..] == line[1..] + [c] + rest;
      LineBeforeBreak(line[1..], c, rest);
      assert line == [t[0]] + line[1..];
      if |line| == 1 {
        assert line[1..] == "" && t[1] == c && t[1..] == [c] + rest;
        assert ([""] + Lines(rest))[1..] == Lines(rest);
        assert line == [t[0]];
      } else {
        assert t[1] == line[1] && ([line[1..]] + Lines(rest))[1..] == Lines(rest);
      }
    }
  }

  /** Text without a boundary is one line. */
  lemma {:induction false} LastLine(line: string)
    requires line != "" && BreakFree(line)
    ensures Lines(line) == [line]
  {
    if |line| > 1 {
      LastLine(line[1..]);
      assert line == [line[0]] + line[1..];
    } else {
      assert line[1..] == "" && line == [line[0]];
    }
  }

  predicate Blank(s: string) {
    forall i :: 0 <= i < |s| ==> IsSpace(s[i])
  }

  /** strip() removes the white space at both ends and nothing else. */
  lemma {:induction false} StripsBlanks(left: string, core: string, right: string)
    requires Blank(left) && Blank(right) && core != "" && !IsSpace(core[0]) && !IsSpace(core[|core| - 1])
    ensures Strip(left + core + right) == core
  {
    if left != "" {
      var t := left + core + right;
      assert t[1..] == left[1..] + core + right;
      StripsBlanks(left[1..], core, right);
    } else if right != "" {
      var t := left + core + right;
      var shorter := left + core + right[..|right| - 1];
      StripsBlanks(left, core, right[..|right| - 1]);
      assert t[0] == core[0] && shorter[0] == core[0];
      assert t[..|t| - 1] == shorter && t[|t| - 1] == right[|right| - 1];
    } else {
      assert left + core + right == core;
    }
  }

  /** Which texts int() takes as digits: digits at both ends, single underscores between them. */
  lemma {:induction false} DigitsExact(s: string)
    ensures Digits(s).Some? <==>
            && s != "" && IsDigit(s[0]) && IsDigit(s[|s| - 1])
            && (forall i :: 0 <= i < |s| ==> IsDigit(s[i]) || s[i] == '_')
            && (forall i :: 0 <= i < |s| - 1 ==> s[i] != '_' || s[i + 1] != '_')
  {
    if |s| > 1 && IsDigit(s[|s| - 1]) {
      var front := if s[|s| - 2] == '_' then s[..|s| - 2] else s[..|s| - 1];
      DigitsExact(front);
      if s[|s| - 2] == '_' && |s| > 2 { assert front[|front| - 1] == s[|s| - 3]; }
      assert forall i :: 0 <= i < |front| ==> front[i] == s[i];
    }
  }

  function Decimal(n: nat): string {
    (if n < 10 then "" else Decimal(n / 10)) + [(n % 10) as char + '0']
  }

  lemma {:induction false} DigitsOfDecimal(n: nat)
    ensures Decimal(n) != "" && (forall i :: 0 <= i < |Decimal(n)| ==> IsDigit(Decimal(n)[i]))
    ensures Digits(Decimal(n)) == Some(n)
  {
    var s := Decimal(n);
    assert s[|s| - 1] as int == n % 10 + '0' as int;
    if n >= 10 {
      DigitsOfDecimal(n / 10);
      assert s[..|s| - 1] == Decimal(n / 10);
      assert s[|s| - 2] == Decimal(n / 10)[|s| - 2];
    }
  }

  /** int() of a decimal numeral, with white space around it and an optional sign, is the number. */
  lemma ParseIntOfDecimal(left: string, n: nat, right: string)
    requires Blank(left) && Blank(right)
    ensures ParseInt(left + Decimal(n) + right) == Some(n)
    ensures ParseInt(left + ("-" + Decimal(n)) + right) == Some(0 - n)
    ensures ParseInt(left + ("+" + Decimal(n)) + right) == Some(n)
  {
    var d := Decimal(n);
    DigitsOfDecimal(n);
    assert IsDigit(d[0]) && IsDigit(d[|d| - 1]);
    assert ("-" + d)[|d|] == d[|d| - 1] && ("+" + d)[|d|] == d[|d| - 1];
    StripsBlanks(left, d, right);
    StripsBlanks(left, "-" + d, right);
    StripsBlanks(left, "+" + d, right);
    assert ("-" + d)[1..] == d && ("+" + d)[1..] == d;
    hide Strip, Digits, Decimal;
  }
}
