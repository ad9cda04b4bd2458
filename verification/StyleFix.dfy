/**
  The line-based style passes: trailing whitespace and tabs, checked or
  fixed line by line, with regions guarded against formatting left alone.
 */
module StyleFix {
  const GUARD_ON := "// clang-format on"
  const GUARD_OFF := "// clang-format off"
  const TAB_SIZE := 4

  // ----- Python's string operations -----

  /** The characters that `strip` removes. */
  predicate IsSpace(c: char) {
    var n := c as int;
    || 9 <= n <= 13 || 28 <= n <= 32 || n == 0x85 || n == 0xa0 || n == 0x1680
    || 0x2000 <= n <= 0x200a || n == 0x2028 || n == 0x2029 || n == 0x202f || n == 0x205f || n == 0x3000
  }

  ghost predicate Blank(s: string) {
    forall c :: c in s ==> IsSpace(c)
  }

  function Rstrip(s: string): string {
    if s != [] && IsSpace(s[|s| - 1]) then Rstrip(s[..|s| - 1]) else s
  }

  function Lstrip(s: string): string {
    if s != [] && IsSpace(s[0]) then Lstrip(s[1..]) else s
  }

  function Strip(s: string): string {
    Lstrip(Rstrip(s))
  }

  function Spaces(n: nat): (s: string)
    ensures |s| == n && forall c :: c in s ==> c == ' '
  {
    if n == 0 then "" else Spaces(n - 1) + " "
  }

  /** Tabs become spaces up to the next multiple of the tab size; a line break restarts the column. */
  function Expand(s: string, column: nat): string {
    if s == [] then []
    else if s[0] == '\t' then
      var n := TAB_SIZE - column % TAB_SIZE;
      Spaces(n) + Expand(s[1..], column + n)
    else [s[0]] + Expand(s[1..], if s[0] == '\n' || s[0] == '\r' then 0 else column + 1)
  }

  // ----- The line rules -----

  datatype Rule = Whitespace | Tabs

  function Fixed(rule: Rule, line: string): string {
    match rule
    case Whitespace => Rstrip(line) + "\n"
    case Tabs => if '\t' in line then Expand(line, 0) else line
  }

  predicate LineOk(rule: Rule, line: string) {
    match rule
    case Whitespace => Rstrip(line) + "\n" == line
    case Tabs => '\t' !in line
  }

  // ----- Guards -----

  predicate IsGuard(line: string) {
    Strip(line) == GUARD_ON || Strip(line) == GUARD_OFF
  }

  /** Whether formatting is enabled after the first `i` lines. */
  predicate EnabledAfter(lines: seq<string>, i: nat)
    requires i <= |lines|
  {
    i == 0
    || Strip(lines[i - 1]) == GUARD_ON
    || (Strip(lines[i - 1]) != GUARD_OFF && EnabledAfter(lines, i - 1))
  }

  /** Guard lines themselves are checked, lines in a guarded region are not. */
  predicate Checked(lines: seq<string>, respect: bool, i: nat)
    requires i < |lines|
  {
    !respect || EnabledAfter(lines, i + 1) || IsGuard(lines[i])
  }

  function Pass(rule: Rule, lines: seq<string>, respect: bool): (r: seq<string>)
    ensures |r| == |lines|
    ensures forall i :: 0 <= i < |r| ==> r[i] == if Checked(lines, respect, i) then Fixed(rule, lines[i]) else lines[i]
  {
    seq(|lines|, i requires 0 <= i < |lines| => if Checked(lines, respect, i) then Fixed(rule, lines[i]) else lines[i])
  }

  predicate Offends(rule: Rule, lines: seq<string>, respect: bool, i: nat)
    requires i < |lines|
  {
    Checked(lines, respect, i) && !LineOk(rule, lines[i])
  }

  ghost predicate Compliant(rule: Rule, lines: seq<string>, respect: bool) {
    forall i :: 0 <= i < |lines| ==> !Offends(rule, lines, respect, i)
  }

  /**
    One pass over a file. The verdict is that of the full scan whatever the
    flags; the file changes only in fix mode, and then to the pass over its
    original lines; every offending line is reported unless the scan may stop at the first.
   */
  method CheckManuallyFile(rule: Rule, fileLines: seq<string>, fix: bool, verbose: bool, respect: bool)
    returns (compliant: bool, file: seq<string>, reported: seq<nat>)
    ensures compliant <==> Compliant(rule, fileLines, respect)
    ensures file == if fix then Pass(rule, fileLines, respect) else fileLines
    ensures fix || verbose ==> forall i: nat :: i in reported <==> i < |fileLines| && Offends(rule, fileLines, respect, i)
    ensures !fix && !verbose ==> |reported| <= 1
  {
    hide Strip, LineOk, Fixed, IsGuard, EnabledAfter;
    compliant, reported := true, [];
    var lines, enabled, i := fileLines, true, 0;
    InitiallyEnabled(fileLines);
    while i < |fileLines|
      invariant i <= |fileLines| == |lines|
      invariant enabled <==> !respect || EnabledAfter(fileLines, i)
      invariant forall j :: 0 <= j < i ==> lines[j] == Pass(rule, fileLines, respect)[j]
      invariant forall j :: i <= j < |lines| ==> lines[j] == fileLines[j]
      invariant compliant <==> forall j :: 0 <= j < i ==> !Offends(rule, fileLines, respect, j)
      invariant compliant ==> lines == fileLines && reported == []
      invariant forall j: nat :: j in reported <==> j < i && Offends(rule, fileLines, respect, j)
      invariant !fix && !verbose ==> compliant
    {
      var line, skip := lines[i], false;
      if respect {
        enabled, skip := UpdateGuard(fileLines, i, enabled);
      }
      if skip {
        i := i + 1;
        continue;
      }
      if !LineOk(rule, line) {
        assert Offends(rule, fileLines, respect, i);
        compliant := false;
        lines := lines[i := Fixed(rule, line)];
        reported := reported + [i];
        if !fix && !verbose {
          break;
        }
      } else {
        OkLineIsFixed(rule, line);
      }
      i := i + 1;
    }
    file := if fix && !compliant then lines else fileLines;
  }

  lemma InitiallyEnabled(lines: seq<string>)
    ensures EnabledAfter(lines, 0)
  {
  }

  /** Formatting is enabled if and only if every line that disables it is followed by one that enables it. */
  lemma {:induction false} EnabledIff(lines: seq<string>, i: nat)
    requires i <= |lines|
    ensures EnabledAfter(lines, i)
       <==> forall off: nat :: off < i && Strip(lines[off]) == GUARD_OFF
              ==> exists on: nat :: off < on < i && Strip(lines[on]) == GUARD_ON
  {
    hide Strip;
    if i > 0 {
      EnabledIff(lines, i - 1);
      GuardsDiffer();
    }
  }

  /**
    A line is left alone if and only if it is no guard itself and some guard
    before it disables formatting with none after that to enable it again.
   */
  lemma UncheckedIff(lines: seq<string>, i: nat)
    requires i < |lines|
    ensures !Checked(lines, true, i)
       <==> && Strip(lines[i]) != "// clang-format on" && Strip(lines[i]) != "// clang-format off"
            && exists off: nat :: off < i && Strip(lines[off]) == "// clang-format off"
                 && forall on: nat :: off < on < i ==> Strip(lines[on]) != "// clang-format on"
    ensures Checked(lines, false, i)
  {
    hide Strip, EnabledAfter;
    EnabledIff(lines, i + 1);
  }

  lemma GuardsDiffer()
    ensures GUARD_ON != GUARD_OFF
  {
    assert |GUARD_ON| != |GUARD_OFF|;
  }

  /** The guard state after a line, and whether the line is skipped. */
  method UpdateGuard(lines: seq<string>, i: nat, enabled: bool) returns (enabled': bool, skip: bool)
    requires i < |lines| && (enabled <==> EnabledAfter(lines, i))
    ensures enabled' <==> EnabledAfter(lines, i + 1)
    ensures skip <==> !Checked(lines, true, i)
  {
    var stripped := Strip(lines[i]);
    enabled' := enabled;
    if stripped == GUARD_ON {
      enabled' := true;
    } else if stripped == GUARD_OFF {
      enabled' := false;
    }
    skip := !enabled' && stripped != GUARD_ON && stripped != GUARD_OFF;
  }

  lemma OkLineIsFixed(rule: Rule, line: string)
    requires LineOk(rule, line)
    ensures Fixed(rule, line) == line
  {
  }

  // ----- Stripping -----

  lemma {:induction false} RstripSplits(s: string) returns (b: string)
    ensures s == Rstrip(s) + b && Blank(b)
    ensures Rstrip(s) != [] ==> !IsSpace(Rstrip(s)[|Rstrip(s)| - 1])
  {
    if s != [] && IsSpace(s[|s| - 1]) {
      var c := RstripSplits(s[..|s| - 1]);
      b := c + [s[|s| - 1]];
    } else {
      b := [];
    }
  }

  lemma {:induction false} LstripSplits(s: string) returns (a: string)
    ensures s == a + Lstrip(s) && Blank(a)
  {
    if s != [] && IsSpace(s[0]) {
      var c := LstripSplits(s[1..]);
      a := [s[0]] + c;
    } else {
      a := [];
    }
  }

  lemma {:induction false} RstripOf(s: string, b: string)
    requires Blank(b) && s != [] && !IsSpace(s[|s| - 1])
    ensures Rstrip(s + b) == s
  {
    if b == [] {
      assert s + b == s;
    } else {
      var init, last := b[..|b| - 1], b[|b| - 1];
      assert b == init + [last] && last in b;
      assert (s + b)[..|s + b| - 1] == s + init;
      RstripOf(s, init);
    }
  }

  lemma {:induction false} LstripOf(a: string, s: string)
    requires Blank(a) && s != [] && !IsSpace(s[0])
    ensures Lstrip(a + s) == s
  {
    if a == [] {
      assert a + s == s;
    } else {
      assert a[0] in a && (a + s)[1..] == a[1..] + s;
      LstripOf(a[1..], s);
    }
  }

  /** Blank text around a text with solid ends is stripped. */
  lemma StripOf(a: string, g: string, b: string)
    requires Blank(a) && Blank(b) && g != [] && !IsSpace(g[0]) && !IsSpace(g[|g| - 1])
    ensures Strip(a + g + b) == g
  {
    RstripOf(a + g, b);
    LstripOf(a, g);
  }

  // ----- Expanding tabs -----

  function ColumnAfter(s: string, column: nat): nat {
    if s == [] then column
    else if s[0] == '\t' then ColumnAfter(s[1..], column + TAB_SIZE - column % TAB_SIZE)
    else ColumnAfter(s[1..], if s[0] == '\n' || s[0] == '\r' then 0 else column + 1)
  }

  lemma {:induction false} ExpandConcat(a: string, b: string, column: nat)
    ensures Expand(a + b, column) == Expand(a, column) + Expand(b, ColumnAfter(a, column))
  {
    if a == [] {
      assert a + b == b;
    } else {
      assert (a + b)[0] == a[0] && (a + b)[1..] == a[1..] + b;
      ExpandConcat(a[1..], b, if a[0] == '\t' then column + TAB_SIZE - column % TAB_SIZE
                              else if a[0] == '\n' || a[0] == '\r' then 0 else column + 1);
    }
  }

  lemma {:induction false} ExpandHasNoTabs(s: string, column: nat)
    ensures '\t' !in Expand(s, column)
  {
    if s != [] {
      ExpandHasNoTabs(s[1..], if s[0] == '\t' then column + TAB_SIZE - column % TAB_SIZE
                              else if s[0] == '\n' || s[0] == '\r' then 0 else column + 1);
    }
  }

  lemma {:induction false} ExpandWithoutTabs(s: string, column: nat)
    requires '\t' !in s
    ensures Expand(s, column) == s
  {
    if s != [] {
      assert s[0] in s;
      ExpandWithoutTabs(s[1..], if s[0] == '\n' || s[0] == '\r' then 0 else column + 1);
    }
  }

  predicate IsBreak(c: char) {
    c == '\n' || c == '\r'
  }

  /** Without a line break, the column reached is the width written. */
  lemma {:induction false} WidthIsColumn(s: string, column: nat)
    requires forall c :: c in s ==> !IsBreak(c)
    ensures column + |Expand(s, column)| == ColumnAfter(s, column)
  {
    if s != [] {
      assert s[0] in s && forall c :: c in s[1..] ==> c in s;
      WidthIsColumn(s[1..], if s[0] == '\t' then column + TAB_SIZE - column % TAB_SIZE else column + 1);
    }
  }

  lemma ExpandTab(b: string, column: nat)
    ensures var n := TAB_SIZE - column % TAB_SIZE; Expand(['\t'] + b, column) == Spaces(n) + Expand(b, column + n)
  {
    hide Spaces;
    var t := ['\t'] + b;
    assert t[1..] == b;
  }

  /** A tab is replaced by one to four spaces, after which the text goes on at a multiple of the tab size. */
  lemma TabEndsAtStop(a: string, b: string) returns (n: nat)
    requires forall c :: c in a ==> !IsBreak(c)
    ensures 1 <= n <= TAB_SIZE && (|Expand(a, 0)| + n) % TAB_SIZE == 0
    ensures Expand(a + ['\t'] + b, 0) == Expand(a, 0) + Spaces(n) + Expand(b, |Expand(a, 0)| + n)
  {
    hide Expand, ColumnAfter, Spaces, IsBreak;
    var t, width := ['\t'] + b, |Expand(a, 0)|;
    assert a + ['\t'] + b == a + t;
    n := TAB_SIZE - width % TAB_SIZE;
    WidthIsColumn(a, 0);
    ExpandConcat(a, t, 0);
    ExpandTab(b, width);
    assert Expand(a, 0) + (Spaces(n) + Expand(b, width + n)) == Expand(a, 0) + Spaces(n) + Expand(b, width + n);
  }

  /** A line break is kept, and the columns start again after it. */
  lemma BreakRestarts(a: string, c: char, b: string, column: nat)
    requires IsBreak(c)
    ensures Expand(a + [c] + b, column) == Expand(a, column) + [c] + Expand(b, 0)
  {
    var t := [c] + b;
    assert a + [c] + b == a + t && t[1..] == b;
    ExpandConcat(a, t, column);
    assert Expand(a, column) + ([c] + Expand(b, 0)) == Expand(a, column) + [c] + Expand(b, 0);
  }

  lemma {:induction false} ExpandKeepsBlank(s: string, column: nat)
    requires Blank(s)
    ensures Blank(Expand(s, column))
  {
    if s != [] {
      assert s[0] in s && forall c :: c in s[1..] ==> c in s;
      ExpandKeepsBlank(s[1..], if s[0] == '\t' then column + TAB_SIZE - column % TAB_SIZE
                               else if s[0] == '\n' || s[0] == '\r' then 0 else column + 1);
    }
  }

  /** Expansion keeps a guard line a guard line, although it may turn another line into one. */
  lemma ExpandKeepsGuard(line: string, guard: string)
    requires Strip(line) == guard && '\t' !in guard && guard != [] && !IsSpace(guard[0]) && !IsSpace(guard[|guard| - 1])
    ensures Strip(Expand(line, 0)) == guard
  {
    hide Expand, ColumnAfter, Spaces, IsSpace, Rstrip, Lstrip;
    var b := RstripSplits(line);
    var a := LstripSplits(Rstrip(line));
    assert line == a + (guard + b);
    ExpandConcat(a, guard + b, 0);
    var column := ColumnAfter(a, 0);
    ExpandConcat(guard, b, column);
    ExpandWithoutTabs(guard, column);
    ExpandKeepsBlank(a, 0);
    ExpandKeepsBlank(b, ColumnAfter(guard, column));
    StripOf(Expand(a, 0), guard, Expand(b, ColumnAfter(guard, column)));
    assert Expand(line, 0) == Expand(a, 0) + guard + Expand(b, ColumnAfter(guard, column));
  }

  lemma RstripKeepsStrip(line: string)
    ensures Strip(Rstrip(line) + "\n") == Strip(line)
  {
    var s := Rstrip(line);
    var b := RstripSplits(line);
    if s == [] {
      assert Rstrip("\n") == Rstrip([]) by { assert "\n"[..0] == []; }
      assert s + "\n" == "\n";
    } else {
      RstripOf(s, "\n");
    }
  }

  lemma FixKeepsGuard(rule: Rule, line: string)
    requires IsGuard(line)
    ensures Strip(Fixed(rule, line)) == Strip(line)
  {
    match rule
    case Whitespace => RstripKeepsStrip(line);
    case Tabs => if '\t' in line { ExpandKeepsGuard(line, Strip(line)); }
  }

  lemma FixedIsOk(rule: Rule, line: string)
    ensures LineOk(rule, Fixed(rule, line))
  {
    match rule
    case Tabs => ExpandHasNoTabs(line, 0);
    case Whitespace =>
      var s := Rstrip(line);
      var b := RstripSplits(line);
      if s == [] {
        assert Rstrip("\n") == Rstrip([]) by { assert "\n"[..0] == []; }
        assert s + "\n" == "\n";
      } else {
        RstripOf(s, "\n");
      }
  }

  /** A line passes the whitespace check if and only if it ends in a line break with no whitespace before it. */
  lemma WhitespaceOkIff(line: string)
    ensures LineOk(Whitespace, line)
       <==> && line != [] && line[|line| - 1] == '\n'
            && (|line| > 1 ==> !IsSpace(line[|line| - 2]))
  {
    var s := Rstrip(line);
    var b := RstripSplits(line);
    if s + "\n" == line {
      assert s != [] ==> line[|line| - 2] == s[|s| - 1];
    }
    if line != [] && line[|line| - 1] == '\n' && (|line| > 1 ==> !IsSpace(line[|line| - 2])) {
      var init := line[..|line| - 1];
      assert line == init + "\n";
      if init == [] {
        assert Rstrip("\n") == Rstrip([]) by { assert "\n"[..0] == []; }
      } else {
        RstripOf(init, "\n");
      }
    }
  }

  /** Fixing whitespace takes nothing but whitespace off the end, and ends the line. */
  lemma FixTrims(line: string) returns (solid: string, blank: string)
    ensures line == solid + blank && Blank(blank) && Fixed(Whitespace, line) == solid + "\n"
    ensures solid != [] ==> !IsSpace(solid[|solid| - 1])
  {
    solid := Rstrip(line);
    blank := RstripSplits(line);
  }

  // ----- Fix, then check -----

  /** Fixing can disable more lines than before, never fewer. */
  lemma {:induction false} FixEnablesNoMore(rule: Rule, lines: seq<string>, i: nat)
    requires i <= |lines| && EnabledAfter(Pass(rule, lines, true), i)
    ensures EnabledAfter(lines, i)
    decreases i
  {
    hide Strip, Fixed;
    if i > 0 {
      var fixed, line := Pass(rule, lines, true), lines[i - 1];
      if IsGuard(line) {
        FixKeepsGuard(rule, line);
      }
      if !EnabledAfter(lines, i) && !IsGuard(line) {
        assert fixed[i - 1] == line;
        FixEnablesNoMore(rule, lines, i - 1);
      }
    }
  }

  /** After a fix pass the same check reports compliant. */
  lemma FixThenCheck(rule: Rule, lines: seq<string>, respect: bool)
    ensures Compliant(rule, Pass(rule, lines, respect), respect)
  {
    hide Strip, Fixed, LineOk, EnabledAfter;
    var fixed := Pass(rule, lines, respect);
    forall i | 0 <= i < |fixed| ensures !Offends(rule, fixed, respect, i) {
      if Checked(lines, respect, i) {
        FixedIsOk(rule, lines[i]);
      } else {
        assert fixed[i] == lines[i] && !IsGuard(fixed[i]);
        if EnabledAfter(fixed, i + 1) {
          FixEnablesNoMore(rule, lines, i + 1);
        }
      }
    }
  }

  // ----- Whitespace, then tabs -----

  lemma {:induction false} ExpandKeepsEnd(s: string, column: nat)
    requires s != [] && !IsSpace(s[|s| - 1])
    ensures var e := Expand(s, column); e != [] && e[|e| - 1] == s[|s| - 1]
  {
    var init, last := s[..|s| - 1], s[|s| - 1];
    assert s == init + [last] && [last][1..] == [];
    ExpandConcat(init, [last], column);
    assert Expand([last], ColumnAfter(init, column)) == [last];
  }

  /** Expanding tabs never brings back trailing whitespace. */
  lemma TabsKeepWhitespace(line: string)
    requires LineOk(Whitespace, line)
    ensures LineOk(Whitespace, Fixed(Tabs, line))
  {
    var s := Rstrip(line);
    var b := RstripSplits(line);
    if s == [] {
      assert line == "\n";
    } else if '\t' in line {
      var column := ColumnAfter(s, 0);
      ExpandConcat(s, "\n", 0);
      assert "\n"[1..] == [];
      assert Expand("\n", column) == "\n";
      ExpandKeepsEnd(s, 0);
      RstripOf(Expand(s, 0), "\n");
    }
  }

  /** The whitespace pass followed by the tab pass leaves a file that both checks accept. */
  lemma BothPassesAgree(lines: seq<string>)
    ensures var clean := Pass(Tabs, Pass(Whitespace, lines, false), true);
      Compliant(Tabs, clean, true) && Compliant(Whitespace, clean, false)
  {
    var trimmed := Pass(Whitespace, lines, false);
    var clean := Pass(Tabs, trimmed, true);
    FixThenCheck(Whitespace, lines, false);
    FixThenCheck(Tabs, trimmed, true);
    forall i | 0 <= i < |clean| ensures !Offends(Whitespace, clean, false, i) {
      assert !Offends(Whitespace, trimmed, false, i);
      TabsKeepWhitespace(trimmed[i]);
    }
  }

  // ----- A new guard line -----

  const STEM := "// clang-format"

  lemma {:induction false} PlainTexts()
    ensures |STEM| == 15 && STEM[0] == '/' && (forall c :: c in STEM ==> c != '\t' && c != '\n' && c != '\r')
    ensures GUARD_OFF == STEM + " " + "off" && |GUARD_ON| == 18
  {
  }

  /** A tab at the last column before a tab stop becomes one space. */
  lemma TabBecomesSpace(a: string, b: string)
    requires (forall c :: c in a ==> c != '\t' && c != '\n' && c != '\r') && |a| % TAB_SIZE == 3 && '\t' !in b
    ensures Expand(a + "\t" + b, 0) == a + " " + b
  {
    var t := "\t" + b;
    assert a + "\t" + b == a + t && t[1..] == b;
    ExpandConcat(a, t, 0);
    ExpandWithoutTabs(a, 0);
    PlainColumns(a, 0);
    ExpandWithoutTabs(b, |a| + 1);
    OneSpace();
    assert Expand(t, |a|) == " " + b;
    assert a + (" " + b) == a + " " + b;
  }

  lemma OneSpace()
    ensures Spaces(1) == " "
  {
    assert Spaces(0) == "";
  }

  lemma NotAGuard(a: string, b: string)
    requires |a| == 15 && a[0] == '/' && b == "off" && GUARD_OFF[15] == ' ' && |GUARD_ON| == 18
    ensures !IsGuard(a + "\t" + b)
  {
    var line := a + "\t" + b;
    assert line[0] == '/' && line[18] == b[2] == 'f' && line[15] == '\t' && |line| == 19;
    StripOf([], line, []);
    assert [] + line + [] == line;
  }

  /** Expanding the tab in this line turns it into a guard, which the pass over the original lines does not obey. */
  lemma TabHidesGuard()
    ensures !IsGuard(STEM + "\t" + "off") && Fixed(Tabs, STEM + "\t" + "off") == GUARD_OFF
  {
    hide Expand;
    PlainTexts();
    NotAGuard(STEM, "off");
    TabBecomesSpace(STEM, "off");
    assert (STEM + "\t" + "off")[15] == '\t';
  }

  lemma {:induction false} PlainColumns(s: string, column: nat)
    requires forall c :: c in s ==> c != '\t' && c != '\n' && c != '\r'
    ensures ColumnAfter(s, column) == column + |s|
  {
    if s != [] {
      assert s[0] in s && forall c :: c in s[1..] ==> c in s;
      PlainColumns(s[1..], column + 1);
    }
  }

  // ----- Writing and reading back -----

  /** What reading text mode yields: newlines only at line ends, and on every line but perhaps the last. */
  ghost predicate WellFormed(lines: seq<string>) {
    forall i :: 0 <= i < |lines| ==> WellFormedLine(lines[i]) && (i < |lines| - 1 ==> EndsLine(lines[i]))
  }

  ghost predicate WellFormedLine(line: string) {
    line != [] && '\n' !in line[..|line| - 1]
  }

  predicate EndsLine(line: string) {
    line != [] && line[|line| - 1] == '\n'
  }

  function Join(lines: seq<string>): string {
    if lines == [] then [] else lines[0] + Join(lines[1..])
  }

  function LineLength(text: string): (k: nat)
    ensures k <= |text| && (text != [] ==> k > 0)
  {
    if text == [] then 0 else if text[0] == '\n' then 1 else 1 + LineLength(text[1..])
  }

  function ReadLines(text: string): seq<string>
    decreases |text|
  {
    if text == [] then [] else [text[..LineLength(text)]] + ReadLines(text[LineLength(text)..])
  }

  lemma {:induction false} LineLengthOf(line: string, rest: string)
    requires WellFormedLine(line) && (EndsLine(line) || rest == [])
    ensures LineLength(line + rest) == |line|
  {
    if |line| == 1 {
      assert (line + rest)[1..] == rest;
    } else {
      assert line[0] == line[..|line| - 1][0];
      assert (line + rest)[1..] == line[1..] + rest;
      assert line[1..][..|line| - 2] == line[..|line| - 1][1..];
      LineLengthOf(line[1..], rest);
    }
  }

  lemma {:induction false} ReadsBack(lines: seq<string>)
    requires WellFormed(lines)
    ensures ReadLines(Join(lines)) == lines
  {
    if lines != [] {
      var line, rest := lines[0], Join(lines[1..]);
      assert |lines| == 1 ==> rest == [];
      LineLengthOf(line, rest);
      assert (line + rest)[..|line|] == line && (line + rest)[|line|..] == rest;
      assert forall i :: 0 <= i < |lines| - 1 ==> lines[1..][i] == lines[i + 1];
      ReadsBack(lines[1..]);
    }
  }

  lemma {:induction false} ExpandAddsNoNewline(s: string, column: nat)
    requires '\n' !in s
    ensures '\n' !in Expand(s, column) && (s != [] ==> Expand(s, column) != [])
  {
    if s != [] {
      assert s[0] in s;
      ExpandAddsNoNewline(s[1..], if s[0] == '\t' then column + TAB_SIZE - column % TAB_SIZE
                                  else if s[0] == '\r' then 0 else column + 1);
    }
  }

  lemma FixedIsWellFormed(rule: Rule, line: string)
    requires WellFormedLine(line)
    ensures WellFormedLine(Fixed(rule, line)) && (EndsLine(line) ==> EndsLine(Fixed(rule, line)))
  {
    var init, last := line[..|line| - 1], [line[|line| - 1]];
    assert line == init + last;
    match rule
    case Whitespace =>
      var b := RstripSplits(line);
      var r := Rstrip(line);
      assert '\n' !in r by {
        assert r != [] ==> !IsSpace(r[|r| - 1]);
        assert forall i :: 0 <= i < |r| && i < |init| ==> r[i] == init[i];
      }
      assert (r + "\n")[..|r|] == r;
    case Tabs =>
      ExpandConcat(init, last, 0);
      ExpandAddsNoNewline(init, 0);
      var column := ColumnAfter(init, 0);
      assert last[1..] == [];
      if last[0] == '\n' {
        assert Expand(last, column) == last;
        var e := Expand(init, 0);
        assert (e + last)[..|e|] == e;
      } else {
        ExpandAddsNoNewline(last, column);
        ExpandAddsNoNewline(line, 0);
      }
  }

  /** The file written by a fix pass, read again, passes the check. */
  lemma FixedFilePasses(rule: Rule, lines: seq<string>, respect: bool)
    requires WellFormed(lines)
    ensures Compliant(rule, ReadLines(Join(Pass(rule, lines, respect))), respect)
  {
    var fixed := Pass(rule, lines, respect);
    forall i | 0 <= i < |fixed| ensures WellFormedLine(fixed[i]) && (i < |fixed| - 1 ==> EndsLine(fixed[i])) {
      FixedIsWellFormed(rule, lines[i]);
    }
    ReadsBack(fixed);
    FixThenCheck(rule, lines, respect);
  }
}
