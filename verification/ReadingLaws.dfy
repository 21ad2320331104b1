/** Which texts the profile reader of cachegrind/cg_merge.c accepts, and what it makes of them, said
of characters, names and lines: nothing here depends on how profiles are printed. */
module ReadingLaws {
  import opened SortedList
  import opened Words
  import opened Profile
  import opened ProfileSums
  import opened ProfileText

  // ---------------------------------------------------------------- lines

  /** What is seen of a line: up to its first NUL. */
  ghost predicate Seen(s: string, r: string) {
    |r| <= |s| && r == s[..|r|] && (forall i :: 0 <= i < |r| ==> r[i] as int != 0) && (|r| < |s| ==> s[|r|] as int == 0)
  }

  ghost predicate OneLine(s: string) { forall i :: 0 <= i < |s| ==> s[i] as int != 10 }

  /** Lines with a newline after each. */
  function Ended(parts: seq<string>): string {
    if parts == [] then "" else parts[0] + ['\n'] + Ended(parts[1..])
  }

  lemma {:induction false} CStringSeen(s: string)
    ensures Seen(s, CString(s))
  {
    if s != "" && s[0] != NUL {
      CStringSeen(s[1..]);
      assert s == [s[0]] + s[1..];
    }
  }

  lemma {:induction false} NewlineEnds(part: string, rest: string)
    requires OneLine(part)
    ensures UpToNewline(part + [NL] + rest) == (part, rest)
    ensures part != "" ==> UpToNewline(part) == (part, "")
    decreases |part|
  {
    var text := part + [NL] + rest;
    if part == "" {
      assert text[1..] == rest;
    } else {
      assert text[1..] == part[1..] + [NL] + rest;
      NewlineEnds(part[1..], rest);
      assert part == [part[0]] + part[1..];
    }
  }

  /** A text is read as its lines; what stands after the last newline is a line if it is not empty. */
  lemma {:induction false} LinesAre(parts: seq<string>, last: string)
    requires (forall i :: 0 <= i < |parts| ==> OneLine(parts[i])) && OneLine(last)
    ensures var lines := Lines(Ended(parts) + last);
            && |lines| == |parts| + (if last == "" then 0 else 1)
            && (forall i :: 0 <= i < |parts| ==> Seen(parts[i], lines[i]))
            && (last != "" ==> Seen(last, lines[|parts|]))
    decreases |parts|
  {
    hide Seen, OneLine, CString;
    var text := Ended(parts) + last;
    if parts == [] {
      assert text == last;
      if last != "" {
        NewlineEnds(last, "");
        CStringSeen(last);
        assert Lines("") == [];
        assert Lines(text) == [CString(last)];
      }
    } else {
      var more := Ended(parts[1..]) + last;
      assert text == parts[0] + [NL] + more;
      NewlineEnds(parts[0], more);
      CStringSeen(parts[0]);
      LinesAre(parts[1..], last);
      assert Lines(text) == [CString(parts[0])] + Lines(more);
    }
  }

  // ---------------------------------------------------------------- numbers

  /** Blank, tab, newline, vertical tab, form feed and carriage return. */
  predicate Blank(c: char) { c == ' ' || c == '\t' || c == '\n' || c as int == 11 || c as int == 12 || c == '\r' }

  predicate Decimal(c: char) { 48 <= c as int <= 57 }

  ghost predicate Blanks(s: string) { forall i :: 0 <= i < |s| ==> Blank(s[i]) }
  ghost predicate Decimals(s: string) { forall i :: 0 <= i < |s| ==> Decimal(s[i]) }

  /** The value of a row of decimal digits. */
  function Value(s: string): nat
    requires Decimals(s)
  {
    if s == "" then 0 else Value(s[..|s| - 1]) * 10 + (s[|s| - 1] as int - 48)
  }

  /** The text is these numbers in decimal, with blanks before, between and after; each is taken
      modulo the word size. */
  ghost predicate Spells(s: string, ns: seq<nat>)
    decreases |ns|
  {
    if ns == [] then Blanks(s)
    else exists i: nat, j: nat :: SpellsFirst(s, ns, i, j)
  }

  ghost predicate SpellsFirst(s: string, ns: seq<nat>, i: nat, j: nat)
    requires ns != []
    decreases |ns|, 0
  {
    && i < j <= |s| && Blanks(s[..i]) && Decimals(s[i..j]) && (j < |s| ==> !Decimal(s[j]))
    && ns[0] == Value(s[i..j]) % WORD64 && Spells(s[j..], ns[1..])
  }

  lemma SameClasses(c: char)
    ensures (IsSpace(c) <==> Blank(c)) && (IsDigit(c) <==> Decimal(c))
    ensures IsDigit(c) ==> DigitOf(c) == c as int - 48
  {
  }

  lemma {:induction false} SkipsBlanks(s: string, i: nat)
    requires i <= |s| && Blanks(s[..i]) && (i < |s| ==> !Blank(s[i]))
    ensures SkipSpaces(s) == s[i..]
    decreases i
  {
    if i > 0 {
      SameClasses(s[0]);
      assert s[..i][0] == s[0] && s[1..][..i - 1] == s[..i][1..];
      SkipsBlanks(s[1..], i - 1);
    } else if s != "" {
      SameClasses(s[0]);
    }
  }

  lemma {:induction false} FoldIsValue(s: string)
    requires Decimals(s)
    ensures (forall i :: 0 <= i < |s| ==> IsDigit(s[i])) && Fold(0, s) == Value(s) % WORD64
  {
    forall i | 0 <= i < |s| ensures IsDigit(s[i]) { SameClasses(s[i]); }
    if s != "" {
      var t, d := s[..|s| - 1], s[|s| - 1] as int - 48;
      FoldIsValue(t);
      SameClasses(s[|s| - 1]);
      TimesTen(Value(t), d);
    }
  }

  lemma TimesTen(v: nat, d: nat)
    ensures (v % WORD64 * 10 + d) % WORD64 == (v * 10 + d) % WORD64
  {
    var q, r := v / WORD64, v % WORD64;
    assert v * 10 + d == (r * 10 + d) + (q * 10) * WORD64;
    Wraps(r * 10 + d, q * 10);
  }

  /** A number is read up to its last digit. */
  lemma ReadsNumber(s: string, i: nat, j: nat)
    requires i < j <= |s| && Blanks(s[..i]) && Decimals(s[i..j]) && (j < |s| ==> !Decimal(s[j]))
    ensures ParseULong(s) == (Some(Value(s[i..j]) % WORD64), s[j..])
  {
    var t := s[i..];
    assert s[i..j][0] == s[i];
    SameClasses(s[i]);
    SkipsBlanks(s, i);
    FoldIsValue(s[i..j]);
    if j < |s| { SameClasses(s[j]); }
    TakeAll(0, s[i..j], s[j..]);
    assert t == s[i..j] + s[j..];
  }

  lemma {:induction false} BlanksEnd(s: string)
    requires Blanks(s)
    ensures ParseULong(s) == (None, "") && Numbers(s) == ([], "")
  {
    SkipsBlanks(s, |s|);
    assert s[|s|..] == "";
  }

  /** Where the blanks end. */
  lemma {:induction false} FirstNonBlank(s: string) returns (i: nat)
    ensures i <= |s| && Blanks(s[..i]) && (i < |s| ==> !Blank(s[i]))
  {
    if s == "" || !Blank(s[0]) {
      i := 0;
    } else {
      i := FirstNonBlank(s[1..]);
      i := i + 1;
      assert s[..i] == [s[0]] + s[1..][..i - 1];
    }
  }

  lemma {:induction false} FirstNonDecimal(s: string, from: nat) returns (j: nat)
    requires from <= |s|
    ensures from <= j <= |s| && Decimals(s[from..j]) && (j < |s| ==> !Decimal(s[j]))
    decreases |s| - from
  {
    if from == |s| || !Decimal(s[from]) {
      j := from;
    } else {
      j := FirstNonDecimal(s, from + 1);
      assert s[from..j] == [s[from]] + s[from + 1..j];
    }
  }

  /** Reading numbers to the end of a text succeeds with exactly what the text spells. */
  lemma {:induction false} NumbersExactly(s: string, ns: seq<nat>)
    ensures Numbers(s) == (ns, "") <==> Spells(s, ns)
    decreases |s| + |ns|
  {
    hide ParseULong, Value, Blanks, Decimals;
    if Spells(s, ns) { SpelledIsRead(s, ns); }
    if Numbers(s) == (ns, "") { ReadIsSpelled(s, ns); }
  }

  lemma NumbersStep(s: string)
    requires ParseULong(s).0.Some?
    ensures var (n, rest) := ParseULong(s); Numbers(s) == ([n.value] + Numbers(rest).0, Numbers(rest).1)
  {
    hide ParseULong;
  }

  lemma {:induction false} SpelledIsRead(s: string, ns: seq<nat>)
    requires Spells(s, ns)
    ensures Numbers(s) == (ns, "")
    decreases |ns|
  {
    hide ParseULong, Value, Blanks, Decimals;
    if ns == [] {
      BlanksEnd(s);
    } else {
      var i: nat, j: nat :| SpellsFirst(s, ns, i, j);
      ReadsNumber(s, i, j);
      SpelledIsRead(s[j..], ns[1..]);
      NumbersStep(s);
      assert ns == [ns[0]] + ns[1..];
    }
  }

  lemma {:induction false} ReadIsSpelled(s: string, ns: seq<nat>)
    requires Numbers(s) == (ns, "")
    ensures Spells(s, ns)
    decreases |s|
  {
    hide ParseULong, Value, Decimals;
    var i := FirstNonBlank(s);
    SkipsBlanks(s, i);
    if i == |s| {
      BlanksEnd(s);
      assert s[..i] == s;
    } else {
      SameClasses(s[i]);
      if Decimal(s[i]) {
        var j := FirstNonDecimal(s, i);
        assert j > i;
        ReadsNumber(s, i, j);
        ReadIsSpelled(s[j..], ns[1..]);
        assert SpellsFirst(s, ns, i, j);
      } else {
        NotANumber(s, i);
      }
    }
  }

  lemma NotANumber(s: string, i: nat)
    requires i < |s| && Blanks(s[..i]) && !Blank(s[i]) && !Decimal(s[i])
    ensures Numbers(s) == ([], s[i..]) && s[i..] != ""
  {
    SameClasses(s[i]);
    SkipsBlanks(s, i);
  }

  // ---------------------------------------------------------------- the events line

  predicate Letter(c: char) { 65 <= c as int <= 90 || 97 <= c as int <= 122 }

  predicate EventAt(s: string, i: nat) { i + 1 < |s| && s[i] == ' ' && Letter(s[i + 1]) }

  /** Where a blank is followed by a letter. */
  ghost function Starts(s: string): set<nat> { set i: nat | i < |s| && EventAt(s, i) }

  ghost function Moved(a: set<nat>): (b: set<nat>)
    ensures forall y :: y in b <==> y > 0 && y - 1 in a
  {
    var b := set i | i in a :: i + 1;
    forall y: nat | y > 0 && y - 1 in a ensures y in b {
      var x: nat := y - 1;
      assert x in a && y == x + 1;
    }
    b
  }

  lemma {:induction false} MovedSize(a: set<nat>)
    ensures |Moved(a)| == |a|
    decreases |a|
  {
    if a != {} {
      var x :| x in a;
      MovedSize(a - {x});
      assert Moved(a) == Moved(a - {x}) + {x + 1};
    } else {
      assert Moved(a) == {};
    }
  }

  /** The reader counts exactly these places. */
  lemma {:induction false} EventsAreStarts(s: string)
    ensures CountEvents(s) == |Starts(s)|
  {
    if |s| < 2 {
      assert Starts(s) == {};
    } else {
      EventsAreStarts(s[1..]);
      MovedSize(Starts(s[1..]));
      forall i: nat ensures i in Starts(s) <==> i in Moved(Starts(s[1..])) || (i == 0 && EventAt(s, 0)) {
        if i > 0 { assert EventAt(s, i) <==> EventAt(s[1..], i - 1); }
      }
      assert Starts(s) == Moved(Starts(s[1..])) + if EventAt(s, 0) then {0} else {};
    }
  }

  /** A name of an event: it begins with a letter, upper or lower case, and holds no blank. */
  ghost predicate EventName(name: string) {
    name != "" && Letter(name[0]) && forall i :: 0 <= i < |name| ==> name[i] != ' '
  }

  /** Names, each after a blank. */
  function Spaced(names: seq<string>): string {
    if names == [] then "" else " " + names[0] + Spaced(names[1..])
  }

  lemma {:induction false} NoEvents(name: string, t: string)
    requires (forall i :: 0 <= i < |name| ==> name[i] != ' ') && name != ""
    ensures CountEvents(name + t) == CountEvents(t)
    decreases |name|
  {
    var s := name + t;
    if |s| >= 2 {
      assert s[1..] == name[1..] + t;
      if |name| > 1 { NoEvents(name[1..], t); } else { assert name[1..] + t == t; }
    } else {
      assert t == "";
    }
  }

  /** An events line counts its names. */
  lemma {:induction false} NamesCounted(names: seq<string>)
    requires forall i :: 0 <= i < |names| ==> EventName(names[i])
    ensures CountEvents(Spaced(names)) == |names|
  {
    if names != [] {
      var name, t := names[0], Spaced(names[1..]);
      NamesCounted(names[1..]);
      var s := " " + name + t;
      assert s == [' '] + (name + t) && s[1..] == name + t;
      assert s[0] == ' ' && s[1] == name[0];
      NoEvents(name, t);
    }
  }

  const EVENTS: string := "events:"

  lemma EventsOf(names: seq<string>)
    requires names != [] && forall i :: 0 <= i < |names| ==> EventName(names[i])
    ensures var line := EVENTS + Spaced(names);
            StartsWith(line, "events: ") && |line| >= 6 && CountEvents(line[6..]) == |names|
  {
    hide EventName;
    var line := EVENTS + Spaced(names);
    NamesCounted(names);
    assert line[6..] == [':'] + Spaced(names);
    assert line[6..][1..] == Spaced(names);
    assert line[..8] == EVENTS + " ";
  }

  /** A profile whose events are these names, as parsing delivers it, with a listing of its lines. */
  ghost predicate NamedProfile(d: Doc, ls: Listing, names: seq<string>) {
    && names != [] && (forall i :: 0 <= i < |names| ==> EventName(names[i]) && Plain(names[i]))
    && d.events == EVENTS + Spaced(names)
    && d.desc != [] && (forall i :: 0 <= i < |d.desc| ==> StartsWith(d.desc[i], "desc: ") && Plain(d.desc[i]))
    && StartsWith(d.cmd, "cmd: ") && Plain(d.cmd)
    && Readable(ls, |names|) && PlainNames(ls) && AsOuter(ls) == d.outer
    && Balanced(d.outer, d.summary, |names|) && Small(d.summary)
  }

  lemma {:induction false} PlainSpaced(names: seq<string>)
    requires forall i :: 0 <= i < |names| ==> Plain(names[i])
    ensures Plain(Spaced(names))
  {
    if names != [] { PlainSpaced(names[1..]); }
  }

  lemma PlainEvents(names: seq<string>)
    requires forall i :: 0 <= i < |names| ==> Plain(names[i])
    ensures Plain(EVENTS + Spaced(names))
  {
    hide Plain, Spaced;
    PlainSpaced(names);
    PlainWord();
    PlainBoth(EVENTS, Spaced(names));
  }

  lemma PlainWord()
    ensures Plain(EVENTS)
  {
  }

  lemma PlainBoth(a: string, b: string)
    requires Plain(a) && Plain(b)
    ensures Plain(a + b)
  {
  }

  /** Print, then parse, for a profile with named events. */
  lemma NamedRoundTrip(d: Doc, ls: Listing, names: seq<string>)
    requires NamedProfile(d, ls, names)
    ensures Printable(ls) && IsCounts(d.summary, |d.summary|)
    ensures Parse(Lines(Joined(Show(d, ls)))) == Some(d)
  {
    hide Plain, Readable, Balanced, EventName, CountEvents, Spaced, Parse, Show, Lines, Joined;
    EventsOf(names);
    PlainEvents(names);
    PrintThenParse(d, ls);
  }

  // ---------------------------------------------------------------- the body, in any arrangement

  predicate FileLine(line: string) { StartsWith(line, "fl=") }
  predicate FunLine(line: string) { StartsWith(line, "fn=") }
  predicate EndLine(line: string) { StartsWith(line, "summary: ") }

  /** A line number and one count for each of n events; the first character is a digit. */
  ghost predicate CountLine(line: string, n: nat) {
    line != "" && Decimal(line[0]) && n >= 1 && exists ns :: |ns| == n + 1 && Spells(line, ns)
  }

  ghost predicate DataLine(line: string, n: nat) { FileLine(line) || FunLine(line) || CountLine(line, n) }

  /** What a line of counts spells. */
  function NumbersOf(line: string): seq<nat> { Numbers(line).0 }

  /** The name on the nearest file line, or function line; unknown before the first. */
  function FileOf(lines: seq<string>): string {
    if lines == [] then "???"
    else if FileLine(lines[|lines| - 1]) then lines[|lines| - 1][3..]
    else FileOf(lines[..|lines| - 1])
  }

  function FunOf(lines: seq<string>): string {
    if lines == [] then "???"
    else if FunLine(lines[|lines| - 1]) then lines[|lines| - 1][3..]
    else FunOf(lines[..|lines| - 1])
  }

  /** Line i is one of counts for a source line of a function of a file. */
  ghost predicate CountsAtLine(lines: seq<string>, i: nat, k: FileFn, l: nat, n: nat) {
    && i < |lines| && CountLine(lines[i], n)
    && FileOf(lines[..i]) == k.fi && FunOf(lines[..i]) == k.fn && NumbersOf(lines[i])[..1] == [l]
  }

  /** The sum of one event over the lines of counts for a source line. */
  ghost function SumAt(lines: seq<string>, k: FileFn, l: nat, n: nat, e: nat): nat {
    if lines == [] then 0
    else
      var i := |lines| - 1;
      SumAt(lines[..i], k, l, n, e) + if CountsAtLine(lines, i, k, l, n) then Word(NumbersOf(lines[i]), e + 1) else 0
  }

  /** The sum of one event over all lines of counts. */
  ghost function SumAll(lines: seq<string>, n: nat, e: nat): nat {
    if lines == [] then 0
    else
      var i := |lines| - 1;
      SumAll(lines[..i], n, e) + if CountLine(lines[i], n) then Word(NumbersOf(lines[i]), e + 1) else 0
  }

  lemma LineSpells(line: string, n: nat)
    ensures CountLine(line, n) <==>
            line != "" && IsDigit(line[0]) && n >= 1 && SplitUp(line, 2).Some? && |SplitUp(line, 2).value| == n + 1
    ensures CountLine(line, n) ==> SplitUp(line, 2) == Some(NumbersOf(line)) && |NumbersOf(line)| == n + 1
  {
    hide Spells;
    if line != "" { SameClasses(line[0]); }
    forall ns ensures Numbers(line) == (ns, "") <==> Spells(line, ns) { NumbersExactly(line, ns); }
  }

  /** The body read so far is what its lines say. */
  ghost predicate ReadSoFar(lines: seq<string>, b: Body, n: nat) {
    && BodyOk(b, n) && b.fl == FileOf(lines) && b.fn == FunOf(lines)
    && (forall e :: 0 <= e < n ==> b.summary[e] == SumAll(lines, n, e) % WORD64)
    && (forall k: FileFn, l: nat :: l in InnerAt(b.outer, k) <==> Mentioned(lines, k, l, n))
    && (forall k: FileFn, l: nat, e: nat :: e < n ==> CountsAt(b.outer, k, l, n)[e] == SumAt(lines, k, l, n, e) % WORD64)
  }

  ghost predicate Mentioned(lines: seq<string>, k: FileFn, l: nat, n: nat) {
    exists i: nat :: CountsAtLine(lines, i, k, l, n)
  }

  lemma MentionedSnoc(lines: seq<string>, line: string, k: FileFn, l: nat, n: nat)
    ensures Mentioned(lines + [line], k, l, n) <==>
            Mentioned(lines, k, l, n) || CountsAtLine(lines + [line], |lines|, k, l, n)
  {
    hide CountLine, FileOf, FunOf, NumbersOf;
    var all := lines + [line];
    forall i: nat | i < |lines| ensures CountsAtLine(all, i, k, l, n) <==> CountsAtLine(lines, i, k, l, n) {
      assert all[..i] == lines[..i] && all[i] == lines[i];
    }
    if Mentioned(lines, k, l, n) {
      var i: nat :| CountsAtLine(lines, i, k, l, n);
      assert CountsAtLine(all, i, k, l, n);
    }
    if Mentioned(all, k, l, n) {
      var i: nat :| CountsAtLine(all, i, k, l, n);
      if i < |lines| { assert CountsAtLine(lines, i, k, l, n); }
    }
  }

  lemma Snocs(lines: seq<string>, line: string, k: FileFn, l: nat, n: nat, e: nat)
    ensures FileOf(lines + [line]) == if FileLine(line) then line[3..] else FileOf(lines)
    ensures FunOf(lines + [line]) == if FunLine(line) then line[3..] else FunOf(lines)
    ensures SumAt(lines + [line], k, l, n, e) ==
            SumAt(lines, k, l, n, e) + if CountsAtLine(lines + [line], |lines|, k, l, n) then Word(NumbersOf(line), e + 1) else 0
    ensures SumAll(lines + [line], n, e) == SumAll(lines, n, e) + if CountLine(line, n) then Word(NumbersOf(line), e + 1) else 0
    ensures CountsAtLine(lines + [line], |lines|, k, l, n) <==>
            CountLine(line, n) && FileOf(lines) == k.fi && FunOf(lines) == k.fn && NumbersOf(line)[..1] == [l]
  {
    hide CountLine, NumbersOf, FileLine, FunLine, CountsAtLine;
    var all := lines + [line];
    assert all[..|lines|] == lines && all[|lines|] == line;
    LastOne(lines, line, k, l, n);
  }

  lemma LastOne(lines: seq<string>, line: string, k: FileFn, l: nat, n: nat)
    ensures CountsAtLine(lines + [line], |lines|, k, l, n) <==>
            CountLine(line, n) && FileOf(lines) == k.fi && FunOf(lines) == k.fn && NumbersOf(line)[..1] == [l]
  {
    hide CountLine, NumbersOf, FileLine, FunLine;
    assert (lines + [line])[..|lines|] == lines;
  }

  lemma NameLines(line: string, n: nat)
    requires FileLine(line) || FunLine(line) || EndLine(line)
    ensures line != "" && !CountLine(line, n) && !IsDigit(line[0])
    ensures FileLine(line) ==> !FunLine(line) && !EndLine(line)
    ensures FunLine(line) ==> !FileLine(line) && !EndLine(line)
    ensures EndLine(line) ==> !FileLine(line) && !FunLine(line)
  {
    if FileLine(line) {
      assert line[0] == line[..3][0] == 'f' && line[1] == line[..3][1] == 'l';
    } else if FunLine(line) {
      assert line[0] == line[..3][0] == 'f' && line[1] == line[..3][1] == 'n';
    } else {
      assert line[0] == line[..9][0] == 's';
    }
  }

  /** A line with a name. */
  lemma NameStep(lines: seq<string>, b: Body, line: string, c: Body, n: nat)
    requires ReadSoFar(lines, b, n) && (FileLine(line) || FunLine(line)) && |line| >= 3
    requires c == if FileLine(line) then b.(fl := line[3..]) else b.(fn := line[3..])
    ensures ReadSoFar(lines + [line], c, n)
  {
    hide CountLine, FileLine, FunLine, EndLine, FileOf, FunOf, SumAt, SumAll, Mentioned, CountsAtLine, OuterOk, InnerOk, CountsAt;
    NameLines(line, n);
    SameBodyOk(b, c, n);
    Snocs(lines, line, FileFn("", ""), 0, n, 0);
    forall e | 0 <= e < n ensures c.summary[e] == SumAll(lines + [line], n, e) % WORD64 {
      Snocs(lines, line, FileFn("", ""), 0, n, e);
    }
    forall k: FileFn, l: nat ensures l in InnerAt(c.outer, k) <==> Mentioned(lines + [line], k, l, n) {
      MentionedSnoc(lines, line, k, l, n);
      Snocs(lines, line, k, l, n, 0);
    }
    forall k: FileFn, l: nat, e: nat | e < n ensures CountsAt(c.outer, k, l, n)[e] == SumAt(lines + [line], k, l, n, e) % WORD64 {
      Snocs(lines, line, k, l, n, e);
    }
  }

  lemma AddedWord(a: nat, s: nat, x: nat)
    requires a == s % WORD64
    ensures AddWords(a, x) == (s + x) % WORD64
  {
    var q := s / WORD64;
    assert s + x == (a + x) + q * WORD64;
    Wraps(a + x, q);
  }

  /** What adding a line of counts changes. */
  lemma Added(o: Outer, k: FileFn, l: nat, c: Counts, j: FileFn, m: nat, e: nat)
    requires OuterOk(o, |c|) && IsCounts(c, |c|) && e < |c|
    ensures OuterOk(AddLine(o, k, l, c), |c|)
    ensures m in InnerAt(AddLine(o, k, l, c), j) <==> m in InnerAt(o, j) || (j == k && m == l)
    ensures CountsAt(AddLine(o, k, l, c), j, m, |c|)[e] ==
            if j == k && m == l then AddWords(CountsAt(o, k, l, |c|)[e], c[e]) else CountsAt(o, j, m, |c|)[e]
  {
    AddLineStillOk(o, k, l, c);
    if j == k && m == l && l !in InnerAt(o, k) { assert AddWords(0, c[e]) == c[e] by { Wraps(c[e], 0); } }
  }

  /** A line of counts. */
  lemma CountStep(lines: seq<string>, b: Body, line: string, n: nat)
    requires ReadSoFar(lines, b, n) && BodyOk(b, n) && CountLine(line, n)
    ensures CountsLine(b, line, n).Some? && ReadSoFar(lines + [line], CountsLine(b, line, n).value, n)
  {
    hide CountLine, FileLine, FunLine, EndLine, FileOf, FunOf, SumAt, SumAll, Mentioned, CountsAtLine, OuterOk, InnerOk, CountsAt;
    hide InnerAt, AddLine, AddWords, Numbers, Spells;
    LineSpells(line, n);
    NumbersAreWords(line);
    var ns := NumbersOf(line);
    var k0, l0, c := FileFn(b.fl, b.fn), ns[0], ns[1..];
    assert |c| == n && IsCounts(c, n);
    var d := CountsLine(b, line, n).value;
    assert d.outer == AddLine(b.outer, k0, l0, c);
    assert !FileLine(line) && !FunLine(line) by { NotNames(line, n); }
    Snocs(lines, line, k0, l0, n, 0);
    forall e | 0 <= e < n ensures d.summary[e] == SumAll(lines + [line], n, e) % WORD64 {
      Snocs(lines, line, k0, l0, n, e);
      AddedWord(b.summary[e], SumAll(lines, n, e), c[e]);
    }
    forall k: FileFn, l: nat ensures l in InnerAt(d.outer, k) <==> Mentioned(lines + [line], k, l, n) {
      MentionedSnoc(lines, line, k, l, n);
      Snocs(lines, line, k, l, n, 0);
      Added(b.outer, k0, l0, c, k, l, 0);
    }
    forall k: FileFn, l: nat, e: nat | e < n ensures CountsAt(d.outer, k, l, n)[e] == SumAt(lines + [line], k, l, n, e) % WORD64 {
      Snocs(lines, line, k, l, n, e);
      Added(b.outer, k0, l0, c, k, l, e);
      AddedWord(CountsAt(b.outer, k, l, n)[e], SumAt(lines, k, l, n, e), c[e]);
    }
  }

  lemma NotNames(line: string, n: nat)
    requires CountLine(line, n)
    ensures !FileLine(line) && !FunLine(line) && !EndLine(line)
  {
    if FileLine(line) || FunLine(line) || EndLine(line) { NameLines(line, n); }
  }

  /** The body ends at line m: lines of data, then the summary line. */
  ghost predicate EndsAt(rest: seq<string>, m: nat, n: nat) {
    m < |rest| && EndLine(rest[m]) && forall i :: 0 <= i < m ==> DataLine(rest[i], n)
  }

  ghost predicate ReadTo(before: seq<string>, rest: seq<string>, m: nat, n: nat, r: Option<(Body, string, seq<string>)>) {
    r.Some? && EndsAt(rest, m, n) && r.value.1 == rest[m] && r.value.2 == rest[m + 1..]
    && ReadSoFar(before + rest[..m], r.value.0, n)
  }

  lemma EndsLater(rest: seq<string>, m: nat, n: nat)
    requires rest != [] && DataLine(rest[0], n)
    ensures EndsAt(rest, m + 1, n) <==> EndsAt(rest[1..], m, n)
  {
    hide DataLine, EndLine;
    assert forall i :: 0 <= i < |rest| - 1 ==> rest[1..][i] == rest[i + 1];
    if EndsAt(rest[1..], m, n) {
      forall i | 0 <= i < m + 1 ensures DataLine(rest[i], n) {
        if i > 0 { assert rest[1..][i - 1] == rest[i]; }
      }
    }
  }

  lemma NotBoth(line: string, n: nat)
    requires EndLine(line)
    ensures !DataLine(line, n)
  {
    NameLines(line, n);
  }

  lemma EndsHere(rest: seq<string>, n: nat)
    ensures rest == [] ==> forall m: nat :: !EndsAt(rest, m, n)
    ensures rest != [] && EndLine(rest[0]) ==> EndsAt(rest, 0, n)
    ensures rest != [] && !DataLine(rest[0], n) && !EndLine(rest[0]) ==> forall m: nat :: !EndsAt(rest, m, n)
    ensures rest != [] && DataLine(rest[0], n) && !EndLine(rest[0]) ==> !EndsAt(rest, 0, n)
  {
    hide DataLine, EndLine;
  }

  /** The body is read exactly when it ends in a summary line after lines of data, and is then what
      those lines say. */
  lemma {:induction false} BodyExactly(before: seq<string>, rest: seq<string>, b: Body, n: nat)
    requires BodyOk(b, n) && ReadSoFar(before, b, n)
    ensures var r := ParseBody(rest, b, n);
            && (r.Some? ==> exists m: nat :: ReadTo(before, rest, m, n, r))
            && (r.None? ==> forall m: nat :: !EndsAt(rest, m, n))
    decreases |rest|
  {
    hide ReadSoFar, CountLine, CountsLine, SplitUp, EndsAt, Numbers;
    var r := ParseBody(rest, b, n);
    EndsHere(rest, n);
    if rest != [] {
      var line := rest[0];
      LineSpells(line, n);
      if FileLine(line) || FunLine(line) {
        var c := if FileLine(line) then b.(fl := line[3..]) else b.(fn := line[3..]);
        NameLines(line, n);
        NameStep(before, b, line, c, n);
        SameBodyOk(b, c, n);
        DataStep(before, rest, b, c, n);
      } else if EndLine(line) {
        NameLines(line, n);
        assert rest[..0] == [] && before + [] == before;
        assert r == Some((b, line, rest[1..]));
        assert ReadTo(before, rest, 0, n, r);
      } else if CountLine(line, n) {
        NotNames(line, n);
        CountStep(before, b, line, n);
        DataStep(before, rest, b, CountsLine(b, line, n).value, n);
      } else {
        assert r.None? by { Refused(b, line, rest, n); }
      }
    }
  }

  lemma Refused(b: Body, line: string, rest: seq<string>, n: nat)
    requires BodyOk(b, n) && rest != [] && rest[0] == line && !DataLine(line, n) && !EndLine(line)
    ensures ParseBody(rest, b, n).None?
  {
    hide Spells, Numbers;
    LineSpells(line, n);
    if line != "" && IsDigit(line[0]) && CountsLine(b, line, n).Some? {
      assert SplitUp(line, 2).Some? && |SplitUp(line, 2).value| - 1 == n;
      assert |SplitUp(line, 2).value| >= 2 by { AtLeast(line, 2); }
    }
  }

  lemma AtLeast(line: string, least: nat)
    requires SplitUp(line, least).Some?
    ensures |SplitUp(line, least).value| >= least
  {
  }

  /** One line of data, then the rest. */
  lemma {:induction false} DataStep(before: seq<string>, rest: seq<string>, b: Body, c: Body, n: nat)
    requires BodyOk(b, n) && BodyOk(c, n) && rest != [] && DataLine(rest[0], n) && !EndLine(rest[0])
    requires ReadSoFar(before + [rest[0]], c, n) && ParseBody(rest, b, n) == ParseBody(rest[1..], c, n)
    ensures var r := ParseBody(rest, b, n);
            && (r.Some? ==> exists m: nat :: ReadTo(before, rest, m, n, r))
            && (r.None? ==> forall m: nat :: !EndsAt(rest, m, n))
    decreases |rest|, 0
  {
    hide ReadSoFar, DataLine, EndLine, EndsAt, ParseBody;
    var r := ParseBody(rest, b, n);
    BodyExactly(before + [rest[0]], rest[1..], c, n);
    EndsHere(rest, n);
    if r.Some? {
      var m: nat :| ReadTo(before + [rest[0]], rest[1..], m, n, r);
      EndsLater(rest, m, n);
      InRest(rest, m, n);
      assert before + [rest[0]] + rest[1..][..m] == before + rest[..m + 1];
      assert rest[1..][m + 1..] == rest[m + 2..];
      assert ReadTo(before, rest, m + 1, n, r);
    } else {
      forall m: nat ensures !EndsAt(rest, m, n) {
        if m > 0 { EndsLater(rest, m - 1, n); }
      }
    }
  }

  lemma InRest(rest: seq<string>, m: nat, n: nat)
    requires rest != [] && EndsAt(rest[1..], m, n)
    ensures m + 1 < |rest| && rest[1..][m] == rest[m + 1]
  {
  }

  // ---------------------------------------------------------------- whole files

  /** The number of events the events line names. */
  ghost function EventCount(line: string): nat { if |line| >= 6 then |Starts(line[6..])| else 0 }

  /** A file the reader should take: d description lines, a command, the events, lines of data, and
      last a summary line with the sum of every event. */
  ghost predicate FileForm(lines: seq<string>, d: nat) {
    && 1 <= d && d + 2 < |lines|
    && (forall i :: 0 <= i < d ==> StartsWith(lines[i], "desc: "))
    && StartsWith(lines[d], "cmd: ") && StartsWith(lines[d + 1], "events: ")
    && var n, last := EventCount(lines[d + 1]), |lines| - 1;
    && n >= 1 && (forall i :: d + 2 <= i < last ==> DataLine(lines[i], n)) && EndLine(lines[last])
    && |lines[last]| >= 8
    && Spells(lines[last][8..], SumsOf(lines[d + 2..last], n))
  }

  ghost function SumsOf(body: seq<string>, n: nat): (c: Counts)
    ensures |c| == n && forall e :: 0 <= e < n ==> c[e] == SumAll(body, n, e) % WORD64
  {
    seq(n, e requires 0 <= e < n => SumAll(body, n, e) % WORD64)
  }

  /** The profile such a file stands for. */
  ghost predicate SaidBy(lines: seq<string>, d: nat, doc: Doc)
    requires d + 2 < |lines|
  {
    var n, body := EventCount(lines[d + 1]), lines[d + 2..|lines| - 1];
    && doc.desc == lines[..d] && doc.cmd == lines[d] && doc.events == lines[d + 1]
    && doc.summary == SumsOf(body, n) && OuterOk(doc.outer, n)
    && (forall k: FileFn, l: nat :: l in InnerAt(doc.outer, k) <==> Mentioned(body, k, l, n))
    && (forall k: FileFn, l: nat, e: nat :: e < n ==> CountsAt(doc.outer, k, l, n)[e] == SumAt(body, k, l, n, e) % WORD64)
  }

  lemma {:induction false} DescCounted(lines: seq<string>, d: nat)
    requires d < |lines| && !StartsWith(lines[d], "desc: ") && forall i :: 0 <= i < d ==> StartsWith(lines[i], "desc: ")
    ensures DescLines(lines) == d
    decreases d
  {
    hide StartsWith;
    if d > 0 {
      assert forall i :: 0 <= i < |lines| - 1 ==> lines[1..][i] == lines[i + 1];
      DescCounted(lines[1..], d - 1);
    }
  }

  lemma {:induction false} DescAll(lines: seq<string>)
    ensures forall i :: 0 <= i < DescLines(lines) ==> StartsWith(lines[i], "desc: ")
    decreases |lines|
  {
    hide StartsWith;
    if lines != [] && StartsWith(lines[0], "desc: ") {
      DescAll(lines[1..]);
      forall i | 0 <= i < DescLines(lines) ensures StartsWith(lines[i], "desc: ") {
        if i > 0 { assert lines[i] == lines[1..][i - 1]; }
      }
    }
  }

  /** Nothing read yet. */
  lemma NothingRead(n: nat)
    ensures var b := Body(map[], Zero(n), UNKNOWN, UNKNOWN); BodyOk(b, n) && ReadSoFar([], b, n)
  {
    hide CountLine;
    var b := Body(map[], Zero(n), UNKNOWN, UNKNOWN);
    forall k: FileFn, l: nat ensures l in InnerAt(b.outer, k) <==> Mentioned([], k, l, n) {}
    assert 0 % WORD64 == 0;
  }

  lemma EventsSame(line: string)
    requires StartsWith(line, "events: ")
    ensures |line| >= 8 && EventCount(line) == CountEvents(line[6..])
  {
    EventsAreStarts(line[6..]);
  }

  lemma OneEnd(rest: seq<string>, m: nat, j: nat, n: nat)
    requires EndsAt(rest, m, n) && EndsAt(rest, j, n)
    ensures m == j
  {
    hide DataLine, EndLine;
    if m < j { NotBoth(rest[m], n); }
    if j < m { NotBoth(rest[j], n); }
  }

  lemma SummarySplit(line: string, c: Counts)
    requires |line| >= 8
    ensures c != [] ==> (Spells(line[8..], c) <==> SplitUp(line[8..], 1) == Some(c))
    ensures SplitUp(line[8..], 1) != Some([])
  {
    hide Spells;
    NumbersExactly(line[8..], c);
  }

  lemma SameSums(body: seq<string>, n: nat, c: Counts)
    requires IsCounts(c, n) && forall e :: 0 <= e < n ==> c[e] == SumAll(body, n, e) % WORD64
    ensures c == SumsOf(body, n)
  {
    hide SumAll;
  }

  lemma SoFarFacts(body: seq<string>, b: Body, n: nat)
    requires ReadSoFar(body, b, n)
    ensures BodyOk(b, n) && b.summary == SumsOf(body, n)
  {
    hide SumAll, SumAt, Mentioned, CountsAt;
    SameSums(body, n, b.summary);
  }

  /** A file of that form is accepted, and is the profile its lines say. */
  lemma FormIsRead(lines: seq<string>, d: nat)
    requires FileForm(lines, d)
    ensures d + 2 < |lines| && Parse(lines).Some? && SaidBy(lines, d, Parse(lines).value)
  {
    hide DataLine, EndLine, Spells, ReadSoFar, ParseBody, SplitUp, CountEvents, SumsOf, Mentioned, SumAt, CountsAt, InnerAt;
    hide OuterOk, Starts, EventCount;
    var n, rest, last := EventCount(lines[d + 1]), lines[d + 2..], |lines| - 1;
    var b := Body(map[], Zero(n), UNKNOWN, UNKNOWN);
    NotDesc(lines[d]);
    DescCounted(lines, d);
    EventsSame(lines[d + 1]);
    NothingRead(n);
    BodyExactly([], rest, b, n);
    var m := last - d - 2;
    assert forall i :: 0 <= i < m ==> rest[i] == lines[d + 2 + i];
    assert EndsAt(rest, m, n);
    var r := ParseBody(rest, b, n);
    var j: nat :| ReadTo([], rest, j, n, r);
    OneEnd(rest, m, j, n);
    var body := lines[d + 2..last];
    assert [] + rest[..m] == body;
    assert rest[m + 1..] == [];
    SoFarFacts(body, r.value.0, n);
    SummarySplit(lines[last], SumsOf(body, n));
    Said(lines, d, r.value.0);
  }

  lemma Said(lines: seq<string>, d: nat, b: Body)
    requires d + 2 < |lines|
    requires var n := EventCount(lines[d + 1]); ReadSoFar(lines[d + 2..|lines| - 1], b, n)
    ensures SaidBy(lines, d, Doc(lines[..d], lines[d], lines[d + 1], b.outer, b.summary))
  {
    hide SumAll, SumAt, Mentioned, CountsAt, InnerAt, EventCount, OuterOk;
    SoFarFacts(lines[d + 2..|lines| - 1], b, EventCount(lines[d + 1]));
  }

  /** And no other file is accepted. */
  lemma ReadIsForm(lines: seq<string>)
    requires Parse(lines).Some?
    ensures FileForm(lines, DescLines(lines))
  {
    hide DataLine, EndLine, Spells, ReadSoFar, ParseBody, SplitUp, CountEvents, SumsOf, Starts, EventCount;
    var d := DescLines(lines);
    DescAll(lines);
    EventsSame(lines[d + 1]);
    var n, rest := EventCount(lines[d + 1]), lines[d + 2..];
    var b := Body(map[], Zero(n), UNKNOWN, UNKNOWN);
    NothingRead(n);
    BodyExactly([], rest, b, n);
    var r := ParseBody(rest, b, n);
    var m: nat :| ReadTo([], rest, m, n, r);
    assert m == |rest| - 1;
    var last := |lines| - 1;
    var body := lines[d + 2..last];
    assert [] + rest[..m] == body && rest[m] == lines[last];
    forall i | d + 2 <= i < last ensures DataLine(lines[i], n) { assert rest[i - d - 2] == lines[i]; }
    SoFarFacts(body, r.value.0, n);
    EndLong(lines[last]);
    SummarySplit(lines[last], SumsOf(body, n));
  }

  lemma EndLong(line: string)
    requires EndLine(line)
    ensures |line| >= 9
  {
  }

  /** Exactly the files of that form are accepted. */
  lemma AcceptedExactly(lines: seq<string>)
    ensures Parse(lines).Some? <==> exists d: nat :: FileForm(lines, d)
    ensures forall d: nat :: FileForm(lines, d) ==> d + 2 < |lines| && SaidBy(lines, d, Parse(lines).value)
  {
    hide FileForm, SaidBy, Parse;
    if Parse(lines).Some? { ReadIsForm(lines); }
    forall d: nat | FileForm(lines, d)
      ensures d + 2 < |lines| && Parse(lines).Some? && SaidBy(lines, d, Parse(lines).value)
    {
      FormIsRead(lines, d);
    }
  }
}
