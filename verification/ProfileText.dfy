/** The text form of profiles: what cachegrind/cg_merge.c prints and parses. */
module ProfileText {
  import opened SortedList
  import opened Words
  import opened Profile
  import opened ProfileSums

  // ---------------------------------------------------------------- characters and numbers

  predicate IsDigit(c: char) { '0' <= c <= '9' }

  predicate IsSpace(c: char) { c == ' ' || '\t' <= c <= '\r' }

  predicate IsAlpha(c: char) { 'a' <= c <= 'z' || 'A' <= c <= 'Z' }

  function DigitOf(c: char): nat
    requires IsDigit(c)
  {
    c as int - '0' as int
  }

  function CharOf(d: nat): (c: char)
    requires d < 10
    ensures IsDigit(c) && DigitOf(c) == d
  {
    ('0' as int + d) as char
  }

  function Digits(n: nat): (s: string)
    ensures s != "" && forall i :: 0 <= i < |s| ==> IsDigit(s[i])
  {
    if n < 10 then [CharOf(n)] else Digits(n / 10) + [CharOf(n % 10)]
  }

  const SIGN: nat := 0x8000_0000_0000_0000

  /** A 64-bit word printed as a signed number. */
  function Signed(n: nat): string
    requires n < WORD64
  {
    if n < SIGN then Digits(n) else "-" + Digits(WORD64 - n)
  }

  /** A number continued by more digits, modulo the word size. */
  function Continue(acc: nat, c: char): (r: nat)
    requires IsDigit(c)
    ensures r < WORD64
  {
    (acc * 10 + DigitOf(c)) % WORD64
  }

  /** The digits at the start of a text: the number so far, and the rest. */
  function TakeDigits(acc: nat, s: string): (r: (nat, string))
    ensures |r.1| <= |s| && (r.1 != "" ==> !IsDigit(r.1[0]))
    ensures s != "" && IsDigit(s[0]) ==> |r.1| < |s|
    decreases |s|
  {
    if s != "" && IsDigit(s[0]) then TakeDigits(Continue(acc, s[0]), s[1..]) else (acc, s)
  }

  function SkipSpaces(s: string): (r: string)
    ensures |r| <= |s| && (r != "" ==> !IsSpace(r[0]))
  {
    if s != "" && IsSpace(s[0]) then SkipSpaces(s[1..]) else s
  }

  /** parse_ULong: the number, or None, and where it stopped. */
  function ParseULong(s: string): (r: (Option<nat>, string))
    ensures |r.1| <= |s| && (r.0.Some? ==> |r.1| < |s|)
  {
    var t := SkipSpaces(s);
    if t == "" || !IsDigit(t[0]) then (None, t)
    else
      var (n, rest) := TakeDigits(0, t);
      (Some(n), rest)
  }

  /** The numbers at the start of a text, and what follows them. */
  function Numbers(s: string): (r: (seq<nat>, string))
    decreases |s|
  {
    var (n, rest) := ParseULong(s);
    if n.None? then ([], rest)
    else
      var (ns, end) := Numbers(rest);
      ([n.value] + ns, end)
  }

  function Fold(acc: nat, s: string): nat
    requires forall i :: 0 <= i < |s| ==> IsDigit(s[i])
  {
    if s == "" then acc else Continue(Fold(acc, s[..|s| - 1]), s[|s| - 1])
  }

  lemma {:induction false} FoldFirst(acc: nat, s: string)
    requires s != "" && forall i :: 0 <= i < |s| ==> IsDigit(s[i])
    ensures Fold(acc, s) == Fold(Continue(acc, s[0]), s[1..])
  {
    if |s| == 1 {
      assert s[..0] == "" && s[1..] == "";
    } else {
      FoldFirst(acc, s[..|s| - 1]);
      assert s[1..][..|s| - 2] == s[..|s| - 1][1..];
    }
  }

  lemma {:induction false} TakeAll(acc: nat, s: string, t: string)
    requires (forall i :: 0 <= i < |s| ==> IsDigit(s[i])) && (t != "" ==> !IsDigit(t[0]))
    ensures TakeDigits(acc, s + t) == (Fold(acc, s), t)
    decreases |s|
  {
    if s == "" {
      assert s + t == t;
    } else {
      FoldFirst(acc, s);
      assert (s + t)[1..] == s[1..] + t;
      TakeAll(Continue(acc, s[0]), s[1..], t);
    }
  }

  lemma {:induction false} FoldDigits(n: nat)
    requires n < WORD64
    ensures Fold(0, Digits(n)) == n
  {
    var s := Digits(n);
    if n < 10 {
      assert s[..0] == "";
    } else {
      FoldDigits(n / 10);
      assert s[..|s| - 1] == Digits(n / 10);
    }
  }

  /** A printed number is read back, and reading stops where it ends. */
  lemma ReadsBack(n: nat, t: string)
    requires n < WORD64 && (t != "" ==> !IsDigit(t[0]))
    ensures ParseULong(Digits(n) + t) == (Some(n), t)
  {
    hide Fold, TakeDigits, Digits;
    var s := Digits(n);
    assert (s + t)[0] == s[0];
    assert SkipSpaces(s + t) == s + t;
    TakeAll(0, s, t);
    FoldDigits(n);
  }

  lemma NumbersCons(n: nat, t: string)
    requires n < WORD64 && (t != "" ==> !IsDigit(t[0]))
    ensures Numbers(Digits(n) + t) == ([n] + Numbers(t).0, Numbers(t).1)
  {
    hide ParseULong, Digits;
    ReadsBack(n, t);
  }

  lemma NothingToRead()
    ensures ParseULong("") == (None, "") && Numbers("") == ([], "")
  {
  }

  lemma NumbersSpace(t: string)
    ensures Numbers(" " + t) == Numbers(t)
  {
    assert (" " + t)[1..] == t;
    assert SkipSpaces(" " + t) == SkipSpaces(t);
    assert ParseULong(" " + t) == ParseULong(t);
  }

  // ---------------------------------------------------------------- counts

  /** Counts as they are printed on a line: each followed by a space. */
  function Trailing(c: Counts): string
    requires forall e :: 0 <= e < |c| ==> c[e] < WORD64
  {
    if c == [] then "" else Signed(c[0]) + " " + Trailing(c[1..])
  }

  /** Counts as they are printed in the summary: each preceded by a space. */
  function Leading(c: Counts): string
    requires forall e :: 0 <= e < |c| ==> c[e] < WORD64
  {
    if c == [] then "" else " " + Signed(c[0]) + Leading(c[1..])
  }

  /** Printed as they are meant: below half the counter range. */
  predicate Small(c: Counts) { forall e :: 0 <= e < |c| ==> c[e] < SIGN }

  lemma {:induction false} TrailingReadsBack(c: Counts)
    requires Small(c)
    ensures Numbers(Trailing(c)) == (c, "")
  {
    hide Numbers, Digits;
    if c == [] {
      NothingToRead();
    } else {
      hide Trailing;
      var t := Trailing(c[1..]);
      TrailingFirst(c);
      NumbersCons(c[0], " " + t);
      NumbersSpace(t);
      TrailingReadsBack(c[1..]);
      assert c == [c[0]] + c[1..];
    }
  }

  lemma TrailingFirst(c: Counts)
    requires Small(c) && c != []
    ensures Trailing(c) == Digits(c[0]) + (" " + Trailing(c[1..]))
  {
    hide Digits;
    Regroup(Digits(c[0]), " ", Trailing(c[1..]));
  }

  lemma {:induction false} LeadingReadsBack(c: Counts)
    requires Small(c)
    ensures Numbers(Leading(c)) == (c, "")
  {
    hide Numbers, Digits;
    if c == [] {
      NothingToRead();
    } else {
      hide Leading;
      var t := Leading(c[1..]);
      LeadingFirst(c);
      NumbersSpace(Digits(c[0]) + t);
      NumbersCons(c[0], t);
      LeadingReadsBack(c[1..]);
      assert c == [c[0]] + c[1..];
    }
  }

  lemma LeadingFirst(c: Counts)
    requires Small(c) && c != []
    ensures Leading(c) == " " + (Digits(c[0]) + Leading(c[1..]))
    ensures Leading(c[1..]) != "" ==> !IsDigit(Leading(c[1..])[0])
  {
    hide Digits;
    Regroup(" ", Digits(c[0]), Leading(c[1..]));
  }

  // ---------------------------------------------------------------- lines

  const NL: char := '\n'
  const NUL: char := '\0'

  /** A text up to its first NUL: all that C string functions see of it. */
  function CString(s: string): (r: string)
    ensures |r| <= |s|
  {
    if s == "" || s[0] == NUL then "" else [s[0]] + CString(s[1..])
  }

  /** readline: the next line without its newline, and the rest; None at the end of the file. */
  function ReadLine(text: string): (r: (Option<string>, string))
    ensures |r.1| <= |text| && (r.0.Some? ==> |r.1| < |text|)
  {
    if text == "" then (None, "")
    else
      var (line, rest) := UpToNewline(text);
      (Some(CString(line)), rest)
  }

  function UpToNewline(text: string): (r: (string, string))
    requires text != ""
    ensures |r.1| < |text|
    decreases |text|
  {
    if text[0] == NL then ("", text[1..])
    else if |text| == 1 then (text, "")
    else
      var (line, rest) := UpToNewline(text[1..]);
      ([text[0]] + line, rest)
  }

  /** All lines of a file. */
  function Lines(text: string): seq<string>
    decreases |text|
  {
    var (line, rest) := ReadLine(text);
    if line.None? then [] else [line.value] + Lines(rest)
  }

  predicate Plain(line: string) { forall i :: 0 <= i < |line| ==> line[i] != NL && line[i] != NUL }

  /** Lines as they are printed. */
  function Joined(lines: seq<string>): string {
    if lines == [] then "" else lines[0] + [NL] + Joined(lines[1..])
  }

  lemma {:induction false} PlainCString(line: string)
    requires Plain(line)
    ensures CString(line) == line
  {
    if line != "" { PlainCString(line[1..]); }
  }

  lemma {:induction false} LineEnds(line: string, rest: string)
    requires Plain(line)
    ensures UpToNewline(line + [NL] + rest) == (line, rest)
    decreases |line|
  {
    var text := line + [NL] + rest;
    if line == "" {
      assert text[1..] == rest;
    } else {
      assert text[1..] == line[1..] + [NL] + rest;
      LineEnds(line[1..], rest);
      assert line == [line[0]] + line[1..];
    }
  }

  /** Printed lines are read back. */
  lemma {:induction false} JoinedReadsBack(lines: seq<string>)
    requires forall i :: 0 <= i < |lines| ==> Plain(lines[i])
    ensures Lines(Joined(lines)) == lines
  {
    if lines != [] {
      LineEnds(lines[0], Joined(lines[1..]));
      PlainCString(lines[0]);
      JoinedReadsBack(lines[1..]);
    }
  }

  predicate StartsWith(s: string, prefix: string) { |prefix| <= |s| && s[..|prefix|] == prefix }

  lemma AfterPrefix(prefix: string, s: string)
    ensures StartsWith(prefix + s, prefix) && (prefix + s)[|prefix|..] == s
  {
  }

  // ---------------------------------------------------------------- parsing

  /** File and function before the first names. */
  const UNKNOWN: string := "???"

  /** What has been read of the body: the map, the running summary, and the current file and function. */
  datatype Body = Body(outer: Outer, summary: Counts, fl: string, fn: string)

  /** splitUpCountsLine: None stands for its parse errors. */
  function SplitUp(s: string, least: nat): (r: Option<Counts>) {
    var (ns, rest) := Numbers(s);
    if rest != "" || |ns| < least then None else Some(ns)
  }

  ghost predicate BodyOk(b: Body, n: nat) { OuterOk(b.outer, n) && IsCounts(b.summary, n) }

  lemma {:induction false} NumbersAreWords(s: string)
    ensures IsCounts(Numbers(s).0, |Numbers(s).0|)
    decreases |s|
  {
    var (n, rest) := ParseULong(s);
    if n.Some? {
      TakenIsWord(0, SkipSpaces(s));
      NumbersAreWords(rest);
    }
  }

  lemma {:induction false} TakenIsWord(acc: nat, s: string)
    requires acc < WORD64
    ensures TakeDigits(acc, s).0 < WORD64
    decreases |s|
  {
    if s != "" && IsDigit(s[0]) { TakenIsWord(Continue(acc, s[0]), s[1..]); }
  }

  /** handle_counts on a line of text. */
  ghost function CountsLine(b: Body, line: string, n: nat): (r: Option<Body>)
    requires BodyOk(b, n)
    ensures r.Some? ==> BodyOk(r.value, n)
  {
    var ns := SplitUp(line, 2);
    if ns.None? || |ns.value| - 1 != n then None
    else
      NumbersAreWords(line);
      var c := ns.value[1..];
      var k := FileFn(b.fl, b.fn);
      AddLineStillOk(b.outer, k, ns.value[0], c);
      Some(b.(outer := AddLine(b.outer, k, ns.value[0], c), summary := Add(b.summary, c)))
  }

  lemma AddLineStillOk(o: Outer, k: FileFn, l: nat, c: Counts)
    requires OuterOk(o, |c|) && IsCounts(c, |c|)
    ensures OuterOk(AddLine(o, k, l, c), |c|)
  {
    hide Add;
  }

  /** The data part of a file, up to and including the summary line. */
  ghost function ParseBody(lines: seq<string>, b: Body, n: nat): (r: Option<(Body, string, seq<string>)>)
    requires BodyOk(b, n)
    ensures r.Some? ==> BodyOk(r.value.0, n) && |r.value.2| < |lines| && StartsWith(r.value.1, "summary: ")
    decreases |lines|
  {
    if lines == [] then None
    else
      var line, rest := lines[0], lines[1..];
      if line != "" && IsDigit(line[0]) then
        var next := CountsLine(b, line, n);
        if next.None? then None else ParseBody(rest, next.value, n)
      else if StartsWith(line, "fn=") then ParseBody(rest, b.(fn := line[3..]), n)
      else if StartsWith(line, "fl=") then ParseBody(rest, b.(fl := line[3..]), n)
      else if StartsWith(line, "summary: ") then Some((b, line, rest))
      else None
  }

  /** The number of changes from a space to a letter in an events line. */
  function CountEvents(s: string): nat {
    if |s| < 2 then 0 else (if s[0] == ' ' && IsAlpha(s[1]) then 1 else 0) + CountEvents(s[1..])
  }

  function DescLines(lines: seq<string>): (n: nat)
    ensures n <= |lines|
  {
    if lines != [] && StartsWith(lines[0], "desc: ") then 1 + DescLines(lines[1..]) else 0
  }

  datatype Doc = Doc(desc: seq<string>, cmd: string, events: string, outer: Outer, summary: Counts)

  /** parse_CacheProfFile: None stands for a parse error. */
  ghost function Parse(lines: seq<string>): (r: Option<Doc>) {
    var d := DescLines(lines);
    if d == 0 || d == |lines| || !StartsWith(lines[d], "cmd: ") then None
    else if d + 1 == |lines| || !StartsWith(lines[d + 1], "events: ") then None
    else
      var events := lines[d + 1];
      var n := CountEvents(events[6..]);
      var body := ParseBody(lines[d + 2..], Body(map[], Zero(n), UNKNOWN, UNKNOWN), n);
      if body.None? || body.value.2 != [] then None
      else
        var b := body.value.0;
        var stated := SplitUp(body.value.1[8..], 1);
        if stated.None? || stated.value != b.summary then None
        else Some(Doc(lines[..d], lines[d], events, b.outer, b.summary))
  }

  // ---------------------------------------------------------------- printing

  /** A profile's lines in the order an iterator delivers them: function by function, line by line. */
  type FunLines = seq<(nat, Counts)>
  type Listing = seq<(FileFn, FunLines)>

  function AsInner(m: FunLines): Inner {
    if m == [] then map[] else AsInner(m[1..])[m[0].0 := m[0].1]
  }

  function AsOuter(ls: Listing): Outer {
    if ls == [] then map[] else AsOuter(ls[1..])[ls[0].0 := AsInner(ls[0].1)]
  }

  /** Each function and each line once. */
  ghost predicate Once(ls: Listing) {
    && (forall i, j :: 0 <= i < j < |ls| ==> ls[i].0 != ls[j].0)
    && (forall i :: 0 <= i < |ls| ==> LinesOnce(ls[i].1))
  }

  ghost predicate LinesOnce(m: FunLines) {
    forall x, y :: 0 <= x < y < |m| ==> m[x].0 != m[y].0
  }

  ghost predicate Printable(ls: Listing) {
    forall i :: 0 <= i < |ls| ==> forall x :: 0 <= x < |ls[i].1| ==> LinePrintable(ls[i].1[x])
  }

  predicate LinePrintable(x: (nat, Counts)) { x.0 < WORD64 && IsCounts(x.1, |x.1|) }

  function LineText(x: (nat, Counts)): string
    requires LinePrintable(x)
  {
    Signed(x.0) + "   " + Trailing(x.1)
  }

  ghost function InnerLines(m: FunLines): (r: seq<string>)
    requires forall x :: 0 <= x < |m| ==> LinePrintable(m[x])
    ensures |r| == |m| && forall x :: 0 <= x < |r| ==> r[x] == LineText(m[x])
  {
    seq(|m|, x requires 0 <= x < |m| => LineText(m[x]))
  }

  ghost function BodyLines(ls: Listing): seq<string>
    requires Printable(ls)
  {
    if ls == [] then []
    else ["fl=" + ls[0].0.fi, "fn=" + ls[0].0.fn] + InnerLines(ls[0].1) + BodyLines(ls[1..])
  }

  /** show_CacheProfFile, given its profile's lines in some order. */
  ghost function Show(d: Doc, ls: Listing): seq<string>
    requires Printable(ls) && IsCounts(d.summary, |d.summary|)
  {
    d.desc + [d.cmd, d.events] + BodyLines(ls) + ["summary:" + Leading(d.summary)]
  }

  // ---------------------------------------------------------------- reading a body back

  /** What can be printed and read: word values below half the range, one count per event, and
      functions with at least one line. */
  ghost predicate Readable(ls: Listing, n: nat) {
    Once(ls) && forall i :: 0 <= i < |ls| ==> FunReadable(ls[i].1, n)
  }

  ghost predicate FunReadable(m: FunLines, n: nat) {
    m != [] && forall x :: 0 <= x < |m| ==> LineReadable(m[x], n)
  }

  predicate LineReadable(x: (nat, Counts), n: nat) { x.0 < SIGN && |x.1| == n && Small(x.1) }

  lemma ReadablePrintable(ls: Listing, n: nat)
    requires Readable(ls, n)
    ensures Printable(ls)
  {
    forall i, x | 0 <= i < |ls| && 0 <= x < |ls[i].1| ensures LinePrintable(ls[i].1[x]) {
      assert LineReadable(ls[i].1[x], n);
    }
  }

  ghost function Plus(b: Body, l: nat, c: Counts): (r: Body)
    requires BodyOk(b, |c|) && IsCounts(c, |c|)
    ensures BodyOk(r, |c|) && r.fl == b.fl && r.fn == b.fn
  {
    AddLineStillOk(b.outer, FileFn(b.fl, b.fn), l, c);
    b.(outer := AddLine(b.outer, FileFn(b.fl, b.fn), l, c), summary := Add(b.summary, c))
  }

  /** A printed line of counts is read as that line. */
  lemma ShownLine(b: Body, l: nat, c: Counts, n: nat)
    requires BodyOk(b, n) && n >= 1 && l < SIGN && |c| == n && Small(c)
    ensures IsCounts(c, n) && LinePrintable((l, c)) && LineText((l, c)) != "" && IsDigit(LineText((l, c))[0])
    ensures CountsLine(b, LineText((l, c)), n) == Some(Plus(b, l, c))
  {
    hide Digits, Trailing, BodyOk, AddLine, Add, Numbers;
    var t := Trailing(c);
    assert LineText((l, c)) == Digits(l) + (" " + (" " + (" " + t)));
    NumbersCons(l, " " + (" " + (" " + t)));
    NumbersSpace(" " + (" " + t));
    NumbersSpace(" " + t);
    NumbersSpace(t);
    TrailingReadsBack(c);
    assert ([l] + c)[1..] == c;
  }

  ghost function AfterLines(b: Body, m: FunLines, n: nat): (r: Body)
    requires BodyOk(b, n) && forall x :: 0 <= x < |m| ==> LineReadable(m[x], n)
    ensures BodyOk(r, n) && r.fl == b.fl && r.fn == b.fn
    decreases |m|
  {
    hide BodyOk;
    if m == [] then b else
      assert LineReadable(m[0], n);
      AfterLines(Plus(b, m[0].0, m[0].1), m[1..], n)
  }

  lemma {:induction false} LinesParse(b: Body, m: FunLines, rest: seq<string>, n: nat)
    requires BodyOk(b, n) && n >= 1 && forall x :: 0 <= x < |m| ==> LineReadable(m[x], n)
    ensures forall x :: 0 <= x < |m| ==> LinePrintable(m[x])
    ensures ParseBody(InnerLines(m) + rest, b, n) == ParseBody(rest, AfterLines(b, m, n), n)
    decreases |m|
  {
    hide BodyOk, LineText, CountsLine;
    forall x | 0 <= x < |m| ensures LinePrintable(m[x]) { assert LineReadable(m[x], n); }
    var lines := InnerLines(m) + rest;
    if m == [] {
      assert lines == rest;
    } else {
      assert LineReadable(m[0], n);
      ShownLine(b, m[0].0, m[0].1, n);
      assert lines[0] == LineText(m[0]);
      assert lines[1..] == InnerLines(m[1..]) + rest;
      LinesParse(Plus(b, m[0].0, m[0].1), m[1..], rest, n);
    }
  }

  ghost function AfterFuns(b: Body, ls: Listing, n: nat): (r: Body)
    requires BodyOk(b, n) && forall i :: 0 <= i < |ls| ==> FunReadable(ls[i].1, n)
    ensures BodyOk(r, n)
    decreases |ls|
  {
    hide BodyOk;
    if ls == [] then b
    else
      var named := Named(b, ls[0].0, n);
      assert FunReadable(ls[0].1, n);
      AfterFuns(AfterLines(named, ls[0].1, n), ls[1..], n)
  }

  ghost function Named(b: Body, k: FileFn, n: nat): (r: Body)
    requires BodyOk(b, n)
    ensures BodyOk(r, n) && r.outer == b.outer && r.summary == b.summary && FileFn(r.fl, r.fn) == k
  {
    b.(fl := k.fi, fn := k.fn)
  }

  lemma NamesParse(b: Body, k: FileFn, rest: seq<string>, n: nat)
    requires BodyOk(b, n)
    ensures ParseBody(["fl=" + k.fi, "fn=" + k.fn] + rest, b, n) == ParseBody(rest, Named(b, k, n), n)
  {
    hide BodyOk;
    var lines := ["fl=" + k.fi, "fn=" + k.fn] + rest;
    AfterPrefix("fl=", k.fi);
    AfterPrefix("fn=", k.fn);
    var mid := b.(fl := k.fi);
    assert BodyOk(mid, n) by { SameBodyOk(b, mid, n); }
    assert !StartsWith("fl=" + k.fi, "fn=") by { assert ("fl=" + k.fi)[1] == 'l'; }
    assert lines[1..] == ["fn=" + k.fn] + rest;
    assert ParseBody(lines, b, n) == ParseBody(["fn=" + k.fn] + rest, mid, n);
    assert (["fn=" + k.fn] + rest)[1..] == rest;
  }

  lemma SameBodyOk(b: Body, c: Body, n: nat)
    requires BodyOk(b, n) && b.outer == c.outer && b.summary == c.summary
    ensures BodyOk(c, n)
  {
  }

  lemma FunParses(b: Body, f: (FileFn, FunLines), tail: seq<string>, n: nat)
    requires BodyOk(b, n) && n >= 1 && FunReadable(f.1, n)
    ensures forall x :: 0 <= x < |f.1| ==> LinePrintable(f.1[x])
    ensures ParseBody(["fl=" + f.0.fi, "fn=" + f.0.fn] + (InnerLines(f.1) + tail), b, n) ==
            ParseBody(tail, AfterLines(Named(b, f.0, n), f.1, n), n)
  {
    hide BodyOk, ParseBody, InnerLines, AfterLines, Named;
    LinesParse(Named(b, f.0, n), f.1, tail, n);
    NamesParse(b, f.0, InnerLines(f.1) + tail, n);
  }

  lemma FunLinesFirst(ls: Listing, rest: seq<string>)
    requires ls != [] && Printable(ls)
    ensures BodyLines(ls) + rest ==
            ["fl=" + ls[0].0.fi, "fn=" + ls[0].0.fn] + (InnerLines(ls[0].1) + (BodyLines(ls[1..]) + rest))
  {
    hide InnerLines;
  }

  lemma {:induction false} BodyParses(b: Body, ls: Listing, rest: seq<string>, n: nat)
    requires BodyOk(b, n) && n >= 1 && Printable(ls) && forall i :: 0 <= i < |ls| ==> FunReadable(ls[i].1, n)
    ensures ParseBody(BodyLines(ls) + rest, b, n) == ParseBody(rest, AfterFuns(b, ls, n), n)
    decreases |ls|
  {
    hide BodyOk, ParseBody, InnerLines, AfterLines, Named;
    if ls == [] {
      assert BodyLines(ls) + rest == rest;
    } else {
      FunLinesFirst(ls, rest);
      FunParses(b, ls[0], BodyLines(ls[1..]) + rest, n);
      hide BodyLines;
      BodyParses(AfterLines(Named(b, ls[0].0, n), ls[0].1, n), ls[1..], rest, n);
    }
  }

  // ---------------------------------------------------------------- the map that was read

  lemma {:induction false} AsInnerKeys(m: FunLines, l: nat)
    ensures l in AsInner(m) <==> exists x :: 0 <= x < |m| && m[x].0 == l
  {
    if m != [] {
      AsInnerKeys(m[1..], l);
      if exists x :: 0 <= x < |m[1..]| && m[1..][x].0 == l {
        var x :| 0 <= x < |m[1..]| && m[1..][x].0 == l;
        assert m[x + 1].0 == l;
      }
      if m[0].0 != l && exists x :: 0 <= x < |m| && m[x].0 == l {
        var x :| 0 <= x < |m| && m[x].0 == l;
        assert m[1..][x - 1].0 == l;
      }
    }
  }

  ghost function WithLines(o: Outer, k: FileFn, m: FunLines): Outer {
    if m == [] then o else o[k := InnerAt(o, k) + AsInner(m)]
  }

  ghost predicate NewLines(o: Outer, k: FileFn, m: FunLines) {
    forall x :: 0 <= x < |m| ==> m[x].0 !in InnerAt(o, k)
  }

  lemma AddNewLine(o: Outer, k: FileFn, m: FunLines, c: Counts)
    requires m != [] && m[0].1 == c && OuterOk(o, |c|) && LinesOnce(m) && NewLines(o, k, m)
    ensures var o' := AddLine(o, k, m[0].0, c);
            NewLines(o', k, m[1..]) && WithLines(o', k, m[1..]) == WithLines(o, k, m)
  {
    var l, o' := m[0].0, AddLine(o, k, m[0].0, c);
    assert InnerAt(o', k) == InnerAt(o, k)[l := c];
    assert forall x :: 0 <= x < |m[1..]| ==> m[1..][x].0 == m[x + 1].0 != l;
    AsInnerKeys(m[1..], l);
    if m[1..] == [] {
      assert InnerAt(o, k)[l := c] == InnerAt(o, k) + AsInner(m);
    } else {
      assert InnerAt(o', k) + AsInner(m[1..]) == InnerAt(o, k) + AsInner(m);
    }
    assert WithLines(o', k, m[1..]).Keys == WithLines(o, k, m).Keys;
  }

  lemma {:induction false} LinesRead(b: Body, m: FunLines, n: nat)
    requires BodyOk(b, n) && (forall x :: 0 <= x < |m| ==> LineReadable(m[x], n))
    requires LinesOnce(m) && NewLines(b.outer, FileFn(b.fl, b.fn), m)
    ensures AfterLines(b, m, n).outer == WithLines(b.outer, FileFn(b.fl, b.fn), m)
    decreases |m|
  {
    if m != [] {
      assert LineReadable(m[0], n);
      AddNewLine(b.outer, FileFn(b.fl, b.fn), m, m[0].1);
      hide BodyOk, WithLines, NewLines, AddLine;
      LinesRead(Plus(b, m[0].0, m[0].1), m[1..], n);
    }
  }

  lemma {:induction false} AsOuterKeys(ls: Listing, k: FileFn)
    ensures k in AsOuter(ls) <==> exists x :: 0 <= x < |ls| && ls[x].0 == k
  {
    if ls != [] {
      AsOuterKeys(ls[1..], k);
      if exists x :: 0 <= x < |ls[1..]| && ls[1..][x].0 == k {
        var x :| 0 <= x < |ls[1..]| && ls[1..][x].0 == k;
        assert ls[x + 1].0 == k;
      }
      if ls[0].0 != k && exists x :: 0 <= x < |ls| && ls[x].0 == k {
        var x :| 0 <= x < |ls| && ls[x].0 == k;
        assert ls[1..][x - 1].0 == k;
      }
    }
  }

  ghost predicate NewFuns(o: Outer, ls: Listing) {
    forall i :: 0 <= i < |ls| ==> ls[i].0 !in o
  }

  lemma AddNewFun(o: Outer, ls: Listing)
    requires ls != [] && ls[0].1 != [] && Once(ls) && NewFuns(o, ls)
    ensures LinesOnce(ls[0].1) && NewLines(o, ls[0].0, ls[0].1) && Once(ls[1..])
    ensures var o' := WithLines(o, ls[0].0, ls[0].1);
            NewFuns(o', ls[1..]) && o' + AsOuter(ls[1..]) == o + AsOuter(ls)
  {
    var k, m := ls[0].0, AsInner(ls[0].1);
    TailOnce(ls);
    AsOuterKeys(ls[1..], k);
    assert InnerAt(o, k) + m == m;
    assert WithLines(o, k, ls[0].1) == o[k := m];
    hide AsOuter, WithLines, Once;
    UpdateLater(o, AsOuter(ls[1..]), k, m);
    ListedFirst(ls);
  }

  lemma ListedFirst(ls: Listing)
    requires ls != []
    ensures AsOuter(ls) == AsOuter(ls[1..])[ls[0].0 := AsInner(ls[0].1)]
  {
  }

  lemma TailOnce(ls: Listing)
    requires ls != [] && Once(ls)
    ensures LinesOnce(ls[0].1) && Once(ls[1..])
    ensures forall x :: 0 <= x < |ls[1..]| ==> ls[1..][x] == ls[x + 1] && ls[1..][x].0 != ls[0].0
  {
    hide LinesOnce;
    assert forall x :: 0 <= x < |ls[1..]| ==> ls[1..][x] == ls[x + 1];
  }

  lemma UpdateLater(o: Outer, p: Outer, k: FileFn, m: Inner)
    requires k !in p
    ensures o[k := m] + p == o + p[k := m]
  {
  }

  lemma {:induction false} FunsRead(b: Body, ls: Listing, n: nat)
    requires BodyOk(b, n) && (forall i :: 0 <= i < |ls| ==> FunReadable(ls[i].1, n))
    requires Once(ls) && NewFuns(b.outer, ls)
    ensures AfterFuns(b, ls, n).outer == b.outer + AsOuter(ls)
    decreases |ls|
  {
    if ls == [] {
      assert b.outer + map[] == b.outer;
    } else {
      assert FunReadable(ls[0].1, n);
      AddNewFun(b.outer, ls);
      hide BodyOk, WithLines, NewLines, Once, NewFuns;
      var named := Named(b, ls[0].0, n);
      LinesRead(named, ls[0].1, n);
      FunsRead(AfterLines(named, ls[0].1, n), ls[1..], n);
    }
  }

  lemma {:induction false} LinesBalanced(b: Body, m: FunLines, n: nat)
    requires BodyOk(b, n) && Balanced(b.outer, b.summary, n) && forall x :: 0 <= x < |m| ==> LineReadable(m[x], n)
    ensures var r := AfterLines(b, m, n); Balanced(r.outer, r.summary, n)
    decreases |m|
  {
    hide BodyOk, Balanced, AddLine, Add;
    if m != [] {
      assert LineReadable(m[0], n);
      AddLineBalanced(b.outer, b.summary, FileFn(b.fl, b.fn), m[0].0, m[0].1);
      LinesBalanced(Plus(b, m[0].0, m[0].1), m[1..], n);
    }
  }

  lemma {:induction false} FunsBalanced(b: Body, ls: Listing, n: nat)
    requires BodyOk(b, n) && Balanced(b.outer, b.summary, n) && forall i :: 0 <= i < |ls| ==> FunReadable(ls[i].1, n)
    ensures var r := AfterFuns(b, ls, n); Balanced(r.outer, r.summary, n)
    decreases |ls|
  {
    hide BodyOk, Balanced;
    if ls != [] {
      assert FunReadable(ls[0].1, n);
      var named := Named(b, ls[0].0, n);
      LinesBalanced(named, ls[0].1, n);
      FunsBalanced(AfterLines(named, ls[0].1, n), ls[1..], n);
    }
  }

  // ---------------------------------------------------------------- print, then parse

  ghost predicate PlainNames(ls: Listing) {
    forall i :: 0 <= i < |ls| ==> Plain(ls[i].0.fi) && Plain(ls[i].0.fn)
  }

  /** A profile as parsing delivers it, with a listing of its lines. */
  ghost predicate WellFormed(d: Doc, ls: Listing) {
    var n := CountEvents(if |d.events| >= 6 then d.events[6..] else "");
    && d.desc != [] && (forall i :: 0 <= i < |d.desc| ==> StartsWith(d.desc[i], "desc: ") && Plain(d.desc[i]))
    && StartsWith(d.cmd, "cmd: ") && Plain(d.cmd)
    && StartsWith(d.events, "events: ") && Plain(d.events) && n >= 1
    && Readable(ls, n) && PlainNames(ls) && AsOuter(ls) == d.outer
    && Balanced(d.outer, d.summary, n) && Small(d.summary)
  }

  lemma {:induction false} DescShown(desc: seq<string>, rest: seq<string>)
    requires forall i :: 0 <= i < |desc| ==> StartsWith(desc[i], "desc: ")
    requires rest != [] && !StartsWith(rest[0], "desc: ")
    ensures DescLines(desc + rest) == |desc|
  {
    if desc == [] {
      assert desc + rest == rest;
    } else {
      assert (desc + rest)[1..] == desc[1..] + rest;
      DescShown(desc[1..], rest);
    }
  }

  /** Two summaries of the same lines. */
  lemma SameSummary(o: Outer, a: Counts, b: Counts, n: nat)
    requires Balanced(o, a, n) && Balanced(o, b, n)
    ensures a == b
  {
  }

  /** The body of a printed profile parses to its map and its summary. */
  lemma BodyReadBack(d: Doc, ls: Listing, n: nat)
    requires Readable(ls, n) && AsOuter(ls) == d.outer && Balanced(d.outer, d.summary, n) && Small(d.summary) && n >= 1
    ensures Printable(ls) && IsCounts(d.summary, n) && BodyOk(Body(map[], Zero(n), UNKNOWN, UNKNOWN), n)
    ensures var line := "summary:" + Leading(d.summary);
            var r := ParseBody(BodyLines(ls) + [line], Body(map[], Zero(n), UNKNOWN, UNKNOWN), n);
            && r.Some? && r.value.1 == line && r.value.2 == []
            && r.value.0.outer == d.outer && r.value.0.summary == d.summary
            && SplitUp(line[8..], 1) == Some(d.summary)
  {
    hide AfterFuns, BodyLines, Leading, Numbers, OuterSum, Printable;
    var b, line := Body(map[], Zero(n), UNKNOWN, UNKNOWN), "summary:" + Leading(d.summary);
    ReadablePrintable(ls, n);
    EmptyBalanced(n);
    BodyParses(b, ls, [line], n);
    FunsRead(b, ls, n);
    FunsBalanced(b, ls, n);
    assert map[] + AsOuter(ls) == AsOuter(ls);
    var r := AfterFuns(b, ls, n);
    SameSummary(d.outer, r.summary, d.summary, n);
    AfterPrefix("summary:", Leading(d.summary));
    LeadingReadsBack(d.summary);
    SummaryLine(d.summary);
    LastLine(line, r, n);
  }

  lemma SummaryLine(c: Counts)
    requires c != [] && forall e :: 0 <= e < |c| ==> c[e] < WORD64
    ensures StartsWith("summary:" + Leading(c), "summary: ")
  {
    hide *;
    var rest := LeadingSpace(c);
    SpacePrefix("summary:", rest);
    SummaryPrefix();
  }

  lemma SummaryPrefix()
    ensures "summary:" + " " == "summary: "
  {
  }

  lemma LeadingSpace(c: Counts) returns (rest: string)
    requires c != [] && forall e :: 0 <= e < |c| ==> c[e] < WORD64
    ensures Leading(c) == " " + rest
  {
    hide Signed;
    rest := Signed(c[0]) + Leading(c[1..]);
  }

  lemma SpacePrefix(a: string, rest: string)
    ensures StartsWith(a + (" " + rest), a + " ")
  {
    Regroup(a, " ", rest);
    AfterPrefix(a + " ", rest);
  }

  lemma Regroup(a: string, b: string, c: string)
    ensures a + (b + c) == (a + b) + c
  {
  }

  lemma LastLine(line: string, b: Body, n: nat)
    requires BodyOk(b, n) && StartsWith(line, "summary: ")
    ensures ParseBody([line], b, n) == Some((b, line, []))
  {
    assert line[0] == line[..9][0] == 's';
    assert line[1] == line[..9][1] == 'u';
    assert !StartsWith(line, "fn=") && !StartsWith(line, "fl=");
    assert [line][1..] == [];
  }

  lemma NotDesc(line: string)
    requires StartsWith(line, "cmd: ")
    ensures !StartsWith(line, "desc: ")
  {
    assert line[0] == line[..5][0] == 'c';
  }

  /** Parsing the lines of a printed profile gives the profile back, whatever the order in which its
      lines were listed; in particular the stated summary is accepted. */
  lemma ParseShown(d: Doc, ls: Listing)
    requires WellFormed(d, ls)
    ensures Printable(ls) && IsCounts(d.summary, |d.summary|)
    ensures Parse(Show(d, ls)) == Some(d)
  {
    hide ParseBody, BodyLines, Leading, Readable, AsOuter, Balanced, SplitUp, CountEvents, Plain;
    var n := CountEvents(d.events[6..]);
    BodyReadBack(d, ls, n);
    var tail := BodyLines(ls) + ["summary:" + Leading(d.summary)];
    var lines := Show(d, ls);
    var head := [d.cmd, d.events] + tail;
    assert lines == d.desc + head;
    NotDesc(d.cmd);
    DescShown(d.desc, head);
    var m := |d.desc|;
    assert lines[m] == d.cmd && lines[m + 1] == d.events && lines[m + 2..] == tail && lines[..m] == d.desc;
  }

  // ---------------------------------------------------------------- down to characters

  lemma PlainSigned(n: nat)
    requires n < WORD64
    ensures Plain(Signed(n))
  {
    var s := Digits(if n < SIGN then n else WORD64 - n);
    assert forall i :: 0 <= i < |s| ==> IsDigit(s[i]);
  }

  lemma {:induction false} PlainCounts(c: Counts)
    requires forall e :: 0 <= e < |c| ==> c[e] < WORD64
    ensures Plain(Trailing(c)) && Plain(Leading(c))
  {
    hide Signed;
    if c != [] {
      PlainSigned(c[0]);
      PlainCounts(c[1..]);
    }
  }

  lemma PlainLine(x: (nat, Counts))
    requires LinePrintable(x)
    ensures Plain(LineText(x))
  {
    hide Signed, Trailing;
    PlainSigned(x.0);
    PlainCounts(x.1);
  }

  ghost predicate AllPlain(lines: seq<string>) { forall i :: 0 <= i < |lines| ==> Plain(lines[i]) }

  lemma {:induction false} PlainBody(ls: Listing)
    requires Printable(ls) && PlainNames(ls)
    ensures AllPlain(BodyLines(ls))
  {
    hide Plain, LineText;
    if ls != [] {
      PlainBody(ls[1..]);
      var k, m := ls[0].0, ls[0].1;
      PlainNameLines(k);
      forall x | 0 <= x < |m| ensures Plain(InnerLines(m)[x]) { PlainLine(m[x]); }
      assert AllPlain(InnerLines(m));
    }
  }

  lemma PlainNameLines(k: FileFn)
    requires Plain(k.fi) && Plain(k.fn)
    ensures Plain("fl=" + k.fi) && Plain("fn=" + k.fn)
  {
  }

  lemma PlainShow(d: Doc, ls: Listing)
    requires Printable(ls) && PlainNames(ls) && IsCounts(d.summary, |d.summary|)
    requires AllPlain(d.desc) && Plain(d.cmd) && Plain(d.events)
    ensures AllPlain(Show(d, ls))
  {
    hide Plain, BodyLines, Leading;
    PlainBody(ls);
    PlainCounts(d.summary);
    PlainSummary(Leading(d.summary));
  }

  lemma BalancedCounts(o: Outer, c: Counts, n: nat)
    requires Balanced(o, c, n)
    ensures IsCounts(c, n)
  {
  }

  lemma PlainSummary(t: string)
    requires Plain(t)
    ensures Plain("summary:" + t)
  {
  }

  lemma WellFormedPlain(d: Doc, ls: Listing)
    requires WellFormed(d, ls)
    ensures Printable(ls) && PlainNames(ls) && IsCounts(d.summary, |d.summary|)
    ensures AllPlain(d.desc) && Plain(d.cmd) && Plain(d.events)
  {
    hide Readable, Balanced, Plain;
    var n := CountEvents(d.events[6..]);
    ReadablePrintable(ls, n);
    BalancedCounts(d.outer, d.summary, n);
  }

  /** The lines a reader sees of a printed profile are the lines that were printed. */
  lemma ShownLinesRead(d: Doc, ls: Listing)
    requires Printable(ls) && PlainNames(ls) && IsCounts(d.summary, |d.summary|)
    requires AllPlain(d.desc) && Plain(d.cmd) && Plain(d.events)
    ensures Lines(Joined(Show(d, ls))) == Show(d, ls)
  {
    hide Plain, Show, Lines, Joined;
    PlainShow(d, ls);
    JoinedReadsBack(Show(d, ls));
  }

  /** Print, then parse: for every well-formed profile the printed file is accepted and gives the
      same profile back. */
  lemma PrintThenParse(d: Doc, ls: Listing)
    requires WellFormed(d, ls)
    ensures Printable(ls) && IsCounts(d.summary, |d.summary|)
    ensures Parse(Lines(Joined(Show(d, ls)))) == Some(d)
  {
    hide *;
    WellFormedPlain(d, ls);
    ShownLinesRead(d, ls);
    ParseShown(d, ls);
  }
}
