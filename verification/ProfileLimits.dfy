/** Where printing a profile stops being readable: words are printed as signed numbers, and the
parser of cachegrind/cg_merge.c knows no sign. */
module ProfileLimits {
  import opened SortedList
  import opened Words
  import opened Profile
  import opened ProfileSums
  import opened ProfileText

  lemma MinusStops(n: nat, t: string)
    requires SIGN <= n < WORD64
    ensures Signed(n) + t != "" && (Signed(n) + t)[0] == '-'
    ensures Numbers(Signed(n) + t) == ([], Signed(n) + t)
  {
    hide Digits;
    var s := Signed(n) + t;
    assert s[0] == '-';
    assert SkipSpaces(s) == s;
  }

  /** A large count on a line leaves the rest of the line unread. */
  lemma {:induction false} TrailingStops(c: Counts, e: nat)
    requires e < |c| && c[e] >= SIGN && forall i :: 0 <= i < |c| ==> c[i] < WORD64
    ensures Numbers(Trailing(c)).1 != ""
  {
    hide Numbers, Digits;
    var t := Trailing(c[1..]);
    if c[0] >= SIGN {
      MinusStops(c[0], " " + t);
      assert Trailing(c) == Signed(c[0]) + (" " + t);
    } else {
      assert Trailing(c) == Digits(c[0]) + (" " + t);
      NumbersCons(c[0], " " + t);
      NumbersSpace(t);
      TrailingStops(c[1..], e - 1);
    }
  }

  lemma {:induction false} LeadingStops(c: Counts, e: nat)
    requires e < |c| && c[e] >= SIGN && forall i :: 0 <= i < |c| ==> c[i] < WORD64
    ensures Numbers(Leading(c)).1 != ""
  {
    hide Numbers, Digits;
    var t := Leading(c[1..]);
    assert Leading(c) == " " + (Signed(c[0]) + t);
    NumbersSpace(Signed(c[0]) + t);
    if c[0] >= SIGN {
      MinusStops(c[0], t);
    } else {
      LeadingStart(c[1..]);
      NumbersCons(c[0], t);
      LeadingStops(c[1..], e - 1);
    }
  }

  lemma LeadingStart(c: Counts)
    requires forall i :: 0 <= i < |c| ==> c[i] < WORD64
    ensures Leading(c) != "" ==> !IsDigit(Leading(c)[0])
  {
    hide Signed;
  }

  predicate LineSmall(x: (nat, Counts)) { x.0 < SIGN && Small(x.1) }

  /** A line with a large number is refused. */
  lemma LineRefused(b: Body, x: (nat, Counts), rest: seq<string>, n: nat)
    requires BodyOk(b, n) && LinePrintable(x) && |x.1| == n && !LineSmall(x)
    ensures ParseBody([LineText(x)] + rest, b, n) == None
  {
    hide BodyOk, Trailing, Digits;
    var line, lines := LineText(x), [LineText(x)] + rest;
    var t := "   " + Trailing(x.1);
    assert line == Signed(x.0) + t;
    if x.0 >= SIGN {
      MinusStops(x.0, t);
      NotABodyLine(line);
    } else {
      var e :| 0 <= e < n && x.1[e] >= SIGN;
      LargeCount(x.0, x.1, e);
      assert line[0] == Digits(x.0)[0];
      assert CountsLine(b, line, n) == None;
    }
    assert lines[0] == line;
  }

  lemma NotABodyLine(line: string)
    requires line != "" && line[0] == '-'
    ensures !StartsWith(line, "fn=") && !StartsWith(line, "fl=") && !StartsWith(line, "summary: ")
  {
  }

  lemma LargeCount(l: nat, c: Counts, e: nat)
    requires LinePrintable((l, c)) && l < SIGN && e < |c| && c[e] >= SIGN
    ensures Numbers(LineText((l, c))).1 != ""
  {
    hide Digits, Trailing, Numbers;
    var t := Trailing(c);
    assert LineText((l, c)) == Digits(l) + (" " + (" " + (" " + t)));
    NumbersCons(l, " " + (" " + (" " + t)));
    NumbersSpace(" " + (" " + t));
    NumbersSpace(" " + t);
    NumbersSpace(t);
    TrailingStops(c, e);
  }

  // ---------------------------------------------------------------- bodies

  ghost predicate FunSized(m: FunLines, n: nat) {
    m != [] && forall x :: 0 <= x < |m| ==> LinePrintable(m[x]) && |m[x].1| == n
  }

  /** One count per event, functions with at least one line, each line once. */
  ghost predicate Sized(ls: Listing, n: nat) {
    Once(ls) && forall i :: 0 <= i < |ls| ==> FunSized(ls[i].1, n)
  }

  ghost predicate FunSmall(m: FunLines) { forall x :: 0 <= x < |m| ==> LineSmall(m[x]) }

  ghost predicate AllSmall(ls: Listing) { forall i :: 0 <= i < |ls| ==> FunSmall(ls[i].1) }

  lemma SizedPrintable(ls: Listing, n: nat)
    requires forall i :: 0 <= i < |ls| ==> FunSized(ls[i].1, n)
    ensures Printable(ls)
  {
    forall i, x | 0 <= i < |ls| && 0 <= x < |ls[i].1| ensures LinePrintable(ls[i].1[x]) { assert FunSized(ls[i].1, n); }
  }

  lemma SmallReadable(ls: Listing, n: nat)
    requires Sized(ls, n)
    ensures AllSmall(ls) <==> Readable(ls, n)
  {
    forall i | 0 <= i < |ls| ensures FunSmall(ls[i].1) <==> FunReadable(ls[i].1, n) {
      assert FunSized(ls[i].1, n);
      forall x | 0 <= x < |ls[i].1| ensures LineSmall(ls[i].1[x]) <==> LineReadable(ls[i].1[x], n) { }
      if FunReadable(ls[i].1, n) { assert forall x :: 0 <= x < |ls[i].1| ==> LineReadable(ls[i].1[x], n); }
    }
  }

  lemma {:induction false} FunRefused(b: Body, m: FunLines, rest: seq<string>, n: nat)
    requires BodyOk(b, n) && n >= 1 && !FunSmall(m)
    requires forall x :: 0 <= x < |m| ==> LinePrintable(m[x]) && |m[x].1| == n
    ensures ParseBody(InnerLines(m) + rest, b, n) == None
    decreases |m|
  {
    hide BodyOk, LineText, CountsLine;
    var tail := InnerLines(m[1..]) + rest;
    assert InnerLines(m) + rest == [LineText(m[0])] + tail;
    if !LineSmall(m[0]) {
      LineRefused(b, m[0], tail, n);
    } else {
      ShownLine(b, m[0].0, m[0].1, n);
      assert ([LineText(m[0])] + tail)[1..] == tail;
      FunRefused(Plus(b, m[0].0, m[0].1), m[1..], rest, n);
    }
  }

  /** A body with a large number anywhere is refused. */
  lemma {:induction false} BodyRefused(b: Body, ls: Listing, rest: seq<string>, n: nat)
    requires BodyOk(b, n) && n >= 1 && !AllSmall(ls) && Printable(ls)
    requires forall i :: 0 <= i < |ls| ==> FunSized(ls[i].1, n)
    ensures ParseBody(BodyLines(ls) + rest, b, n) == None
    decreases |ls|
  {
    hide BodyOk, ParseBody, InnerLines, AfterLines, Named, FunSmall;
    var k, m := ls[0].0, ls[0].1;
    assert FunSized(m, n);
    var tail := BodyLines(ls[1..]) + rest;
    FunLinesFirst(ls, rest);
    var named := Named(b, k, n);
    if !FunSmall(m) {
      NamesParse(b, k, InnerLines(m) + tail, n);
      FunRefused(named, m, tail, n);
    } else {
      assert FunReadable(m, n) by { SmallFun(m, n); }
      FunParses(b, ls[0], tail, n);
      hide BodyLines;
      BodyRefused(AfterLines(named, m, n), ls[1..], rest, n);
    }
  }

  lemma SmallFun(m: FunLines, n: nat)
    requires FunSized(m, n) && FunSmall(m)
    ensures FunReadable(m, n)
  {
    forall x | 0 <= x < |m| ensures LineReadable(m[x], n) { assert LineSmall(m[x]); }
  }

  // ---------------------------------------------------------------- the exact limit

  /** Well-formed but for the size of its numbers. */
  ghost predicate WordFormed(d: Doc, ls: Listing) {
    var n := CountEvents(if |d.events| >= 6 then d.events[6..] else "");
    && d.desc != [] && (forall i :: 0 <= i < |d.desc| ==> StartsWith(d.desc[i], "desc: ") && Plain(d.desc[i]))
    && StartsWith(d.cmd, "cmd: ") && Plain(d.cmd)
    && StartsWith(d.events, "events: ") && Plain(d.events) && n >= 1
    && Sized(ls, n) && PlainNames(ls) && AsOuter(ls) == d.outer && Balanced(d.outer, d.summary, n)
  }

  /** Parsing a header leads to the body. */
  lemma HeaderParses(d: Doc, ls: Listing, n: nat)
    requires d.desc != [] && (forall i :: 0 <= i < |d.desc| ==> StartsWith(d.desc[i], "desc: "))
    requires StartsWith(d.cmd, "cmd: ") && StartsWith(d.events, "events: ") && n == CountEvents(d.events[6..])
    requires Printable(ls) && IsCounts(d.summary, |d.summary|) && BodyOk(Body(map[], Zero(n), UNKNOWN, UNKNOWN), n)
    ensures var line := "summary:" + Leading(d.summary);
            var r := ParseBody(BodyLines(ls) + [line], Body(map[], Zero(n), UNKNOWN, UNKNOWN), n);
            && (r.None? ==> Parse(Show(d, ls)) == None)
            && (r.Some? && SplitUp(r.value.1[8..], 1) == None ==> Parse(Show(d, ls)) == None)
  {
    hide ParseBody, BodyLines, Leading, SplitUp, CountEvents;
    var tail := BodyLines(ls) + ["summary:" + Leading(d.summary)];
    var lines, head, m := Show(d, ls), [d.cmd, d.events] + tail, |d.desc|;
    assert lines == d.desc + head;
    assert !StartsWith(d.cmd, "desc: ") by { assert d.cmd[0] == d.cmd[..5][0] == 'c'; }
    DescShown(d.desc, head);
    assert lines[m] == d.cmd && lines[m + 1] == d.events && lines[m + 2..] == tail && lines[..m] == d.desc;
  }

  lemma SummaryRefused(c: Counts)
    requires !Small(c) && forall e :: 0 <= e < |c| ==> c[e] < WORD64
    ensures SplitUp(("summary:" + Leading(c))[8..], 1) == None
  {
    hide Leading, Numbers;
    var e :| 0 <= e < |c| && c[e] >= SIGN;
    LeadingStops(c, e);
    AfterPrefix("summary:", Leading(c));
  }

  lemma LargeRefused(d: Doc, ls: Listing)
    requires WordFormed(d, ls) && !(AllSmall(ls) && Small(d.summary))
    ensures Printable(ls) && IsCounts(d.summary, |d.summary|)
    ensures Parse(Show(d, ls)) == None
  {
    hide ParseBody, BodyLines, Leading, AllSmall, Numbers, AfterFuns, Once, OuterSum, SplitUp, Show, Parse;
    var n := CountEvents(d.events[6..]);
    hide CountEvents;
    SizedPrintable(ls, n);
    BalancedCounts(d.outer, d.summary, n);
    var b, line := Body(map[], Zero(n), UNKNOWN, UNKNOWN), "summary:" + Leading(d.summary);
    EmptyBalanced(n);
    HeaderParses(d, ls, n);
    if !AllSmall(ls) {
      BodyRefused(b, ls, [line], n);
    } else {
      SmallReadable(ls, n);
      BodyParses(b, ls, [line], n);
      SummaryLine(d.summary);
      LastLine(line, AfterFuns(b, ls, n), n);
      SummaryRefused(d.summary);
    }
  }

  lemma WordFormedPlain(d: Doc, ls: Listing)
    requires WordFormed(d, ls)
    ensures Printable(ls) && PlainNames(ls) && IsCounts(d.summary, |d.summary|)
    ensures AllPlain(d.desc) && Plain(d.cmd) && Plain(d.events)
    ensures AllSmall(ls) && Small(d.summary) ==> WellFormed(d, ls)
  {
    hide Balanced, Plain, Readable, AllSmall, Once;
    var n := CountEvents(d.events[6..]);
    hide CountEvents;
    SizedPrintable(ls, n);
    SmallReadable(ls, n);
    BalancedCounts(d.outer, d.summary, n);
  }

  /** A printed profile parses back to itself if and only if all its line numbers, counts and sums
      are below half the counter range; otherwise the printed file is refused. */
  lemma PrintParseExactly(d: Doc, ls: Listing)
    requires WordFormed(d, ls)
    ensures Printable(ls) && IsCounts(d.summary, |d.summary|)
    ensures Parse(Lines(Joined(Show(d, ls)))) == if AllSmall(ls) && Small(d.summary) then Some(d) else None
  {
    hide *;
    WordFormedPlain(d, ls);
    ShownLinesRead(d, ls);
    if AllSmall(ls) && Small(d.summary) {
      ParseShown(d, ls);
    } else {
      LargeRefused(d, ls);
    }
  }
}
