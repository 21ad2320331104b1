/** The loops that read a profile (cachegrind/cg_merge.c): characters into numbers, lines into a
profile that is filled in place. */
module ProfileReader {
  import opened SortedList
  import opened Words
  import opened Profile
  import opened ProfileSums
  import opened ProfileMerge
  import opened ProfileText

  /** parse_ULong, from position `from` on. */
  method ReadNumber(s: string, from: nat) returns (n: Option<nat>, ptr: nat)
    requires from <= |s|
    ensures from <= ptr <= |s| && (n, s[ptr..]) == ParseULong(s[from..])
    ensures n.Some? ==> from < ptr
  {
    hide Continue;
    ptr := from;
    while ptr < |s| && IsSpace(s[ptr])
      invariant from <= ptr <= |s| && SkipSpaces(s[ptr..]) == SkipSpaces(s[from..])
    {
      assert s[ptr..][1..] == s[ptr + 1..];
      ptr := ptr + 1;
    }
    assert SkipSpaces(s[from..]) == s[ptr..];
    if ptr == |s| || !IsDigit(s[ptr]) { return None, ptr; }
    ghost var start := ptr;
    var u64 := 0;
    while ptr < |s| && IsDigit(s[ptr])
      invariant start <= ptr <= |s| && TakeDigits(u64, s[ptr..]) == TakeDigits(0, s[start..])
      invariant ptr == start ==> ptr < |s| && IsDigit(s[ptr])
    {
      assert s[ptr..][1..] == s[ptr + 1..];
      u64 := Continue(u64, s[ptr]);
      ptr := ptr + 1;
    }
    n := Some(u64);
  }

  /** splitUpCountsLine */
  method SplitUpCountsLine(s: string, least: nat) returns (r: Option<Counts>)
    ensures r == SplitUp(s, least)
  {
    hide ParseULong;
    var ns: seq<nat>, ptr := [], 0;
    assert s[0..] == s;
    ghost var all := Numbers(s);
    assert ns + all.0 == all.0;
    while true
      invariant 0 <= ptr <= |s| && all == (ns + Numbers(s[ptr..]).0, Numbers(s[ptr..]).1)
      decreases |s| - ptr
    {
      var n, next := ReadNumber(s, ptr);
      ghost var before := s[ptr..];
      ptr := next;
      if n.None? {
        assert Numbers(before) == ([], s[ptr..]) && ns + [] == ns;
        break;
      }
      ghost var more := Numbers(s[ptr..]);
      assert Numbers(before) == ([n.value] + more.0, more.1);
      assert ns + ([n.value] + more.0) == (ns + [n.value]) + more.0;
      ns := ns + [n.value];
    }
    if ptr < |s| || |ns| < least { return None; }
    r := Some(ns);
  }

  /** readline, from position `from` on. */
  method NextLine(text: string, from: nat) returns (line: Option<string>, next: nat)
    requires from <= |text|
    ensures from <= next <= |text| && (line, text[next..]) == ReadLine(text[from..])
    ensures line.Some? ==> from < next
  {
    if from == |text| { return None, from; }
    next := from;
    while next < |text| && text[next] != NL
      invariant from <= next <= |text| && forall i :: from <= i < next ==> text[i] != NL
    {
      next := next + 1;
    }
    NewlineAt(text[from..], next - from);
    assert text[from..][..next - from] == text[from..next];
    line := Some(CString(text[from..next]));
    if next < |text| {
      assert text[from..][next - from + 1..] == text[next + 1..];
      next := next + 1;
    } else {
      assert text[next..] == "";
    }
  }

  lemma {:induction false} NewlineAt(text: string, k: nat)
    requires text != "" && k <= |text| && (forall i :: 0 <= i < k ==> text[i] != NL) && (k < |text| ==> text[k] == NL)
    ensures UpToNewline(text) == (text[..k], if k < |text| then text[k + 1..] else "")
    decreases |text|
  {
    if k == 0 {
      assert text[..k] == "";
    } else if |text| == 1 {
      assert text[..k] == text;
    } else {
      NewlineAt(text[1..], k - 1);
      assert text[..k] == [text[0]] + text[1..][..k - 1];
      if k < |text| { assert text[1..][k..] == text[k + 1..]; }
    }
  }

  lemma LinesNext(text: string, from: nat, line: Option<string>, next: nat)
    requires from <= next <= |text| && (line, text[next..]) == ReadLine(text[from..])
    ensures Lines(text[from..]) == if line.None? then [] else [line.value] + Lines(text[next..])
  {
    hide ReadLine;
  }

  /** n_events: transitions from a space to a letter. */
  method CountTransitions(s: string) returns (n: nat)
    ensures n == CountEvents(s)
  {
    n := 0;
    var i := 0;
    assert s[0..] == s;
    while i + 1 < |s|
      invariant 0 <= i <= |s| && n + CountEvents(s[i..]) == CountEvents(s)
    {
      assert s[i..][1..] == s[i + 1..];
      if s[i] == ' ' && IsAlpha(s[i + 1]) { n := n + 1; }
      i := i + 1;
    }
  }

  /** The state of the body loop as a value. */
  ghost function BodyOf(p: ProfileFile, fl: string, fn: string): Body
    reads p, Vecs(p.outer), p.summary
  {
    Body(p.Value(), p.summary[..], fl, fn)
  }

  /** handle_counts on a line of text. */
  method HandleLine(p: ProfileFile, fl: string, fn: string, line: string) returns (ok: bool)
    requires p.Valid() && p.Consistent()
    modifies p`outer, p.Repr()
    ensures p.Valid() && p.Consistent()
    ensures BodyOk(old(BodyOf(p, fl, fn)), p.events)
    ensures CountsLine(old(BodyOf(p, fl, fn)), line, p.events) == if ok then Some(BodyOf(p, fl, fn)) else None
    ensures p.Repr() >= old(p.Repr()) && forall v :: v in p.Repr() && v !in old(p.Repr()) ==> fresh(v)
  {
    hide Numbers, AddLine, OuterOk, ProfileFile.Valid, ProfileFile.Value, ProfileFile.Consistent, Vecs, Add;
    p.ValidValue();
    p.VecsAllocated();
    var ns := SplitUpCountsLine(line, 2);
    if ns.None? { return false; }
    NumbersAreWords(line);
    ok := |ns.value| == p.events + 1;
    if !ok { return; }
    var c := new nat[p.events](i requires 0 <= i < p.events => ns.value[i + 1]);
    assert c[..] == ns.value[1..];
    var _ := p.HandleCounts(FileFn(fl, fn), ns.value[0], c);
  }

  lemma BodyIsOk(p: ProfileFile, fl: string, fn: string)
    requires p.Valid()
    ensures BodyOk(BodyOf(p, fl, fn), p.events)
  {
    p.ValidValue();
  }

  /** One line of the body. */
  lemma BodyStep(line: string, rest: seq<string>, b: Body, n: nat)
    requires BodyOk(b, n)
    ensures ParseBody([], b, n) == None && BodyOk(b.(fn := line), n) && BodyOk(b.(fl := line), n)
    ensures line != "" && IsDigit(line[0]) ==>
              ParseBody([line] + rest, b, n) ==
              (if CountsLine(b, line, n).None? then None else ParseBody(rest, CountsLine(b, line, n).value, n))
    ensures !(line != "" && IsDigit(line[0])) ==>
              ParseBody([line] + rest, b, n) ==
              (if StartsWith(line, "fn=") then ParseBody(rest, b.(fn := line[3..]), n)
               else if StartsWith(line, "fl=") then ParseBody(rest, b.(fl := line[3..]), n)
               else if StartsWith(line, "summary: ") then Some((b, line, rest))
               else None)
  {
    hide CountsLine, OuterOk;
    assert ([line] + rest)[0] == line && ([line] + rest)[1..] == rest;
  }

  datatype LineKind = Data | Summary | Junk

  /** One round of the loop over the data lines; `rest` is what follows the line. */
  method ReadDataLine(p: ProfileFile, fl: string, fn: string, line: string, ghost rest: seq<string>)
    returns (kind: LineKind, fl': string, fn': string)
    requires p.Valid() && p.Consistent()
    modifies p`outer, p.Repr()
    ensures p.Valid() && p.Consistent()
    ensures BodyOk(old(BodyOf(p, fl, fn)), p.events) && BodyOk(BodyOf(p, fl', fn'), p.events)
    ensures var b := old(BodyOf(p, fl, fn));
            ParseBody([line] + rest, b, p.events) ==
            match kind
            case Data => ParseBody(rest, BodyOf(p, fl', fn'), p.events)
            case Summary => Some((BodyOf(p, fl', fn'), line, rest))
            case Junk => None
    ensures p.Repr() >= old(p.Repr()) && forall v :: v in p.Repr() && v !in old(p.Repr()) ==> fresh(v)
  {
    hide ProfileFile.Valid, ProfileFile.Value, ProfileFile.Consistent, ProfileFile.Repr, Vecs, CountsLine, BodyOk, ParseBody;
    BodyIsOk(p, fl, fn);
    BodyStep(line, rest, BodyOf(p, fl, fn), p.events);
    kind, fl', fn' := Data, fl, fn;
    if line != "" && IsDigit(line[0]) {
      var ok := HandleLine(p, fl, fn, line);
      BodyIsOk(p, fl, fn);
      if !ok { kind := Junk; }
    } else if StartsWith(line, "fn=") {
      fn' := line[3..];
      BodyIsOk(p, fl, fn');
    } else if StartsWith(line, "fl=") {
      fl' := line[3..];
      BodyIsOk(p, fl', fn);
    } else if StartsWith(line, "summary: ") {
      kind := Summary;
    } else {
      kind := Junk;
    }
  }

  /** What reading the body comes to: the summary line, the lines after it and the profile read. */
  ghost predicate BodyRead(goal: Option<(Body, string, seq<string>)>, summary: Option<string>, rest: seq<string>,
                           outer: Outer, sums: Counts) {
    if goal.None? then summary.None?
    else
      && summary == Some(goal.value.1) && rest == goal.value.2
      && outer == goal.value.0.outer && sums == goal.value.0.summary
  }

  /** The loop over the data lines: the summary line and where it ends, or None for a parse error. */
  method ReadBody(p: ProfileFile, text: string, from: nat) returns (summary: Option<string>, next: nat)
    requires from <= |text| && p.Valid() && p.Consistent()
    modifies p`outer, p.Repr()
    ensures p.Valid() && p.Consistent() && next <= |text|
    ensures forall v :: v in p.Repr() && v !in old(p.Repr()) ==> fresh(v)
    ensures BodyOk(old(BodyOf(p, UNKNOWN, UNKNOWN)), p.events)
    ensures BodyRead(ParseBody(Lines(text[from..]), old(BodyOf(p, UNKNOWN, UNKNOWN)), p.events),
                     summary, Lines(text[next..]), p.Value(), p.summary[..])
  {
    hide ProfileFile.Valid, ProfileFile.Value, ProfileFile.Consistent, ProfileFile.Repr, Vecs, CountsLine, ReadLine, BodyOk;
    hide ParseBody, Lines;
    var fl, fn := UNKNOWN, UNKNOWN;
    next := from;
    BodyIsOk(p, fl, fn);
    ghost var goal, repr := ParseBody(Lines(text[from..]), BodyOf(p, fl, fn), p.events), p.Repr();
    while true
      invariant next <= |text| && p.Valid() && p.Consistent() && BodyOk(BodyOf(p, fl, fn), p.events)
      invariant ParseBody(Lines(text[next..]), BodyOf(p, fl, fn), p.events) == goal
      invariant p.Repr() >= repr && forall v :: v in p.Repr() && v !in repr ==> fresh(v)
      decreases |text| - next
    {
      var line, after := NextLineFor(p, text, next);
      if line.None? {
        BodyStep("", [], BodyOf(p, fl, fn), p.events);
        return None, next;
      }
      next := after;
      label L:
      var kind;
      kind, fl, fn := ReadDataLine(p, fl, fn, line.value, Lines(text[after..]));
      forall v | v in p.Repr() && v !in repr ensures fresh(v) {
        assert old(allocated(v)) ==> old@L(allocated(v));
      }
      match kind
      case Data =>
      case Summary => return line, next;
      case Junk => return None, next;
    }
  }

  /** readline, which leaves the profile alone. */
  method NextLineFor(p: ProfileFile, text: string, from: nat) returns (line: Option<string>, next: nat)
    requires from <= |text| && p.Valid() && p.Consistent()
    ensures from <= next <= |text| && (line.Some? ==> from < next)
    ensures Lines(text[from..]) == if line.None? then [] else [line.value] + Lines(text[next..])
    ensures p.Valid() && p.Consistent() && p.Value() == old(p.Value()) && p.summary[..] == old(p.summary[..])
  {
    hide ProfileFile.Valid, ProfileFile.Value, ProfileFile.Consistent, ReadLine;
    p.VecsAllocated();
    line, next := NextLine(text, from);
    LinesNext(text, from, line, next);
  }

  /** The description lines, and the line that ends them. */
  method ReadDesc(text: string) returns (desc: seq<string>, line: Option<string>, next: nat)
    ensures next <= |text| && DescLines(Lines(text)) == |desc|
    ensures Lines(text) == desc + if line.None? then [] else [line.value] + Lines(text[next..])
  {
    hide ReadLine;
    desc, next := [], 0;
    ghost var all := Lines(text);
    assert text[0..] == text;
    while true
      invariant next <= |text| && all == desc + Lines(text[next..])
      invariant forall i :: 0 <= i < |desc| ==> StartsWith(desc[i], "desc: ")
      decreases |text| - next
    {
      ghost var before := Lines(text[next..]);
      var after;
      line, after := NextLine(text, next);
      LinesNext(text, next, line, after);
      next := after;
      if line.None? || !StartsWith(line.value, "desc: ") {
        DescEnds(desc, before);
        break;
      }
      assert desc + ([line.value] + Lines(text[next..])) == (desc + [line.value]) + Lines(text[next..]);
      desc := desc + [line.value];
    }
  }

  lemma {:induction false} DescEnds(desc: seq<string>, rest: seq<string>)
    requires forall i :: 0 <= i < |desc| ==> StartsWith(desc[i], "desc: ")
    requires rest == [] || !StartsWith(rest[0], "desc: ")
    ensures DescLines(desc + rest) == |desc|
    decreases |desc|
  {
    hide StartsWith;
    if desc == [] {
      assert desc + rest == rest;
    } else {
      assert (desc + rest)[1..] == desc[1..] + rest;
      DescEnds(desc[1..], rest);
    }
  }

  /** What Parse makes of a header and what follows it. */
  lemma ParseSteps(lines: seq<string>, desc: seq<string>, tail: seq<string>)
    requires lines == desc + tail && DescLines(lines) == |desc|
    ensures desc == [] || tail == [] || !StartsWith(tail[0], "cmd: ") ==> Parse(lines) == None
    ensures |tail| == 1 || (|tail| > 1 && !StartsWith(tail[1], "events: ")) ==> Parse(lines) == None
    ensures desc != [] && |tail| >= 2 && StartsWith(tail[0], "cmd: ") && StartsWith(tail[1], "events: ") ==>
              Parse(lines) == ParseRest(desc, tail[0], tail[1], tail[2..])
  {
    hide ParseBody, SplitUp, CountEvents;
    var d := |desc|;
    assert lines[..d] == desc;
    if |tail| >= 1 { assert lines[d] == tail[0]; }
    if |tail| >= 2 { assert lines[d + 1] == tail[1] && lines[d + 2..] == tail[2..]; }
  }

  /** The part of Parse after the events line. */
  ghost function ParseRest(desc: seq<string>, cmd: string, events: string, lines: seq<string>): Option<Doc>
    requires |events| >= 6
  {
    var n := CountEvents(events[6..]);
    var body := ParseBody(lines, Body(map[], Zero(n), UNKNOWN, UNKNOWN), n);
    if body.None? || body.value.2 != [] then None
    else
      var b := body.value.0;
      var stated := SplitUp(body.value.1[8..], 1);
      if stated.None? || stated.value != b.summary then None
      else Some(Doc(desc, cmd, events, b.outer, b.summary))
  }

  /** From the events line on. */
  method ReadRest(text: string, from: nat, ghost desc: seq<string>, ghost cmd: string, events: string)
    returns (p: ProfileFile?)
    requires from <= |text| && |events| >= 6
    ensures p == null <==> ParseRest(desc, cmd, events, Lines(text[from..])) == None
    ensures p != null ==> fresh(p) && (forall v :: v in p.Repr() ==> fresh(v))
    ensures p != null ==> p.Valid() && p.Consistent() && p.eventsLine == events
    ensures p != null ==> ParseRest(desc, cmd, events, Lines(text[from..])) ==
                          Some(Doc(desc, cmd, events, p.Value(), p.summary[..]))
    ensures p != null ==> p.events == CountEvents(events[6..])
  {
    hide ProfileFile.Valid, ProfileFile.Consistent, ParseBody, SplitUp, CountEvents, ReadLine, BodyOk;
    var n := CountTransitions(events[6..]);
    var q := new ProfileFile(events, n);
    BodyIsOk(q, UNKNOWN, UNKNOWN);
    assert BodyOf(q, UNKNOWN, UNKNOWN) == Body(map[], Zero(n), UNKNOWN, UNKNOWN);
    ghost var repr := q.Repr();
    assert forall v :: v in repr ==> fresh(v);
    hide ProfileFile.Value, ProfileFile.Repr;
    var line, next := ReadBody(q, text, from);
    if line.None? { return null; }
    q.VecsAllocated();
    var more := AtEnd(text, next);
    var stated := SplitUpCountsLine(line.value[8..], 1);
    if more || stated.None? || stated.value != q.summary[..] { return null; }
    p := q;
  }

  method AtEnd(text: string, from: nat) returns (more: bool)
    requires from <= |text|
    ensures more <==> Lines(text[from..]) != []
  {
    hide ReadLine;
    var line, next := NextLine(text, from);
    LinesNext(text, from, line, next);
    more := line.Some?;
  }

  /** parse_CacheProfFile: null stands for a parse error. */
  method ParseFile(text: string) returns (p: ProfileFile?, desc: seq<string>, cmd: string)
    ensures p == null <==> Parse(Lines(text)) == None
    ensures p != null ==> fresh(p) && (forall v :: v in p.Repr() ==> fresh(v))
    ensures p != null ==> p.Valid() && p.Consistent()
    ensures p != null ==> Parse(Lines(text)) == Some(Doc(desc, cmd, p.eventsLine, p.Value(), p.summary[..]))
  {
    hide ProfileFile.Valid, ProfileFile.Consistent, ProfileFile.Value, ProfileFile.Repr, ParseRest, Parse, ReadLine, CountEvents;
    var line, next;
    desc, line, next := ReadDesc(text);
    cmd := "";
    ghost var tail := if line.None? then [] else [line.value] + Lines(text[next..]);
    ParseSteps(Lines(text), desc, tail);
    if desc == [] || line.None? || !StartsWith(line.value, "cmd: ") { return null, desc, cmd; }
    cmd := line.value;
    ghost var before := Lines(text[next..]);
    var events, after := NextLine(text, next);
    LinesNext(text, next, events, after);
    assert tail[1..] == before;
    if events.None? || !StartsWith(events.value, "events: ") { return null, desc, cmd; }
    assert tail[2..] == Lines(text[after..]);
    p := ReadRest(text, after, desc, cmd, events.value);
  }
}
