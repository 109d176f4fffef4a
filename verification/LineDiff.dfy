/**
 * The formatter's mismatch report: splitting a text into lines, and an edit script that turns the
 * current lines into the expected ones.
 */
module LineDiff {
  import opened Words

  const NEWLINE: Byte := 0x0a

  type Text = seq<Byte>

  datatype Span = Span(start: nat, end: nat)

  function Slice(src: Text, s: Span): Text {
    if s.start <= s.end <= |src| then src[s.start..s.end] else []
  }

  // ---- lines ------------------------------------------------------------------------------------

  function Newlines(src: Text): nat {
    if src == [] then 0 else (if src[0] == NEWLINE then 1 else 0) + Newlines(src[1..])
  }

  function Split(src: Text): (lines: seq<Text>)
    ensures |lines| > 0
  {
    if src == [] then [[]]
    else if src[0] == NEWLINE then [[]] + Split(src[1..])
    else
      var rest := Split(src[1..]);
      [[src[0]] + rest[0]] + rest[1..]
  }

  function Join(lines: seq<Text>): Text {
    if lines == [] then []
    else if |lines| == 1 then lines[0]
    else lines[0] + [NEWLINE] + Join(lines[1..])
  }

  /** Joining the lines with newlines gives the text back, and there is one line more than newlines. */
  lemma {:induction false} SplitJoins(src: Text)
    ensures Join(Split(src)) == src && |Split(src)| == Newlines(src) + 1
    ensures forall i :: 0 <= i < |Split(src)| ==> NEWLINE !in Split(src)[i]
  {
    if src != [] {
      SplitJoins(src[1..]);
      var rest := Split(src[1..]);
      if src[0] == NEWLINE {
        assert Split(src)[1..] == rest;
        assert src == [] + [NEWLINE] + src[1..];
      } else {
        assert Split(src)[1..] == rest[1..];
        assert src == [src[0]] + src[1..];
        assert Join(Split(src)) == [src[0]] + Join(rest);
      }
    }
  }

  /** Only one list of newline-free lines joins to a given text. */
  lemma {:induction false} JoinSplits(lines: seq<Text>)
    requires |lines| > 0 && forall i :: 0 <= i < |lines| ==> NEWLINE !in lines[i]
    ensures Split(Join(lines)) == lines
    decreases |lines|
  {
    if |lines| == 1 {
      OneLine(lines[0]);
    } else {
      JoinSplits(lines[1..]);
      LineThen(lines[0], Join(lines[1..]));
      assert lines == [lines[0]] + lines[1..];
    }
  }

  lemma {:induction false} OneLine(line: Text)
    requires NEWLINE !in line
    ensures Split(line) == [line]
  {
    if line != [] {
      OneLine(line[1..]);
      assert [line[0]] + line[1..] == line;
    }
  }

  lemma {:induction false} LineThen(line: Text, rest: Text)
    requires NEWLINE !in line
    ensures Split(line + [NEWLINE] + rest) == [line] + Split(rest)
  {
    var all := line + [NEWLINE] + rest;
    if line == [] {
      assert all == [NEWLINE] + rest && all[1..] == rest;
    } else {
      LineThen(line[1..], rest);
      assert all[1..] == line[1..] + [NEWLINE] + rest;
      var tail := [line[1..]] + Split(rest);
      assert [line[0]] + tail[0] == line && tail[1..] == Split(rest);
    }
  }

  /** The lines of `src` from `start` on, as spans of `src`. */
  ghost predicate AreLines(src: Text, spans: seq<Span>, lines: seq<Text>) {
    |spans| == |lines| && forall i :: 0 <= i < |spans| ==>
      spans[i].start <= spans[i].end <= |src| && Slice(src, spans[i]) == lines[i]
  }

  lemma NextLine(src: Text, start: nat, end: nat)
    requires start <= end <= |src| && NEWLINE !in src[start..end]
    ensures end == |src| ==> Split(src[start..]) == [src[start..end]]
    ensures end < |src| && src[end] == NEWLINE ==> Split(src[start..]) == [src[start..end]] + Split(src[end + 1..])
  {
    if end == |src| {
      assert src[start..] == src[start..end];
      OneLine(src[start..end]);
    } else if src[end] == NEWLINE {
      assert src[start..] == src[start..end] + [NEWLINE] + src[end + 1..];
      LineThen(src[start..end], src[end + 1..]);
    }
  }

  method CountLines(src: Text) returns (cap: nat)
    ensures cap == |Split(src)|
  {
    cap := 1;
    var i := 0;
    assert src[0..] == src;
    while i < |src|
      invariant 0 <= i <= |src| && cap + Newlines(src[i..]) == Newlines(src) + 1
    {
      assert src[i..][1..] == src[i + 1..];
      if src[i] == NEWLINE {
        cap := cap + 1;
      }
      i := i + 1;
    }
    SplitJoins(src);
  }

  method LineEnd(src: Text, start: nat) returns (end: nat)
    requires start <= |src|
    ensures start <= end <= |src| && NEWLINE !in src[start..end] && (end < |src| ==> src[end] == NEWLINE)
  {
    end := start;
    while end < |src| && src[end] != NEWLINE
      invariant start <= end <= |src| && NEWLINE !in src[start..end]
    {
      end := end + 1;
    }
  }

  /** The line from `start` to `end` is the next of all lines. */
  lemma LineFound(src: Text, start: nat, end: nat, spans: seq<Span>, n: nat)
    requires start <= end <= |src| && NEWLINE !in src[start..end] && (end < |src| ==> src[end] == NEWLINE)
    requires n < |Split(src)| && Split(src[start..]) == Split(src)[n..] && AreLines(src, spans, Split(src)[..n])
    ensures AreLines(src, spans + [Span(start, end)], Split(src)[..n + 1])
    ensures if end == |src| then n + 1 == |Split(src)|
      else n + 1 < |Split(src)| && Split(src[end + 1..]) == Split(src)[n + 1..]
  {
    hide Split;
    var all := Split(src);
    NextLine(src, start, end);
    assert all[n..][0] == all[n] == src[start..end];
    assert all[..n + 1] == all[..n] + [all[n]];
    if end < |src| {
      assert all[n + 1..] == all[n..][1..] == Split(src[end + 1..]);
      assert |all[n..]| == 1 + |Split(src[end + 1..])|;
    } else {
      assert |all[n..]| == 1;
    }
  }

  /** A first pass counts the lines; the table of that size is then filled exactly. */
  method BuildLines(src: Text) returns (lines: array<Span>)
    ensures fresh(lines) && AreLines(src, lines[..], Split(src))
  {
    hide Split, Slice, AreLines;
    var cap := CountLines(src);
    lines := new Span[cap](i => Span(0, 0));
    ghost var all := Split(src);
    var lineLen, start, more := 0, 0, true;
    NoLines(src);
    assert src[0..] == src && all[0..] == all;
    assert lines[..0] == [];
    while more
      invariant 0 <= start <= |src| && lineLen <= |all| == lines.Length
      invariant if more then Split(src[start..]) == all[lineLen..] && lineLen < |all| else lineLen == |all|
      invariant AreLines(src, lines[..lineLen], all[..lineLen])
      decreases more, |src| - start
    {
      var end := LineEnd(src, start);
      ghost var was := lines[..lineLen];
      LineFound(src, start, end, was, lineLen);
      lines[lineLen] := Span(start, end);
      assert lines[..lineLen + 1] == was + [Span(start, end)];
      lineLen := lineLen + 1;
      if end >= |src| {
        more := false;
      } else {
        start := end + 1;
      }
    }
    assert lines[..] == lines[..lineLen] && all[..lineLen] == all;
  }

  lemma NoLines(src: Text)
    ensures AreLines(src, [], Split(src)[..0])
  {
  }

  // ---- the edit script ----------------------------------------------------------------------------

  datatype Step = Keep | Remove | Insert(line: Text) | Replace(line: Text)

  /** What the steps make of a list of lines; None if they do not fit it. */
  function ApplySteps(steps: seq<Step>, lines: seq<Text>): Option<seq<Text>> {
    if steps == [] then if lines == [] then Some([]) else None
    else match steps[0]
      case Insert(l) => Prefixed([l], ApplySteps(steps[1..], lines))
      case Keep => if lines == [] then None else Prefixed([lines[0]], ApplySteps(steps[1..], lines[1..]))
      case Remove => if lines == [] then None else ApplySteps(steps[1..], lines[1..])
      case Replace(l) => if lines == [] then None else Prefixed([l], ApplySteps(steps[1..], lines[1..]))
  }

  function Prefixed(a: seq<Text>, r: Option<seq<Text>>): Option<seq<Text>> {
    match r
    case None => None
    case Some(b) => Some(a + b)
  }

  function Issues(steps: seq<Step>): nat {
    if steps == [] then 0 else (if steps[0].Keep? then 0 else 1) + Issues(steps[1..])
  }

  lemma {:induction false} AppliesThen(a: seq<Step>, b: seq<Step>, x: seq<Text>, y: seq<Text>)
    requires ApplySteps(a, x).Some?
    ensures ApplySteps(a + b, x + y) == Prefixed(ApplySteps(a, x).value, ApplySteps(b, y))
    ensures Issues(a + b) == Issues(a) + Issues(b)
    decreases |a|
  {
    if a == [] {
      assert a + b == b && x + y == y;
      assert ApplySteps(b, y).Some? ==> [] + ApplySteps(b, y).value == ApplySteps(b, y).value;
    } else {
      assert (a + b)[0] == a[0] && (a + b)[1..] == a[1..] + b;
      if a[0].Insert? {
        AppliesThen(a[1..], b, x, y);
      } else {
        assert (x + y)[0] == x[0] && (x + y)[1..] == x[1..] + y;
        AppliesThen(a[1..], b, x[1..], y);
      }
      if ApplySteps(b, y).Some? {
        assert forall p: seq<Text>, q: seq<Text> ::
          p + (q + ApplySteps(b, y).value) == (p + q) + ApplySteps(b, y).value;
      }
    }
  }

  /** One step more, on the next current line and the next expected line. */
  lemma OneStep(steps: seq<Step>, step: Step, current: seq<Text>, expected: seq<Text>, i: nat, j: nat, i2: nat, j2: nat)
    requires i <= i2 <= |current| && j <= j2 <= |expected| && ApplySteps(steps, current[..i]) == Some(expected[..j])
    requires ApplySteps([step], current[i..i2]) == Some(expected[j..j2])
    ensures ApplySteps(steps + [step], current[..i2]) == Some(expected[..j2])
    ensures Issues(steps + [step]) == Issues(steps) + if step.Keep? then 0 else 1
  {
    AppliesThen(steps, [step], current[..i], current[i..i2]);
    assert current[..i2] == current[..i] + current[i..i2] && expected[..j2] == expected[..j] + expected[j..j2];
    assert [step][1..] == [];
  }

  lemma SingleSteps(a: Text, b: Text)
    ensures ApplySteps([Keep], [a]) == Some([a]) && ApplySteps([Remove], [a]) == Some([])
    ensures ApplySteps([Insert(b)], []) == Some([b]) && ApplySteps([Replace(b)], [a]) == Some([b])
  {
    var none: seq<Text> := [];
    assert ApplySteps([], none) == Some(none);
    assert [a][1..] == none && [a] + none == [a] && [b] + none == [b];
  }

  /** Without issues every line was kept. */
  lemma {:induction false} NoIssuesNoChange(steps: seq<Step>, lines: seq<Text>)
    requires ApplySteps(steps, lines).Some? && Issues(steps) == 0
    ensures ApplySteps(steps, lines) == Some(lines)
    decreases |steps|
  {
    if steps != [] {
      NoIssuesNoChange(steps[1..], lines[1..]);
      assert [lines[0]] + lines[1..] == lines;
    }
  }

  // ---- which steps are reported -------------------------------------------------------------------

  /** The step at the head of two lists: a line is kept, or looked for one line further on in either,
      before it is replaced. */
  function Choose(current: seq<Text>, expected: seq<Text>): Step
    requires current != [] || expected != []
  {
    if current == [] then Insert(expected[0])
    else if expected == [] then Remove
    else if current[0] == expected[0] then Keep
    else if |current| > 1 && current[1] == expected[0] then Remove
    else if |expected| > 1 && current[0] == expected[1] then Insert(expected[0])
    else Replace(expected[0])
  }

  function Taken(step: Step): nat { if step.Insert? then 0 else 1 }

  function Given(step: Step): nat { if step.Remove? then 0 else 1 }

  function Script(current: seq<Text>, expected: seq<Text>): seq<Step>
    decreases |current| + |expected|
  {
    if current == [] && expected == [] then []
    else
      var step := Choose(current, expected);
      [step] + Script(current[Taken(step)..], expected[Given(step)..])
  }

  lemma {:induction false} SameScript(lines: seq<Text>)
    ensures Issues(Script(lines, lines)) == 0
  {
    if lines != [] {
      SameScript(lines[1..]);
      assert Script(lines, lines)[1..] == Script(lines[1..], lines[1..]);
    }
  }

  /** A common beginning is kept. */
  lemma {:induction false} CommonStart(a: seq<Text>, x: seq<Text>, y: seq<Text>)
    ensures Issues(Script(a + x, a + y)) == Issues(Script(x, y))
    decreases |a|
  {
    if a == [] {
      assert a + x == x && a + y == y;
    } else {
      assert (a + x)[1..] == a[1..] + x && (a + y)[1..] == a[1..] + y;
      CommonStart(a[1..], x, y);
      assert Script(a + x, a + y)[1..] == Script(a[1..] + x, a[1..] + y);
    }
  }

  /** One line too many, wherever it is, is one issue. */
  lemma {:induction false} OneRemoved(x: Text, b: seq<Text>)
    ensures Issues(Script([x] + b, b)) == 1
    decreases |b|
  {
    var all := [x] + b;
    assert all[1..] == b;
    var steps := Script(all, b);
    if b == [] {
      assert steps[1..] == Script(b, b);
    } else if x == b[0] {
      OneRemoved(b[0], b[1..]);
      assert b == [b[0]] + b[1..];
      assert steps[1..] == Script(b, b[1..]);
    } else {
      SameScript(b);
      assert steps[1..] == Script(b, b);
    }
  }

  /** The line after a missing one is not the missing one: otherwise the script takes the line in between
      for one too many. */
  predicate NoEcho(x: Text, b: seq<Text>)
    decreases |b|
  {
    b == [] || if b[0] == x then NoEcho(x, b[1..]) else |b| == 1 || b[1] != x
  }

  /** One line that is missing is one issue, unless it comes back behind the next line. */
  lemma {:induction false} OneInserted(x: Text, b: seq<Text>)
    requires NoEcho(x, b)
    ensures Issues(Script(b, [x] + b)) == 1
    decreases |b|
  {
    var all := [x] + b;
    assert all[1..] == b;
    var steps := Script(b, all);
    if b == [] {
      assert steps[1..] == Script(b, b);
    } else if b[0] == x {
      OneInserted(x, b[1..]);
      assert b == [x] + b[1..];
      assert steps[1..] == Script(b[1..], b);
    } else {
      SameScript(b);
      assert steps[1..] == Script(b, b);
    }
  }

  /** One line that differs is one issue, if the next lines do not look like it. */
  lemma OneReplaced(x: Text, y: Text, b: seq<Text>)
    requires x != y && (b == [] || (b[0] != x && b[0] != y))
    ensures Issues(Script([x] + b, [y] + b)) == 1
  {
    var p, q := [x] + b, [y] + b;
    assert p[1..] == b && q[1..] == b;
    SameScript(b);
    assert Script(p, q)[1..] == Script(b, b);
  }

  /** The report of a single change. */
  lemma SingleChanges(a: seq<Text>, x: Text, y: Text, b: seq<Text>)
    ensures Issues(Script(a + [x] + b, a + b)) == 1
    ensures NoEcho(x, b) ==> Issues(Script(a + b, a + [x] + b)) == 1
    ensures x != y && (b == [] || (b[0] != x && b[0] != y)) ==> Issues(Script(a + [x] + b, a + [y] + b)) == 1
  {
    assert a + [x] + b == a + ([x] + b) && a + [y] + b == a + ([y] + b);
    CommonStart(a, [x] + b, b);
    OneRemoved(x, b);
    if NoEcho(x, b) {
      CommonStart(a, b, [x] + b);
      OneInserted(x, b);
    }
    if x != y && (b == [] || (b[0] != x && b[0] != y)) {
      CommonStart(a, [x] + b, [y] + b);
      OneReplaced(x, y, b);
    }
  }

  /** The comparison loop, with the steps it reports. */
  method CompareLines(current: seq<Text>, expected: seq<Text>) returns (steps: seq<Step>, issues: nat)
    ensures ApplySteps(steps, current) == Some(expected) && issues == Issues(steps)
    ensures steps == Script(current, expected)
    ensures issues == 0 <==> current == expected
  {
    hide ApplySteps, Issues, Script;
    steps, issues := [], 0;
    NothingApplied();
    var i, j := 0, 0;
    assert current[..0] == [] && expected[..0] == [] && current[0..] == current && expected[0..] == expected;
    while i < |current| || j < |expected|
      invariant i <= |current| && j <= |expected|
      invariant ApplySteps(steps, current[..i]) == Some(expected[..j]) && issues == Issues(steps)
      invariant current == expected ==> i == j && issues == 0
      invariant steps + Script(current[i..], expected[j..]) == Script(current, expected)
      decreases |current| - i + |expected| - j
    {
      var step, i2, j2 := ChooseStep(current, expected, i, j);
      OneStep(steps, step, current, expected, i, j, i2, j2);
      ScriptStep(current, expected, i, j);
      assert steps + ([step] + Script(current[i2..], expected[j2..])) == steps + [step] + Script(current[i2..],
        expected[j2..]);
      steps := steps + [step];
      if !step.Keep? {
        issues := issues + 1;
      }
      i, j := i2, j2;
    }
    assert current[..i] == current && expected[..j] == expected && current[i..] == [] && expected[j..] == [];
    ScriptEnds();
    if issues == 0 {
      NoIssuesNoChange(steps, current);
    }
  }

  lemma ScriptEnds()
    ensures Script([], []) == []
  {
  }

  lemma ScriptStep(current: seq<Text>, expected: seq<Text>, i: nat, j: nat)
    requires i <= |current| && j <= |expected| && (i < |current| || j < |expected|)
    ensures var step := Choose(current[i..], expected[j..]);
      && i + Taken(step) <= |current| && j + Given(step) <= |expected|
      && Script(current[i..], expected[j..])
         == [step] + Script(current[i + Taken(step)..], expected[j + Given(step)..])
  {
    var step := Choose(current[i..], expected[j..]);
    assert current[i..][Taken(step)..] == current[i + Taken(step)..];
    assert expected[j..][Given(step)..] == expected[j + Given(step)..];
  }

  lemma NothingApplied()
    ensures ApplySteps([], []) == Some([]) && Issues([]) == 0
  {
  }

  /** A line is kept, or looked for one line further on either side, before it is replaced. */
  method ChooseStep(current: seq<Text>, expected: seq<Text>, i: nat, j: nat) returns (step: Step, i2: nat, j2: nat)
    requires i <= |current| && j <= |expected| && (i < |current| || j < |expected|)
    ensures i <= i2 <= |current| && j <= j2 <= |expected| && i + j < i2 + j2
    ensures ApplySteps([step], current[i..i2]) == Some(expected[j..j2])
    ensures i < |current| && j < |expected| && current[i] == expected[j] ==> step.Keep? && i2 == i + 1 && j2 == j + 1
    ensures step.Keep? ==> i < |current| && j < |expected| && current[i] == expected[j]
    ensures step == Choose(current[i..], expected[j..]) && i2 == i + Taken(step) && j2 == j + Given(step)
  {
    hide ApplySteps;
    if i < |current| && j < |expected| {
      SingleSteps(current[i], expected[j]);
      assert current[i..i + 1] == [current[i]] && expected[j..j + 1] == [expected[j]];
      assert current[i..i] == [] && expected[j..j] == [];
      if current[i] == expected[j] {
        return Keep, i + 1, j + 1;
      }
      if i + 1 < |current| && current[i + 1] == expected[j] {
        return Remove, i + 1, j;
      }
      if j + 1 < |expected| && current[i] == expected[j + 1] {
        return Insert(expected[j]), i, j + 1;
      }
      return Replace(expected[j]), i + 1, j + 1;
    }
    if i < |current| {
      SingleSteps(current[i], []);
      assert current[i..i + 1] == [current[i]] && expected[j..j] == [];
      return Remove, i + 1, j;
    }
    SingleSteps([], expected[j]);
    assert expected[j..j + 1] == [expected[j]] && current[i..i] == [];
    return Insert(expected[j]), i, j + 1;
  }

  /** The whole report: a correct edit script, with no issues exactly on identical texts. */
  method Report(current: Text, expected: Text) returns (steps: seq<Step>, issues: nat)
    ensures ApplySteps(steps, Split(current)) == Some(Split(expected)) && issues == Issues(steps)
    ensures steps == Script(Split(current), Split(expected))
    ensures issues == 0 <==> current == expected
  {
    var a := BuildLines(current);
    var b := BuildLines(expected);
    var xs := Materialise(current, a, Split(current));
    var ys := Materialise(expected, b, Split(expected));
    steps, issues := CompareLines(xs, ys);
    SplitJoins(current);
    SplitJoins(expected);
  }

  method Materialise(src: Text, spans: array<Span>, ghost lines: seq<Text>) returns (r: seq<Text>)
    requires AreLines(src, spans[..], lines)
    ensures r == lines
  {
    r := [];
    var i := 0;
    while i < spans.Length
      invariant 0 <= i <= spans.Length && r == lines[..i]
    {
      assert spans[..][i] == spans[i];
      r := r + [Slice(src, spans[i])];
      i := i + 1;
    }
  }

  // ---- equality up to white space -------------------------------------------------------------------

  predicate IsSpace(b: Byte) {
    b == 0x20 || 0x09 <= b <= 0x0d
  }

  function Strip(s: Text): Text {
    if s == [] then [] else (if IsSpace(s[0]) then [] else [s[0]]) + Strip(s[1..])
  }

  method SkipSpace(s: Text, from: nat) returns (to: nat)
    requires from <= |s|
    ensures from <= to <= |s| && Strip(s[from..]) == Strip(s[to..]) && (to < |s| ==> !IsSpace(s[to]))
  {
    to := from;
    while to < |s| && IsSpace(s[to])
      invariant from <= to <= |s| && Strip(s[from..]) == Strip(s[to..])
    {
      assert s[to..][1..] == s[to + 1..];
      to := to + 1;
    }
  }

  /** Two cursors that step over white space independently. */
  method EqualButForSpace(a: Text, b: Text) returns (same: bool)
    ensures same <==> Strip(a) == Strip(b)
  {
    var ai, bi := 0, 0;
    assert a[0..] == a && b[0..] == b;
    while ai < |a| || bi < |b|
      invariant ai <= |a| && bi <= |b|
      invariant (Strip(a) == Strip(b)) <==> (Strip(a[ai..]) == Strip(b[bi..]))
      decreases |a| - ai + |b| - bi
    {
      ai := SkipSpace(a, ai);
      bi := SkipSpace(b, bi);
      if ai >= |a| || bi >= |b| {
        break;
      }
      assert a[ai..][1..] == a[ai + 1..] && b[bi..][1..] == b[bi + 1..];
      StripSplit(a[ai..], b[bi..]);
      if a[ai] != b[bi] {
        return false;
      }
      ai, bi := ai + 1, bi + 1;
    }
    ai := SkipSpace(a, ai);
    bi := SkipSpace(b, bi);
    same := ai == |a| && bi == |b|;
    AtEnd(a[ai..], b[bi..]);
  }

  lemma StripSplit(s: Text, t: Text)
    requires s != [] && t != [] && !IsSpace(s[0]) && !IsSpace(t[0])
    ensures Strip(s) == Strip(t) <==> s[0] == t[0] && Strip(s[1..]) == Strip(t[1..])
  {
    assert Strip(s)[0] == s[0] && Strip(s)[1..] == Strip(s[1..]);
    assert Strip(t)[0] == t[0] && Strip(t)[1..] == Strip(t[1..]);
  }

  lemma AtEnd(s: Text, t: Text)
    requires (s == [] || !IsSpace(s[0])) && (t == [] || !IsSpace(t[0])) && (s == [] || t == [])
    ensures Strip(s) == Strip(t) <==> s == [] && t == []
  {
  }
}
