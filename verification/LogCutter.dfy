/** `RcloneVerboseLogCutter`: a line transducer that drops most of rclone's progress reports from the job log. */
module LogCutter {
  import opened Prelude

  /** The line patterns: the first line of a progress report, and any line of one (the first pattern included). */
  datatype Patterns = Patterns(head: string -> bool, progress: string -> bool)

  ghost predicate PatternsOk(pt: Patterns) {
    forall l :: pt.head(l) ==> pt.progress(l)
  }

  /** `line.rstrip("\n")`. */
  function RStrip(line: string): string {
    if line != "" && line[|line| - 1] == '\n' then RStrip(line[..|line| - 1]) else line
  }

  /** Nothing is left of the line without its newlines. */
  predicate Blank(line: string) {
    RStrip(line) == ""
  }

  /** A blank line consists of newlines only. */
  lemma {:induction false} BlankMeans(line: string)
    ensures Blank(line) <==> forall i :: 0 <= i < |line| ==> line[i] == '\n'
  {
    if line != "" && line[|line| - 1] == '\n' {
      BlankMeans(line[..|line| - 1]);
      assert forall i :: 0 <= i < |line| - 1 ==> line[..|line| - 1][i] == line[i];
    }
  }

  function Join(lines: seq<string>): string {
    if lines == [] then "" else lines[0] + Join(lines[1..])
  }

  lemma {:induction false} JoinConcat(a: seq<string>, b: seq<string>)
    ensures Join(a + b) == Join(a) + Join(b)
  {
    if a == [] {
      assert a + b == b;
    } else {
      assert (a + b)[1..] == a[1..] + b;
      JoinConcat(a[1..], b);
    }
  }

  // ----- the transducer

  datatype State = State(buffer: seq<string>, counter: nat)

  /** The lines that `notify` writes to the log when given a line, and the state after it. */
  function Notified(pt: Patterns, interval: int, s: State, line: string): (State, seq<string>)
    requires interval != 0
  {
    if s.buffer == [] then
      if pt.head(line) then (s.(buffer := [line]), []) else (s, [line])
    else if Blank(line) then
      (State([], s.counter + 1), if s.counter % interval == 0 then s.buffer + [line] else [])
    else if pt.progress(line) then (s.(buffer := s.buffer + [line]), [])
    else if pt.head(line) then (s.(buffer := [line]), s.buffer)
    else (s.(buffer := []), s.buffer + [line])
  }

  /** A first line inside an open report never starts a new one: it is buffered like any other progress line, so the
      branch that would start again is not reached. */
  lemma HeadInsideIsBuffered(pt: Patterns, interval: int, s: State, line: string)
    requires PatternsOk(pt) && interval != 0 && s.buffer != [] && pt.head(line) && !Blank(line)
    ensures Notified(pt, interval, s, line) == (s.(buffer := s.buffer + [line]), [])
  {
  }

  /** Everything written to the log from state `s` on, the final flush included. */
  function Output(pt: Patterns, interval: int, s: State, lines: seq<string>): seq<string>
    requires interval != 0
    decreases |lines|
  {
    if lines == [] then s.buffer
    else
      var (s', out) := Notified(pt, interval, s, lines[0]);
      out + Output(pt, interval, s', lines[1..])
  }

  // ----- what it should do

  /** A stretch of log that is not a complete progress report, or one that is. */
  datatype Segment = Text(lines: seq<string>) | Block(lines: seq<string>)

  predicate Inner(pt: Patterns, line: string) {
    !Blank(line) && pt.progress(line)
  }

  /** A head line and inner lines: a progress report as far as it goes. */
  ghost predicate Open(pt: Patterns, ls: seq<string>) {
    ls != [] && pt.head(ls[0]) && forall i :: 0 < i < |ls| ==> Inner(pt, ls[i])
  }

  ghost predicate SegmentOk(pt: Patterns, g: Segment, last: bool) {
    match g
    case Block(ls) => |ls| > 1 && Open(pt, ls[..|ls| - 1]) && Blank(ls[|ls| - 1])
    case Text(ls) =>
      || (|ls| == 1 && !pt.head(ls[0]))
      || (|ls| > 1 && Open(pt, ls[..|ls| - 1]) && !Blank(ls[|ls| - 1]) && !pt.progress(ls[|ls| - 1]))
      || (last && Open(pt, ls))
  }

  /** Every segment is a complete report, a line outside reports, a report broken off by a foreign line, or, at the very
      end, a report still open. */
  ghost predicate Segmented(pt: Patterns, gs: seq<Segment>) {
    forall i :: 0 <= i < |gs| ==> SegmentOk(pt, gs[i], i == |gs| - 1)
  }

  function Flatten(gs: seq<Segment>): seq<string> {
    if gs == [] then [] else gs[0].lines + Flatten(gs[1..])
  }

  /** The text with the complete reports thinned out: of these, counted from `n`, only multiples of the interval
      stay. */
  function Thinned(gs: seq<Segment>, n: nat, interval: int): seq<string>
    requires interval != 0
  {
    if gs == [] then []
    else if gs[0].Text? then gs[0].lines + Thinned(gs[1..], n, interval)
    else (if n % interval == 0 then gs[0].lines else []) + Thinned(gs[1..], n + 1, interval)
  }

  // ----- the segmentation of a text

  /** Position of the first line from `i` on that is not an inner line. */
  function Extent(pt: Patterns, lines: seq<string>, i: nat): (n: nat)
    requires i <= |lines|
    ensures i <= n <= |lines|
    ensures n < |lines| ==> !Inner(pt, lines[n])
    ensures forall k :: i <= k < n ==> Inner(pt, lines[k])
    decreases |lines| - i
  {
    if i == |lines| || !Inner(pt, lines[i]) then i else Extent(pt, lines, i + 1)
  }

  function FirstSegment(pt: Patterns, lines: seq<string>): (g: Segment)
    requires lines != []
    ensures g.lines != [] && g.lines <= lines
    ensures SegmentOk(pt, g, |g.lines| == |lines|)
  {
    if !pt.head(lines[0]) then Text(lines[..1])
    else
      var n := Extent(pt, lines, 1);
      assert Open(pt, lines[..n]);
      if n == |lines| then
        assert lines[..n] == lines;
        Text(lines)
      else
        assert lines[..n + 1][..n] == lines[..n];
        if Blank(lines[n]) then Block(lines[..n + 1]) else Text(lines[..n + 1])
  }

  function Parse(pt: Patterns, lines: seq<string>): seq<Segment>
    decreases |lines|
  {
    if lines == [] then []
    else
      var g := FirstSegment(pt, lines);
      [g] + Parse(pt, lines[|g.lines|..])
  }

  lemma SegmentedCons(pt: Patterns, g: Segment, gs: seq<Segment>)
    requires SegmentOk(pt, g, gs == []) && Segmented(pt, gs)
    ensures Segmented(pt, [g] + gs) && Flatten([g] + gs) == g.lines + Flatten(gs)
  {
    assert ([g] + gs)[1..] == gs;
    forall i | 0 <= i < |[g] + gs|
      ensures SegmentOk(pt, ([g] + gs)[i], i == |gs|)
    {
      if i > 0 {
        assert SegmentOk(pt, gs[i - 1], i - 1 == |gs| - 1);
      }
    }
  }

  lemma {:induction false} ParseIsSegmentation(pt: Patterns, lines: seq<string>)
    ensures Flatten(Parse(pt, lines)) == lines && Segmented(pt, Parse(pt, lines))
    ensures lines != [] ==> Parse(pt, lines) != []
    decreases |lines|
  {
    if lines != [] {
      var g := FirstSegment(pt, lines);
      var rest := lines[|g.lines|..];
      ParseIsSegmentation(pt, rest);
      assert Parse(pt, rest) == [] <==> |g.lines| == |lines|;
      SegmentedCons(pt, g, Parse(pt, rest));
      assert lines == g.lines + rest;
    }
  }

  /** A well-formed first segment is the one `FirstSegment` finds. */
  lemma FirstIsForced(pt: Patterns, g: Segment, rest: seq<string>)
    requires PatternsOk(pt) && SegmentOk(pt, g, rest == [])
    ensures FirstSegment(pt, g.lines + rest) == g
  {
    var ls := g.lines;
    var lines := ls + rest;
    if pt.head(ls[0]) {
      var n := Extent(pt, lines, 1);
      if g.Text? && Open(pt, ls) && rest == [] {
        assert lines == ls;
        assert forall k :: 1 <= k < |lines| ==> Inner(pt, lines[k]);
      } else {
        var m := |ls| - 1;
        assert m > 0 && lines[m] == ls[m] && !Inner(pt, lines[m]);
        assert forall k :: 1 <= k < m ==> lines[k] == ls[..m][k] && Inner(pt, lines[k]);
        assert n == m;
        assert lines[..n + 1] == ls;
      }
    } else {
      assert g.Text? && |ls| == 1;
      assert lines[..1] == ls;
    }
  }

  /** In a segmented text the first segment is the one found. */
  lemma FirstFound(pt: Patterns, gs: seq<Segment>)
    requires PatternsOk(pt) && Segmented(pt, gs) && gs != []
    ensures gs[0].lines != [] && Flatten(gs) == gs[0].lines + Flatten(gs[1..])
    ensures FirstSegment(pt, Flatten(gs)) == gs[0]
  {
    var rest := Flatten(gs[1..]);
    assert SegmentOk(pt, gs[0], rest == []) by {
      assert SegmentOk(pt, gs[0], 0 == |gs| - 1);
      if |gs| > 1 {
        assert SegmentOk(pt, gs[1], 1 == |gs| - 1);
        assert rest == gs[1].lines + Flatten(gs[1..][1..]);
      }
    }
    FirstIsForced(pt, gs[0], rest);
  }

  lemma SegmentedTail(pt: Patterns, gs: seq<Segment>)
    requires Segmented(pt, gs) && gs != []
    ensures Segmented(pt, gs[1..])
  {
    forall i | 0 <= i < |gs[1..]|
      ensures SegmentOk(pt, gs[1..][i], i == |gs[1..]| - 1)
    {
      assert SegmentOk(pt, gs[i + 1], i + 1 == |gs| - 1);
    }
  }

  /** There is one way to segment a text, so "the n-th complete report" is well defined. */
  lemma {:induction false} SegmentationIsUnique(pt: Patterns, gs: seq<Segment>)
    requires PatternsOk(pt) && Segmented(pt, gs)
    ensures Parse(pt, Flatten(gs)) == gs
    decreases |gs|
  {
    if gs != [] {
      var ls, rest := gs[0].lines, Flatten(gs[1..]);
      FirstFound(pt, gs);
      SegmentedTail(pt, gs);
      SegmentationIsUnique(pt, gs[1..]);
      assert (ls + rest)[|ls|..] == rest;
      assert gs == [gs[0]] + gs[1..];
    }
  }

  // ----- the transducer does it

  lemma ParseOf(pt: Patterns, g: Segment, rest: seq<string>)
    requires PatternsOk(pt) && SegmentOk(pt, g, false)
    ensures Parse(pt, g.lines + rest) == [g] + Parse(pt, rest)
  {
    if rest == [] {
      assert SegmentOk(pt, g, true);
    }
    FirstIsForced(pt, g, rest);
    assert (g.lines + rest)[|g.lines|..] == rest;
  }

  lemma ThinnedOf(pt: Patterns, g: Segment, rest: seq<string>, n: nat, interval: int)
    requires PatternsOk(pt) && SegmentOk(pt, g, false) && interval != 0
    ensures Thinned(Parse(pt, g.lines + rest), n, interval)
         == (if g.Text? || n % interval == 0 then g.lines else [])
          + Thinned(Parse(pt, rest), if g.Text? then n else n + 1, interval)
  {
    ParseOf(pt, g, rest);
    assert ([g] + Parse(pt, rest))[1..] == Parse(pt, rest);
  }

  lemma OpenAtTheEnd(pt: Patterns, ls: seq<string>, n: nat, interval: int)
    requires PatternsOk(pt) && interval != 0 && Open(pt, ls)
    ensures Thinned(Parse(pt, ls), n, interval) == ls
  {
    FirstIsForced(pt, Text(ls), []);
    assert ls + [] == ls;
    assert Parse(pt, ls) == [Text(ls)];
    assert [Text(ls)][1..] == [];
  }

  ghost predicate StateOk(pt: Patterns, s: State) {
    s.buffer == [] || Open(pt, s.buffer)
  }

  /** A line that writes out the buffer, or itself, ends a segment. */
  lemma SegmentEnds(pt: Patterns, interval: int, s: State, x: string) returns (g: Segment)
    requires PatternsOk(pt) && interval != 0 && StateOk(pt, s)
    requires if s.buffer == [] then !pt.head(x) else !Inner(pt, x)
    ensures g.lines == s.buffer + [x] && SegmentOk(pt, g, false)
    ensures Notified(pt, interval, s, x)
         == (State([], if g.Text? then s.counter else s.counter + 1),
             if g.Text? || s.counter % interval == 0 then g.lines else [])
  {
    g := if s.buffer != [] && Blank(x) then Block(s.buffer + [x]) else Text(s.buffer + [x]);
    assert (s.buffer + [x])[..|s.buffer|] == s.buffer;
  }

  /** A line that goes into the buffer leaves a report open. */
  lemma ReportGoesOn(pt: Patterns, interval: int, s: State, x: string)
    requires PatternsOk(pt) && interval != 0 && StateOk(pt, s)
    requires if s.buffer == [] then pt.head(x) else Inner(pt, x)
    ensures var s' := s.(buffer := s.buffer + [x]); Notified(pt, interval, s, x) == (s', []) && StateOk(pt, s')
  {
    assert s.buffer == [] ==> s.buffer + [x] == [x];
  }

  /** The output is the text of buffer and lines, thinned. */
  ghost predicate Thins(pt: Patterns, interval: int, s: State, lines: seq<string>)
    requires interval != 0
  {
    Output(pt, interval, s, lines) == Thinned(Parse(pt, s.buffer + lines), s.counter, interval)
  }

  lemma ThinsGoingOn(pt: Patterns, interval: int, s: State, lines: seq<string>)
    requires interval != 0 && lines != []
    requires Notified(pt, interval, s, lines[0]) == (s.(buffer := s.buffer + [lines[0]]), [])
    requires Thins(pt, interval, s.(buffer := s.buffer + [lines[0]]), lines[1..])
    ensures Thins(pt, interval, s, lines)
  {
    assert s.buffer + lines == (s.buffer + [lines[0]]) + lines[1..];
  }

  /** What such a line writes out is what the thinned text begins with. */
  lemma SegmentWritten(pt: Patterns, interval: int, s: State, x: string, rest: seq<string>)
    returns (n: nat, out: seq<string>)
    requires PatternsOk(pt) && interval != 0 && StateOk(pt, s)
    requires if s.buffer == [] then !pt.head(x) else !Inner(pt, x)
    ensures Notified(pt, interval, s, x) == (State([], n), out)
    ensures Thinned(Parse(pt, s.buffer + [x] + rest), s.counter, interval)
         == out + Thinned(Parse(pt, rest), n, interval)
  {
    var g := SegmentEnds(pt, interval, s, x);
    n := if g.Text? then s.counter else s.counter + 1;
    out := if g.Text? || s.counter % interval == 0 then g.lines else [];
    ThinnedOf(pt, g, rest, s.counter, interval);
  }

  lemma OutputCons(pt: Patterns, interval: int, s: State, lines: seq<string>, s': State, out: seq<string>)
    requires interval != 0 && lines != [] && Notified(pt, interval, s, lines[0]) == (s', out)
    ensures Output(pt, interval, s, lines) == out + Output(pt, interval, s', lines[1..])
  {
  }

  lemma ThinsEnding(pt: Patterns, interval: int, s: State, lines: seq<string>, n: nat, out: seq<string>)
    requires interval != 0 && lines != []
    requires Output(pt, interval, s, lines) == out + Output(pt, interval, State([], n), lines[1..])
    requires Thinned(Parse(pt, s.buffer + [lines[0]] + lines[1..]), s.counter, interval)
          == out + Thinned(Parse(pt, lines[1..]), n, interval)
    requires Thins(pt, interval, State([], n), lines[1..])
    ensures Thins(pt, interval, s, lines)
  {
    var rest := lines[1..];
    SameLines(s.buffer, lines);
    assert Output(pt, interval, State([], n), rest) == Thinned(Parse(pt, rest), n, interval);
  }

  lemma SameLines(buffer: seq<string>, lines: seq<string>)
    requires lines != []
    ensures buffer + lines == buffer + [lines[0]] + lines[1..] && [] + lines[1..] == lines[1..]
  {
  }

  /** From any state with an open report in the buffer, the rest of the output is the thinned text of buffer and
      rest. */
  lemma {:induction false} OutputIsThinned(pt: Patterns, interval: int, s: State, lines: seq<string>)
    requires PatternsOk(pt) && interval != 0 && StateOk(pt, s)
    ensures Output(pt, interval, s, lines) == Thinned(Parse(pt, s.buffer + lines), s.counter, interval)
    decreases |lines|
  {
    if lines == [] {
      assert s.buffer + lines == s.buffer;
      if s.buffer != [] {
        OpenAtTheEnd(pt, s.buffer, s.counter, interval);
      }
    } else if if s.buffer == [] then pt.head(lines[0]) else Inner(pt, lines[0]) {
      ReportGoesOn(pt, interval, s, lines[0]);
      OutputIsThinned(pt, interval, s.(buffer := s.buffer + [lines[0]]), lines[1..]);
      ThinsGoingOn(pt, interval, s, lines);
    } else {
      var n, out := SegmentWritten(pt, interval, s, lines[0], lines[1..]);
      OutputIsThinned(pt, interval, State([], n), lines[1..]);
      OutputCons(pt, interval, s, lines, State([], n), out);
      ThinsEnding(pt, interval, s, lines, n, out);
    }
  }

  /** Over any text, the log gets the text in order with whole complete progress reports left out, the n-th of them
      kept exactly when n is a multiple of the interval. */
  lemma CutterThins(pt: Patterns, interval: int, gs: seq<Segment>)
    requires PatternsOk(pt) && interval != 0 && Segmented(pt, gs)
    ensures Output(pt, interval, State([], 0), Flatten(gs)) == Thinned(gs, 0, interval)
  {
    OutputIsThinned(pt, interval, State([], 0), Flatten(gs));
    SegmentationIsUnique(pt, gs);
    assert [] + Flatten(gs) == Flatten(gs);
  }

  /** ... and every text has such a segmentation. */
  lemma EveryTextIsSegmented(pt: Patterns, lines: seq<string>)
    ensures exists gs :: Segmented(pt, gs) && Flatten(gs) == lines
  {
    ParseIsSegmentation(pt, lines);
  }

  /** Two first lines and a blank one are a single report, kept or dropped as a whole. */
  lemma TwoHeadsOneReport(pt: Patterns, h: string, b: string)
    requires PatternsOk(pt) && pt.head(h) && !Blank(h) && Blank(b)
    ensures Parse(pt, [h, h, b]) == [Block([h, h, b])]
  {
    var g := Block([h, h, b]);
    assert [h, h, b][..2] == [h, h];
    assert SegmentOk(pt, g, true);
    assert g.lines + [] == g.lines;
    FirstIsForced(pt, g, []);
  }

  /** With interval 1 nothing is dropped. */
  lemma {:induction false} IntervalOneKeepsAll(gs: seq<Segment>, n: nat)
    ensures Thinned(gs, n, 1) == Flatten(gs)
  {
    if gs != [] {
      IntervalOneKeepsAll(gs[1..], if gs[0].Text? then n else n + 1);
    }
  }

  // ----- the object

  class RcloneVerboseLogCutter {
    const patterns: Patterns
    const interval: int
    var buffer: seq<string>
    var counter: nat

    ghost function Now(): State
      reads this
    {
      State(buffer, counter)
    }

    constructor (patterns: Patterns, interval: int)
      ensures Now() == State([], 0) && this.patterns == patterns && this.interval == interval
    {
      this.patterns, this.interval, buffer, counter := patterns, interval, [], 0;
    }

    method Notify(line: string) returns (out: Option<string>)
      requires interval != 0
      modifies this
      ensures Now() == Notified(patterns, interval, old(Now()), line).0
      ensures (if out.Some? then out.value else "") == Join(Notified(patterns, interval, old(Now()), line).1)
    {
      if buffer != [] {
        buffer := buffer + [line];
        if !Blank(line) {
          if patterns.progress(line) {
            out := None;
          } else {
            var newBuffer := [];
            if patterns.head(line) {
              buffer := buffer[..|buffer| - 1];
              assert buffer == old(buffer);
              newBuffer := [line];
            }
            out := Some(Join(buffer));
            buffer := newBuffer;
          }
        } else {
          out := if counter % interval == 0 then Some(Join(buffer)) else None;
          buffer, counter := [], counter + 1;
        }
      } else if patterns.head(line) {
        buffer := buffer + [line];
        assert buffer == [line];
        out := None;
      } else {
        out := Some(line);
        assert [line][1..] == [];
      }
    }

    method Flush() returns (out: string)
      modifies this
      ensures out == Join(old(buffer)) && buffer == [] && counter == old(counter)
    {
      out := Join(buffer);
      buffer := [];
    }

    /** The reading loop of `rclone_check_progress`, for the log it writes. */
    method CopyLog(lines: seq<string>) returns (log: string)
      requires PatternsOk(patterns) && interval != 0 && Now() == State([], 0)
      modifies this
      ensures log == Join(Thinned(Parse(patterns, lines), 0, interval))
    {
      log := "";
      ghost var s0 := Now();
      ghost var total := Join(Output(patterns, interval, s0, lines));
      assert lines[0..] == lines;
      for i := 0 to |lines|
        invariant log + Join(Output(patterns, interval, Now(), lines[i..])) == total
      {
        JoinedStep(patterns, interval, Now(), lines, i);
        ghost var (after, written) := Notified(patterns, interval, Now(), lines[i]);
        Assoc(log, Join(written), Join(Output(patterns, interval, after, lines[i + 1..])));
        var out := Notify(lines[i]);
        if out.Some? {
          log := log + out.value;
        }
      }
      var last := Flush();
      log := log + last;
      assert total == Join(Thinned(Parse(patterns, lines), 0, interval)) by {
        OutputIsThinned(patterns, interval, s0, lines);
        assert [] + lines == lines;
      }
    }
  }

  lemma Assoc(a: string, b: string, c: string)
    ensures a + (b + c) == (a + b) + c && a + "" == a
  {
  }

  lemma JoinedStep(pt: Patterns, interval: int, s: State, lines: seq<string>, i: nat)
    requires interval != 0 && i < |lines|
    ensures Join(Output(pt, interval, s, lines[i..]))
         == var (s', out) := Notified(pt, interval, s, lines[i]);
            Join(out) + Join(Output(pt, interval, s', lines[i + 1..]))
  {
    assert lines[i..][0] == lines[i] && lines[i..][1..] == lines[i + 1..];
    var (s', out) := Notified(pt, interval, s, lines[i]);
    JoinConcat(out, Output(pt, interval, s', lines[i + 1..]));
  }
}
