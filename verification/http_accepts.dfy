/** Every legal request head is accepted, to its last octet, with the callbacks of its parts. */
module HttpAccepts {
  import opened Texts
  import opened HttpMachine
  import opened HttpGrammar
  import opened HttpSteps
  import opened HttpTarget

  // Method.

  /** The state after k characters of the method. */
  function MethodState(k: nat): nat {
    if k == 1 then 2 else 173 + k
  }

  lemma {:induction false} MethodRun(m: Parser, buf: string, k: nat, s: string, relaxed: bool)
    requires 1 <= k <= 20 && m.cs == MethodState(k) && k + |s| <= 20
    requires (forall i :: 0 <= i < |s| ==> IsMethodChar(s[i])) && StandsAt(buf, m.p, s)
    ensures Run(m, buf, relaxed) == Run(m.(cs := MethodState(k + |s|), p := m.p + |s|), buf, relaxed)
    decreases |s|
  {
    hide Run;
    if s != "" {
      StandsChars(buf, m.p, s);
      PlainStep(m, buf, MethodState(k + 1), relaxed);
      assert s == [s[0]] + s[1..];
      StandsSplit(buf, m.p, [s[0]], s[1..]);
      MethodRun(m.(cs := MethodState(k + 1), p := m.p + 1), buf, k + 1, s[1..], relaxed);
    }
  }

  lemma MethodAccepted(m: Parser, buf: string, s: string, relaxed: bool)
    requires m.cs == START && IsMethod(s) && StandsAt(buf, m.p, s + " ")
    ensures Run(m, buf, relaxed) ==
            Run(m.(cs := 3, p := m.p + |s| + 1, mark := m.p, events := m.events + [MethodIs(s)]), buf, relaxed)
  {
    hide StandsAt, Run;
    Neighbours(buf, m.p, s, " ");
    assert s == [s[0]] + s[1..];
    StandsSplit(buf, m.p, [s[0]], s[1..]);
    var m1 := m.(cs := 2, p := m.p + 1, mark := m.p);
    MethodMoves(m, buf, relaxed);
    MethodRun(m1, buf, 1, s[1..], relaxed);
    var m2 := m1.(cs := MethodState(|s|), p := m.p + |s|);
    MethodMoves(m2, buf, relaxed);
    assert Slice(buf, m.p, m.p + |s|) == s by {
      SliceOfStanding(buf, m.p, s);
    }
  }

  /** The first character of the method, and the space behind its last. */
  lemma MethodMoves(m: Parser, buf: string, relaxed: bool)
    requires m.p < |buf|
    ensures m.cs == START && IsMethodChar(buf[m.p]) ==>
              Run(m, buf, relaxed) == Run(m.(cs := 2, p := m.p + 1, mark := m.p), buf, relaxed)
    ensures InMethod(m.cs) && buf[m.p] == ' ' ==>
              Run(m, buf, relaxed) ==
              Run(m.(cs := 3, p := m.p + 1, events := m.events + [MethodIs(Slice(buf, m.mark, m.p))]), buf, relaxed)
  {
    hide Slice, Run;
    OneAction(m, buf, Mark);
    OneAction(m, buf, RequestMethod);
    if m.cs == START && IsMethodChar(buf[m.p]) {
      ActionStep(m, buf, 2, [Mark], relaxed);
    } else if InMethod(m.cs) && buf[m.p] == ' ' {
      ActionStep(m, buf, 3, [RequestMethod], relaxed);
    }
  }

  // Version and header lines.

  /** Seven fixed characters and a digit, from behind the first. */
  lemma VersionCharsRun(m: Parser, buf: string, minor: char, relaxed: bool)
    requires m.cs == 4 && '0' <= minor <= '1' && StandsAt(buf, m.p, VersionText(minor))
    ensures Run(m, buf, relaxed) == Run(m.(cs := 12, mark := m.p, p := m.p + 8), buf, relaxed)
  {
    hide Run;
    StandsChars(buf, m.p, VersionText(minor));
    OneAction(m, buf, Mark);
    ActionStep(m, buf, 5, [Mark], relaxed);
    var m1 := m.(cs := 5, mark := m.p, p := m.p + 1);
    PlainStep(m1, buf, 6, relaxed);
    PlainStep(m1.(cs := 6, p := m.p + 2), buf, 7, relaxed);
    PlainStep(m1.(cs := 7, p := m.p + 3), buf, 8, relaxed);
    PlainStep(m1.(cs := 8, p := m.p + 4), buf, 9, relaxed);
    PlainStep(m1.(cs := 9, p := m.p + 5), buf, 10, relaxed);
    PlainStep(m1.(cs := 10, p := m.p + 6), buf, 11, relaxed);
    PlainStep(m1.(cs := 11, p := m.p + 7), buf, 12, relaxed);
  }

  /** A line end of either kind, with the actions of its first character. */
  lemma EolRun(m: Parser, buf: string, eol: string, actions: seq<Action>, relaxed: bool)
    requires IsModelled(m.cs) && IsEol(eol) && StandsAt(buf, m.p, eol)
    requires Transition(m.cs, '\n', relaxed) == Move(13, actions)
    requires Transition(m.cs, '\r', relaxed) == Move(17, actions)
    ensures Run(m, buf, relaxed) == Run(PerformAll(m, buf, actions).(cs := 13, p := m.p + |eol|), buf, relaxed)
  {
    hide Run, PerformAll, Transition;
    StandsChars(buf, m.p, eol);
    if eol == "\n" {
      ActionStep(m, buf, 13, actions, relaxed);
    } else {
      ActionStep(m, buf, 17, actions, relaxed);
      LineFeedStep(PerformAll(m, buf, actions).(cs := 17, p := m.p + 1), buf, relaxed);
    }
  }

  lemma LineFeedStep(m: Parser, buf: string, relaxed: bool)
    requires m.cs == 17 && CharAt(buf, m.p, '\n')
    ensures Run(m, buf, relaxed) == Run(m.(cs := 13, p := m.p + 1), buf, relaxed)
  {
    PlainStep(m, buf, 13, relaxed);
  }

  lemma VersionAccepted(m: Parser, buf: string, minor: char, eol: string, relaxed: bool) returns (m': Parser)
    requires m.cs == 4 && '0' <= minor <= '1' && IsEol(eol) && StandsAt(buf, m.p, VersionText(minor) + eol)
    ensures m'.p <= |buf| && Run(m, buf, relaxed) == Run(m', buf, relaxed)
    ensures m'.cs == 13 && m'.p == m.p + 8 + |eol|
    ensures m'.events == m.events + [VersionIs(VersionText(minor))]
  {
    hide Run, StandsAt, Slice;
    StandsSplit(buf, m.p, VersionText(minor), eol);
    VersionCharsRun(m, buf, minor, relaxed);
    var m1 := m.(cs := 12, mark := m.p, p := m.p + 8);
    SliceOfStanding(buf, m.p, VersionText(minor));
    OneAction(m1, buf, HttpVersion);
    EolRun(m1, buf, eol, [HttpVersion], relaxed);
    m' := PerformAll(m1, buf, [HttpVersion]).(cs := 13, p := m1.p + |eol|);
  }

  /** Any run of characters that a state takes without leaving it. */
  lemma {:induction false} SameStateRun(m: Parser, buf: string, s: string, relaxed: bool)
    requires (m.cs == 14 && forall i :: 0 <= i < |s| ==> IsTokenChar(s[i]))
             || (m.cs == 16 && forall i :: 0 <= i < |s| ==> IsValueChar(s[i]))
    requires StandsAt(buf, m.p, s)
    ensures Run(m, buf, relaxed) == Run(m.(p := m.p + |s|), buf, relaxed)
    decreases |s|
  {
    hide Run;
    if s != "" {
      StandsChars(buf, m.p, s);
      PlainStep(m, buf, m.cs, relaxed);
      assert s == s[..1] + s[1..];
      StandsSplit(buf, m.p, s[..1], s[1..]);
      SameStateRun(m.(p := m.p + 1), buf, s[1..], relaxed);
    }
  }

  /** The first character of a name, which may be a carriage return if no line feed follows. */
  lemma NameStart(m: Parser, buf: string, s: string, relaxed: bool)
    requires m.cs == 13 && IsName(s) && StandsAt(buf, m.p, s)
    ensures Run(m, buf, relaxed) ==
            Run(m.(cs := if s == "\r" then 18 else 14, fieldStart := m.p, p := m.p + |s|), buf, relaxed)
  {
    hide Run;
    StandsChars(buf, m.p, s);
    OneAction(m, buf, StartField);
    var m1 := m.(fieldStart := m.p, p := m.p + 1);
    if s[0] == '\r' {
      ActionStep(m, buf, 18, [StartField], relaxed);
      if |s| > 1 {
        PlainStep(m1.(cs := 18), buf, 14, relaxed);
        assert s == s[..2] + s[2..];
        StandsSplit(buf, m.p, s[..2], s[2..]);
        SameStateRun(m1.(cs := 14, p := m.p + 2), buf, s[2..], relaxed);
      }
    } else {
      ActionStep(m, buf, 14, [StartField], relaxed);
      assert s == s[..1] + s[1..];
      StandsSplit(buf, m.p, s[..1], s[1..]);
      SameStateRun(m1.(cs := 14), buf, s[1..], relaxed);
    }
  }

  lemma NameAccepted(m: Parser, buf: string, s: string, relaxed: bool)
    requires m.cs == 13 && IsName(s) && StandsAt(buf, m.p, s + ":")
    ensures Run(m, buf, relaxed) ==
            Run(m.(cs := 15, fieldStart := m.p, fieldLen := |s|, p := m.p + |s| + 1), buf, relaxed)
  {
    hide Run, IsName, StandsAt;
    StandsSplit(buf, m.p, s, ":");
    StandsChars(buf, m.p + |s|, ":");
    NameStart(m, buf, s, relaxed);
    var m1 := m.(cs := if s == "\r" then 18 else 14, fieldStart := m.p, p := m.p + |s|);
    OneAction(m1, buf, WriteField);
    ActionStep(m1, buf, 15, [WriteField], relaxed);
  }

  lemma {:induction false} BlanksRun(m: Parser, buf: string, s: string, relaxed: bool)
    requires m.cs == 15 && IsBlanks(s) && StandsAt(buf, m.p, s)
    ensures Run(m, buf, relaxed) ==
            Run(m.(mark := if s == "" then m.mark else m.p + |s| - 1, p := m.p + |s|), buf, relaxed)
    decreases |s|
  {
    hide Run;
    if s != "" {
      StandsChars(buf, m.p, s);
      OneAction(m, buf, Mark);
      ActionStep(m, buf, 15, [Mark], relaxed);
      assert s == s[..1] + s[1..];
      StandsSplit(buf, m.p, s[..1], s[1..]);
      BlanksRun(m.(mark := m.p, p := m.p + 1), buf, s[1..], relaxed);
    }
  }

  /** The value without its leading blanks, and the line end. */
  lemma ValueAccepted(m: Parser, buf: string, value: string, eol: string, relaxed: bool) returns (m': Parser)
    requires m.cs == 15 && IsValue(value) && IsEol(eol) && StandsAt(buf, m.p, value + eol)
    ensures m'.p <= |buf| && Run(m, buf, relaxed) == Run(m', buf, relaxed)
    ensures m'.cs == 13 && m'.p == m.p + |value| + |eol|
    ensures m'.events == m.events + [FieldIs(Slice(buf, m.fieldStart, m.fieldStart + m.fieldLen), value)]
  {
    hide Run, Slice;
    StandsSplit(buf, m.p, value, eol);
    SliceOfStanding(buf, m.p, value);
    if value == "" {
      TwoActions(m, buf, Mark, WriteValue);
      EolRun(m, buf, eol, [Mark, WriteValue], relaxed);
      m' := PerformAll(m, buf, [Mark, WriteValue]).(cs := 13, p := m.p + |eol|);
    } else {
      StandsChars(buf, m.p, value);
      OneAction(m, buf, Mark);
      ActionStep(m, buf, 16, [Mark], relaxed);
      assert value == value[..1] + value[1..];
      StandsSplit(buf, m.p, value[..1], value[1..]);
      SameStateRun(m.(cs := 16, mark := m.p, p := m.p + 1), buf, value[1..], relaxed);
      var m1 := m.(cs := 16, mark := m.p, p := m.p + |value|);
      OneAction(m1, buf, WriteValue);
      EolRun(m1, buf, eol, [WriteValue], relaxed);
      m' := PerformAll(m1, buf, [WriteValue]).(cs := 13, p := m1.p + |eol|);
    }
  }

  lemma LineAccepted(m: Parser, buf: string, l: Line, relaxed: bool) returns (m': Parser)
    requires m.cs == 13 && IsLine(l) && StandsAt(buf, m.p, LineText(l))
    ensures m'.p <= |buf| && Run(m, buf, relaxed) == Run(m', buf, relaxed)
    ensures m'.cs == 13 && m'.p == m.p + |LineText(l)|
    ensures m'.events == m.events + [FieldIs(l.name, l.value)]
  {
    hide Run, Slice, StandsAt, IsName, IsBlanks, IsValue, IsEol;
    var rest := l.blanks + (l.value + l.eol);
    assert LineText(l) == l.name + ":" + rest;
    StandsSplit(buf, m.p, l.name + ":", rest);
    StandsSplit(buf, m.p, l.name, ":");
    NameAccepted(m, buf, l.name, relaxed);
    var m1 := m.(cs := 15, fieldStart := m.p, fieldLen := |l.name|, p := m.p + |l.name| + 1);
    SliceOfStanding(buf, m.p, l.name);
    StandsSplit(buf, m1.p, l.blanks, l.value + l.eol);
    BlanksRun(m1, buf, l.blanks, relaxed);
    var mark := if l.blanks == "" then m1.mark else m1.p + |l.blanks| - 1;
    m' := ValueAccepted(m1.(mark := mark, p := m1.p + |l.blanks|), buf, l.value, l.eol, relaxed);
  }

  lemma {:induction false} LinesAccepted(m: Parser, buf: string, lines: seq<Line>, relaxed: bool) returns (m': Parser)
    requires m.cs == 13 && (forall i :: 0 <= i < |lines| ==> IsLine(lines[i])) && StandsAt(buf, m.p, LinesText(lines))
    ensures m'.p <= |buf| && Run(m, buf, relaxed) == Run(m', buf, relaxed)
    ensures m'.cs == 13 && m'.p == m.p + |LinesText(lines)|
    ensures m'.events == m.events + LineEvents(lines)
    decreases |lines|
  {
    hide Run, LineText, IsLine, StandsAt, LinesText, LineEvents;
    LinesUnfolded(lines);
    if lines == [] {
      m' := m;
      StandsSplit(buf, m.p, "", "");
      assert m.events + [] == m.events;
    } else {
      StandsSplit(buf, m.p, LineText(lines[0]), LinesText(lines[1..]));
      var m1 := LineAccepted(m, buf, lines[0], relaxed);
      m' := LinesAccepted(m1, buf, lines[1..], relaxed);
      assert m.events + [FieldIs(lines[0].name, lines[0].value)] + LineEvents(lines[1..]) ==
             m.events + ([FieldIs(lines[0].name, lines[0].value)] + LineEvents(lines[1..]));
    }
  }

  lemma LinesUnfolded(lines: seq<Line>)
    ensures LinesText(lines) == if lines == [] then "" else LineText(lines[0]) + LinesText(lines[1..])
    ensures LineEvents(lines) ==
            if lines == [] then [] else [FieldIs(lines[0].name, lines[0].value)] + LineEvents(lines[1..])
  {
  }

  /** The blank line: the final state, with the cursor behind it and the body's start there. */
  lemma LastAccepted(m: Parser, buf: string, last: string, relaxed: bool)
    requires m.cs == 13 && IsEol(last) && StandsAt(buf, m.p, last)
    ensures var r := Run(m, buf, relaxed);
            r.cs == FINAL && r.p == m.p + |last| && r.bodyStart == r.p && r.events == m.events
  {
    StandsChars(buf, m.p, last);
    if last == "\n" {
      TwoActions(m, buf, StartField, Done);
      ActionStep(m, buf, FINAL, [StartField, Done], relaxed);
    } else {
      OneAction(m, buf, StartField);
      ActionStep(m, buf, 18, [StartField], relaxed);
      var m1 := m.(cs := 18, fieldStart := m.p, p := m.p + 1);
      OneAction(m1, buf, Done);
      ActionStep(m1, buf, FINAL, [Done], relaxed);
    }
  }

  // The whole head.

  /** The target behind its scheme, and the space behind it. */
  lemma RequestTargetAccepted(m: Parser, buf: string, h: Head, relaxed: bool) returns (m': Parser)
    requires m.cs == (if h.scheme.Some? then 174 else 3) && IsHead(h, relaxed)
    requires StandsAt(buf, m.p, PathText(h.path) + (QueryText(h.query) + (FragmentTextOf(h.fragment) + " ")))
    ensures m'.p <= |buf| && Run(m, buf, relaxed) == Run(m', buf, relaxed)
    ensures m'.cs == 4 && m'.p == m.p + |PathText(h.path)| + |QueryText(h.query)| + |FragmentTextOf(h.fragment)| + 1
    ensures m'.events == m.events + TargetEvents(PathText(h.path), h.query) + FragmentEvents(h.fragment)
  {
    hide Run, StandsAt, IsPath, IsUriText, TargetEvents, QueryText, PathText;
    var path, q := PathText(h.path), QueryText(h.query);
    if h.fragment.None? {
      assert FragmentTextOf(h.fragment) + " " == [' '];
      m' := TargetAccepted(m, buf, h.path, h.query, ' ', relaxed);
      assert m'.events == m.events + TargetEvents(path, h.query) + FragmentEvents(h.fragment);
    } else {
      var f := h.fragment.s;
      assert path + (q + (FragmentTextOf(h.fragment) + " ")) == path + (q + ['#']) + (f + " ");
      StandsSplit(buf, m.p, path + (q + ['#']), f + " ");
      var m1 := TargetAccepted(m, buf, h.path, h.query, '#', relaxed);
      m' := FragmentAccepted(m1, buf, f, relaxed);
      assert m'.events == m.events + TargetEvents(path, h.query) + FragmentEvents(h.fragment);
    }
  }

  /** Version, header lines and blank line. */
  lemma TailAccepted(m: Parser, buf: string, h: Head, relaxed: bool)
    requires m.cs == 4 && IsHead(h, relaxed)
    requires StandsAt(buf, m.p, VersionText(h.minor) + (h.eol + (LinesText(h.lines) + h.last)))
    ensures var r := Run(m, buf, relaxed);
            && r.cs == FINAL && r.bodyStart == r.p
            && r.p == m.p + |VersionText(h.minor) + (h.eol + (LinesText(h.lines) + h.last))|
            && r.events == m.events + [VersionIs(VersionText(h.minor))] + LineEvents(h.lines)
  {
    hide Run, StandsAt, IsLine, VersionText, IsEol, LinesText;
    var v, ls := VersionText(h.minor), LinesText(h.lines);
    assert v + (h.eol + (ls + h.last)) == v + h.eol + (ls + h.last);
    StandsSplit(buf, m.p, v + h.eol, ls + h.last);
    assert |v| == 8 by {
      VersionLength(h.minor);
    }
    var m1 := VersionAccepted(m, buf, h.minor, h.eol, relaxed);
    StandsSplit(buf, m1.p, ls, h.last);
    var m2 := LinesAccepted(m1, buf, h.lines, relaxed);
    LastAccepted(m2, buf, h.last, relaxed);
  }

  lemma VersionLength(minor: char)
    ensures |VersionText(minor)| == 8
  {
  }

  /** A legal head at the start of a buffer, whatever follows it and whatever query_start held before. */
  lemma HeadAccepted(h: Head, rest: string, queryStart: nat, relaxed: bool)
    requires IsHead(h, relaxed)
    ensures var r := Run(Fresh(queryStart), HeadText(h) + rest, relaxed);
            r.cs == FINAL && r.p == r.bodyStart == |HeadText(h)| && r.events == HeadEvents(h)
  {
    hide Run, IsMethod, IsScheme, IsPath, IsUriText, IsLine, VersionText, TargetEvents, LineEvents, LinesText,
         SchemeText, PathText, QueryText, FragmentTextOf, StandsAt, IsEol;
    var buf, m := HeadText(h) + rest, Fresh(queryStart);
    var start := (h.verb + " ") + SchemeText(h.scheme);
    var target := PathText(h.path) + (QueryText(h.query) + (FragmentTextOf(h.fragment) + " "));
    var tail := VersionText(h.minor) + (h.eol + (LinesText(h.lines) + h.last));
    assert HeadText(h) == start + (target + tail);
    assert StandsAt(buf, 0, HeadText(h)) by {
      StandsInFront(HeadText(h), rest);
    }
    StandsSplit(buf, 0, start, target + tail);
    StandsSplit(buf, 0, h.verb + " ", SchemeText(h.scheme));
    MethodAccepted(m, buf, h.verb, relaxed);
    var m1 := m.(cs := 3, p := |h.verb| + 1, mark := 0, events := [] + [MethodIs(h.verb)]);
    var m2 := SchemeAccepted(m1, buf, h.scheme, relaxed);
    StandsSplit(buf, m2.p, target, tail);
    var m3 := RequestTargetAccepted(m2, buf, h, relaxed);
    TailAccepted(m3, buf, h, relaxed);
  }

  lemma StandsInFront(s: string, rest: string)
    ensures StandsAt(s + rest, 0, s)
  {
  }
}
