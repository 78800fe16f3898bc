/** Whatever the machine accepts is a request head, and the callbacks are those of its parts. */
module HttpSound {
  import opened Texts
  import opened HttpMachine
  import opened HttpGrammar
  import opened HttpAccepts
  import opened HttpReads
  import opened HttpTargetSound

  lemma {:induction false} MethodFound(buf: string, p: nat, k: nat, relaxed: bool) returns (s: string)
    requires 1 <= k <= 20 && p <= |buf| && Accepts(buf, p, MethodState(k), relaxed)
    ensures k + |s| <= 20 && (forall i :: 0 <= i < |s| ==> IsMethodChar(s[i])) && StandsAt(buf, p, s + " ")
    ensures Accepts(buf, p + |s| + 1, 3, relaxed)
    decreases 20 - k
  {
    hide Accepts, StandsAt;
    Next(buf, p, MethodState(k), relaxed);
    if buf[p] == ' ' {
      s := "";
      StandsOne(buf, p);
      assert s + " " == [buf[p]];
    } else {
      var rest := MethodFound(buf, p + 1, k + 1, relaxed);
      s := [buf[p]] + rest;
      StandsCons(buf, p, rest + " ");
      assert s + " " == [buf[p]] + (rest + " ");
    }
  }

  /** A line end of either kind. */
  lemma EolFound(buf: string, p: nat, relaxed: bool) returns (eol: string)
    requires p < |buf| && ((buf[p] == '\n' && Accepts(buf, p + 1, 13, relaxed))
                           || (buf[p] == '\r' && Accepts(buf, p + 1, 17, relaxed)))
    ensures IsEol(eol) && StandsAt(buf, p, eol) && Accepts(buf, p + |eol|, 13, relaxed)
  {
    hide Accepts;
    if buf[p] == '\n' {
      eol := "\n";
    } else {
      Next(buf, p + 1, 17, relaxed);
      eol := "\r\n";
    }
  }

  lemma VersionFound(buf: string, p: nat, relaxed: bool) returns (minor: char, eol: string)
    requires p <= |buf| && Accepts(buf, p, 4, relaxed)
    ensures '0' <= minor <= '1' && IsEol(eol) && StandsAt(buf, p, VersionText(minor) + eol)
    ensures Accepts(buf, p + 8 + |eol|, 13, relaxed)
  {
    hide Accepts, Transition;
    VersionNext(buf, p, 4, relaxed);
    VersionNext(buf, p + 1, 5, relaxed);
    VersionNext(buf, p + 2, 6, relaxed);
    VersionNext(buf, p + 3, 7, relaxed);
    VersionNext(buf, p + 4, 8, relaxed);
    VersionNext(buf, p + 5, 9, relaxed);
    VersionNext(buf, p + 6, 10, relaxed);
    VersionNext(buf, p + 7, 11, relaxed);
    VersionLineEnds(buf, p + 8, relaxed);
    minor := buf[p + 7];
    eol := EolFound(buf, p + 8, relaxed);
    assert StandsAt(buf, p, VersionText(minor));
    StandsJoin(buf, p, VersionText(minor), eol);
  }

  lemma VersionNext(buf: string, p: nat, cs: nat, relaxed: bool)
    requires p <= |buf| && 4 <= cs <= 11 && Accepts(buf, p, cs, relaxed)
    ensures p < |buf| && Accepts(buf, p + 1, cs + 1, relaxed)
    ensures if cs == 11 then '0' <= buf[p] <= '1' else buf[p] == "HTTP/1."[cs - 4]
  {
    hide Accepts;
    Next(buf, p, cs, relaxed);
  }

  lemma VersionLineEnds(buf: string, p: nat, relaxed: bool)
    requires p <= |buf| && Accepts(buf, p, 12, relaxed)
    ensures p < |buf| && ((buf[p] == '\n' && Accepts(buf, p + 1, 13, relaxed))
                          || (buf[p] == '\r' && Accepts(buf, p + 1, 17, relaxed)))
  {
    hide Accepts;
    Next(buf, p, 12, relaxed);
  }

  /** The rest of a header name, and its colon. */
  lemma {:induction false} TokenFound(buf: string, p: nat, relaxed: bool) returns (s: string)
    requires p <= |buf| && Accepts(buf, p, 14, relaxed)
    ensures (forall i :: 0 <= i < |s| ==> IsTokenChar(s[i])) && StandsAt(buf, p, s + ":")
    ensures Accepts(buf, p + |s| + 1, 15, relaxed)
    decreases |buf| - p
  {
    hide Accepts, StandsAt;
    Next(buf, p, 14, relaxed);
    if buf[p] == ':' {
      s := "";
      StandsOne(buf, p);
      assert s + ":" == [buf[p]];
    } else {
      var rest := TokenFound(buf, p + 1, relaxed);
      s := [buf[p]] + rest;
      StandsCons(buf, p, rest + ":");
      assert s + ":" == [buf[p]] + (rest + ":");
    }
  }

  /** A name, when the line is not the blank one. */
  lemma NameFound(buf: string, p: nat, relaxed: bool) returns (name: string)
    requires p <= |buf| && Accepts(buf, p, 13, relaxed)
    requires !CharAt(buf, p, '\n') && !(CharAt(buf, p, '\r') && CharAt(buf, p + 1, '\n'))
    ensures IsName(name) && StandsAt(buf, p, name + ":") && Accepts(buf, p + |name| + 1, 15, relaxed)
  {
    hide Accepts, StandsAt, IsName, Transition;
    Next(buf, p, 13, relaxed);
    if buf[p] == '\r' {
      name := CarriageReturnName(buf, p, relaxed);
    } else {
      NameGoesOn(buf, p, relaxed);
      var rest := TokenFound(buf, p + 1, relaxed);
      name := [buf[p]] + rest;
      CharThenToken(name, rest);
      StandsCons(buf, p, rest + ":");
      assert name + ":" == [buf[p]] + (rest + ":");
    }
  }

  lemma NameGoesOn(buf: string, p: nat, relaxed: bool)
    requires p <= |buf| && Accepts(buf, p, 13, relaxed) && !CharAt(buf, p, '\n') && !CharAt(buf, p, '\r')
    ensures p < |buf| && IsTokenChar(buf[p]) && Accepts(buf, p + 1, 14, relaxed)
  {
    hide Accepts;
    Next(buf, p, 13, relaxed);
  }

  lemma CharThenToken(name: string, rest: string)
    requires |name| == 1 + |rest| && name[1..] == rest && IsTokenChar(name[0]) && name[0] != '\n' && name[0] != '\r'
    requires forall i :: 0 <= i < |rest| ==> IsTokenChar(rest[i])
    ensures IsName(name)
  {
    forall i | 0 <= i < |name| ensures IsTokenChar(name[i]) {
      assert i > 0 ==> name[i] == name[1..][i - 1];
    }
  }

  /** A name that starts with a carriage return. */
  lemma CarriageReturnName(buf: string, p: nat, relaxed: bool) returns (name: string)
    requires p <= |buf| && Accepts(buf, p, 13, relaxed) && CharAt(buf, p, '\r') && !CharAt(buf, p + 1, '\n')
    ensures IsName(name) && StandsAt(buf, p, name + ":") && Accepts(buf, p + |name| + 1, 15, relaxed)
  {
    hide Accepts, StandsAt;
    Next(buf, p, 13, relaxed);
    Next(buf, p + 1, 18, relaxed);
    if buf[p + 1] == ':' {
      name := "\r";
      StandsOne(buf, p + 1);
      StandsCons(buf, p, ":");
      assert name + ":" == [buf[p]] + ":";
    } else {
      var rest := TokenFound(buf, p + 2, relaxed);
      name := [buf[p], buf[p + 1]] + rest;
      StandsCons(buf, p + 1, rest + ":");
      StandsCons(buf, p, [buf[p + 1]] + (rest + ":"));
      assert name + ":" == [buf[p]] + ([buf[p + 1]] + (rest + ":"));
    }
  }

  lemma {:induction false} ValueRestFound(buf: string, p: nat, relaxed: bool) returns (s: string, eol: string)
    requires p <= |buf| && Accepts(buf, p, 16, relaxed)
    ensures (forall i :: 0 <= i < |s| ==> IsValueChar(s[i])) && IsEol(eol) && StandsAt(buf, p, s + eol)
    ensures Accepts(buf, p + |s| + |eol|, 13, relaxed)
    decreases |buf| - p
  {
    hide Accepts, StandsAt;
    Next(buf, p, 16, relaxed);
    if buf[p] == '\n' || buf[p] == '\r' {
      s := "";
      eol := EolFound(buf, p, relaxed);
      assert s + eol == eol;
    } else {
      var rest, e := ValueRestFound(buf, p + 1, relaxed);
      s, eol := [buf[p]] + rest, e;
      StandsCons(buf, p, rest + eol);
      assert s + eol == [buf[p]] + (rest + eol);
    }
  }

  lemma {:induction false} ValueFound(buf: string, p: nat, relaxed: bool)
    returns (blanks: string, value: string, eol: string)
    requires p <= |buf| && Accepts(buf, p, 15, relaxed)
    ensures IsBlanks(blanks) && IsValue(value) && IsEol(eol) && StandsAt(buf, p, blanks + (value + eol))
    ensures Accepts(buf, p + |blanks| + |value| + |eol|, 13, relaxed)
    decreases |buf| - p
  {
    hide Accepts, StandsAt;
    Next(buf, p, 15, relaxed);
    if IsBlank(buf[p]) {
      var bs, v, e := ValueFound(buf, p + 1, relaxed);
      blanks, value, eol := [buf[p]] + bs, v, e;
      StandsCons(buf, p, bs + (value + eol));
      assert blanks + (value + eol) == [buf[p]] + (bs + (value + eol));
    } else if buf[p] == '\n' || buf[p] == '\r' {
      blanks, value := "", "";
      eol := EolFound(buf, p, relaxed);
      assert blanks + (value + eol) == eol;
    } else {
      var rest, e := ValueRestFound(buf, p + 1, relaxed);
      blanks, value, eol := "", [buf[p]] + rest, e;
      StandsCons(buf, p, rest + eol);
      assert blanks + (value + eol) == [buf[p]] + (rest + eol);
    }
  }

  lemma {:induction false} LinesFound(buf: string, p: nat, relaxed: bool) returns (lines: seq<Line>, last: string)
    requires p <= |buf| && Accepts(buf, p, 13, relaxed)
    ensures (forall i :: 0 <= i < |lines| ==> IsLine(lines[i])) && IsEol(last)
    ensures StandsAt(buf, p, LinesText(lines) + last)
    decreases |buf| - p
  {
    hide Accepts, StandsAt, IsName, IsBlanks, IsValue;
    Next(buf, p, 13, relaxed);
    if buf[p] == '\n' {
      lines, last := [], "\n";
      StandsOne(buf, p);
      assert LinesText(lines) + last == [buf[p]];
    } else if buf[p] == '\r' && CharAt(buf, p + 1, '\n') {
      lines, last := [], "\r\n";
      StandsOne(buf, p + 1);
      StandsCons(buf, p, "\n");
      assert LinesText(lines) + last == [buf[p]] + "\n";
    } else {
      var l := LineFound(buf, p, relaxed);
      StandsFits(buf, p, LineText(l));
      var ls, e := LinesFound(buf, p + |LineText(l)|, relaxed);
      lines, last := [l] + ls, e;
      StandsJoin(buf, p, LineText(l), LinesText(ls) + last);
      assert LinesText(lines) + last == LineText(l) + (LinesText(ls) + last) by {
        assert lines[1..] == ls;
      }
    }
  }

  lemma LineFound(buf: string, p: nat, relaxed: bool) returns (l: Line)
    requires p <= |buf| && Accepts(buf, p, 13, relaxed)
    requires !CharAt(buf, p, '\n') && !(CharAt(buf, p, '\r') && CharAt(buf, p + 1, '\n'))
    ensures IsLine(l) && |LineText(l)| > 0 && StandsAt(buf, p, LineText(l))
    ensures Accepts(buf, p + |LineText(l)|, 13, relaxed)
  {
    hide Accepts, StandsAt, IsName, IsBlanks, IsValue;
    var name := NameFound(buf, p, relaxed);
    StandsFits(buf, p, name + ":");
    var blanks, value, eol := ValueFound(buf, p + |name| + 1, relaxed);
    l := Line(name, blanks, value, eol);
    StandsJoin(buf, p, name + ":", blanks + (value + eol));
    assert LineText(l) == name + ":" + (blanks + (value + eol));
  }

  lemma MethodAndSpaceFound(buf: string, relaxed: bool) returns (verb: string)
    requires Accepts(buf, 0, START, relaxed)
    ensures IsMethod(verb) && StandsAt(buf, 0, verb + " ") && Accepts(buf, |verb| + 1, 3, relaxed)
  {
    hide Accepts, StandsAt;
    Next(buf, 0, START, relaxed);
    var rest := MethodFound(buf, 1, 1, relaxed);
    verb := [buf[0]] + rest;
    StandsCons(buf, 0, rest + " ");
    assert verb + " " == [buf[0]] + (rest + " ");
  }

  /** Version, header lines and blank line. */
  lemma HeadTailFound(buf: string, p: nat, relaxed: bool)
    returns (minor: char, eol: string, lines: seq<Line>, last: string)
    requires p <= |buf| && Accepts(buf, p, 4, relaxed)
    ensures '0' <= minor <= '1' && IsEol(eol)
    ensures (forall i :: 0 <= i < |lines| ==> IsLine(lines[i])) && IsEol(last)
    ensures StandsAt(buf, p, VersionText(minor) + (eol + (LinesText(lines) + last)))
  {
    hide Accepts, StandsAt, IsLine, VersionText, LinesText, IsEol;
    minor, eol := VersionFound(buf, p, relaxed);
    VersionLength(minor);
    var v := VersionText(minor);
    StandsFits(buf, p, v + eol);
    lines, last := LinesFound(buf, p + 8 + |eol|, relaxed);
    var rest := LinesText(lines) + last;
    StandsJoin(buf, p, v + eol, rest);
    assert v + (eol + rest) == v + eol + rest;
  }

  /** A head in its three parts. */
  lemma HeadInThree(h: Head)
    ensures var back := QueryText(h.query) + (FragmentTextOf(h.fragment) + " ");
            HeadText(h) == (h.verb + " ") + ((SchemeText(h.scheme) + (PathText(h.path) + back))
                                             + (VersionText(h.minor) + (h.eol + (LinesText(h.lines) + h.last))))
  {
    hide SchemeText, PathText, QueryText, FragmentTextOf, VersionText, LinesText;
  }

  /** The head that an accepted buffer starts with. */
  lemma HeadFound(buf: string, relaxed: bool) returns (h: Head)
    requires Accepts(buf, 0, START, relaxed)
    ensures IsHead(h, relaxed) && HeadText(h) <= buf
  {
    hide Accepts, StandsAt, IsMethod, IsScheme, IsPath, IsUriText, IsLine, VersionText, LinesText, SchemeText, PathText,
         QueryText, FragmentTextOf, IsEol, HeadText;
    var verb := MethodAndSpaceFound(buf, relaxed);
    StandsFits(buf, 0, verb + " ");
    var scheme, path, query, fragment := TargetFound(buf, |verb| + 1, relaxed);
    var target := SchemeText(scheme) + (PathText(path) + (QueryText(query) + (FragmentTextOf(fragment) + " ")));
    StandsFits(buf, |verb| + 1, target);
    var minor, eol, lines, last := HeadTailFound(buf, |verb| + 1 + |target|, relaxed);
    var tail := VersionText(minor) + (eol + (LinesText(lines) + last));
    h := Head(verb, scheme, path, query, fragment, minor, eol, lines, last);
    StandsJoin(buf, |verb| + 1, target, tail);
    StandsJoin(buf, 0, verb + " ", target + tail);
    HeadInThree(h);
    StandsIsPrefix(buf, HeadText(h));
  }

  lemma StandsIsPrefix(buf: string, s: string)
    requires StandsAt(buf, 0, s)
    ensures s <= buf
  {
  }

  /**
   * Unless the machine leaves the model, the final state is reached exactly on buffers that start with a legal head;
   * the head is then what was consumed, and the calls are those of its parts, in order.
   */
  lemma AcceptedIff(buf: string, queryStart: nat, relaxed: bool)
    ensures var r := Run(Fresh(queryStart), buf, relaxed);
            r.cs != ELSEWHERE ==>
              (r.cs == FINAL <==>
               exists h :: IsHead(h, relaxed) && HeadText(h) == buf[..r.p] && r.bodyStart == r.p &&
                           r.events == HeadEvents(h))
  {
    hide Run, IsHead, HeadText, HeadEvents;
    var m := Fresh(queryStart);
    var r := Run(m, buf, relaxed);
    RunAccepts(m, buf, relaxed);
    if r.cs == FINAL {
      var h := HeadFound(buf, relaxed);
      assert buf == HeadText(h) + buf[|HeadText(h)|..];
      HeadAccepted(h, buf[|HeadText(h)|..], queryStart, relaxed);
      assert IsHead(h, relaxed) && HeadText(h) == buf[..r.p] && r.bodyStart == r.p && r.events == HeadEvents(h);
    }
    if h :| IsHead(h, relaxed) && HeadText(h) == buf[..r.p] {
      assert buf == HeadText(h) + buf[r.p..];
      HeadAccepted(h, buf[r.p..], queryStart, relaxed);
    }
  }
}
