/** Every legal target is taken, with the callbacks of its path, its query and its fragment. */
module HttpTarget {
  import opened Texts
  import opened HttpMachine
  import opened HttpGrammar
  import opened HttpSteps

  // Runs of plain characters and escapes.

  /** The states that stay on plain characters; each has two more for the digits of an escape. */
  predicate IsTargetState(base: nat) {
    base in {19, 21, 26, 30, 35, 39, 43}
  }

  /** What each of them takes as it is. */
  function CharsOf(base: nat): CharSet {
    if base == 26 then InPath else if base == 19 then InSegment else if base == 35 || base == 43 then InName
    else if base == 39 then InUserinfo else InQuery
  }

  function EscapeState(base: nat): nat {
    if base == 19 then 24 else base + 1
  }

  lemma {:induction false} UriTextRun(m: Parser, buf: string, s: string, relaxed: bool)
    requires IsTargetState(m.cs) && IsUriText(s, CharsOf(m.cs), relaxed) && StandsAt(buf, m.p, s)
    ensures Run(m, buf, relaxed) == Run(m.(p := m.p + |s|), buf, relaxed)
    decreases |s|
  {
    hide Run, Transition, StandsAt, UriChar;
    if s != "" {
      var k := if s[0] == '%' then 3 else 1;
      TargetPiece(m, buf, s, relaxed);
      assert s == s[..k] + s[k..];
      StandsSplit(buf, m.p, s[..k], s[k..]);
      UriTextRun(m.(p := m.p + k), buf, s[k..], relaxed);
    }
  }

  /** The first character or escape of a text. */
  lemma TargetPiece(m: Parser, buf: string, s: string, relaxed: bool)
    requires IsTargetState(m.cs) && s != "" && IsUriText(s, CharsOf(m.cs), relaxed) && StandsAt(buf, m.p, s)
    ensures var k := if s[0] == '%' then 3 else 1;
            m.p + k <= |buf| && Run(m, buf, relaxed) == Run(m.(p := m.p + k), buf, relaxed)
  {
    hide Run, Transition, UriChar;
    StandsChars(buf, m.p, s);
    if s[0] == '%' {
      PercentEscapes(m.cs, relaxed);
      EscapeRun(m, buf, m.cs, relaxed);
    } else {
      CharStays(m.cs, s[0], relaxed);
      PlainStep(m, buf, m.cs, relaxed);
    }
  }

  lemma PercentEscapes(cs: nat, relaxed: bool)
    requires IsTargetState(cs)
    ensures IsModelled(cs) && Transition(cs, '%', relaxed) == Plain(EscapeState(cs))
  {
  }

  lemma CharStays(cs: nat, c: char, relaxed: bool)
    requires IsTargetState(cs) && c != '%' && UriChar(c, CharsOf(cs), relaxed)
    ensures IsModelled(cs)
    ensures Transition(cs, c, relaxed) == Plain(cs)
  {
  }

  lemma HexMoves(base: nat, c: char, relaxed: bool)
    requires IsTargetState(base)
    ensures var e := EscapeState(base);
            && IsModelled(e) && Transition(e, c, relaxed) == Plain(if IsHex(c) then e + 1 else ERROR)
            && IsModelled(e + 1) && Transition(e + 1, c, relaxed) == Plain(if IsHex(c) then base else ERROR)
  {
  }

  /** A percent sign and two digits, from any state that takes them without an action. */
  lemma EscapeRun(m: Parser, buf: string, base: nat, relaxed: bool)
    requires IsTargetState(base)
    requires m.p + 3 <= |buf| && IsHex(buf[m.p + 1]) && IsHex(buf[m.p + 2])
    requires IsModelled(m.cs) && Transition(m.cs, buf[m.p], relaxed) == Plain(EscapeState(base))
    ensures Run(m, buf, relaxed) == Run(m.(cs := base, p := m.p + 3), buf, relaxed)
  {
    hide Run, Transition;
    PlainStep(m, buf, EscapeState(base), relaxed);
    DigitsRun(m.(cs := EscapeState(base), p := m.p + 1), buf, base, relaxed);
  }

  /** The two digits of an escape. */
  lemma DigitsRun(m: Parser, buf: string, base: nat, relaxed: bool)
    requires IsTargetState(base) && m.cs == EscapeState(base)
    requires m.p + 2 <= |buf| && IsHex(buf[m.p]) && IsHex(buf[m.p + 1])
    ensures Run(m, buf, relaxed) == Run(m.(cs := base, p := m.p + 2), buf, relaxed)
  {
    hide Run, Transition;
    HexMoves(base, buf[m.p], relaxed);
    PlainStep(m, buf, m.cs + 1, relaxed);
    HexMoves(base, buf[m.p + 1], relaxed);
    PlainStep(m.(cs := m.cs + 1, p := m.p + 1), buf, base, relaxed);
  }

  // Texts whose first octet sets a mark.

  /** A state before a text, the state that its plain characters lead to, and the mark that is set. */
  predicate IsMarkedStart(cs: nat, base: nat, a: Action) {
    (cs == 29 && base == 30 && a == StartQuery) || (cs == 20 && base == 21 && a == Mark)
    || (cs == 3 && base == 19 && a == Mark) || (cs == 174 && base == 26 && a == Mark)
  }

  lemma MarkedEscape(m: Parser, buf: string, base: nat, a: Action, relaxed: bool)
    requires IsMarkedStart(m.cs, base, a)
    requires m.p + 3 <= |buf| && buf[m.p] == '%' && IsHex(buf[m.p + 1]) && IsHex(buf[m.p + 2])
    ensures Run(m, buf, relaxed) == Run(Perform(m, buf, a).(cs := base, p := m.p + 3), buf, relaxed)
  {
    hide Run;
    OneAction(m, buf, a);
    ActionStep(m, buf, EscapeState(base), [a], relaxed);
    DigitsRun(Perform(m, buf, a).(cs := EscapeState(base), p := m.p + 1), buf, base, relaxed);
  }

  lemma MarkedChar(m: Parser, buf: string, base: nat, a: Action, relaxed: bool)
    requires IsMarkedStart(m.cs, base, a) && m.p < |buf| && buf[m.p] != '%'
    requires UriChar(buf[m.p], CharsOf(base), relaxed)
    requires (m.cs == 3 ==> !IsLetter(buf[m.p])) && (m.cs == 174 ==> buf[m.p] != '/')
    ensures Run(m, buf, relaxed) == Run(Perform(m, buf, a).(cs := base, p := m.p + 1), buf, relaxed)
  {
    hide Run;
    OneAction(m, buf, a);
    ActionStep(m, buf, base, [a], relaxed);
  }

  /** The first character or escape of a text sets its mark. */
  lemma MarkedTextRun(m: Parser, buf: string, s: string, base: nat, a: Action, relaxed: bool)
    requires IsMarkedStart(m.cs, base, a)
    requires s != "" && IsUriText(s, CharsOf(base), relaxed) && StandsAt(buf, m.p, s)
    requires (m.cs == 3 ==> !IsLetter(s[0])) && (m.cs == 174 ==> s[0] != '/')
    ensures Run(m, buf, relaxed) == Run(Perform(m, buf, a).(cs := base, p := m.p + |s|), buf, relaxed)
  {
    hide Run, Transition, UriChar, IsLetter, Perform;
    PerformKeepsCursor(m, buf, a);
    StandsChars(buf, m.p, s);
    var marked := Perform(m, buf, a);
    var k := if s[0] == '%' then 3 else 1;
    if s[0] == '%' {
      MarkedEscape(m, buf, base, a, relaxed);
    } else {
      MarkedChar(m, buf, base, a, relaxed);
    }
    assert s == s[..k] + s[k..];
    StandsSplit(buf, m.p, s[..k], s[k..]);
    UriTextRun(marked.(cs := base, p := m.p + k), buf, s[k..], relaxed);
  }

  lemma PerformKeepsCursor(m: Parser, buf: string, a: Action)
    ensures Perform(m, buf, a).p == m.p && Perform(m, buf, a).cs == m.cs
  {
  }

  // Paths.

  /** The cursor went over n octets, and nothing but the state changed. */
  ghost predicate Advanced(m: Parser, m': Parser, buf: string, n: nat, relaxed: bool) {
    && m.p + n <= |buf| && m' == m.(cs := m'.cs, p := m.p + n)
    && Run(m, buf, relaxed) == Run(m', buf, relaxed)
  }

  lemma AdvancedTwice(m: Parser, m1: Parser, m2: Parser, buf: string, n: nat, k: nat, relaxed: bool)
    requires Advanced(m, m1, buf, n, relaxed) && Advanced(m1, m2, buf, k, relaxed)
    ensures Advanced(m, m2, buf, n + k, relaxed)
  {
  }

  lemma NotAdvanced(m: Parser, buf: string, relaxed: bool)
    requires m.p <= |buf|
    ensures Advanced(m, m, buf, 0, relaxed)
  {
  }

  lemma StepAdvances(m: Parser, buf: string, next: nat, relaxed: bool) returns (m': Parser)
    requires m.p < |buf| && IsModelled(m.cs) && Transition(m.cs, buf[m.p], relaxed) == Plain(next)
    requires next != ERROR && next != ELSEWHERE
    ensures m'.cs == next && Advanced(m, m', buf, 1, relaxed)
  {
    hide Run, Transition;
    PlainStep(m, buf, next, relaxed);
    m' := m.(cs := next, p := m.p + 1);
  }

  lemma EscapeAdvances(m: Parser, buf: string, base: nat, relaxed: bool) returns (m': Parser)
    requires IsTargetState(base)
    requires m.p + 3 <= |buf| && IsHex(buf[m.p + 1]) && IsHex(buf[m.p + 2])
    requires IsModelled(m.cs) && Transition(m.cs, buf[m.p], relaxed) == Plain(EscapeState(base))
    ensures m'.cs == base && Advanced(m, m', buf, 3, relaxed)
  {
    hide Run, Transition;
    EscapeRun(m, buf, base, relaxed);
    m' := m.(cs := base, p := m.p + 3);
  }

  lemma UriTextAdvances(m: Parser, buf: string, s: string, relaxed: bool) returns (m': Parser)
    requires IsTargetState(m.cs) && IsUriText(s, CharsOf(m.cs), relaxed) && StandsAt(buf, m.p, s)
    ensures m'.cs == m.cs && Advanced(m, m', buf, |s|, relaxed)
  {
    hide Run, IsUriText;
    UriTextRun(m, buf, s, relaxed);
    m' := m.(p := m.p + |s|);
  }

  /** Families of states that take a text without keeping to one state. */
  predicate InFirstSegment(cs: nat) {
    cs == 19 || cs == 173
  }

  predicate MayBeUserinfo(cs: nat) {
    cs in {34, 35, 38, 39}
  }

  /** The states from which a path may end. */
  predicate IsPathState(cs: nat) {
    cs in {19, 26, 33, 34, 35, 38, 42, 43, 46, 173}
  }

  /** The one state of each family that an escape leads to, and where a plain character leads. */
  function EscapeBase(cs: nat): nat {
    if InFirstSegment(cs) then 19 else if cs == 34 || cs == 35 then 35 else if cs == 42 || cs == 43 then 43 else 39
  }

  lemma FamilyEscapes(cs: nat, relaxed: bool)
    requires InFirstSegment(cs) || MayBeUserinfo(cs) || cs == 42 || cs == 43
    ensures IsTargetState(EscapeBase(cs)) && IsModelled(cs)
    ensures Transition(cs, '%', relaxed) == Plain(EscapeState(EscapeBase(cs)))
  {
  }

  /** A plain character keeps to the family. */
  lemma FamilyChars(cs: nat, c: char, relaxed: bool) returns (next: nat)
    requires c != '%'
    requires (InFirstSegment(cs) && UriChar(c, InSegment, relaxed)) ||
             (MayBeUserinfo(cs) && UriChar(c, InUserinfo, relaxed))
    ensures IsModelled(cs) && Transition(cs, c, relaxed) == Plain(next)
    ensures if InFirstSegment(cs) then InFirstSegment(next) else MayBeUserinfo(next)
  {
    next := Transition(cs, c, relaxed).next;
  }

  /** The rest of a first segment, or user information, from any state of its family. */
  lemma {:induction false} FamilyAdvances(m: Parser, buf: string, s: string, chars: CharSet, relaxed: bool)
    returns (m': Parser)
    requires (InFirstSegment(m.cs) && chars == InSegment) || (MayBeUserinfo(m.cs) && chars == InUserinfo)
    requires IsUriText(s, chars, relaxed) && StandsAt(buf, m.p, s)
    ensures if chars == InSegment then InFirstSegment(m'.cs) else MayBeUserinfo(m'.cs)
    ensures Advanced(m, m', buf, |s|, relaxed)
    decreases |s|
  {
    hide Run, Transition, UriChar, StandsAt, Advanced;
    if s == "" {
      m' := m;
      StandsFits(buf, m.p, s);
      NotAdvanced(m, buf, relaxed);
    } else {
      var k := if s[0] == '%' then 3 else 1;
      var m1 := FamilyPiece(m, buf, s, chars, relaxed);
      assert s == s[..k] + s[k..];
      StandsSplit(buf, m.p, s[..k], s[k..]);
      AdvancedCursor(m, m1, buf, k, relaxed);
      m' := FamilyAdvances(m1, buf, s[k..], chars, relaxed);
      AdvancedTwice(m, m1, m', buf, k, |s| - k, relaxed);
    }
  }

  lemma AdvancedCursor(m: Parser, m': Parser, buf: string, n: nat, relaxed: bool)
    requires Advanced(m, m', buf, n, relaxed)
    ensures m'.p == m.p + n <= |buf|
  {
  }

  lemma FamilyPiece(m: Parser, buf: string, s: string, chars: CharSet, relaxed: bool) returns (m': Parser)
    requires (InFirstSegment(m.cs) && chars == InSegment) || (MayBeUserinfo(m.cs) && chars == InUserinfo)
    requires s != "" && IsUriText(s, chars, relaxed) && StandsAt(buf, m.p, s)
    ensures if chars == InSegment then InFirstSegment(m'.cs) else MayBeUserinfo(m'.cs)
    ensures Advanced(m, m', buf, if s[0] == '%' then 3 else 1, relaxed)
  {
    hide Run, Transition, UriChar, Advanced;
    StandsChars(buf, m.p, s);
    if s[0] == '%' {
      FamilyEscapes(m.cs, relaxed);
      m' := EscapeAdvances(m, buf, EscapeBase(m.cs), relaxed);
    } else {
      var next := FamilyChars(m.cs, s[0], relaxed);
      NotStopped(m.cs, next);
      m' := StepAdvances(m, buf, next, relaxed);
    }
  }

  lemma NotStopped(cs: nat, next: nat)
    requires if InFirstSegment(cs) then InFirstSegment(next) else MayBeUserinfo(next)
    ensures next != ERROR && next != ELSEWHERE
  {
  }

  /** A host name, at the start of an authority or behind its user information. */
  lemma HostAdvances(m: Parser, buf: string, s: string, relaxed: bool) returns (m': Parser)
    requires (m.cs == 34 || m.cs == 42) && IsUriText(s, InName, relaxed) && StandsAt(buf, m.p, s)
    ensures m'.cs in {m.cs, m.cs + 1} && Advanced(m, m', buf, |s|, relaxed)
  {
    hide Run, Transition, UriChar, Advanced, IsUriText, StandsAt;
    if s == "" {
      m' := m;
      StandsFits(buf, m.p, s);
      NotAdvanced(m, buf, relaxed);
    } else {
      var k := if s[0] == '%' then 3 else 1;
      PieceOf(s, InName, relaxed);
      var m1 := HostPiece(m, buf, s, relaxed);
      assert s == s[..k] + s[k..];
      StandsSplit(buf, m.p, s[..k], s[k..]);
      AdvancedCursor(m, m1, buf, k, relaxed);
      m' := UriTextAdvances(m1, buf, s[k..], relaxed);
      AdvancedTwice(m, m1, m', buf, k, |s| - k, relaxed);
    }
  }

  lemma PieceOf(s: string, chars: CharSet, relaxed: bool)
    requires s != "" && IsUriText(s, chars, relaxed)
    ensures if s[0] == '%' then |s| >= 3 && IsHex(s[1]) && IsHex(s[2]) && IsUriText(s[3..], chars, relaxed)
            else UriChar(s[0], chars, relaxed) && IsUriText(s[1..], chars, relaxed)
  {
  }

  lemma HostPiece(m: Parser, buf: string, s: string, relaxed: bool) returns (m': Parser)
    requires (m.cs == 34 || m.cs == 42) && s != "" && IsUriText(s, InName, relaxed) && StandsAt(buf, m.p, s)
    ensures m'.cs == m.cs + 1 && Advanced(m, m', buf, if s[0] == '%' then 3 else 1, relaxed)
  {
    hide Run, Transition, UriChar, Advanced;
    StandsChars(buf, m.p, s);
    if s[0] == '%' {
      FamilyEscapes(m.cs, relaxed);
      m' := EscapeAdvances(m, buf, m.cs + 1, relaxed);
    } else {
      HostChar(m.cs, s[0], relaxed);
      m' := StepAdvances(m, buf, m.cs + 1, relaxed);
    }
  }

  lemma HostChar(cs: nat, c: char, relaxed: bool)
    requires (cs == 34 || cs == 42) && c != '%' && UriChar(c, InName, relaxed)
    ensures IsModelled(cs) && Transition(cs, c, relaxed) == Plain(cs + 1)
  {
  }

  predicate BehindHost(cs: nat) {
    cs in {34, 35, 42, 43}
  }

  /** The colon and the digits of a port, if there is one. */
  lemma PortAdvances(m: Parser, buf: string, port: Option, relaxed: bool) returns (m': Parser)
    requires BehindHost(m.cs) && (port.Some? ==> IsDigits(port.s)) && StandsAt(buf, m.p, PortText(port))
    ensures m'.cs in {m.cs, 38, 46} && Advanced(m, m', buf, |PortText(port)|, relaxed)
  {
    hide Run, Transition, Advanced, IsDigits, StandsAt;
    StandsFits(buf, m.p, PortText(port));
    if port.None? {
      m' := m;
      NotAdvanced(m, buf, relaxed);
    } else {
      StandsSplit(buf, m.p, ":", port.s);
      StandsChars(buf, m.p, ":");
      var next := ColonMoves(m.cs, relaxed);
      var m1 := StepAdvances(m, buf, next, relaxed);
      AdvancedCursor(m, m1, buf, 1, relaxed);
      m' := PortDigitsAdvance(m1, buf, port.s, relaxed);
      AdvancedTwice(m, m1, m', buf, 1, |port.s|, relaxed);
    }
  }

  lemma ColonMoves(cs: nat, relaxed: bool) returns (next: nat)
    requires BehindHost(cs)
    ensures (next == 38 || next == 46) && IsModelled(cs) && Transition(cs, ':', relaxed) == Plain(next)
  {
    next := if cs <= 35 then 38 else 46;
  }

  lemma {:induction false} PortDigitsAdvance(m: Parser, buf: string, s: string, relaxed: bool) returns (m': Parser)
    requires (m.cs == 38 || m.cs == 46) && IsDigits(s) && StandsAt(buf, m.p, s)
    ensures m'.cs == m.cs && Advanced(m, m', buf, |s|, relaxed)
    decreases |s|
  {
    hide Run, Transition, Advanced, StandsAt;
    StandsFits(buf, m.p, s);
    if s == "" {
      m' := m;
      NotAdvanced(m, buf, relaxed);
    } else {
      StandsChars(buf, m.p, s);
      DigitStays(m.cs, s[0], relaxed);
      var m1 := StepAdvances(m, buf, m.cs, relaxed);
      AdvancedCursor(m, m1, buf, 1, relaxed);
      assert s == s[..1] + s[1..];
      StandsSplit(buf, m.p, s[..1], s[1..]);
      m' := PortDigitsAdvance(m1, buf, s[1..], relaxed);
      AdvancedTwice(m, m1, m', buf, 1, |s| - 1, relaxed);
    }
  }

  lemma DigitStays(cs: nat, c: char, relaxed: bool)
    requires (cs == 38 || cs == 46) && IsDigit(c)
    ensures IsModelled(cs) && Transition(cs, c, relaxed) == Plain(cs)
  {
  }

  /** The segments behind an authority or behind a first segment. */
  lemma TailAdvances(m: Parser, buf: string, tail: string, relaxed: bool) returns (m': Parser)
    requires IsPathState(m.cs) && m.cs != 26 && m.cs != 33 && IsTail(tail, relaxed) && StandsAt(buf, m.p, tail)
    ensures IsPathState(m'.cs) && Advanced(m, m', buf, |tail|, relaxed)
  {
    hide Run, Transition, Advanced, IsUriText, StandsAt;
    StandsFits(buf, m.p, tail);
    if tail == "" {
      m' := m;
      NotAdvanced(m, buf, relaxed);
    } else {
      StandsChars(buf, m.p, tail);
      SlashMoves(m.cs, relaxed);
      var m1 := StepAdvances(m, buf, 26, relaxed);
      AdvancedCursor(m, m1, buf, 1, relaxed);
      assert tail == tail[..1] + tail[1..];
      StandsSplit(buf, m.p, tail[..1], tail[1..]);
      m' := UriTextAdvances(m1, buf, tail[1..], relaxed);
      AdvancedTwice(m, m1, m', buf, 1, |tail| - 1, relaxed);
    }
  }

  lemma SlashMoves(cs: nat, relaxed: bool)
    requires IsPathState(cs) && cs != 26 && cs != 33
    ensures IsModelled(cs) && Transition(cs, '/', relaxed) == Plain(26)
  {
  }

  /** User information and its sign, if there is any. */
  lemma UserinfoAdvances(m: Parser, buf: string, userinfo: Option, relaxed: bool) returns (m': Parser)
    requires m.cs == 34 && (userinfo.Some? ==> IsUriText(userinfo.s, InUserinfo, relaxed))
    requires StandsAt(buf, m.p, UserinfoText(userinfo))
    ensures m'.cs == (if userinfo.Some? then 42 else 34) && Advanced(m, m', buf, |UserinfoText(userinfo)|, relaxed)
  {
    hide Run, Transition, Advanced, IsUriText, StandsAt;
    StandsFits(buf, m.p, UserinfoText(userinfo));
    if userinfo.None? {
      m' := m;
      NotAdvanced(m, buf, relaxed);
    } else {
      var s := userinfo.s;
      StandsSplit(buf, m.p, s, "@");
      StandsChars(buf, m.p + |s|, "@");
      var m1 := FamilyAdvances(m, buf, s, InUserinfo, relaxed);
      AdvancedCursor(m, m1, buf, |s|, relaxed);
      AtMoves(m1.cs, relaxed);
      m' := StepAdvances(m1, buf, 42, relaxed);
      AdvancedTwice(m, m1, m', buf, |s|, 1, relaxed);
    }
  }

  lemma AtMoves(cs: nat, relaxed: bool)
    requires MayBeUserinfo(cs)
    ensures IsModelled(cs) && Transition(cs, '@', relaxed) == Plain(42)
  {
  }

  /** From behind two slashes. */
  lemma AuthorityAdvances(m: Parser, buf: string, p: Path, behindScheme: bool, relaxed: bool) returns (m': Parser)
    requires m.cs == 34 && p.Network? && IsPath(p, behindScheme, relaxed)
    requires StandsAt(buf, m.p, UserinfoText(p.userinfo) + (p.host + (PortText(p.port) + p.tail)))
    ensures IsPathState(m'.cs)
    ensures Advanced(m, m', buf, |UserinfoText(p.userinfo)| + |p.host| + |PortText(p.port)| + |p.tail|, relaxed)
  {
    hide Run, Transition, Advanced, IsUriText, StandsAt, IsTail, IsDigits, UserinfoText, PortText;
    var u, h, q, t := UserinfoText(p.userinfo), p.host, PortText(p.port), p.tail;
    StandsSplit(buf, m.p, u, h + (q + t));
    StandsSplit(buf, m.p + |u|, h, q + t);
    StandsSplit(buf, m.p + |u| + |h|, q, t);
    var m1 := UserinfoAdvances(m, buf, p.userinfo, relaxed);
    AdvancedCursor(m, m1, buf, |u|, relaxed);
    var m2 := HostAdvances(m1, buf, h, relaxed);
    AdvancedCursor(m1, m2, buf, |h|, relaxed);
    AdvancedTwice(m, m1, m2, buf, |u|, |h|, relaxed);
    var m3 := PortAdvances(m2, buf, p.port, relaxed);
    AdvancedCursor(m2, m3, buf, |q|, relaxed);
    AdvancedTwice(m, m2, m3, buf, |u| + |h|, |q|, relaxed);
    m' := TailAdvances(m3, buf, t, relaxed);
    AdvancedTwice(m, m3, m', buf, |u| + |h| + |q|, |t|, relaxed);
  }

  /** From behind the first slash of a path. */
  lemma RootedAdvances(m: Parser, buf: string, rest: string, relaxed: bool) returns (m': Parser)
    requires m.cs == 33 && IsUriText(rest, InPath, relaxed) && (rest != "" ==> rest[0] != '/')
    requires StandsAt(buf, m.p, rest)
    ensures IsPathState(m'.cs) && Advanced(m, m', buf, |rest|, relaxed)
  {
    hide Run, Transition, Advanced, IsUriText, StandsAt, UriChar;
    StandsFits(buf, m.p, rest);
    if rest == "" {
      m' := m;
      NotAdvanced(m, buf, relaxed);
    } else {
      var k := if rest[0] == '%' then 3 else 1;
      PieceOf(rest, InPath, relaxed);
      StandsChars(buf, m.p, rest);
      RootMoves(rest[0], relaxed);
      var m1: Parser;
      if rest[0] == '%' {
        m1 := EscapeAdvances(m, buf, 26, relaxed);
      } else {
        m1 := StepAdvances(m, buf, 26, relaxed);
      }
      AdvancedCursor(m, m1, buf, k, relaxed);
      assert rest == rest[..k] + rest[k..];
      StandsSplit(buf, m.p, rest[..k], rest[k..]);
      m' := UriTextAdvances(m1, buf, rest[k..], relaxed);
      AdvancedTwice(m, m1, m', buf, k, |rest| - k, relaxed);
    }
  }

  lemma RootMoves(c: char, relaxed: bool)
    requires c == '%' || (UriChar(c, InPath, relaxed) && c != '/')
    ensures IsModelled(33) && Transition(33, c, relaxed) == Plain(if c == '%' then 27 else 26)
  {
  }

  predicate IsStart(cs: nat) {
    cs == 3 || cs == 174
  }

  /** The first octet of a path sets the mark. */
  lemma MarkedStep(m: Parser, buf: string, next: nat, relaxed: bool) returns (m': Parser)
    requires m.p < |buf| && IsModelled(m.cs) && Transition(m.cs, buf[m.p], relaxed) == Move(next, [Mark])
    requires next != ERROR && next != ELSEWHERE
    ensures m' == m.(cs := next, mark := m.p, p := m.p + 1) && Run(m, buf, relaxed) == Run(m', buf, relaxed)
  {
    hide Run, Transition;
    OneAction(m, buf, Mark);
    ActionStep(m, buf, next, [Mark], relaxed);
    m' := m.(cs := next, mark := m.p, p := m.p + 1);
  }

  lemma SlashStarts(cs: nat, relaxed: bool)
    requires IsStart(cs)
    ensures IsModelled(cs) && Transition(cs, '/', relaxed) == Move(33, [Mark])
    ensures IsModelled(33) && Transition(33, '/', relaxed) == Plain(34)
  {
  }

  /** A path from its first octet on: one slash, or two and an authority. */
  lemma SlashPathRun(m: Parser, buf: string, p: Path, behindScheme: bool, relaxed: bool) returns (m': Parser)
    requires IsStart(m.cs) && (p.Rooted? || p.Network?) && IsPath(p, behindScheme, relaxed)
    requires StandsAt(buf, m.p, PathText(p))
    ensures IsPathState(m'.cs) && m.p + |PathText(p)| <= |buf|
    ensures m' == m.(cs := m'.cs, mark := m.p, p := m.p + |PathText(p)|)
    ensures Run(m, buf, relaxed) == Run(m', buf, relaxed)
  {
    hide Run, Transition, IsUriText, StandsAt, IsTail, UserinfoText, PortText;
    StandsFits(buf, m.p, PathText(p));
    StandsChars(buf, m.p, PathText(p));
    SlashStarts(m.cs, relaxed);
    var m1 := MarkedStep(m, buf, 33, relaxed);
    if p.Rooted? {
      StandsSplit(buf, m.p, "/", p.rest);
      m' := RootedAdvances(m1, buf, p.rest, relaxed);
    } else {
      StandsSplit(buf, m.p, "//", UserinfoText(p.userinfo) + (p.host + (PortText(p.port) + p.tail)));
      var m2 := StepAdvances(m1, buf, 34, relaxed);
      m' := AuthorityAdvances(m2, buf, p, behindScheme, relaxed);
    }
  }

  /** A first segment: a letter may still start a scheme. */
  lemma SegmentRun(m: Parser, buf: string, first: string, relaxed: bool) returns (m': Parser)
    requires m.cs == 3 && first != "" && IsUriText(first, InSegment, relaxed) && StandsAt(buf, m.p, first)
    ensures InFirstSegment(m'.cs) && m.p + |first| <= |buf|
    ensures m' == m.(cs := m'.cs, mark := m.p, p := m.p + |first|) && Run(m, buf, relaxed) == Run(m', buf, relaxed)
  {
    hide Run, Transition, IsUriText, StandsAt, UriChar;
    StandsFits(buf, m.p, first);
    StandsChars(buf, m.p, first);
    if IsLetter(first[0]) {
      PieceOf(first, InSegment, relaxed);
      LetterStarts(first[0], relaxed);
      var m1 := MarkedStep(m, buf, 173, relaxed);
      assert first == first[..1] + first[1..];
      StandsSplit(buf, m.p, first[..1], first[1..]);
      m' := FamilyAdvances(m1, buf, first[1..], InSegment, relaxed);
    } else {
      MarkedTextRun(m, buf, first, 19, Mark, relaxed);
      m' := m.(cs := 19, mark := m.p, p := m.p + |first|);
    }
  }

  lemma LetterStarts(c: char, relaxed: bool)
    requires IsLetter(c)
    ensures c != '%' && IsModelled(3) && Transition(3, c, relaxed) == Move(173, [Mark])
  {
  }

  /** Any path that is not empty. */
  lemma PathRun(m: Parser, buf: string, p: Path, relaxed: bool) returns (m': Parser)
    requires IsStart(m.cs) && IsPath(p, m.cs == 174, relaxed) && !p.NoPath? && StandsAt(buf, m.p, PathText(p))
    ensures IsPathState(m'.cs) && m.p + |PathText(p)| <= |buf|
    ensures m' == m.(cs := m'.cs, mark := m.p, p := m.p + |PathText(p)|)
    ensures Run(m, buf, relaxed) == Run(m', buf, relaxed)
  {
    hide Run, Transition, IsUriText, StandsAt, IsTail, UserinfoText, PortText;
    match p
    case NoPath =>
    case Relative(first, tail) =>
      StandsSplit(buf, m.p, first, tail);
      var m1 := SegmentRun(m, buf, first, relaxed);
      m' := TailAdvances(m1, buf, tail, relaxed);
    case Rootless(text) =>
      StandsFits(buf, m.p, text);
      MarkedTextRun(m, buf, text, 26, Mark, relaxed);
      m' := m.(cs := 26, mark := m.p, p := m.p + |text|);
    case _ =>
      m' := SlashPathRun(m, buf, p, m.cs == 174, relaxed);
  }

  /** Where the octet behind a path leads. */
  function AfterPath(c: char): nat {
    if c == ' ' then 4 else if c == '#' then 20 else 29
  }

  function EndEvents(path: string, c: char): seq<Event> {
    if c == '?' then [PathIs(path)] else [PathIs(path), UriIs(path)]
  }

  lemma PathEnds(m: Parser, buf: string, c: char, relaxed: bool)
    requires IsPathState(m.cs) && IsPathEnd(c) && CharAt(buf, m.p, c)
    ensures Run(m, buf, relaxed) ==
            Run(m.(cs := AfterPath(c), p := m.p + 1, events := m.events + EndEvents(Slice(buf, m.mark, m.p), c)), buf,
              relaxed)
  {
    hide Run, Slice, Transition;
    EndMoves(m.cs, c, relaxed);
    assert [] + [RequestPath] == [RequestPath] && [] + [RequestPath, RequestUri] == [RequestPath, RequestUri];
    OneAction(m, buf, RequestPath);
    TwoActions(m, buf, RequestPath, RequestUri);
    var path := Slice(buf, m.mark, m.p);
    assert m.events + [PathIs(path)] + [UriIs(path)] == m.events + [PathIs(path), UriIs(path)];
    ActionStep(m, buf, AfterPath(c), if c == '?' then [RequestPath] else [RequestPath, RequestUri], relaxed);
  }

  lemma EndMoves(cs: nat, c: char, relaxed: bool)
    requires IsPathState(cs) && IsPathEnd(c)
    ensures IsModelled(cs) && Transition(cs, c, relaxed) == EndMove(c, [])
  {
  }

  /** The empty path: the octet behind it sets the mark as well. */
  lemma NoPathEnds(m: Parser, buf: string, c: char, relaxed: bool)
    requires IsStart(m.cs) && IsPathEnd(c) && CharAt(buf, m.p, c)
    ensures Run(m, buf, relaxed) ==
            Run(m.(cs := AfterPath(c), mark := m.p, p := m.p + 1, events := m.events + EndEvents("", c)), buf, relaxed)
  {
    hide Run, Transition;
    NoPathMoves(m.cs, c, relaxed);
    assert [Mark] + [RequestPath] == [Mark, RequestPath];
    assert [Mark] + [RequestPath, RequestUri] == [Mark, RequestPath, RequestUri];
    TwoActions(m, buf, Mark, RequestPath);
    ThreeActions(m, buf, Mark, RequestPath, RequestUri);
    assert buf[m.p..m.p] == "";
    assert m.events + [PathIs("")] + [UriIs("")] == m.events + [PathIs(""), UriIs("")];
    ActionStep(m, buf, AfterPath(c), if c == '?' then [Mark, RequestPath] else [Mark, RequestPath, RequestUri],
      relaxed);
  }

  lemma NoPathMoves(cs: nat, c: char, relaxed: bool)
    requires IsStart(cs) && IsPathEnd(c)
    ensures IsModelled(cs) && Transition(cs, c, relaxed) == EndMove(c, [Mark])
  {
  }

  /** A legal path and the octet that ends it: the path callback hears the path, and uri does if it ends there. */
  lemma PathAccepted(m: Parser, buf: string, p: Path, c: char, relaxed: bool)
    requires IsStart(m.cs) && IsPath(p, m.cs == 174, relaxed) && IsPathEnd(c) && StandsAt(buf, m.p, PathText(p) + [c])
    ensures m.p + |PathText(p)| < |buf|
    ensures Run(m, buf, relaxed) ==
            Run(m.(cs := AfterPath(c), mark := m.p, p := m.p + |PathText(p)| + 1,
                   events := m.events + EndEvents(PathText(p), c)), buf, relaxed)
  {
    hide Run, Slice, IsPath, StandsAt, EndEvents, AfterPath;
    var s := PathText(p);
    assert p.NoPath? ==> s == "";
    hide PathText;
    StandsSplit(buf, m.p, s, [c]);
    StandsChars(buf, m.p + |s|, [c]);
    StandsFits(buf, m.p + |s|, [c]);
    if p.NoPath? {
      NoPathEnds(m, buf, c, relaxed);
    } else {
      var m1 := PathRun(m, buf, p, relaxed);
      SliceOfStanding(buf, m.p, s);
      PathEnds(m1, buf, c, relaxed);
    }
  }

  // Scheme.

  lemma {:induction false} SchemeCharsRun(m: Parser, buf: string, s: string, relaxed: bool)
    requires m.cs == 173 && (forall i :: 0 <= i < |s| ==> IsSchemeChar(s[i])) && StandsAt(buf, m.p, s)
    ensures Run(m, buf, relaxed) == Run(m.(p := m.p + |s|), buf, relaxed)
    decreases |s|
  {
    hide Run, IsSchemeChar, Transition;
    if s != "" {
      StandsChars(buf, m.p, s);
      SchemeCharStays(s[0], relaxed);
      PlainStep(m, buf, 173, relaxed);
      assert s == s[..1] + s[1..];
      StandsSplit(buf, m.p, s[..1], s[1..]);
      SchemeCharsRun(m.(p := m.p + 1), buf, s[1..], relaxed);
    }
  }

  lemma SchemeCharStays(c: char, relaxed: bool)
    requires IsSchemeChar(c)
    ensures IsModelled(173) && Transition(173, c, relaxed) == Plain(173)
  {
  }

  /** A scheme and its colon, if there is one; the mark it sets is set again behind it. */
  lemma SchemeAccepted(m: Parser, buf: string, scheme: Option, relaxed: bool) returns (m': Parser)
    requires m.cs == 3 && (scheme.Some? ==> IsScheme(scheme.s)) && StandsAt(buf, m.p, SchemeText(scheme))
    ensures m'.p == m.p + |SchemeText(scheme)| <= |buf| && m'.cs == (if scheme.Some? then 174 else 3)
    ensures m' == m.(cs := m'.cs, mark := m'.mark, p := m'.p) && Run(m, buf, relaxed) == Run(m', buf, relaxed)
  {
    hide Run, Transition, IsLetter, IsSchemeChar, StandsAt;
    StandsFits(buf, m.p, SchemeText(scheme));
    m' := m;
    if scheme.Some? {
      var s := scheme.s;
      StandsSplit(buf, m.p, s, ":");
      StandsChars(buf, m.p, s);
      StandsChars(buf, m.p + |s|, ":");
      LetterStarts(s[0], relaxed);
      var m1 := MarkedStep(m, buf, 173, relaxed);
      assert s == s[..1] + s[1..];
      StandsSplit(buf, m.p, s[..1], s[1..]);
      SchemeCharsRun(m1, buf, s[1..], relaxed);
      SchemeEnds(relaxed);
      PlainStep(m1.(p := m.p + |s|), buf, 174, relaxed);
      m' := m1.(cs := 174, p := m.p + |s| + 1);
    }
  }

  lemma SchemeEnds(relaxed: bool)
    ensures IsModelled(173) && Transition(173, ':', relaxed) == Plain(174)
  {
  }

  // Path and query, query, fragment.

  /** Path and query, and the space or number sign behind them. */
  lemma TargetAccepted(m: Parser, buf: string, p: Path, query: Option, c: char, relaxed: bool)
    returns (m': Parser)
    requires IsStart(m.cs) && IsPath(p, m.cs == 174, relaxed) && (query.Some? ==> IsUriText(query.s, InQuery, relaxed))
    requires c == ' ' || c == '#'
    requires StandsAt(buf, m.p, PathText(p) + (QueryText(query) + [c]))
    ensures m'.p <= |buf| && Run(m, buf, relaxed) == Run(m', buf, relaxed)
    ensures m'.cs == AfterPath(c) && m'.p == m.p + |PathText(p)| + |QueryText(query)| + 1
    ensures m'.events == m.events + TargetEvents(PathText(p), query)
  {
    hide Run, IsPath, IsUriText, StandsAt, Slice, PathText;
    var path := PathText(p);
    if query.None? {
      assert QueryText(query) + [c] == [c];
      PathAccepted(m, buf, p, c, relaxed);
      m' := m.(cs := AfterPath(c), mark := m.p, p := m.p + |path| + 1, events := m.events + EndEvents(path, c));
    } else {
      var s := query.s;
      assert path + (QueryText(query) + [c]) == path + ['?'] + (s + [c]);
      StandsSplit(buf, m.p, path + ['?'], s + [c]);
      PathAccepted(m, buf, p, '?', relaxed);
      var m1 := m.(cs := 29, mark := m.p, p := m.p + |path| + 1, events := m.events + EndEvents(path, '?'));
      UriOfTarget(buf, m.p, path, s, c);
      m' := QueryAccepted(m1, buf, s, c, relaxed);
      assert m'.events == m.events + TargetEvents(path, query);
    }
  }

  lemma UriOfTarget(buf: string, p: nat, path: string, s: string, c: char)
    requires StandsAt(buf, p, path + (("?" + s) + [c]))
    ensures Slice(buf, p, p + |path| + 1 + |s|) == path + "?" + s
  {
    assert path + (("?" + s) + [c]) == path + "?" + s + [c];
    StandsSplit(buf, p, path + "?" + s, [c]);
    SliceOfStanding(buf, p, path + "?" + s);
  }

  lemma QueryAccepted(m: Parser, buf: string, s: string, c: char, relaxed: bool) returns (m': Parser)
    requires m.cs == 29 && IsUriText(s, InQuery, relaxed) && (c == ' ' || c == '#') && StandsAt(buf, m.p, s + [c])
    ensures m'.p <= |buf| && Run(m, buf, relaxed) == Run(m', buf, relaxed)
    ensures m'.cs == AfterPath(c) && m'.p == m.p + |s| + 1
    ensures m'.events == m.events + [QueryIs(s)] + [UriIs(Slice(buf, m.mark, m.p + |s|))]
  {
    hide Run, IsUriText, StandsAt, Slice;
    StandsSplit(buf, m.p, s, [c]);
    StandsChars(buf, m.p + |s|, [c]);
    SliceOfStanding(buf, m.p, s);
    var m1 := m;
    if s == "" {
      ThreeActions(m, buf, StartQuery, QueryString, RequestUri);
      assert [StartQuery] + [QueryString, RequestUri] == [StartQuery, QueryString, RequestUri];
      ActionStep(m, buf, AfterPath(c), [StartQuery, QueryString, RequestUri], relaxed);
      m' := PerformAll(m, buf, [StartQuery, QueryString, RequestUri]).(cs := AfterPath(c), p := m.p + 1);
    } else {
      MarkedTextRun(m, buf, s, 30, StartQuery, relaxed);
      m1 := m.(cs := 30, queryStart := m.p, p := m.p + |s|);
      TwoActions(m1, buf, QueryString, RequestUri);
      assert [] + [QueryString, RequestUri] == [QueryString, RequestUri];
      ActionStep(m1, buf, AfterPath(c), [QueryString, RequestUri], relaxed);
      m' := PerformAll(m1, buf, [QueryString, RequestUri]).(cs := AfterPath(c), p := m1.p + 1);
    }
  }

  lemma FragmentAccepted(m: Parser, buf: string, s: string, relaxed: bool) returns (m': Parser)
    requires m.cs == 20 && IsUriText(s, InQuery, relaxed) && StandsAt(buf, m.p, s + " ")
    ensures m'.p <= |buf| && Run(m, buf, relaxed) == Run(m', buf, relaxed)
    ensures m'.cs == 4 && m'.p == m.p + |s| + 1
    ensures m'.events == m.events + [FragmentIs(s)]
  {
    hide Run, IsUriText, StandsAt, Slice;
    StandsSplit(buf, m.p, s, " ");
    StandsChars(buf, m.p + |s|, " ");
    SliceOfStanding(buf, m.p, s);
    if s == "" {
      TwoActions(m, buf, Mark, FragmentText);
      assert [Mark] + [FragmentText] == [Mark, FragmentText];
      ActionStep(m, buf, 4, [Mark, FragmentText], relaxed);
      m' := PerformAll(m, buf, [Mark, FragmentText]).(cs := 4, p := m.p + 1);
    } else {
      MarkedTextRun(m, buf, s, 21, Mark, relaxed);
      var m1 := m.(cs := 21, mark := m.p, p := m.p + |s|);
      OneAction(m1, buf, FragmentText);
      assert [] + [FragmentText] == [FragmentText];
      ActionStep(m1, buf, 4, [FragmentText], relaxed);
      m' := PerformAll(m1, buf, [FragmentText]).(cs := 4, p := m1.p + 1);
    }
  }
}
