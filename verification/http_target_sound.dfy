/** Whatever leads from the method to the version is a legal target. */
module HttpTargetSound {
  import opened Texts
  import opened HttpMachine
  import opened HttpGrammar
  import opened HttpTarget
  import opened HttpReads

  /** Three octets of an escape, from any state that the percent sign leads to the first of its states. */
  lemma EscapeFound(buf: string, p: nat, base: nat, relaxed: bool)
    requires p < |buf| && IsTargetState(base) && Accepts(buf, p + 1, EscapeState(base), relaxed)
    ensures p + 3 <= |buf| && IsHex(buf[p + 1]) && IsHex(buf[p + 2]) && Accepts(buf, p + 3, base, relaxed)
  {
    hide Accepts, Transition;
    HexMoves(base, ' ', relaxed);
    Next(buf, p + 1, EscapeState(base), relaxed);
    HexMoves(base, buf[p + 1], relaxed);
    Next(buf, p + 2, EscapeState(base) + 1, relaxed);
    HexMoves(base, buf[p + 2], relaxed);
  }

  /** What ends a text of plain characters and escapes, and where it leads. */
  predicate EndsText(c: char, base: nat) {
    match base
    case 21 => c == ' '
    case 30 => c == ' ' || c == '#'
    case 26 => IsPathEnd(c)
    case 19 => IsPathEnd(c) || c == '/'
    case 43 => IsPathEnd(c) || c == '/' || c == ':'
    case 35 => IsPathEnd(c) || c == '/' || c == ':' || c == '@'
    case _ => c == '@'
  }

  function AfterText(c: char, base: nat): nat {
    if c == '/' then 26 else if c == '@' then 42 else if c == ':' then (if base == 35 then 38 else 46) else AfterPath(c)
  }

  /** What ends a text leaves its state; everything else stays in it or opens an escape. */
  lemma TextMoves(base: nat, c: char, relaxed: bool)
    requires IsTargetState(base)
    ensures IsModelled(base)
    ensures var next := Transition(base, c, relaxed).next;
            if EndsText(c, base) then next == AfterText(c, base)
            else if c == '%' then next == EscapeState(base)
            else next == if UriChar(c, CharsOf(base), relaxed) then base else ERROR
  {
  }

  lemma {:induction false} UriTextFound(buf: string, p: nat, base: nat, relaxed: bool) returns (s: string)
    requires p <= |buf| && IsTargetState(base) && Accepts(buf, p, base, relaxed)
    ensures IsUriText(s, CharsOf(base), relaxed) && StandsAt(buf, p, s) && p + |s| < |buf|
    ensures EndsText(buf[p + |s|], base) && Accepts(buf, p + |s| + 1, AfterText(buf[p + |s|], base), relaxed)
    decreases |buf| - p, 1
  {
    hide Accepts, StandsAt, Transition, EndsText, UriChar, AfterText;
    Next(buf, p, base, relaxed);
    TextMoves(base, buf[p], relaxed);
    if EndsText(buf[p], base) {
      s := "";
      StandsEmpty(buf, p);
    } else {
      s := PieceAndRest(buf, p, base, relaxed);
    }
  }

  /** A text that does not start with what would end it. */
  lemma {:induction false} PieceAndRest(buf: string, p: nat, base: nat, relaxed: bool) returns (s: string)
    requires p < |buf| && IsTargetState(base)
    requires if buf[p] == '%' then Accepts(buf, p + 1, EscapeState(base), relaxed)
             else UriChar(buf[p], CharsOf(base), relaxed) && Accepts(buf, p + 1, base, relaxed)
    ensures s != "" && s[0] == buf[p]
    ensures IsUriText(s, CharsOf(base), relaxed) && StandsAt(buf, p, s) && p + |s| < |buf|
    ensures EndsText(buf[p + |s|], base) && Accepts(buf, p + |s| + 1, AfterText(buf[p + |s|], base), relaxed)
    decreases |buf| - p, 0
  {
    hide Accepts, StandsAt, EndsText, UriChar, AfterText;
    if buf[p] == '%' {
      EscapeFound(buf, p, base, relaxed);
      var rest := UriTextFound(buf, p + 3, base, relaxed);
      s := EscapeInFront(buf, p, rest, CharsOf(base), relaxed);
    } else {
      var rest := UriTextFound(buf, p + 1, base, relaxed);
      s := CharInFront(buf, p, rest, CharsOf(base), relaxed);
    }
  }

  lemma CharInFront(buf: string, p: nat, rest: string, chars: CharSet, relaxed: bool) returns (s: string)
    requires p < |buf| && buf[p] != '%' && UriChar(buf[p], chars, relaxed)
    requires IsUriText(rest, chars, relaxed) && StandsAt(buf, p + 1, rest)
    ensures |s| == 1 + |rest| && s[0] == buf[p] && IsUriText(s, chars, relaxed) && StandsAt(buf, p, s)
  {
    hide UriChar;
    s := [buf[p]] + rest;
    assert s[1..] == rest;
    StandsCons(buf, p, rest);
  }

  lemma EscapeInFront(buf: string, p: nat, rest: string, chars: CharSet, relaxed: bool) returns (s: string)
    requires p + 3 <= |buf| && buf[p] == '%' && IsHex(buf[p + 1]) && IsHex(buf[p + 2])
    requires IsUriText(rest, chars, relaxed) && StandsAt(buf, p + 3, rest)
    ensures |s| == 3 + |rest| && s[0] == '%' && IsUriText(s, chars, relaxed) && StandsAt(buf, p, s)
  {
    s := [buf[p], buf[p + 1], buf[p + 2]] + rest;
    assert s[3..] == rest;
    StandsJoin(buf, p, [buf[p], buf[p + 1], buf[p + 2]], rest);
  }

  /** A first state that moves as the state of its text does on every octet. */
  lemma SameMoves(cs: nat, base: nat, c: char, relaxed: bool)
    requires (cs == 29 && base == 30) || (cs == 20 && base == 21) || (cs == 33 && base == 26 && c != '/')
             || (cs == 34 && base == 35 && c != '[') || (cs == 42 && base == 43 && c != '[')
    ensures IsModelled(cs) && IsModelled(base)
    ensures Transition(cs, c, relaxed).next == Transition(base, c, relaxed).next
  {
  }

  /** The text behind a first state that moves as the state of its text does. */
  lemma FirstTextFound(buf: string, p: nat, cs: nat, base: nat, relaxed: bool) returns (s: string)
    requires p <= |buf| && Accepts(buf, p, cs, relaxed)
    requires (cs == 29 && base == 30) || (cs == 20 && base == 21) || (cs == 34 && base == 35) ||
             (cs == 42 && base == 43)
    ensures IsUriText(s, CharsOf(base), relaxed) && StandsAt(buf, p, s) && p + |s| < |buf|
    ensures EndsText(buf[p + |s|], base) && Accepts(buf, p + |s| + 1, AfterText(buf[p + |s|], base), relaxed)
  {
    hide Accepts, StandsAt, Transition, UriChar, IsUriText, EndsText, AfterText;
    Next(buf, p, cs, relaxed);
    BracketLeaves(cs, relaxed);
    SameMoves(cs, base, if buf[p] == '[' then ' ' else buf[p], relaxed);
    TextMoves(base, buf[p], relaxed);
    if buf[p] == '[' && cs != 34 && cs != 42 {
      SameMoves(cs, base, '[', relaxed);
    }
    if EndsText(buf[p], base) {
      s := "";
      EmptyIsUriText(CharsOf(base), relaxed);
      StandsEmpty(buf, p);
    } else {
      s := PieceAndRest(buf, p, base, relaxed);
    }
  }

  lemma EmptyIsUriText(chars: CharSet, relaxed: bool)
    ensures IsUriText("", chars, relaxed)
  {
  }

  lemma BracketLeaves(cs: nat, relaxed: bool)
    requires cs in {20, 29, 34, 42}
    ensures IsModelled(cs) && (cs == 34 || cs == 42 ==> Transition(cs, '[', relaxed).next == ELSEWHERE)
  {
  }

  // Paths.

  /** The end of a path, and an accepting run behind it. */
  predicate EndAhead(buf: string, q: nat, relaxed: bool) {
    q < |buf| && IsPathEnd(buf[q]) && Accepts(buf, q + 1, AfterPath(buf[q]), relaxed)
  }

  /** The end of a path, or a slash and an accepting run of segments. */
  predicate TailAhead(buf: string, q: nat, relaxed: bool) {
    EndAhead(buf, q, relaxed) || (q < |buf| && buf[q] == '/' && Accepts(buf, q + 1, 26, relaxed))
  }

  lemma TailFound(buf: string, q: nat, relaxed: bool) returns (tail: string)
    requires TailAhead(buf, q, relaxed)
    ensures IsTail(tail, relaxed) && StandsAt(buf, q, tail) && EndAhead(buf, q + |tail|, relaxed)
  {
    hide Accepts, StandsAt, IsUriText;
    if EndAhead(buf, q, relaxed) {
      tail := "";
      StandsEmpty(buf, q);
    } else {
      var s := UriTextFound(buf, q + 1, 26, relaxed);
      tail := [buf[q]] + s;
      assert tail[1..] == s;
      StandsCons(buf, q, s);
    }
  }

  /** The digits of a port, in either of its states, when no at-sign follows them. */
  lemma {:induction false} PortFound(buf: string, p: nat, relaxed: bool) returns (s: string)
    requires p <= |buf| && Accepts(buf, p, 46, relaxed)
    ensures IsDigits(s) && StandsAt(buf, p, s) && TailAhead(buf, p + |s|, relaxed)
    decreases |buf| - p
  {
    hide Accepts, StandsAt;
    Next(buf, p, 46, relaxed);
    if IsDigit(buf[p]) {
      var rest := PortFound(buf, p + 1, relaxed);
      s := [buf[p]] + rest;
      StandsCons(buf, p, rest);
    } else {
      s := "";
      StandsEmpty(buf, p);
    }
  }

  /** Behind user information: a host, and a port if there is one. */
  lemma HostPortFound(buf: string, p: nat, relaxed: bool) returns (host: string, port: Option)
    requires p <= |buf| && Accepts(buf, p, 42, relaxed)
    ensures IsUriText(host, InName, relaxed) && (port.Some? ==> IsDigits(port.s))
    ensures StandsAt(buf, p, host + PortText(port)) && TailAhead(buf, p + |host| + |PortText(port)|, relaxed)
  {
    hide Accepts, StandsAt, IsUriText, IsDigits;
    host := FirstTextFound(buf, p, 42, 43, relaxed);
    port := None;
    var q := p + |host|;
    if buf[q] == ':' {
      var s := PortFound(buf, q + 1, relaxed);
      port := Some(s);
      StandsCons(buf, q, s);
      assert PortText(port) == [buf[q]] + s;
      StandsJoin(buf, p, host, PortText(port));
    } else {
      assert host + PortText(port) == host;
    }
  }

  /** Behind a colon: the digits of a port, or the rest of user information with its sign. */
  lemma {:induction false} PortOrUserFound(buf: string, p: nat, relaxed: bool) returns (s: string, isUser: bool)
    requires p <= |buf| && Accepts(buf, p, 38, relaxed)
    ensures StandsAt(buf, p, s)
    ensures isUser ==> IsUriText(s, InUserinfo, relaxed) && CharAt(buf, p + |s|, '@')
    ensures isUser ==> Accepts(buf, p + |s| + 1, 42, relaxed)
    ensures !isUser ==> IsDigits(s) && TailAhead(buf, p + |s|, relaxed)
    decreases |buf| - p
  {
    hide Accepts, StandsAt, Transition, IsUriText;
    Next(buf, p, 38, relaxed);
    ColonMovesOn(buf[p], relaxed);
    StandsEmpty(buf, p);
    s, isUser := "", false;
    if IsDigit(buf[p]) {
      var rest, more := PortOrUserFound(buf, p + 1, relaxed);
      s, isUser := [buf[p]] + rest, more;
      StandsCons(buf, p, rest);
      if isUser {
        DigitIsPlain(rest, buf[p], relaxed);
      }
    } else if buf[p] == '@' {
      isUser := true;
      EmptyIsUriText(InUserinfo, relaxed);
    } else if !IsPathEnd(buf[p]) && buf[p] != '/' {
      s := PieceAndRest(buf, p, 39, relaxed);
      isUser := true;
    }
  }

  lemma DigitIsPlain(rest: string, c: char, relaxed: bool)
    requires IsDigit(c) && IsUriText(rest, InUserinfo, relaxed)
    ensures IsUriText([c] + rest, InUserinfo, relaxed)
  {
    assert ([c] + rest)[1..] == rest;
  }

  lemma ColonMovesOn(c: char, relaxed: bool)
    ensures IsModelled(38)
    ensures var next := Transition(38, c, relaxed).next;
            if IsDigit(c) then next == 38
            else if c == '@' then next == 42
            else if IsPathEnd(c) then next == AfterPath(c)
            else if c == '/' then next == 26 else if c == '%' then next == EscapeState(39)
            else next == if UriChar(c, InUserinfo, relaxed) then 39 else ERROR
  {
  }

  /** A name is user information, and so are two pieces of it with a colon in between. */
  lemma {:induction false} UserinfoJoined(a: string, b: string, relaxed: bool)
    requires IsUriText(a, InName, relaxed) && IsUriText(b, InUserinfo, relaxed)
    ensures IsUriText(a, InUserinfo, relaxed) && IsUriText(a + (":" + b), InUserinfo, relaxed)
    decreases |a|
  {
    var s := a + (":" + b);
    if a == "" {
      assert s[1..] == b;
    } else {
      var k := if a[0] == '%' then 3 else 1;
      assert s[k..] == a[k..] + (":" + b);
      UserinfoJoined(a[k..], b, relaxed);
    }
  }

  /** An authority, and the segments behind it. */
  lemma AuthorityFound(buf: string, p: nat, relaxed: bool) returns (path: Path)
    requires p <= |buf| && Accepts(buf, p, 34, relaxed)
    ensures path.Network? && IsPath(path, false, relaxed) && IsPath(path, true, relaxed)
    ensures var s := UserinfoText(path.userinfo) + (path.host + (PortText(path.port) + path.tail));
            StandsAt(buf, p, s) && EndAhead(buf, p + |s|, relaxed)
  {
    hide Accepts, StandsAt, IsUriText, IsTail, EndAhead, IsDigits, UserinfoText, PortText;
    var userinfo, host, port := HostOfAuthority(buf, p, relaxed);
    var front := UserinfoText(userinfo) + (host + PortText(port));
    var tail := TailFound(buf, p + |front|, relaxed);
    path := Network(userinfo, host, port, tail);
    StandsJoin(buf, p, front, tail);
    assert front + tail == UserinfoText(userinfo) + (host + (PortText(port) + tail));
  }

  lemma HostOfAuthority(buf: string, p: nat, relaxed: bool) returns (userinfo: Option, host: string, port: Option)
    requires p <= |buf| && Accepts(buf, p, 34, relaxed)
    ensures (userinfo.Some? ==> IsUriText(userinfo.s, InUserinfo, relaxed)) && IsUriText(host, InName, relaxed)
    ensures port.Some? ==> IsDigits(port.s)
    ensures var s := UserinfoText(userinfo) + (host + PortText(port));
            StandsAt(buf, p, s) && TailAhead(buf, p + |s|, relaxed)
  {
    hide Accepts, StandsAt, IsUriText, IsDigits;
    var s := FirstTextFound(buf, p, 34, 35, relaxed);
    var q := p + |s|;
    userinfo, host, port := None, s, None;
    if buf[q] == '@' {
      EmptyIsUriText(InUserinfo, relaxed);
      UserinfoJoined(s, "", relaxed);
      userinfo, host, port := BehindUserinfo(buf, p, s, relaxed);
    } else if buf[q] == ':' {
      userinfo, host, port := BehindColon(buf, p, s, relaxed);
    } else {
      assert UserinfoText(userinfo) + (host + PortText(port)) == s;
    }
  }

  /** A colon in an authority: it is in front of a port, or inside user information. */
  lemma BehindColon(buf: string, p: nat, s: string, relaxed: bool)
    returns (userinfo: Option, host: string, port: Option)
    requires IsUriText(s, InName, relaxed) && StandsAt(buf, p, s) && CharAt(buf, p + |s|, ':')
    requires Accepts(buf, p + |s| + 1, 38, relaxed)
    ensures (userinfo.Some? ==> IsUriText(userinfo.s, InUserinfo, relaxed)) && IsUriText(host, InName, relaxed)
    ensures port.Some? ==> IsDigits(port.s)
    ensures var s := UserinfoText(userinfo) + (host + PortText(port));
            StandsAt(buf, p, s) && TailAhead(buf, p + |s|, relaxed)
  {
    hide Accepts, StandsAt, IsUriText, IsDigits, TailAhead;
    var q := p + |s|;
    var r, isUser := PortOrUserFound(buf, q + 1, relaxed);
    StandsCons(buf, q, r);
    assert [buf[q]] + r == ":" + r;
    StandsJoin(buf, p, s, ":" + r);
    if isUser {
      UserinfoJoined(s, r, relaxed);
      userinfo, host, port := BehindUserinfo(buf, p, s + (":" + r), relaxed);
    } else {
      userinfo, host, port := None, s, Some(r);
      assert UserinfoText(userinfo) + (host + PortText(port)) == s + (":" + r);
    }
  }

  lemma BehindUserinfo(buf: string, p: nat, u: string, relaxed: bool)
    returns (userinfo: Option, host: string, port: Option)
    requires IsUriText(u, InUserinfo, relaxed) && StandsAt(buf, p, u) && CharAt(buf, p + |u|, '@')
    requires Accepts(buf, p + |u| + 1, 42, relaxed)
    ensures userinfo == Some(u) && IsUriText(host, InName, relaxed) && (port.Some? ==> IsDigits(port.s))
    ensures var s := UserinfoText(userinfo) + (host + PortText(port));
            StandsAt(buf, p, s) && TailAhead(buf, p + |s|, relaxed)
  {
    hide Accepts, StandsAt, IsUriText, IsDigits, TailAhead, PortText;
    host, port := HostPortFound(buf, p + |u| + 1, relaxed);
    userinfo := Some(u);
    StandsOne(buf, p + |u|);
    StandsJoin(buf, p, u, "@");
    StandsJoin(buf, p, u + "@", host + PortText(port));
  }

  /** Two slashes, an authority, and the segments behind it. */
  lemma NetworkFound(buf: string, p: nat, relaxed: bool) returns (path: Path)
    requires CharAt(buf, p, '/') && CharAt(buf, p + 1, '/') && Accepts(buf, p + 2, 34, relaxed)
    ensures path.Network? && IsPath(path, false, relaxed) && IsPath(path, true, relaxed)
    ensures StandsAt(buf, p, PathText(path)) && EndAhead(buf, p + |PathText(path)|, relaxed)
  {
    hide Accepts, StandsAt, IsPath, EndAhead, UserinfoText, PortText;
    path := AuthorityFound(buf, p + 2, relaxed);
    var s := UserinfoText(path.userinfo) + (path.host + (PortText(path.port) + path.tail));
    StandsOne(buf, p + 1);
    StandsCons(buf, p, "/");
    assert [buf[p]] + "/" == "//";
    StandsJoin(buf, p, "//", s);
  }

  /** A path from its slash on. */
  lemma SlashPathFound(buf: string, p: nat, relaxed: bool) returns (path: Path)
    requires CharAt(buf, p, '/') && Accepts(buf, p + 1, 33, relaxed)
    ensures !path.Relative? && !path.Rootless? && IsPath(path, false, relaxed) && IsPath(path, true, relaxed)
    ensures StandsAt(buf, p, PathText(path)) && EndAhead(buf, p + |PathText(path)|, relaxed)
  {
    hide Accepts, StandsAt, IsUriText, Transition, IsTail, IsDigits, UserinfoText, PortText, UriChar;
    var q := p + 1;
    Next(buf, q, 33, relaxed);
    if buf[q] == '/' {
      SecondSlash(relaxed);
      path := NetworkFound(buf, p, relaxed);
    } else {
      SameMoves(33, 26, buf[q], relaxed);
      TextMoves(26, buf[q], relaxed);
      var s := "";
      EmptyIsUriText(InPath, relaxed);
      StandsEmpty(buf, q);
      if !IsPathEnd(buf[q]) {
        s := PieceAndRest(buf, q, 26, relaxed);
      }
      path := Rooted(s);
      StandsCons(buf, p, s);
    }
  }

  lemma SecondSlash(relaxed: bool)
    ensures IsModelled(33) && Transition(33, '/', relaxed).next == 34
  {
  }

  /** What follows a first letter: the rest of a scheme and its colon, or the rest of a first segment. */
  lemma {:induction false} LetterRestFound(buf: string, p: nat, relaxed: bool) returns (s: string, isScheme: bool)
    requires p <= |buf| && Accepts(buf, p, 173, relaxed)
    ensures IsUriText(s, InSegment, relaxed) && StandsAt(buf, p, s)
    ensures isScheme ==> (forall i :: 0 <= i < |s| ==> IsSchemeChar(s[i])) && CharAt(buf, p + |s|, ':')
                         && Accepts(buf, p + |s| + 1, 174, relaxed)
    ensures !isScheme ==> TailAhead(buf, p + |s|, relaxed)
    decreases |buf| - p
  {
    hide Accepts, StandsAt, Transition, UriChar, IsSchemeChar, IsUriText;
    Next(buf, p, 173, relaxed);
    LetterMovesOn(buf[p], relaxed);
    s, isScheme := "", false;
    EmptyIsUriText(InSegment, relaxed);
    StandsEmpty(buf, p);
    if buf[p] == ':' {
      isScheme := true;
    } else if IsSchemeChar(buf[p]) {
      var rest, more := LetterRestFound(buf, p + 1, relaxed);
      s := CharInFront(buf, p, rest, InSegment, relaxed);
      isScheme := more;
      StandsIsFront(buf, p, s, rest);
    } else if !IsPathEnd(buf[p]) && buf[p] != '/' {
      s := PieceAndRest(buf, p, 19, relaxed);
    }
  }

  lemma StandsIsFront(buf: string, p: nat, s: string, rest: string)
    requires StandsAt(buf, p, s) && |s| == 1 + |rest| && StandsAt(buf, p + 1, rest)
    ensures s == [buf[p]] + rest
  {
    StandsChars(buf, p, s);
    StandsChars(buf, p + 1, rest);
  }

  lemma LetterMovesOn(c: char, relaxed: bool)
    ensures IsModelled(173)
    ensures var next := Transition(173, c, relaxed).next;
            if c == ':' then next == 174 && !IsSchemeChar(c)
            else if IsSchemeChar(c) then next == 173 && c != '%' && UriChar(c, InSegment, relaxed)
            else if IsPathEnd(c) then next == AfterPath(c) else if c == '/' then next == 26
            else if c == '%' then next == EscapeState(19)
            else next == if UriChar(c, InSegment, relaxed) then 19 else ERROR
  {
  }

  lemma StartMovesOn(cs: nat, c: char, relaxed: bool)
    requires IsStart(cs)
    ensures IsModelled(cs)
    ensures var next := Transition(cs, c, relaxed).next;
            if IsPathEnd(c) then next == AfterPath(c) else if c == '/' then next == 33
            else if cs == 3 && IsLetter(c) then next == 173 && IsSchemeChar(c) && c != '%' &&
              UriChar(c, InSegment, relaxed)
            else if c == '%' then next == EscapeState(if cs == 3 then 19 else 26)
            else next == if UriChar(c, if cs == 3 then InSegment else InPath, relaxed)
              then (if cs == 3 then 19 else 26) else ERROR
  {
  }

  /** A path behind a scheme. */
  lemma SchemePathFound(buf: string, p: nat, relaxed: bool) returns (path: Path)
    requires p <= |buf| && Accepts(buf, p, 174, relaxed)
    ensures IsPath(path, true, relaxed) && StandsAt(buf, p, PathText(path))
    ensures EndAhead(buf, p + |PathText(path)|, relaxed)
  {
    hide Accepts, StandsAt, Transition, UriChar, IsUriText;
    Next(buf, p, 174, relaxed);
    StartMovesOn(174, buf[p], relaxed);
    if IsPathEnd(buf[p]) {
      path := NoPath;
      StandsEmpty(buf, p);
    } else if buf[p] == '/' {
      path := SlashPathFound(buf, p, relaxed);
    } else {
      var s := PieceAndRest(buf, p, 26, relaxed);
      path := Rootless(s);
    }
  }

  /** A first segment and the segments behind it. */
  lemma RelativeFound(buf: string, p: nat, first: string, relaxed: bool) returns (path: Path)
    requires first != "" && IsUriText(first, InSegment, relaxed) && StandsAt(buf, p, first)
    requires TailAhead(buf, p + |first|, relaxed)
    ensures IsPath(path, false, relaxed) && StandsAt(buf, p, PathText(path))
    ensures EndAhead(buf, p + |PathText(path)|, relaxed)
  {
    hide StandsAt, IsUriText, IsTail, TailAhead, EndAhead;
    var tail := TailFound(buf, p + |first|, relaxed);
    path := Relative(first, tail);
    StandsJoin(buf, p, first, tail);
  }

  /** From a letter on: a scheme and the path behind it, or a path that starts with it. */
  lemma LetterFound(buf: string, p: nat, relaxed: bool) returns (scheme: Option, path: Path)
    requires p < |buf| && IsLetter(buf[p]) && Accepts(buf, p + 1, 173, relaxed)
    ensures (scheme.Some? ==> IsScheme(scheme.s)) && IsPath(path, scheme.Some?, relaxed)
    ensures var s := SchemeText(scheme) + PathText(path); StandsAt(buf, p, s) && EndAhead(buf, p + |s|, relaxed)
  {
    hide Accepts, StandsAt, UriChar, IsUriText, IsPath, EndAhead, TailAhead, IsSchemeChar, PathText;
    StartMovesOn(3, buf[p], relaxed);
    var rest, isScheme := LetterRestFound(buf, p + 1, relaxed);
    var s := CharInFront(buf, p, rest, InSegment, relaxed);
    StandsIsFront(buf, p, s, rest);
    if isScheme {
      scheme := Some(s);
      path := SchemePathFound(buf, p + |s| + 1, relaxed);
      StandsOne(buf, p + |s|);
      StandsJoin(buf, p, s, ":");
      StandsJoin(buf, p, s + ":", PathText(path));
    } else {
      scheme := None;
      path := RelativeFound(buf, p, s, relaxed);
      assert SchemeText(scheme) + PathText(path) == PathText(path);
    }
  }

  /** A scheme, if there is one, and the path. */
  lemma PathFound(buf: string, p: nat, relaxed: bool) returns (scheme: Option, path: Path)
    requires p <= |buf| && Accepts(buf, p, 3, relaxed)
    ensures (scheme.Some? ==> IsScheme(scheme.s)) && IsPath(path, scheme.Some?, relaxed)
    ensures var s := SchemeText(scheme) + PathText(path); StandsAt(buf, p, s) && EndAhead(buf, p + |s|, relaxed)
  {
    hide Accepts, StandsAt, Transition, UriChar, IsUriText, IsPath, EndAhead, TailAhead, IsSchemeChar, PathText;
    Next(buf, p, 3, relaxed);
    StartMovesOn(3, buf[p], relaxed);
    if IsLetter(buf[p]) && !IsPathEnd(buf[p]) && buf[p] != '/' {
      scheme, path := LetterFound(buf, p, relaxed);
    } else {
      scheme := None;
      if IsPathEnd(buf[p]) {
        path := NothingFound(buf, p, relaxed);
      } else if buf[p] == '/' {
        path := SlashPathFound(buf, p, relaxed);
      } else {
        var s := PieceAndRest(buf, p, 19, relaxed);
        SegmentEnd(buf, p + |s|, relaxed);
        path := RelativeFound(buf, p, s, relaxed);
      }
      assert SchemeText(scheme) + PathText(path) == PathText(path);
    }
  }

  lemma SegmentEnd(buf: string, q: nat, relaxed: bool)
    requires q < |buf| && EndsText(buf[q], 19) && Accepts(buf, q + 1, AfterText(buf[q], 19), relaxed)
    ensures TailAhead(buf, q, relaxed)
  {
    hide Accepts;
  }

  lemma NothingFound(buf: string, p: nat, relaxed: bool) returns (path: Path)
    requires p < |buf| && IsPathEnd(buf[p]) && Accepts(buf, p + 1, AfterPath(buf[p]), relaxed)
    ensures path == NoPath && PathText(path) == "" && IsPath(path, false, relaxed)
    ensures StandsAt(buf, p, PathText(path)) && EndAhead(buf, p, relaxed)
  {
    hide Accepts;
    path := NoPath;
  }

  // Query and fragment.

  /** The query with its question mark, if the octet that ended the path is one. */
  lemma QueryPart(buf: string, q: nat, relaxed: bool) returns (query: Option)
    requires EndAhead(buf, q, relaxed)
    ensures (query.Some? ==> IsUriText(query.s, InQuery, relaxed)) && StandsAt(buf, q, QueryText(query))
    ensures var f := q + |QueryText(query)|;
            f < |buf| && (buf[f] == ' ' || buf[f] == '#') && Accepts(buf, f + 1, AfterPath(buf[f]), relaxed)
  {
    hide Accepts, StandsAt, IsUriText;
    query := None;
    StandsEmpty(buf, q);
    if buf[q] == '?' {
      var s := FirstTextFound(buf, q + 1, 29, 30, relaxed);
      query := Some(s);
      StandsCons(buf, q, s);
      assert QueryText(query) == [buf[q]] + s;
    }
  }

  /** The fragment with its number sign, if there is one, and the space behind. */
  lemma FragmentPart(buf: string, f: nat, relaxed: bool) returns (fragment: Option)
    requires f < |buf| && (buf[f] == ' ' || buf[f] == '#') && Accepts(buf, f + 1, AfterPath(buf[f]), relaxed)
    ensures fragment.Some? ==> IsUriText(fragment.s, InQuery, relaxed)
    ensures var s := FragmentTextOf(fragment) + " "; StandsAt(buf, f, s) && Accepts(buf, f + |s|, 4, relaxed)
  {
    hide Accepts, StandsAt, IsUriText;
    fragment := None;
    if buf[f] == '#' {
      var s := FirstTextFound(buf, f + 1, 20, 21, relaxed);
      fragment := Some(s);
      StandsOne(buf, f + 1 + |s|);
      StandsJoin(buf, f + 1, s, " ");
      StandsCons(buf, f, s + " ");
      assert FragmentTextOf(fragment) + " " == [buf[f]] + (s + " ");
    } else {
      StandsOne(buf, f);
      assert FragmentTextOf(fragment) + " " == [buf[f]];
    }
  }

  /** Everything from the path to the space behind the target. */
  lemma TargetFound(buf: string, p: nat, relaxed: bool)
    returns (scheme: Option, path: Path, query: Option, fragment: Option)
    requires p <= |buf| && Accepts(buf, p, 3, relaxed)
    ensures (scheme.Some? ==> IsScheme(scheme.s)) && IsPath(path, scheme.Some?, relaxed)
    ensures query.Some? ==> IsUriText(query.s, InQuery, relaxed)
    ensures fragment.Some? ==> IsUriText(fragment.s, InQuery, relaxed)
    ensures var s := SchemeText(scheme) + (PathText(path) + (QueryText(query) + (FragmentTextOf(fragment) + " ")));
            StandsAt(buf, p, s) && Accepts(buf, p + |s|, 4, relaxed)
  {
    hide Accepts, StandsAt, IsPath, IsScheme, IsUriText, SchemeText, PathText, QueryText, FragmentTextOf, EndAhead;
    scheme, path := PathFound(buf, p, relaxed);
    var front := SchemeText(scheme) + PathText(path);
    var q := p + |front|;
    query := QueryPart(buf, q, relaxed);
    var f := q + |QueryText(query)|;
    fragment := FragmentPart(buf, f, relaxed);
    var back := QueryText(query) + (FragmentTextOf(fragment) + " ");
    StandsJoin(buf, q, QueryText(query), FragmentTextOf(fragment) + " ");
    StandsJoin(buf, p, front, back);
    assert SchemeText(scheme) + (PathText(path) + back) == front + back;
  }
}
