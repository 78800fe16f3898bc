/** The pieces of a log pattern, and what the formatter writes for them. */
module LogPattern {
  datatype Piece = Literal(s: string) | Directive(s: string)

  /**
   * The scan from position i, with the literal that is open since position f. A percent sign at the very end takes no
   * letter and leaves the literal open.
   */
  function Scan(p: string, f: nat, i: nat): (vec: seq<Piece>)
    requires f <= i <= |p|
    decreases |p| - i
  {
    if i == |p| then [Literal(p[f..])]
    else if p[i] != '%' then Scan(p, f, i + 1)
    else if i + 1 < |p| then Text(p[f..i]) + [Directive([p[i + 1]])] + Scan(p, i + 2, i + 2)
    else Text(p[f..i]) + [Directive("")] + Scan(p, f, i + 1)
  }

  /** An empty literal in front of a directive is dropped. */
  function Text(s: string): seq<Piece> {
    if s == "" then [] else [Literal(s)]
  }

  function Pieces(p: string): seq<Piece> {
    Scan(p, 0, 0)
  }

  function Spelled(pieces: seq<Piece>): string {
    if pieces == [] then "" else SpelledPiece(pieces[0]) + Spelled(pieces[1..])
  }

  function SpelledPiece(piece: Piece): string {
    match piece
    case Literal(s) => s
    case Directive(s) => "%" + s
  }

  lemma {:induction false} SpelledInTurn(a: seq<Piece>, b: seq<Piece>)
    ensures Spelled(a + b) == Spelled(a) + Spelled(b)
  {
    if a == [] {
      assert a + b == b;
    } else {
      assert (a + b)[1..] == a[1..] + b;
      SpelledInTurn(a[1..], b);
    }
  }

  lemma SpelledText(s: string)
    ensures Spelled(Text(s)) == s
  {
    assert s != "" ==> Spelled([Literal(s)]) == s + Spelled([]);
  }

  lemma SpelledOne(piece: Piece)
    ensures Spelled([piece]) == SpelledPiece(piece)
  {
    assert Spelled([piece]) == SpelledPiece(piece) + Spelled([]);
  }

  // Patterns that end in an unpaired percent sign.

  /** The length of the run of percent signs at the end. */
  function FinalPercents(p: string): nat {
    if p == "" || p[|p| - 1] != '%' then 0 else 1 + FinalPercents(p[..|p| - 1])
  }

  /** The percent signs at the end pair up. */
  predicate IsPaired(p: string) {
    FinalPercents(p) % 2 == 0
  }

  /** What stands in front of a character that is no percent sign, or of a whole pair, has no say in it. */
  lemma {:induction false} FinalPercentsBehind(front: string, rest: string)
    requires FinalPercents(front) % 2 == 0
    ensures FinalPercents(front + rest) % 2 == FinalPercents(rest) % 2
    decreases |rest|
  {
    if rest == "" {
      assert front + rest == front;
    } else if rest[|rest| - 1] == '%' {
      assert (front + rest)[..|front + rest| - 1] == front + rest[..|rest| - 1];
      FinalPercentsBehind(front, rest[..|rest| - 1]);
    }
  }

  lemma PairIsEven(c: char)
    ensures FinalPercents(['%', c]) % 2 == 0
  {
    if c == '%' {
      assert ['%', c][..1] == ['%'];
      assert ['%'][..0] == "";
      assert FinalPercents(['%']) == 1 + FinalPercents("");
    }
  }

  predicate HasNoPercent(s: string) {
    forall k :: 0 <= k < |s| ==> s[k] != '%'
  }

  lemma NoPercentIsEven(s: string)
    requires HasNoPercent(s)
    ensures FinalPercents(s) == 0
  {
  }

  /** The scan from f spells the text from f, unless that text ends in an unpaired percent sign: then it is longer. */
  lemma {:induction false} ScanSpells(p: string, f: nat, i: nat)
    requires f <= i <= |p| && HasNoPercent(p[f..i])
    ensures IsPaired(p[f..]) ==> Spelled(Scan(p, f, i)) == p[f..]
    ensures !IsPaired(p[f..]) ==> |Spelled(Scan(p, f, i))| > |p| - f
    decreases |p| - i
  {
    hide Spelled, FinalPercents, Text;
    if i == |p| {
      SpelledOne(Literal(p[f..]));
      assert p[f..i] == p[f..];
      NoPercentIsEven(p[f..]);
    } else if p[i] != '%' {
      assert p[f..i + 1] == p[f..i] + [p[i]];
      ScanSpells(p, f, i + 1);
    } else if i + 1 < |p| {
      ScanSpells(p, i + 2, i + 2);
      DirectiveSpells(p, f, i);
    } else {
      UnpairedSpells(p, f);
    }
  }

  lemma DirectiveSpells(p: string, f: nat, i: nat)
    requires f <= i && i + 1 < |p| && p[i] == '%' && HasNoPercent(p[f..i])
    ensures IsPaired(p[f..]) == IsPaired(p[i + 2..])
    ensures Spelled(Scan(p, f, i)) == p[f..i + 2] + Spelled(Scan(p, i + 2, i + 2))
    ensures p[f..i + 2] + p[i + 2..] == p[f..]
  {
    hide Spelled, FinalPercents, Text;
    var t, d, rest := Text(p[f..i]), [Directive([p[i + 1]])], Scan(p, i + 2, i + 2);
    SpelledInTurn(t + d, rest);
    SpelledInTurn(t, d);
    SpelledText(p[f..i]);
    SpelledOne(Directive([p[i + 1]]));
    assert p[f..i + 2] == p[f..i] + ("%" + [p[i + 1]]);
    var pair := ['%', p[i + 1]];
    assert p[f..] == p[f..i] + (pair + p[i + 2..]);
    NoPercentIsEven(p[f..i]);
    FinalPercentsBehind(p[f..i], pair + p[i + 2..]);
    PairIsEven(p[i + 1]);
    FinalPercentsBehind(pair, p[i + 2..]);
  }

  lemma UnpairedEnd(p: string, f: nat)
    requires f < |p| && p[|p| - 1] == '%' && HasNoPercent(p[f..|p| - 1])
    ensures !IsPaired(p[f..])
  {
    var s, t := p[f..], p[f..|p| - 1];
    assert s[|s| - 1] == '%' && s[..|s| - 1] == t;
    NoPercentIsEven(t);
    assert FinalPercents(s) == 1 + FinalPercents(t);
  }

  lemma UnpairedScan(p: string, f: nat)
    requires f < |p| && p[|p| - 1] == '%'
    ensures Scan(p, f, |p| - 1) == Text(p[f..|p| - 1]) + [Directive("")] + [Literal(p[f..])]
  {
    hide Text;
    assert Scan(p, f, |p|) == [Literal(p[f..])];
  }

  /** The last percent sign alone: the open literal is written in front of it and once more behind it. */
  lemma UnpairedSpells(p: string, f: nat)
    requires f < |p| && p[|p| - 1] == '%' && HasNoPercent(p[f..|p| - 1])
    ensures !IsPaired(p[f..])
    ensures Scan(p, f, |p| - 1) == Text(p[f..|p| - 1]) + [Directive("")] + [Literal(p[f..])]
    ensures Spelled(Scan(p, f, |p| - 1)) == p[f..] + p[f..]
  {
    hide Spelled, FinalPercents, Text, Scan, HasNoPercent;
    UnpairedEnd(p, f);
    UnpairedScan(p, f);
    var t := p[f..|p| - 1];
    SpelledInTurn(Text(t) + [Directive("")], [Literal(p[f..])]);
    SpelledInTurn(Text(t), [Directive("")]);
    SpelledText(t);
    SpelledOne(Directive(""));
    SpelledOne(Literal(p[f..]));
    assert p[f..] == t + "%";
  }

  /** The pieces spell the pattern exactly when the percent signs at its end pair up. */
  lemma PiecesSpellIff(p: string)
    ensures Spelled(Pieces(p)) == p <==> IsPaired(p)
  {
    hide Spelled, FinalPercents, Scan;
    assert p[0..] == p;
    ScanSpells(p, 0, 0);
  }

  // The other way round: pieces are found again.

  /** Literals without percent signs, directives of one letter in between, and a last literal, which may be empty. */
  predicate IsCanonical(pieces: seq<Piece>) {
    && pieces != []
    && match pieces[0]
       case Literal(s) =>
         HasNoPercent(s) && (|pieces| > 1 ==> s != "" && pieces[1].Directive? && IsCanonical(pieces[1..]))
       case Directive(s) => |s| == 1 && IsCanonical(pieces[1..])
  }

  /** Characters that are no percent signs only move the scan. */
  lemma {:induction false} ScanSkips(p: string, f: nat, i: nat, j: nat)
    requires f <= i <= j <= |p| && HasNoPercent(p[i..j])
    ensures Scan(p, f, i) == Scan(p, f, j)
    decreases j - i
  {
    if i < j {
      assert p[i..j][0] == p[i] && p[i..j][1..] == p[i + 1..j];
      ScanSkips(p, f, i + 1, j);
    }
  }

  lemma {:induction false} ScanFinds(p: string, f: nat, pieces: seq<Piece>)
    requires f <= |p| && p[f..] == Spelled(pieces) && IsCanonical(pieces)
    ensures Scan(p, f, f) == pieces
    decreases |pieces|
  {
    hide HasNoPercent, Scan, Spelled, Text;
    UnfoldSpelled(pieces);
    match pieces[0]
    case Directive(s) =>
      DirectiveStep(p, f, f, s, pieces[1..]);
      ScanFinds(p, f + 2, pieces[1..]);
      assert pieces == [Directive(s)] + pieces[1..];
      TextOfNothing();
      assert p[f..f] == "";
    case Literal(s) =>
      if |pieces| == 1 {
        LastLiteral(p, f, s, pieces);
      } else {
        LiteralThenDirective(p, f, pieces);
        ScanFinds(p, f + |s| + 2, pieces[2..]);
        assert pieces == [Literal(s), pieces[1]] + pieces[2..];
      }
  }

  lemma UnfoldSpelled(pieces: seq<Piece>)
    requires pieces != []
    ensures Spelled(pieces) == SpelledPiece(pieces[0]) + Spelled(pieces[1..])
  {
  }

  lemma TextOfNothing()
    ensures Text("") == []
  {
  }

  lemma LiteralThenDirective(p: string, f: nat, pieces: seq<Piece>)
    requires f <= |p| && p[f..] == Spelled(pieces) && IsCanonical(pieces) && pieces[0].Literal? && |pieces| > 1
    ensures var j := f + |pieces[0].s|;
            && j + 2 <= |p| && p[j + 2..] == Spelled(pieces[2..]) && IsCanonical(pieces[2..])
            && Scan(p, f, f) == [pieces[0], pieces[1]] + Scan(p, j + 2, j + 2)
  {
    hide HasNoPercent, Scan, Spelled;
    var s, d, j := pieces[0].s, pieces[1].s, f + |pieces[0].s|;
    UnfoldSpelled(pieces);
    UnfoldSpelled(pieces[1..]);
    assert pieces[1..][0] == pieces[1] && pieces[1..][1..] == pieces[2..];
    assert p[f..][..|s|] == p[f..j] == s && p[f..][|s|..] == p[j..] == Spelled(pieces[1..]);
    ScanSkips(p, f, f, j);
    DirectiveStep(p, f, j, d, pieces[2..]);
    assert Text(s) + [Directive(d)] == [pieces[0], pieces[1]];
  }

  lemma LastLiteral(p: string, f: nat, s: string, pieces: seq<Piece>)
    requires f <= |p| && pieces == [Literal(s)] && p[f..] == Spelled(pieces) && HasNoPercent(s)
    ensures Scan(p, f, f) == pieces
  {
    hide HasNoPercent;
    SpelledOne(Literal(s));
    assert p[f..|p|] == p[f..];
    ScanSkips(p, f, f, |p|);
  }

  lemma DirectiveStep(p: string, f: nat, j: nat, s: string, rest: seq<Piece>)
    requires f <= j <= |p| && |s| == 1 && p[j..] == "%" + s + Spelled(rest)
    ensures j + 2 <= |p| && p[j + 2..] == Spelled(rest)
    ensures Scan(p, f, j) == Text(p[f..j]) + [Directive(s)] + Scan(p, j + 2, j + 2)
  {
    assert |p[j..]| == 2 + |Spelled(rest)|;
    assert p[j] == p[j..][0] == '%' && p[j + 1] == p[j..][1] == s[0];
    assert p[j + 2..] == p[j..][2..] == Spelled(rest);
    assert [p[j + 1]] == s;
  }

  /** Scanning what canonical pieces spell finds these pieces. */
  lemma PiecesFound(pieces: seq<Piece>)
    requires IsCanonical(pieces)
    ensures Pieces(Spelled(pieces)) == pieces
  {
    hide Scan, IsCanonical, Spelled;
    assert Spelled(pieces)[0..] == Spelled(pieces);
    ScanFinds(Spelled(pieces), 0, pieces);
  }

  // Writing.

  /** A log record; its numbers and its date are taken as the texts that are written for them. */
  datatype Record = Record(date: string, file: string, line: string, thread: string, fiber: string, level: string,
                           name: string, message: string, elapse: string)

  function Item(piece: Piece, e: Record): string {
    match piece
    case Literal(s) => s
    case Directive(s) =>
      if s == "d" then e.date else if s == "F" then e.file else if s == "l" then e.line
      else if s == "t" then e.thread else if s == "f" then e.fiber else if s == "p" then e.level
      else if s == "c" then e.name else if s == "m" then e.message else if s == "n" then "\n"
      else if s == "T" then "\t" else if s == "e" then e.elapse else if s == "%" then "%" else "<error>"
  }

  /** A directive that is none of the twelve, or has no letter at all. */
  lemma UnknownDirective(s: string, e: Record)
    ensures |s| == 1 && s[0] !in "dFltfpcmnTe%" ==> Item(Directive(s), e) == "<error>"
    ensures Item(Directive(""), e) == "<error>"
  {
  }

  function Items(pieces: seq<Piece>, e: Record): string {
    if pieces == [] then "" else Item(pieces[0], e) + Items(pieces[1..], e)
  }

  /** Date and time since the start, logger, level, place, thread and coroutine, and the message. */
  const DEFAULT_PATTERN := "%d%T" + ("%e%T" + ("[%c]%T" + ("[%p]%T" + ("[%F:%l]%T" + ("[%t:%f]%T" + "%m%n")))))

  function Effective(pattern: string): string {
    if pattern == "" then DEFAULT_PATTERN else pattern
  }

  function Format(pattern: string, e: Record): string {
    Items(Pieces(Effective(pattern)), e)
  }

  lemma {:induction false} ItemsInTurn(a: seq<Piece>, b: seq<Piece>, e: Record)
    ensures Items(a + b, e) == Items(a, e) + Items(b, e)
  {
    hide Item;
    if a == [] {
      assert a + b == b;
    } else {
      assert (a + b)[1..] == a[1..] + b;
      ItemsInTurn(a[1..], b, e);
    }
  }

  lemma ItemsOfOne(piece: Piece, e: Record)
    ensures Items([piece], e) == Item(piece, e)
  {
    hide Item;
    assert Items([piece], e) == Item(piece, e) + Items([], e);
  }

  lemma ItemsOfText(s: string, e: Record)
    ensures Items(Text(s), e) == s
  {
    ItemsOfOne(Literal(s), e);
  }

  /** A pattern written out one character at a time. */
  function Expanded(p: string, e: Record): string
    decreases |p|
  {
    if p == "" then ""
    else if p[0] != '%' then [p[0]] + Expanded(p[1..], e)
    else Item(Directive(p[1..if |p| > 1 then 2 else 1]), e) + Expanded(p[if |p| > 1 then 2 else 1..], e)
  }

  /** The literal that is still open at the end of the pattern. */
  function OpenLiteral(p: string, f: nat, i: nat): string
    requires f <= i <= |p|
    decreases |p| - i
  {
    if i == |p| then p[f..]
    else if p[i] != '%' then OpenLiteral(p, f, i + 1)
    else if i + 1 < |p| then OpenLiteral(p, i + 2, i + 2)
    else p[f..]
  }

  lemma {:induction false} ScanExpands(p: string, f: nat, i: nat, e: Record)
    requires f <= i <= |p| && HasNoPercent(p[f..i])
    ensures Items(Scan(p, f, i), e) == p[f..i] + (Expanded(p[i..], e) + Again(p, f, i))
    decreases |p| - i
  {
    hide Items, Item, FinalPercents, Text, Expanded, Again;
    if i == |p| {
      EndExpands(p, f, e);
    } else if p[i] != '%' {
      assert p[f..i + 1] == p[f..i] + [p[i]];
      ScanExpands(p, f, i + 1, e);
      CharExpands(p, f, i, e);
      assert p[f..i] + [p[i]] + (Expanded(p[i + 1..], e) + Again(p, f, i)) ==
             p[f..i] + ([p[i]] + Expanded(p[i + 1..], e) + Again(p, f, i));
    } else if i + 1 < |p| {
      ScanExpands(p, i + 2, i + 2, e);
      DirectiveExpands(p, f, i, e);
      assert Items(Scan(p, i + 2, i + 2), e) == Expanded(p[i + 2..], e) + Again(p, f, i);
    } else {
      UnpairedSpells(p, f);
      UnpairedExpands(p, f, e);
    }
  }

  /** What the formatter writes behind the expanded pattern. */
  function Again(p: string, f: nat, i: nat): string
    requires f <= i <= |p|
  {
    if IsPaired(p[f..]) then "" else OpenLiteral(p, f, i)
  }

  lemma EndExpands(p: string, f: nat, e: Record)
    requires f <= |p| && HasNoPercent(p[f..])
    ensures Items(Scan(p, f, |p|), e) == p[f..|p|] + (Expanded(p[|p|..], e) + Again(p, f, |p|))
  {
    hide Items, FinalPercents;
    ItemsOfOne(Literal(p[f..]), e);
    assert p[f..|p|] == p[f..];
    NoPercentIsEven(p[f..]);
  }

  lemma CharExpands(p: string, f: nat, i: nat, e: Record)
    requires f <= i < |p| && p[i] != '%'
    ensures Expanded(p[i..], e) == [p[i]] + Expanded(p[i + 1..], e) && Again(p, f, i) == Again(p, f, i + 1)
    ensures Scan(p, f, i) == Scan(p, f, i + 1)
  {
    hide Item, FinalPercents;
    assert p[i..][0] == p[i] && p[i..][1..] == p[i + 1..];
  }

  lemma DirectiveExpands(p: string, f: nat, i: nat, e: Record)
    requires f <= i && i + 1 < |p| && p[i] == '%' && HasNoPercent(p[f..i])
    ensures Again(p, f, i) == Again(p, i + 2, i + 2) && p[i + 2..i + 2] == ""
    ensures Items(Scan(p, f, i), e) == p[f..i] + Item(Directive([p[i + 1]]), e) + Items(Scan(p, i + 2, i + 2), e)
    ensures Expanded(p[i..], e) == Item(Directive([p[i + 1]]), e) + Expanded(p[i + 2..], e)
  {
    hide Items, Item, FinalPercents, Text, Spelled;
    DirectiveSpells(p, f, i);
    var t, d, rest := Text(p[f..i]), [Directive([p[i + 1]])], Scan(p, i + 2, i + 2);
    ItemsInTurn(t + d, rest, e);
    ItemsInTurn(t, d, e);
    ItemsOfText(p[f..i], e);
    ItemsOfOne(Directive([p[i + 1]]), e);
    assert p[i..][0] == '%' && p[i..][2..] == p[i + 2..] && p[i..][1..2] == [p[i + 1]];
  }

  lemma UnpairedExpands(p: string, f: nat, e: Record)
    requires f < |p| && p[|p| - 1] == '%' && HasNoPercent(p[f..|p| - 1])
    requires !IsPaired(p[f..]) && Scan(p, f, |p| - 1) == Text(p[f..|p| - 1]) + [Directive("")] + [Literal(p[f..])]
    ensures Items(Scan(p, f, |p| - 1), e) == p[f..|p| - 1] + (Expanded(p[|p| - 1..], e) + Again(p, f, |p| - 1))
  {
    var t, last := p[f..|p| - 1], p[|p| - 1..];
    assert last == "%" && last[1..1] == "" && Expanded("", e) == "";
    assert Expanded(last, e) == Item(Directive(""), e) by {
      assert last[1..] == "";
    }
    hide Items, Item, Text, Scan, Expanded;
    ItemsInTurn(Text(t) + [Directive("")], [Literal(p[f..])], e);
    ItemsInTurn(Text(t), [Directive("")], e);
    ItemsOfText(t, e);
    ItemsOfOne(Directive(""), e);
    assert Items([Literal(p[f..])], e) == p[f..] by {
      ItemsOfOne(Literal(p[f..]), e);
      LiteralItem(p[f..], e);
    }
  }

  lemma LiteralItem(s: string, e: Record)
    ensures Item(Literal(s), e) == s
  {
  }

  /**
   * A pattern is written out character by character; when its last percent sign is unpaired, the literal around that
   * sign follows once more.
   */
  lemma FormatExpands(p: string, e: Record)
    requires p != ""
    ensures Format(p, e) == Expanded(p, e) + if IsPaired(p) then "" else OpenLiteral(p, 0, 0)
  {
    hide Items, Expanded, Scan, FinalPercents, OpenLiteral;
    assert p[0..0] == "" && p[0..] == p;
    ScanExpands(p, 0, 0, e);
  }

  /** Every percent sign doubled. */
  function Doubled(s: string): string {
    if s == "" then "" else (if s[0] == '%' then "%%" else [s[0]]) + Doubled(s[1..])
  }

  lemma {:induction false} DoubledExpands(s: string, e: Record)
    ensures Expanded(Doubled(s), e) == s
  {
    if s != "" {
      var rest := Doubled(s[1..]);
      DoubledExpands(s[1..], e);
      if s[0] == '%' {
        var p := "%%" + rest;
        assert p[0] == '%' && p[1..2] == "%" && p[2..] == rest;
      } else {
        assert ([s[0]] + rest)[1..] == rest;
      }
    }
  }

  lemma {:induction false} DoubledIsPaired(s: string)
    ensures IsPaired(Doubled(s))
  {
    if s != "" {
      var c := if s[0] == '%' then "%%" else [s[0]];
      DoubledIsPaired(s[1..]);
      assert FinalPercents(c) % 2 == 0 by {
        PairIsEven('%');
        if s[0] != '%' {
          NoPercentIsEven(c);
        }
      }
      FinalPercentsBehind(c, Doubled(s[1..]));
    }
  }

  /** Doubling protects a text from the formatter exactly when there is a text: an empty pattern is the default one. */
  lemma DoubledIsWrittenIff(s: string, e: Record)
    ensures Format(Doubled(s), e) == s <==> s != ""
  {
    hide Expanded, FinalPercents, Items, Scan;
    if s != "" {
      assert Doubled(s) != "";
      DoubledExpands(s, e);
      DoubledIsPaired(s);
      FormatExpands(Doubled(s), e);
    } else {
      DefaultWritten(e);
      assert |Format("", e)| > 0;
    }
  }

  lemma DirectiveWritten(c: char, rest: string, e: Record)
    ensures Expanded(['%', c] + rest, e) == Item(Directive([c]), e) + Expanded(rest, e)
  {
    hide Item;
    var p := ['%', c] + rest;
    assert p[1..2] == [c] && p[2..] == rest;
  }

  lemma CharWritten(c: char, rest: string, e: Record)
    requires c != '%'
    ensures Expanded([c] + rest, e) == [c] + Expanded(rest, e)
  {
    hide Item;
    assert ([c] + rest)[1..] == rest;
  }

  /** A directive and a tab. */
  lemma TabbedWritten(c: char, rest: string, e: Record)
    ensures Expanded(['%', c] + "%T" + rest, e) == Item(Directive([c]), e) + "\t" + Expanded(rest, e)
  {
    hide Item, Expanded;
    assert ['%', c] + "%T" + rest == ['%', c] + (['%', 'T'] + rest);
    DirectiveWritten(c, ['%', 'T'] + rest, e);
    DirectiveWritten('T', rest, e);
    TabItem(e);
  }

  lemma TabItem(e: Record)
    ensures Item(Directive("T"), e) == "\t"
  {
  }

  /** A directive in brackets and a tab. */
  lemma BracketedWritten(c: char, rest: string, e: Record)
    ensures Expanded("[" + ['%', c] + "]%T" + rest, e) == "[" + Item(Directive([c]), e) + "]\t" + Expanded(rest, e)
  {
    hide Item, Expanded;
    var tail := "]" + (['%', 'T'] + rest);
    assert "[" + ['%', c] + "]%T" + rest == ['['] + (['%', c] + tail);
    CharWritten('[', ['%', c] + tail, e);
    DirectiveWritten(c, tail, e);
    CharWritten(']', ['%', 'T'] + rest, e);
    DirectiveWritten('T', rest, e);
    TabItem(e);
  }

  /** Two directives with a colon between them, in brackets, and a tab. */
  lemma PairWritten(c: char, d: char, rest: string, e: Record)
    ensures Expanded("[" + ['%', c] + ":" + ['%', d] + "]%T" + rest, e) ==
            "[" + Item(Directive([c]), e) + ":" + Item(Directive([d]), e) + "]\t" + Expanded(rest, e)
  {
    hide Item, Expanded;
    var tail := "]" + (['%', 'T'] + rest);
    assert "[" + ['%', c] + ":" + ['%', d] + "]%T" + rest == ['['] + (['%', c] + ([':'] + (['%', d] + tail)));
    CharWritten('[', ['%', c] + ([':'] + (['%', d] + tail)), e);
    DirectiveWritten(c, [':'] + (['%', d] + tail), e);
    CharWritten(':', ['%', d] + tail, e);
    DirectiveWritten(d, tail, e);
    CharWritten(']', ['%', 'T'] + rest, e);
    DirectiveWritten('T', rest, e);
    TabItem(e);
  }

  /** The last part: the message and a line end. */
  lemma MessageWritten(e: Record)
    ensures Expanded("%m%n", e) == e.message + "\n"
  {
    hide Expanded;
    DirectiveWritten('m', "%n", e);
    DirectiveWritten('n', "", e);
    assert ['%', 'm'] + "%n" == "%m%n" && ['%', 'n'] + "" == "%n";
    assert Expanded("", e) == "" by {
      NothingWritten(e);
    }
  }

  lemma NothingWritten(e: Record)
    ensures Expanded("", e) == ""
  {
  }

  lemma PlacesWritten(rest: string, e: Record)
    ensures Expanded("[%F:%l]%T" + ("[%t:%f]%T" + rest), e) ==
            "[" + e.file + ":" + e.line + "]\t[" + e.thread + ":" + e.fiber + "]\t" + Expanded(rest, e)
  {
    hide Expanded;
    PairWritten('F', 'l', "[%t:%f]%T" + rest, e);
    PairWritten('t', 'f', rest, e);
    assert "[" + ['%', 'F'] + ":" + ['%', 'l'] + "]%T" == "[%F:%l]%T";
    assert "[" + ['%', 't'] + ":" + ['%', 'f'] + "]%T" == "[%t:%f]%T";
  }

  lemma NamesWritten(rest: string, e: Record)
    ensures Expanded("[%c]%T" + ("[%p]%T" + rest), e) == "[" + e.name + "]\t[" + e.level + "]\t" + Expanded(rest, e)
  {
    hide Expanded;
    BracketedWritten('c', "[%p]%T" + rest, e);
    BracketedWritten('p', rest, e);
    assert "[" + ['%', 'c'] + "]%T" == "[%c]%T" && "[" + ['%', 'p'] + "]%T" == "[%p]%T";
  }

  lemma TimesWritten(rest: string, e: Record)
    ensures Expanded("%d%T" + ("%e%T" + rest), e) == e.date + "\t" + e.elapse + "\t" + Expanded(rest, e)
  {
    hide Expanded;
    TabbedWritten('d', "%e%T" + rest, e);
    TabbedWritten('e', rest, e);
    assert ['%', 'd'] + "%T" == "%d%T" && ['%', 'e'] + "%T" == "%e%T";
  }

  /** What the default pattern writes, letter by letter. */
  lemma DefaultWritten(e: Record)
    ensures Format("", e) ==
            e.date + "\t" + e.elapse + "\t"
            + ("[" + e.name + "]\t[" + e.level + "]\t"
               + ("[" + e.file + ":" + e.line + "]\t[" + e.thread + ":" + e.fiber + "]\t" + (e.message + "\n")))
  {
    var places := "[%F:%l]%T" + ("[%t:%f]%T" + "%m%n");
    var names := "[%c]%T" + ("[%p]%T" + places);
    TimesWritten(names, e);
    NamesWritten(places, e);
    PlacesWritten("%m%n", e);
    MessageWritten(e);
    hide Expanded, Again, Items, Scan;
    DefaultIsPaired();
    hide IsPaired;
    assert DEFAULT_PATTERN == "%d%T" + ("%e%T" + names);
    FormatExpands(DEFAULT_PATTERN, e);
  }

  lemma DefaultIsPaired()
    ensures DEFAULT_PATTERN != "" && IsPaired(DEFAULT_PATTERN)
  {
    assert DEFAULT_PATTERN[|DEFAULT_PATTERN| - 1] == 'n';
  }

  /** A pattern of one unknown directive. */
  lemma UnknownIsWritten(c: char, e: Record)
    requires c !in "dFltfpcmnTe%"
    ensures Format(['%', c], e) == "<error>"
  {
    var p := ['%', c];
    UnknownDirective([c], e);
    DirectiveWritten(c, "", e);
    NothingWritten(e);
    assert p + "" == p;
    hide Item, Items, Scan, Expanded;
    FormatExpands(p, e);
  }

  // The formatter object.

  /** Scans the pattern and builds its pieces, which are what the format items are made from. */
  class LogFormatter {
    var pattern: string
    var items: seq<Piece>

    constructor (pattern: string)
      ensures this.pattern == Effective(pattern) && items == Pieces(this.pattern)
    {
      this.pattern := if pattern == "" then DEFAULT_PATTERN else pattern;
      items := [];
      new;
      Compile();
    }

    method Compile()
      modifies this`items
      ensures items == Pieces(pattern)
    {
      var vec: seq<Piece> := [];
      var f, i := 0, 0;
      while i < |pattern|
        invariant f <= i <= |pattern| && vec + Scan(pattern, f, i) == Pieces(pattern)
        decreases |pattern| - i
      {
        if pattern[i] != '%' {
          i := i + 1;
          continue;
        }
        var n := i + 1;
        var str, fstr := pattern[f..i], "";
        ghost var was, rest := vec, Scan(pattern, f, i);
        if n < |pattern| {
          fstr := pattern[n..n + 1];
          assert fstr == [pattern[n]];
          f := n + 1;
          i := n;
        }
        if str != "" {
          vec := vec + [Literal(str)];
        }
        vec := vec + [Directive(fstr)];
        assert vec == was + (Text(str) + [Directive(fstr)]);
        assert rest == Text(str) + [Directive(fstr)] + Scan(pattern, f, i + 1);
        assert was + rest == vec + Scan(pattern, f, i + 1);
        i := i + 1;
      }
      vec := vec + [Literal(pattern[f..])];
      items := vec;
    }

    /** Writes the items one behind the other. */
    method Write(e: Record) returns (text: string)
      ensures text == Items(items, e)
    {
      text := "";
      var k := 0;
      while k < |items|
        invariant 0 <= k <= |items|
        invariant text + Items(items[k..], e) == Items(items, e)
      {
        assert items[k..][0] == items[k] && items[k..][1..] == items[k + 1..];
        text := text + Item(items[k], e);
        k := k + 1;
      }
    }
  }

  /** A formatter made for a doubled text writes the text, if there is one. */
  method WriteDoubled(s: string, e: Record) returns (text: string)
    ensures text == s <==> s != ""
  {
    var formatter := new LogFormatter(Doubled(s));
    text := formatter.Write(e);
    DoubledIsWrittenIff(s, e);
  }
}
