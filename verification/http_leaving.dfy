/** When the machine stays in the model: without an opening bracket in front of the end of the path. */
module HttpLeaving {
  import opened HttpMachine

  /** The states of a target up to the end of its path. */
  predicate InPath(cs: nat) {
    cs == 3 || cs == 19 || 24 <= cs <= 28 || 33 <= cs <= 46 || cs == 173 || cs == 174
  }

  /** The states behind a path, and where the machine stops inside the model. */
  predicate IsBeyond(cs: nat) {
    4 <= cs <= 18 || 20 <= cs <= 23 || 29 <= cs <= 32 || cs == ERROR || cs == FINAL
  }

  lemma BeyondMoves(cs: nat, c: char, relaxed: bool)
    requires IsBeyond(cs) && IsModelled(cs)
    ensures IsBeyond(Transition(cs, c, relaxed).next)
  {
    hide IsQueryChar, IsTokenChar, IsValueChar;
  }

  lemma PathMoves(cs: nat, c: char, relaxed: bool)
    requires InPath(cs)
    ensures IsModelled(cs)
    ensures var next := Transition(cs, c, relaxed).next;
            && (c != '[' ==> InPath(next) || IsBeyond(next))
            && (c == ' ' || c == '#' || c == '?' ==> IsBeyond(next))
  {
    hide IsPathChar, IsSchemeChar;
  }

  lemma {:induction false} BeyondStays(m: Parser, buf: string, relaxed: bool)
    requires m.p <= |buf| && IsBeyond(m.cs)
    ensures Run(m, buf, relaxed).cs != ELSEWHERE
    decreases |buf| - m.p
  {
    hide Transition, PerformAll;
    if m.p < |buf| && IsModelled(m.cs) {
      BeyondMoves(m.cs, buf[m.p], relaxed);
      var m1 := StepAt(m, buf, relaxed);
      if m1.p == m.p + 1 {
        BeyondStays(m1, buf, relaxed);
      }
    }
  }

  /** A space, a number sign or a question mark at b, and no opening bracket before it. */
  lemma {:induction false} PathStays(m: Parser, buf: string, b: nat, relaxed: bool)
    requires InPath(m.cs) && m.p <= b < |buf| && '[' !in buf[m.p..b] && IsPathEnd(buf[b])
    ensures Run(m, buf, relaxed).cs != ELSEWHERE
    decreases b - m.p
  {
    hide Transition, PerformAll;
    PathMoves(m.cs, buf[m.p], relaxed);
    assert m.p < b ==> buf[m.p] == buf[m.p..b][0];
    var m1 := StepAt(m, buf, relaxed);
    if IsBeyond(m1.cs) {
      BeyondStays(m1, buf, relaxed);
    } else {
      assert buf[m.p..b][1..] == buf[m1.p..b];
      PathStays(m1, buf, b, relaxed);
    }
  }
}
