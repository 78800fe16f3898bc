/** Single turns of the machine. */
module HttpSteps {
  import opened Texts
  import opened HttpMachine

  /** A step without actions. */
  lemma PlainStep(m: Parser, buf: string, next: nat, relaxed: bool)
    requires m.p < |buf| && IsModelled(m.cs) && Transition(m.cs, buf[m.p], relaxed) == Plain(next)
    requires next != ERROR && next != ELSEWHERE
    ensures Run(m, buf, relaxed) == Run(m.(cs := next, p := m.p + 1), buf, relaxed)
  {
  }

  /** A step with actions, which see the cursor where it stood. */
  lemma ActionStep(m: Parser, buf: string, next: nat, actions: seq<Action>, relaxed: bool)
    requires m.p < |buf| && IsModelled(m.cs) && Transition(m.cs, buf[m.p], relaxed) == Move(next, actions)
    requires next != ERROR && next != ELSEWHERE
    ensures Run(m, buf, relaxed) == Run(PerformAll(m, buf, actions).(cs := next, p := m.p + 1), buf, relaxed)
  {
    hide PerformAll;
  }

  lemma OneAction(m: Parser, buf: string, a: Action)
    ensures PerformAll(m, buf, [a]) == Perform(m, buf, a)
  {
  }

  lemma TwoActions(m: Parser, buf: string, a: Action, b: Action)
    ensures PerformAll(m, buf, [a, b]) == Perform(Perform(m, buf, a), buf, b)
  {
    OneAction(Perform(m, buf, a), buf, b);
    assert [a, b][1..] == [b];
  }

  lemma ThreeActions(m: Parser, buf: string, a: Action, b: Action, c: Action)
    ensures PerformAll(m, buf, [a, b, c]) == Perform(Perform(Perform(m, buf, a), buf, b), buf, c)
  {
    TwoActions(Perform(m, buf, a), buf, b, c);
    assert [a, b, c][1..] == [b, c];
  }

  lemma SliceOfStanding(buf: string, i: nat, s: string)
    requires StandsAt(buf, i, s)
    ensures Slice(buf, i, i + |s|) == s
  {
  }
}
