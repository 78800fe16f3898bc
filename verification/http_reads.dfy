/** Accepting runs read backwards: what one of them takes next. */
module HttpReads {
  import opened Texts
  import opened HttpMachine

  /** The run from a state and a position reaches the final state; marks and events play no part in that. */
  predicate Accepts(buf: string, p: nat, cs: nat, relaxed: bool)
    requires p <= |buf|
    decreases |buf| - p
  {
    cs == FINAL ||
    (IsModelled(cs) && p < |buf| &&
     var next := Transition(cs, buf[p], relaxed).next;
     next != ERROR && next != ELSEWHERE && Accepts(buf, p + 1, next, relaxed))
  }

  lemma {:induction false} RunAccepts(m: Parser, buf: string, relaxed: bool)
    requires m.p <= |buf|
    ensures Run(m, buf, relaxed).cs == FINAL <==> Accepts(buf, m.p, m.cs, relaxed)
    decreases |buf| - m.p
  {
    hide PerformAll, Transition;
    if IsModelled(m.cs) && m.p < |buf| {
      var m1 := StepAt(m, buf, relaxed);
      if m1.p == m.p + 1 {
        RunAccepts(m1, buf, relaxed);
      }
    }
  }

  /** An accepting run from a state before the final one takes one more octet. */
  lemma Next(buf: string, p: nat, cs: nat, relaxed: bool)
    requires p <= |buf| && cs != FINAL && Accepts(buf, p, cs, relaxed)
    ensures IsModelled(cs) && p < |buf|
    ensures var next := Transition(cs, buf[p], relaxed).next;
            next != ERROR && next != ELSEWHERE && Accepts(buf, p + 1, next, relaxed)
  {
  }

  lemma StandsEmpty(buf: string, p: nat)
    requires p <= |buf|
    ensures StandsAt(buf, p, "")
  {
  }

  lemma StandsOne(buf: string, p: nat)
    requires p < |buf|
    ensures StandsAt(buf, p, [buf[p]])
  {
  }

  /** One more octet in front of a text. */
  lemma StandsCons(buf: string, p: nat, s: string)
    requires p < |buf| && StandsAt(buf, p + 1, s)
    ensures StandsAt(buf, p, [buf[p]] + s)
  {
    StandsOne(buf, p);
    StandsJoin(buf, p, [buf[p]], s);
  }
}
