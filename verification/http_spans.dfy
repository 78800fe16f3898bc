/** Where the spans handed to the callbacks lie, and the assertions that close a call. */
module HttpSpans {
  import opened HttpMachine
  import opened HttpSteps

  /** What an action reads lies between the start of the buffer and the cursor. */
  predicate SpanInside(m: Parser, a: Action) {
    match a
    case WriteField => m.fieldStart <= m.p
    case WriteValue => m.fieldStart + m.fieldLen <= m.p && m.mark <= m.p
    case QueryString => m.queryStart <= m.p
    case RequestMethod => m.mark <= m.p
    case RequestUri => m.mark <= m.p
    case RequestPath => m.mark <= m.p
    case FragmentText => m.mark <= m.p
    case HttpVersion => m.mark <= m.p
    case _ => true
  }

  predicate SpansInside(m: Parser, buf: string, actions: seq<Action>)
    decreases |actions|
  {
    actions == [] || (SpanInside(m, actions[0]) && SpansInside(Perform(m, buf, actions[0]), buf, actions[1..]))
  }

  /** Every action of every turn of a run. */
  predicate RunInside(m: Parser, buf: string, relaxed: bool)
    requires m.p <= |buf|
    decreases |buf| - m.p, if IsModelled(m.cs) then 1 else 0
  {
    m.p == |buf| || !IsModelled(m.cs) ||
    (SpansInside(m, buf, Transition(m.cs, buf[m.p], relaxed).actions) &&
      RunInside(StepAt(m, buf, relaxed), buf, relaxed))
  }

  /** The assertions behind the machine. */
  predicate ClosingAssertions(m: Parser, len: nat) {
    m.p <= len && m.bodyStart <= len && m.mark < len && m.fieldLen <= len && m.fieldStart < len
  }

  /** The name's length is stale in states 14 and 18, and query_start outside the query. */
  predicate Sane(m: Parser, len: nat) {
    && ClosingAssertions(m, len)
    && m.mark <= m.p && m.fieldStart <= m.p
    && (15 <= m.cs <= 16 ==> m.fieldStart + m.fieldLen <= m.p)
    && (30 <= m.cs <= 32 ==> m.queryStart <= m.p)
  }

  lemma One(m: Parser, buf: string, a: Action)
    ensures SpansInside(m, buf, [a]) == SpanInside(m, a) && PerformAll(m, buf, [a]) == Perform(m, buf, a)
  {
    OneAction(m, buf, a);
    assert [a][1..] == [];
  }

  lemma Two(m: Parser, buf: string, a: Action, b: Action)
    ensures SpansInside(m, buf, [a, b]) == (SpanInside(m, a) && SpanInside(Perform(m, buf, a), b))
    ensures PerformAll(m, buf, [a, b]) == Perform(Perform(m, buf, a), buf, b)
  {
    TwoActions(m, buf, a, b);
    One(Perform(m, buf, a), buf, b);
    assert [a, b][1..] == [b];
  }

  lemma Three(m: Parser, buf: string, a: Action, b: Action, c: Action)
    ensures var m1 := Perform(m, buf, a); var m2 := Perform(m1, buf, b);
            && SpansInside(m, buf, [a, b, c]) == (SpanInside(m, a) && SpanInside(m1, b) && SpanInside(m2, c))
            && PerformAll(m, buf, [a, b, c]) == Perform(m2, buf, c)
  {
    ThreeActions(m, buf, a, b, c);
    Two(Perform(m, buf, a), buf, b, c);
    assert [a, b, c][1..] == [b, c];
  }

  lemma NoActions(m: Parser, buf: string)
    ensures PerformAll(m, buf, []) == m && SpansInside(m, buf, [])
  {
  }

  lemma MethodStep(m: Parser, buf: string, relaxed: bool)
    requires Sane(m, |buf|) && m.p < |buf| && (m.cs == 1 || InMethod(m.cs))
    ensures SpansInside(m, buf, Transition(m.cs, buf[m.p], relaxed).actions)
    ensures Sane(StepAt(m, buf, relaxed), |buf|)
  {
    hide IsPathChar, IsQueryChar, IsMethodChar, IsRegNameChar, IsSchemeChar, IsLetter, IsDigit, IsHex, IsTokenChar,
         IsValueChar, IsBlank, Slice, PerformAll, SpansInside;
    NoActions(m, buf);
    One(m, buf, Mark);
    One(m, buf, RequestMethod);
  }

  lemma StartStep(m: Parser, buf: string, relaxed: bool)
    requires Sane(m, |buf|) && m.p < |buf| && (m.cs == 3 || m.cs == 174)
    ensures SpansInside(m, buf, Transition(m.cs, buf[m.p], relaxed).actions)
    ensures Sane(StepAt(m, buf, relaxed), |buf|)
  {
    hide IsPathChar, IsQueryChar, IsMethodChar, IsRegNameChar, IsSchemeChar, IsLetter, IsDigit, IsHex, IsTokenChar,
         IsValueChar, IsBlank, Slice, PerformAll, SpansInside;
    NoActions(m, buf);
    assert [Mark] + [RequestPath] == [Mark, RequestPath];
    assert [Mark] + [RequestPath, RequestUri] == [Mark, RequestPath, RequestUri];
    One(m, buf, Mark);
    Two(m, buf, Mark, RequestPath);
    Three(m, buf, Mark, RequestPath, RequestUri);
  }

  lemma PathStep(m: Parser, buf: string, relaxed: bool)
    requires Sane(m, |buf|) && m.p < |buf| && (m.cs == 26 || m.cs == 33)
    ensures SpansInside(m, buf, Transition(m.cs, buf[m.p], relaxed).actions)
    ensures Sane(StepAt(m, buf, relaxed), |buf|)
  {
    hide IsPathChar, IsQueryChar, IsMethodChar, IsRegNameChar, IsSchemeChar, IsLetter, IsDigit, IsHex, IsTokenChar,
         IsValueChar, IsBlank, Slice, PerformAll, SpansInside;
    NoActions(m, buf);
    assert [] + [RequestPath] == [RequestPath] && [] + [RequestPath, RequestUri] == [RequestPath, RequestUri];
    One(m, buf, RequestPath);
    Two(m, buf, RequestPath, RequestUri);
  }

  lemma SegmentStep(m: Parser, buf: string, relaxed: bool)
    requires Sane(m, |buf|) && m.p < |buf| && (m.cs == 19 || m.cs == 173)
    ensures SpansInside(m, buf, Transition(m.cs, buf[m.p], relaxed).actions)
    ensures Sane(StepAt(m, buf, relaxed), |buf|)
  {
    hide IsPathChar, IsQueryChar, IsMethodChar, IsRegNameChar, IsSchemeChar, IsLetter, IsDigit, IsHex, IsTokenChar,
         IsValueChar, IsBlank, Slice, PerformAll, SpansInside;
    NoActions(m, buf);
    assert [] + [RequestPath] == [RequestPath] && [] + [RequestPath, RequestUri] == [RequestPath, RequestUri];
    One(m, buf, RequestPath);
    Two(m, buf, RequestPath, RequestUri);
  }

  lemma AuthorityStep(m: Parser, buf: string, relaxed: bool)
    requires Sane(m, |buf|) && m.p < |buf| && 34 <= m.cs <= 46 && !IsHexState(m.cs)
    ensures SpansInside(m, buf, Transition(m.cs, buf[m.p], relaxed).actions)
    ensures Sane(StepAt(m, buf, relaxed), |buf|)
  {
    hide IsPathChar, IsQueryChar, IsMethodChar, IsRegNameChar, IsSchemeChar, IsLetter, IsDigit, IsHex, IsTokenChar,
         IsValueChar, IsBlank, Slice, PerformAll, SpansInside;
    NoActions(m, buf);
    assert [] + [RequestPath] == [RequestPath] && [] + [RequestPath, RequestUri] == [RequestPath, RequestUri];
    One(m, buf, RequestPath);
    Two(m, buf, RequestPath, RequestUri);
  }

  lemma HexStep(m: Parser, buf: string, relaxed: bool)
    requires Sane(m, |buf|) && m.p < |buf| && IsHexState(m.cs)
    ensures SpansInside(m, buf, Transition(m.cs, buf[m.p], relaxed).actions)
    ensures Sane(StepAt(m, buf, relaxed), |buf|)
  {
    hide IsPathChar, IsQueryChar, IsMethodChar, IsRegNameChar, IsSchemeChar, IsLetter, IsDigit, IsHex, IsTokenChar,
         IsValueChar, IsBlank, Slice, PerformAll, SpansInside;
    NoActions(m, buf);
  }

  lemma QueryStep(m: Parser, buf: string, relaxed: bool)
    requires Sane(m, |buf|) && m.p < |buf| && (m.cs == 29 || m.cs == 30)
    ensures SpansInside(m, buf, Transition(m.cs, buf[m.p], relaxed).actions)
    ensures Sane(StepAt(m, buf, relaxed), |buf|)
  {
    hide IsPathChar, IsQueryChar, IsMethodChar, IsRegNameChar, IsSchemeChar, IsLetter, IsDigit, IsHex, IsTokenChar,
         IsValueChar, IsBlank, Slice, PerformAll, SpansInside;
    NoActions(m, buf);
    assert [StartQuery] + [QueryString, RequestUri] == [StartQuery, QueryString, RequestUri];
    assert [] + [QueryString, RequestUri] == [QueryString, RequestUri];
    One(m, buf, StartQuery);
    Two(m, buf, QueryString, RequestUri);
    Three(m, buf, StartQuery, QueryString, RequestUri);
  }

  lemma FragmentStep(m: Parser, buf: string, relaxed: bool)
    requires Sane(m, |buf|) && m.p < |buf| && (m.cs == 20 || m.cs == 21)
    ensures SpansInside(m, buf, Transition(m.cs, buf[m.p], relaxed).actions)
    ensures Sane(StepAt(m, buf, relaxed), |buf|)
  {
    hide IsPathChar, IsQueryChar, IsMethodChar, IsRegNameChar, IsSchemeChar, IsLetter, IsDigit, IsHex, IsTokenChar,
         IsValueChar, IsBlank, Slice, PerformAll, SpansInside;
    NoActions(m, buf);
    assert [Mark] + [FragmentText] == [Mark, FragmentText];
    assert [] + [FragmentText] == [FragmentText];
    One(m, buf, Mark);
    One(m, buf, FragmentText);
    Two(m, buf, Mark, FragmentText);
  }

  lemma VersionStep(m: Parser, buf: string, relaxed: bool)
    requires Sane(m, |buf|) && m.p < |buf| && 4 <= m.cs <= 12
    ensures SpansInside(m, buf, Transition(m.cs, buf[m.p], relaxed).actions)
    ensures Sane(StepAt(m, buf, relaxed), |buf|)
  {
    hide IsPathChar, IsQueryChar, IsMethodChar, IsRegNameChar, IsSchemeChar, IsLetter, IsDigit, IsHex, IsTokenChar,
         IsValueChar, IsBlank, Slice, PerformAll, SpansInside;
    NoActions(m, buf);
    One(m, buf, Mark);
    One(m, buf, HttpVersion);
  }

  lemma HeaderStep(m: Parser, buf: string, relaxed: bool)
    requires Sane(m, |buf|) && m.p < |buf| && 13 <= m.cs <= 18
    ensures SpansInside(m, buf, Transition(m.cs, buf[m.p], relaxed).actions)
    ensures Sane(StepAt(m, buf, relaxed), |buf|)
  {
    hide IsPathChar, IsQueryChar, IsMethodChar, IsRegNameChar, IsSchemeChar, IsLetter, IsDigit, IsHex, IsTokenChar,
         IsValueChar, IsBlank, Slice, PerformAll, SpansInside;
    NoActions(m, buf);
    One(m, buf, Mark);
    One(m, buf, StartField);
    One(m, buf, WriteField);
    One(m, buf, WriteValue);
    One(m, buf, Done);
    Two(m, buf, StartField, Done);
    Two(m, buf, Mark, WriteValue);
  }

  lemma {:induction false} RunSane(m: Parser, buf: string, relaxed: bool)
    requires Sane(m, |buf|)
    ensures RunInside(m, buf, relaxed) && Sane(Run(m, buf, relaxed), |buf|)
    decreases |buf| - m.p, if IsModelled(m.cs) then 1 else 0
  {
    hide Transition, SpansInside, PerformAll, Sane;
    assert m.p <= |buf| by {
      SaneFits(m, buf);
    }
    if m.p < |buf| && IsModelled(m.cs) {
      if 4 <= m.cs <= 12 {
        VersionStep(m, buf, relaxed);
      } else if 13 <= m.cs <= 18 {
        HeaderStep(m, buf, relaxed);
      } else if IsHexState(m.cs) {
        HexStep(m, buf, relaxed);
      } else if m.cs == 20 || m.cs == 21 {
        FragmentStep(m, buf, relaxed);
      } else if m.cs == 29 || m.cs == 30 {
        QueryStep(m, buf, relaxed);
      } else if m.cs == 3 || m.cs == 174 {
        StartStep(m, buf, relaxed);
      } else if m.cs == 1 || InMethod(m.cs) {
        MethodStep(m, buf, relaxed);
      } else if m.cs == 19 || m.cs == 173 {
        SegmentStep(m, buf, relaxed);
      } else if 34 <= m.cs <= 46 {
        AuthorityStep(m, buf, relaxed);
      } else {
        PathStep(m, buf, relaxed);
      }
      RunSane(StepAt(m, buf, relaxed), buf, relaxed);
    }
  }

  lemma SaneFits(m: Parser, buf: string)
    requires Sane(m, |buf|)
    ensures m.p <= |buf|
  {
  }

  /**
   * From a fresh parser and a buffer that is not empty, whatever query_start held: every span up to where the machine
   * leaves the model lies between the start of the buffer and the cursor, and if it does not leave it the closing
   * assertions hold.
   */
  lemma FreshRunInside(queryStart: nat, buf: string, relaxed: bool)
    requires buf != ""
    ensures RunInside(Fresh(queryStart), buf, relaxed)
    ensures var r := Run(Fresh(queryStart), buf, relaxed); r.cs != ELSEWHERE ==> ClosingAssertions(r, |buf|)
  {
    hide Run, RunInside;
    RunSane(Fresh(queryStart), buf, relaxed);
  }
}
