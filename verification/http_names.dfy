/** Header names against the tokens of RFC 7230. */
module HttpNames {
  import opened HttpMachine
  import opened HttpGrammar
  import opened HttpAccepts

  /** tchar of section 3.2.6 of RFC 7230. */
  predicate IsTchar(c: char) {
    IsLetter(c) || IsDigit(c) || c in "!#$%&'*+-.^_`|~"
  }

  /** What the machine takes in a name besides: every control octet but NUL, the tab and DEL. */
  lemma TokenCharIff(c: char)
    ensures IsTokenChar(c) <==> IsTchar(c) || (1 <= c as int <= 31 && c != '\t')
  {
  }

  /** A head with one header line, whose name is one octet. */
  function OneLineHead(c: char): Head {
    Head("GET", None, NoPath, None, None, '1', "\r\n", [Line([c], "", "", "\r\n")], "\r\n")
  }

  lemma OneLineHeadIsHead(c: char, relaxed: bool)
    requires 1 <= c as int <= 31 && c != '\t' && c != '\n'
    ensures IsHead(OneLineHead(c), relaxed)
  {
  }

  /** A control octet alone is accepted as the name of a field, unless it is NUL, a tab or a line feed. */
  lemma ControlNameAccepted(c: char, queryStart: nat, relaxed: bool)
    requires 1 <= c as int <= 31 && c != '\t' && c != '\n'
    ensures !IsTchar(c)
    ensures var r := Run(Fresh(queryStart), HeadText(OneLineHead(c)), relaxed);
            r.cs == FINAL && FieldIs([c], "") in r.events
  {
    hide Run, IsHead, HeadText;
    OneLineHeadIsHead(c, relaxed);
    var h := OneLineHead(c);
    assert HeadText(h) + "" == HeadText(h);
    HeadAccepted(h, "", queryStart, relaxed);
    assert FieldIs([c], "") in LineEvents(h.lines);
  }
}
