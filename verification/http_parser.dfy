/** The request object and the parser object that fills it. */
module HttpParser {
  import opened HttpMachine
  import opened HttpSpans
  import opened HttpMethods
  import opened HttpFields
  import opened HttpRequests

  class HttpRequest {
    var verb: HttpMethod
    var version: Octet
    var path: string
    var query: string
    var fragment: string
    var fields: seq<Field>

    ghost function Value(): Request
      reads this
    {
      Request(verb, version, path, query, fragment, fields)
    }

    ghost predicate Valid()
      reads this
    {
      Sorted(fields)
    }

    constructor ()
      ensures Value() == Initial() && Valid()
    {
      verb, version, path, query, fragment, fields := 1, 0x11, "/", "", "", [];
    }

    method SetVerb(m: HttpMethod)
      modifies this
      ensures Value() == old(Value()).(verb := m)
    {
      verb := m;
    }

    method SetVersion(v: Octet)
      modifies this
      ensures Value() == old(Value()).(version := v)
    {
      version := v;
    }

    method SetPath(s: string)
      modifies this
      ensures Value() == old(Value()).(path := s)
    {
      path := s;
    }

    method SetQuery(s: string)
      modifies this
      ensures Value() == old(Value()).(query := s)
    {
      query := s;
    }

    method SetFragment(s: string)
      modifies this
      ensures Value() == old(Value()).(fragment := s)
    {
      fragment := s;
    }

    /** Sets a field: found afterwards in any spelling of its name, and no other field is touched. */
    method SetField(name: string, value: string)
      modifies this
      ensures Value() == old(Value()).(fields := HttpFields.SetField(old(fields), name, value))
      ensures old(Valid()) ==> Valid()
      ensures forall other :: HttpFields.GetField(fields, other) ==
                if SameName(other, name) then Found(value) else HttpFields.GetField(old(fields), other)
    {
      ghost var was := fields;
      fields := HttpFields.SetField(fields, name, value);
      if Sorted(was) {
        SetFieldKeepsSorted(was, name, value);
      }
      forall other ensures HttpFields.GetField(fields, other) ==
        if SameName(other, name) then Found(value) else HttpFields.GetField(was, other)
      {
        SetThenGet(was, name, value, other);
      }
    }

    /** The value of a field, empty if there is none. */
    method GetField(name: string) returns (value: string)
      ensures value == match HttpFields.GetField(fields, name) case Missing => "" case Found(v) => v
    {
      var i := 0;
      while i < |fields| && Key(fields[i].name) != Key(name)
        invariant 0 <= i <= |fields|
        invariant HttpFields.GetField(fields, name) == HttpFields.GetField(fields[i..], name)
      {
        assert fields[i..][1..] == fields[i + 1..];
        i := i + 1;
      }
      value := if i < |fields| then fields[i].value else "";
    }

    method ToString() returns (text: string)
      ensures text == Printed(Value())
    {
      text := MethodToString(verb) + " " + path + Part('?', query) + Part('#', fragment) + PrintedVersion(version);
      ghost var start := text;
      var i := 0;
      while i < |fields|
        invariant 0 <= i <= |fields|
        invariant text + PrintedFields(fields[i..]) == start + PrintedFields(fields)
      {
        assert fields[i..][1..] == fields[i + 1..];
        assert text + PrintedFields(fields[i..]) == text + PrintedField(fields[i]) + PrintedFields(fields[i + 1..]);
        text := text + fields[i].name + ": " + fields[i].value + "\r\n";
        i := i + 1;
      }
      assert text + PrintedFields(fields[i..]) == text;
      text := text + "\r\n";
    }

    /** The callback of an event. */
    method Hear(e: Event)
      modifies this
      ensures Value() == Heard(old(Value()), e) && (old(Valid()) ==> Valid())
    {
      match e
      case MethodIs(s) => SetVerb(MethodFromChars(s));
      case PathIs(s) => SetPath(s);
      case UriIs(_) =>
      case QueryIs(s) => SetQuery(s);
      case FragmentIs(s) => SetFragment(s);
      case VersionIs(s) => SetVersion(VersionOf(s));
      case FieldIs(name, value) => SetField(name, value);
    }
  }

  class HttpRequestParser {
    const request: HttpRequest
    const relaxed: bool
    var cs: nat
    var mark: nat
    var fieldStart: nat
    var fieldLen: nat
    var queryStart: nat
    var bodyStart: nat
    var nread: nat

    /** The machine at a position of the buffer, with the calls made so far in this turn. */
    ghost function Machine(p: nat, events: seq<Event>): Parser
      reads this
    {
      Parser(cs, p, mark, fieldStart, fieldLen, queryStart, bodyStart, events)
    }

    /** http_parser_init sets everything but uri_relaxed and query_start, which keep what they held. */
    constructor (uriRelaxed: bool, oldQueryStart: nat)
      ensures Machine(0, []) == Fresh(oldQueryStart) && relaxed == uriRelaxed && nread == 0
      ensures fresh(request) && request.Value() == Initial() && request.Valid()
    {
      request := new HttpRequest();
      relaxed := uriRelaxed;
      cs, mark, fieldStart, fieldLen, queryStart, bodyStart, nread := START, 0, 0, 0, oldQueryStart, 0, 0;
    }

    /** One action at position p, with its callback; q is the request before the call of Execute. */
    method Act(buf: string, p: nat, a: Action, ghost events: seq<Event>, ghost q: Request)
      returns (ghost events': seq<Event>)
      requires request.Value() == HeardAll(q, events)
      modifies this, request
      ensures Machine(p, events') == Perform(old(Machine(p, events)), buf, a) && nread == old(nread)
      ensures request.Value() == HeardAll(q, events') && (old(request.Valid()) ==> request.Valid())
    {
      hide HeardAll, Slice;
      events' := Perform(Machine(p, events), buf, a).events;
      match a
      case Mark => mark := p;
      case StartField => fieldStart := p;
      case WriteField => fieldLen := if fieldStart <= p then p - fieldStart else 0;
      case WriteValue =>
        Call(FieldIs(Slice(buf, fieldStart, fieldStart + fieldLen), Slice(buf, mark, p)), events, q);
      case RequestMethod => Call(MethodIs(Slice(buf, mark, p)), events, q);
      case RequestUri => Call(UriIs(Slice(buf, mark, p)), events, q);
      case FragmentText => Call(FragmentIs(Slice(buf, mark, p)), events, q);
      case StartQuery => queryStart := p;
      case QueryString => Call(QueryIs(Slice(buf, queryStart, p)), events, q);
      case HttpVersion => Call(VersionIs(Slice(buf, mark, p)), events, q);
      case RequestPath => Call(PathIs(Slice(buf, mark, p)), events, q);
      case Done => bodyStart := p + 1;
    }

    method Call(e: Event, ghost events: seq<Event>, ghost q: Request)
      requires request.Value() == HeardAll(q, events)
      modifies request
      ensures request.Value() == HeardAll(q, events + [e]) && (old(request.Valid()) ==> request.Valid())
    {
      HeardLast(q, events, e);
      request.Hear(e);
    }

    /** The actions of one transition, in order. */
    method ActAll(buf: string, p: nat, actions: seq<Action>, ghost events: seq<Event>, ghost q: Request)
      returns (ghost events': seq<Event>)
      requires request.Value() == HeardAll(q, events)
      modifies this, request
      ensures Machine(p, events') == PerformAll(old(Machine(p, events)), buf, actions) && nread == old(nread)
      ensures request.Value() == HeardAll(q, events') && (old(request.Valid()) ==> request.Valid())
    {
      hide HeardAll, Perform, HttpRequest.Valid;
      events' := events;
      var k := 0;
      while k < |actions|
        invariant 0 <= k <= |actions| && nread == old(nread)
        invariant PerformAll(Machine(p, events'), buf, actions[k..]) ==
                  PerformAll(old(Machine(p, events)), buf, actions)
        invariant request.Value() == HeardAll(q, events') && (old(request.Valid()) ==> request.Valid())
      {
        assert actions[k..][0] == actions[k] && actions[k..][1..] == actions[k + 1..];
        events' := Act(buf, p, actions[k], events', q);
        k := k + 1;
      }
    }

    /** The loop over the transition table, from a position on. */
    method RunOn(buf: string, from: nat, ghost events: seq<Event>, ghost q: Request)
      returns (p: nat, ghost events': seq<Event>)
      requires from <= |buf| && request.Value() == HeardAll(q, events)
      modifies this, request
      ensures Machine(p, events') == Run(old(Machine(from, events)), buf, relaxed) && nread == old(nread)
      ensures request.Value() == HeardAll(q, events') && (old(request.Valid()) ==> request.Valid())
    {
      hide HeardAll, Perform, PerformAll, Transition, HttpRequest.Valid;
      p, events' := from, events;
      while p < |buf| && IsModelled(cs)
        invariant p <= |buf| && nread == old(nread)
        invariant Run(old(Machine(from, events)), buf, relaxed) == Run(Machine(p, events'), buf, relaxed)
        invariant request.Value() == HeardAll(q, events') && (old(request.Valid()) ==> request.Valid())
        decreases |buf| - p, if IsModelled(cs) then 1 else 0
      {
        var move := Transition(cs, buf[p], relaxed);
        events' := ActAll(buf, p, move.actions, events', q);
        cs := move.next;
        if cs != ERROR && cs != ELSEWHERE {
          p := p + 1;
        }
      }
    }

    /**
     * http_parser_execute with offset 0. The marks start at 0 in every call, query_start and body_start do not.
     * Unless the machine leaves the model, the new state and the request are those of its run, and after a fresh one
     * the closing assertions hold.
     */
    method ExecuteText(buf: string) returns (n: nat)
      requires cs == ERROR || cs == FINAL || IsModelled(cs)
      modifies this, request
      ensures buf == "" ==> n == 0 && request.Value() == old(request.Value()) && Machine(0, []) == old(Machine(0, []))
      ensures buf != "" ==>
                var r := Resumed(Parser(old(cs), 0, 0, 0, 0, old(queryStart), old(bodyStart), []), buf, relaxed);
                cs == r.cs &&
                (cs != ELSEWHERE ==> Machine(n, r.events) == r && nread == n
                                     && request.Value() == HeardAll(old(request.Value()), r.events))
      ensures n <= |buf|
      ensures old(Machine(0, [])) == Fresh(old(queryStart)) && buf != "" && cs != ELSEWHERE ==>
                ClosingAssertions(Machine(n, []), |buf|)
      ensures old(request.Valid()) ==> request.Valid()
    {
      hide HeardAll, Perform, PerformAll, Transition, Run, HttpRequest.Valid;
      if buf == "" {
        return 0;
      }
      FreshRunInside(queryStart, buf, relaxed);
      nread, mark, fieldLen, fieldStart := 0, 0, 0, 0;
      ghost var q, events: seq<Event> := request.Value(), [];
      NothingHeard(q);
      var p := 0;
      if cs == FINAL {
        var move := FinalMove(buf[0]);
        events := ActAll(buf, p, move.actions, events, q);
        cs := move.next;
        p := if cs == ERROR then 0 else 1;
      }
      p, events := RunOn(buf, p, events, q);
      nread := nread + p;
      return nread;
    }

    /** Execute: the octets that were consumed are dropped from the front of the buffer. */
    method Execute(data: array<char>, len: nat) returns (off: nat)
      requires len <= data.Length && (cs == ERROR || cs == FINAL || IsModelled(cs))
      modifies this, request, data
      ensures len == 0 ==> off == 0 && request.Value() == old(request.Value())
      ensures len != 0 ==>
                var m := Parser(old(cs), 0, 0, 0, 0, old(queryStart), old(bodyStart), []);
                var r := Resumed(m, old(data[..len]), relaxed);
                cs == r.cs &&
                (cs != ELSEWHERE ==> Machine(off, r.events) == r && nread == off
                                     && request.Value() == HeardAll(old(request.Value()), r.events))
      ensures off <= len && data[..] == old(data[off..len]) + old(data[len - off..])
      ensures old(request.Valid()) ==> request.Valid()
    {
      hide Run, HeardAll, HttpRequest.Valid;
      off := ExecuteText(data[..len]);
      ghost var was := data[..];
      var i := 0;
      while i < len - off
        invariant 0 <= i <= len - off <= data.Length
        invariant forall k :: 0 <= k < i ==> data[k] == was[off + k]
        invariant forall k :: i <= k < data.Length ==> data[k] == was[k]
        modifies data
      {
        data[i] := data[i + off];
        i := i + 1;
      }
      assert data[..] == was[off..len] + was[len - off..];
    }

    /** The final state is the last one of the table. */
    method IsFinished() returns (b: bool)
      ensures b <==> cs == FINAL
    {
      b := cs == FINAL;
    }
  }

  lemma NothingHeard(q: Request)
    ensures HeardAll(q, []) == q
  {
  }

  /**
   * A request object is printed and the text is fed to a fresh parser: for every path without an opening bracket, the
   * parser finishes with an equal request exactly when the request is legal.
   */
  method PrintAndParse(q: HttpRequest, relaxed: bool, queryStart: nat) returns (parser: HttpRequestParser, done: bool)
    requires q.Valid()
    ensures '[' !in q.path ==> (done && parser.request.Value() == q.Value() <==> IsLegal(q.Value(), relaxed))
    ensures IsLegal(q.Value(), relaxed) ==> done
    ensures parser.request.Valid() && fresh(parser) && fresh(parser.request)
  {
    hide Run, HeardAll, Printed, IsLegal;
    parser := new HttpRequestParser(relaxed, queryStart);
    var text := q.ToString();
    assert text != "" by {
      PrintedNotEmpty(q.Value());
    }
    ReadBackIff(q.Value(), queryStart, relaxed);
    var n := parser.ExecuteText(text);
    done := parser.IsFinished();
  }

  lemma PrintedNotEmpty(q: Request)
    ensures Printed(q) != ""
  {
  }
}
