/** The names of the request methods. A method is its number in the table; one more stands for the unknown one. */
module HttpMethods {
  import opened HttpGrammar

  const UNKNOWN: nat := 34

  type HttpMethod = n: nat | n <= UNKNOWN

  function MethodToString(m: HttpMethod): string {
    match m
    case 0 => "DELETE" case 1 => "GET" case 2 => "HEAD" case 3 => "POST" case 4 => "PUT" case 5 => "CONNECT"
    case 6 => "OPTIONS" case 7 => "TRACE" case 8 => "COPY" case 9 => "LOCK" case 10 => "MKCOL" case 11 => "MOVE"
    case 12 => "PROPFIND" case 13 => "PROPPATCH" case 14 => "SEARCH" case 15 => "UNLOCK" case 16 => "BIND"
    case 17 => "REBIND" case 18 => "UNBIND" case 19 => "ACL" case 20 => "REPORT" case 21 => "MKACTIVITY"
    case 22 => "CHECKOUT" case 23 => "MERGE" case 24 => "MSEARCH" case 25 => "NOTIFY" case 26 => "SUBSCRIBE"
    case 27 => "UNSUBSCRIBE" case 28 => "PATCH" case 29 => "PURGE" case 30 => "MKCALENDAR" case 31 => "LINK"
    case 32 => "UNLINK" case 33 => "SOURCE"
    case _ => "UNKNOW"
  }

  predicate IsMethodName(s: string) {
    exists m: HttpMethod :: m < UNKNOWN && MethodToString(m) == s
  }

  /** strncmp with the length of the text is zero exactly when the name starts with the text. */
  function FirstNameFrom(s: string, i: HttpMethod): (m: HttpMethod)
    ensures i <= m && forall j :: i <= j < m ==> !(s <= MethodToString(j))
    ensures m < UNKNOWN ==> s <= MethodToString(m)
    decreases UNKNOWN - i
  {
    if i == UNKNOWN || s <= MethodToString(i) then i else FirstNameFrom(s, i + 1)
  }

  function MethodFromChars(s: string): (m: HttpMethod)
    ensures m < UNKNOWN ==> s <= MethodToString(m)
    ensures forall j :: 0 <= j < m ==> !(s <= MethodToString(j))
  {
    FirstNameFrom(s, 0)
  }

  // No name is the beginning of another one.

  function At(s: string, k: nat): char {
    if k < |s| then s[k] else ' '
  }

  /** The number of a name, read off its first five letters. */
  function Number(s: string): nat {
    var a, b, c := At(s, 0), At(s, 1), At(s, 2);
    match a
    case 'A' => 19
    case 'B' => 16
    case 'C' => if b == 'H' then 22 else if c == 'N' then 5 else 8
    case 'D' => 0
    case 'G' => 1
    case 'H' => 2
    case 'L' => if b == 'I' then 31 else 9
    case 'M' => if b == 'O' then 11 else if b == 'E' then 23 else if b == 'S' then 24 else if b != 'K' then 34 else
                if c == 'A' then 21 else if At(s, 3) == 'O' then 10 else 30
    case 'N' => 25
    case 'O' => 6
    case 'P' => if b == 'O' then 3 else if b == 'A' then 28 else if b == 'U' then (if c == 'T' then 4 else 29) else
                if b != 'R' then 34 else
                if At(s, 4) == 'F' then 12 else 13
    case 'R' => if c == 'B' then 17 else 20
    case 'S' => if b == 'E' then 14 else if b == 'U' then 26 else 33
    case 'T' => 7
    case 'U' => if c == 'B' then 18 else if c == 'S' then 27 else if c == 'K' then 34 else
                if At(s, 3) == 'O' then 15 else 32
    case _ => 34
  }

  /** How many letters that takes. */
  function Needed(s: string): nat {
    var a, b := At(s, 0), At(s, 1);
    if a == 'U' || (a == 'P' && b == 'R') || (a == 'M' && b == 'K') then 5 else 3
  }

  lemma NumberOfBeginning(s: string, t: string)
    requires s <= t && |s| >= Needed(s)
    ensures Number(s) == Number(t)
  {
    assert At(s, 0) == At(t, 0) && At(s, 1) == At(t, 1) && At(s, 2) == At(t, 2);
    assert Needed(s) == 5 ==> At(s, 3) == At(t, 3) && At(s, 4) == At(t, 4);
  }

  predicate HasNumber(m: HttpMethod) {
    var s := MethodToString(m);
    Number(s) == m && Needed(s) <= |s| && IsMethod(s)
  }

  lemma NumbersToSix(m: HttpMethod)
    requires 0 <= m <= 6
    ensures HasNumber(m)
  {
  }

  lemma NumbersToThirteen(m: HttpMethod)
    requires 7 <= m <= 13
    ensures HasNumber(m)
  {
  }

  lemma NumbersToTwenty(m: HttpMethod)
    requires 14 <= m <= 20
    ensures HasNumber(m)
  {
  }

  lemma NumbersToTwentyFour(m: HttpMethod)
    requires 21 <= m <= 24
    ensures HasNumber(m)
  {
  }

  lemma NumbersToTwentySeven(m: HttpMethod)
    requires 25 <= m <= 27
    ensures HasNumber(m)
  {
  }

  lemma NumbersToTheEnd(m: HttpMethod)
    requires 28 <= m <= 34
    ensures HasNumber(m)
  {
  }

  lemma NumberOfName(m: HttpMethod)
    ensures HasNumber(m)
  {
    hide HasNumber;
    if m <= 6 {
      NumbersToSix(m);
    } else if m <= 13 {
      NumbersToThirteen(m);
    } else if m <= 20 {
      NumbersToTwenty(m);
    } else if m <= 24 {
      NumbersToTwentyFour(m);
    } else if m <= 27 {
      NumbersToTwentySeven(m);
    } else {
      NumbersToTheEnd(m);
    }
  }

  lemma NoNameBeginsAnother(i: HttpMethod, j: HttpMethod)
    ensures MethodToString(i) <= MethodToString(j) ==> i == j
  {
    hide MethodToString;
    NumberOfName(i);
    NumberOfName(j);
    if MethodToString(i) <= MethodToString(j) {
      NumberOfBeginning(MethodToString(i), MethodToString(j));
    }
  }

  /** Every method is found under its own name, the unknown one under the word printed for it. */
  lemma MethodReadBack(m: HttpMethod)
    ensures MethodFromChars(MethodToString(m)) == m
  {
    hide MethodToString;
    forall j: HttpMethod | MethodToString(m) <= MethodToString(j) ensures j == m {
      NoNameBeginsAnother(m, j);
    }
  }

  /** A text is printed back as it was read exactly when it is one of the names or that word. */
  lemma TextReadBackIff(s: string)
    ensures MethodToString(MethodFromChars(s)) == s <==> IsMethodName(s) || s == "UNKNOW"
  {
    assert MethodToString(UNKNOWN) == "UNKNOW";
    hide MethodToString, MethodFromChars;
    MethodReadBack(UNKNOWN);
    if IsMethodName(s) {
      var m: HttpMethod :| m < UNKNOWN && MethodToString(m) == s;
      MethodReadBack(m);
    }
    assert MethodFromChars(s) < UNKNOWN ==> IsMethodName(MethodToString(MethodFromChars(s)));
  }

  /** A beginning is enough: the one letter G is taken for GET. */
  lemma BeginningIsTakenForName()
    ensures !IsMethodName("G") && MethodFromChars("G") == 1 && MethodToString(1) == "GET"
  {
    assert MethodToString(0) == "DELETE" && MethodToString(1) == "GET";
    var m := MethodFromChars("G");
    assert m <= 1 by {
      assert "G" <= MethodToString(1);
    }
    assert m != 0 by {
      assert "G"[0] == 'G' && MethodToString(0)[0] == 'D';
    }
    if n: HttpMethod :| n < UNKNOWN && MethodToString(n) == "G" {
      NumberOfName(n);
    }
  }

  /** Every printed method passes the machine's test for one. */
  lemma PrintedIsMethod(m: HttpMethod)
    ensures IsMethod(MethodToString(m))
  {
    NumberOfName(m);
  }
}
