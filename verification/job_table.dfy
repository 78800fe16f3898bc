/** The table of jobs that the controller fills before the threads start and reads when they are done. */
module JobTable {
  import opened JobPool

  datatype Answer<T> = Aborted | Answer(value: T)

  /** A pointer of the table: NULL, or the text behind it. */
  datatype Entry = Null | Text(s: string)

  /** What the controller gets for an index: the job and its digest, either of which may be nil. */
  datatype Job = Job(text: Entry, slot: Slot)

  /** The text up to its first NUL, which is all that strcpy copies. */
  function CString(s: string): (r: string)
    ensures r <= s && forall i :: 0 <= i < |r| ==> r[i] as int != 0
    ensures r == s || s[|r|] as int == 0
  {
    if s == "" || s[0] as int == 0 then "" else [s[0]] + CString(s[1..])
  }

  /** What lua_pushstring makes of a stored digest: it reads up to the first NUL. */
  function Pushed(slot: Slot): Slot {
    match slot
    case Empty => Empty
    case Filled(digest, w) => Filled(CString(digest), w)
  }

  class Table {
    const jobs: array<Entry>
    const md5s: array<Slot>
    var amt: nat

    /** Places below job_amt hold jobs, those from there on nothing. */
    ghost predicate Valid()
      reads this, jobs, md5s
    {
      && jobs.Length == JOB_LIMIT && md5s.Length == JOB_LIMIT && amt < JOB_LIMIT
      && (forall k :: 0 <= k < amt ==> jobs[k].Text?)
      && (forall k :: amt <= k < JOB_LIMIT ==> jobs[k] == Null && md5s[k] == Empty)
    }

    /** The jobs that were set, in order: what the threads start from. */
    function Texts(): seq<string>
      reads this, jobs, md5s
      requires Valid()
    {
      seq(amt, k requires 0 <= k < amt reads this, jobs, md5s requires Valid() => jobs[k].s)
    }

    ghost function Slots(): seq<Slot>
      reads this, jobs, md5s
      requires Valid()
    {
      md5s[..amt]
    }

    /** The table as it lies in the program's zeroed memory. */
    constructor ()
      ensures Valid() && Texts() == [] && fresh(jobs) && fresh(md5s)
    {
      jobs := new Entry[JOB_LIMIT](_ => Null);
      md5s := new Slot[JOB_LIMIT](_ => Empty);
      amt := 0;
    }

    /** Appends a job without a digest; one place must stay free, or the assertion ends the process. */
    method Set(text: string) returns (r: Answer<nat>)
      requires Valid()
      modifies this`amt, jobs, md5s
      ensures r == if old(|Texts()|) < 1023 then Answer(old(|Texts()|)) else Aborted
      ensures r.Answer? ==> Valid() && Texts() == old(Texts()) + [CString(text)] && Slots() == old(Slots()) + [Empty]
    {
      md5s[amt] := Empty;
      jobs[amt] := Text(CString(text));
      amt := amt + 1;
      if amt >= JOB_LIMIT {
        return Aborted;
      }
      assert Texts() == old(Texts()) + [CString(text)];
      assert Slots() == old(Slots()) + [Empty];
      return Answer(amt - 1);
    }

    /** A worker stores the digest of its job. */
    method Store(idx: nat, digest: string, worker: nat)
      requires Valid() && idx < amt
      modifies md5s
      ensures Valid() && Texts() == old(Texts()) && Slots() == old(Slots())[idx := Filled(digest, worker)]
    {
      md5s[idx] := Filled(digest, worker);
      assert Texts() == old(Texts());
    }

    /**
     * Reads the two pointers of an index: below job_amt they are the job and its digest, from there on the controller
     * gets nil twice, and behind the table the assertion ends the process.
     */
    method Get(idx: nat) returns (r: Answer<Job>)
      requires Valid()
      ensures r.Aborted? <==> idx >= 1024
      ensures idx < |Texts()| ==> r == Answer(Job(Text(Texts()[idx]), Pushed(Slots()[idx])))
      ensures |Texts()| <= idx < 1024 ==> r == Answer(Job(Null, Empty))
    {
      if idx >= JOB_LIMIT {
        return Aborted;
      }
      return Answer(Job(jobs[idx], Pushed(md5s[idx])));
    }
  }

  function CStrings(texts: seq<string>): seq<string> {
    seq(|texts|, k requires 0 <= k < |texts| => CString(texts[k]))
  }

  /** The controller sets its jobs one after the other, in a table of its own. */
  method SetAll(texts: seq<string>) returns (table: Table)
    requires |texts| <= 1023
    ensures fresh(table) && fresh(table.jobs) && fresh(table.md5s) && table.Valid()
    ensures table.Texts() == CStrings(texts) && table.Slots() == seq(|texts|, _ => Empty)
  {
    table := new Table();
    var i := 0;
    while i < |texts|
      invariant 0 <= i <= |texts| && fresh(table) && fresh(table.jobs) && fresh(table.md5s) && table.Valid()
      invariant table.Texts() == CStrings(texts)[..i] && table.Slots() == seq(i, _ => Empty)
    {
      var r := table.Set(texts[i]);
      i := i + 1;
    }
  }

  /** And asks for them by their numbers. */
  method GetAll(table: Table) returns (got: seq<Job>)
    requires table.Valid()
    ensures |got| == |table.Texts()|
    ensures forall k :: 0 <= k < |got| ==> got[k] == Job(Text(table.Texts()[k]), Pushed(table.Slots()[k]))
  {
    got := [];
    var i := 0;
    while i < table.amt
      invariant 0 <= i <= table.amt && |got| == i
      invariant forall k :: 0 <= k < i ==> got[k] == Job(Text(table.Texts()[k]), Pushed(table.Slots()[k]))
    {
      var r := table.Get(i);
      got := got + [r.value];
      i := i + 1;
    }
  }

  /** Jobs that fit are read back by their numbers, without digests as long as no thread has run. */
  method SetAndGet(texts: seq<string>) returns (got: seq<Job>)
    requires |texts| <= 1023
    ensures |got| == |texts| && forall k :: 0 <= k < |texts| ==> got[k] == Job(Text(CString(texts[k])), Empty)
  {
    var table := SetAll(texts);
    got := GetAll(table);
  }

  // The threads at the table.

  /** The threads run in the given order, and those that have a digest store it in the table. */
  method Convert(table: Table, n: nat, choices: seq<Choice>)
    requires table.Valid() && table.Slots() == seq(|table.Texts()|, _ => Empty)
    requires CanRun(Init(table.Texts(), n), choices)
    modifies table.md5s
    ensures table.Valid() && table.Texts() == old(table.Texts())
    ensures table.Slots() == After(Init(old(table.Texts()), n), choices).slots
  {
    var s := Init(table.Texts(), n);
    InitHolds(s.jobs, n);
    var i := 0;
    while i < |choices|
      invariant 0 <= i <= |choices| && table.Valid() && table.Texts() == old(table.Texts())
      invariant Inv(s) && s.jobs == table.Texts() && s.slots == table.Slots()
      invariant CanRun(s, choices[i..])
      invariant After(s, choices[i..]) == After(Init(old(table.Texts()), n), choices)
    {
      hide Inv;
      var c := choices[i];
      NextKeeps(s, c);
      NextGrows(s, c);
      OnlyStoresChangeSlots(s, c);
      InvBounds(s);
      assert choices[i..][1..] == choices[i + 1..];
      if Stores(s, c) {
        table.Store(s.workers[c.w].idx, c.outcome.text, c.w);
      }
      s := Next(s, c);
      i := i + 1;
    }
  }

  lemma InvBounds(s: State)
    requires Inv(s)
    ensures |s.slots| == |s.jobs|
  {
  }

  /** What the controller gets was stored in the run, by the worker that claimed job k. */
  ghost predicate StoredByClaimer(s: State, choices: seq<Choice>, k: nat, got: Slot)
    requires CanRun(s, choices)
  {
    && got.Filled? && k < |After(s, choices).claims| && got.writer == After(s, choices).claims[k]
    && exists slot :: IsStored(s, choices, k, slot) && got == Pushed(slot)
  }

  /** From the texts to the digests: every job with what the worker that claimed it stored, if there is one. */
  method ConvertTexts(texts: seq<string>, n: nat, choices: seq<Choice>) returns (got: seq<Job>)
    requires |texts| <= 1023 && CanRun(Init(CStrings(texts), n), choices)
    requires After(Init(CStrings(texts), n), choices).main.Done?
    ensures |got| == |texts| && forall k :: 0 <= k < |got| ==> got[k].text == Text(CString(texts[k]))
    ensures n == 0 ==> forall k :: 0 <= k < |got| ==> got[k].slot == Empty
    ensures n > 0 ==> forall k :: 0 <= k < |got| ==> StoredByClaimer(Init(CStrings(texts), n), choices, k, got[k].slot)
  {
    var table := SetAll(texts);
    Convert(table, n, choices);
    got := GetAll(table);
    ghost var jobs := CStrings(texts);
    AllProcessedIff(jobs, n, choices);
    if n > 0 {
      DigestsAreStored(jobs, n, choices);
      forall k | 0 <= k < |got| ensures StoredByClaimer(Init(jobs, n), choices, k, got[k].slot) {
        hide After, CanRun, IsStored, CString;
        assert IsStored(Init(jobs, n), choices, k, After(Init(jobs, n), choices).slots[k]);
      }
    }
    hide After, CanRun, IsStored, CString;
  }
}
