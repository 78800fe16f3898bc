/** Threads that claim jobs by an atomic fetch-and-add, as interleaved steps over the shared variables. */
module JobPool {
  const JOB_LIMIT: nat := 1024

  /** md5s[k]: NULL, or the digest that a worker stored. */
  datatype Slot = Empty | Filled(digest: string, writer: nat)

  /** A worker thread: not created, before the fetch-and-add, with the index it got, at the job, returned. */
  datatype WorkerPc = NotCreated | Claiming | Claimed(idx: nat) | Working(idx: nat) | Gone

  /** The create loop, the join loop, and the code behind them. */
  datatype MainPc = Creating(k: nat) | Joining(k: nat) | Done

  /** claims lists the workers in the order in which they got an index below job_amt. */
  datatype State = State(jobs: seq<string>, slots: seq<Slot>, cur: nat, workers: seq<WorkerPc>, main: MainPc,
                         aborted: bool, claims: seq<nat>)

  /** What the Lua call returned: nothing yet, a digest, or an error. */
  datatype Outcome = Nothing | Digest(text: string) | Failure

  datatype Choice = Main | Step(w: nat, outcome: Outcome)

  /** The worker count that main takes from its argument. */
  function WorkerCount(argument: int): (n: nat)
    ensures n <= 64 && (n == 0 <==> argument == 0) && (0 <= argument <= 64 ==> n == argument)
    ensures (argument < 0 ==> n == 1) && (argument > 64 ==> n == 64)
  {
    if argument < 0 then 1 else if argument > 64 then 64 else argument
  }

  function Init(jobs: seq<string>, n: nat): State {
    State(jobs, seq(|jobs|, _ => Empty), 0, seq(n, _ => NotCreated), Creating(0), false, [])
  }

  predicate Enabled(s: State, c: Choice) {
    !s.aborted &&
    match c
    case Main => !s.main.Done? && (s.main.Joining? && s.main.k < |s.workers| ==> s.workers[s.main.k].Gone?)
    case Step(w, outcome) =>
      w < |s.workers| && !s.workers[w].NotCreated? && !s.workers[w].Gone? &&
        (s.workers[w].Working? <==> !outcome.Nothing?)
  }

  function MainStep(s: State): State {
    match s.main
    case Creating(k) =>
      if k < |s.workers| then s.(workers := s.workers[k := Claiming], main := Creating(k + 1))
      else s.(main := Joining(0))
    case Joining(k) => if k < |s.workers| then s.(main := Joining(k + 1)) else s.(main := Done)
    case Done => s
  }

  /** __sync_fetch_and_add: the old value is the claimed index, whether there is such a job or not. */
  function Claim(s: State, w: nat): State
    requires w < |s.workers|
  {
    s.(workers := s.workers[w := Claimed(s.cur)], cur := s.cur + 1,
       claims := if s.cur < |s.jobs| then s.claims + [w] else s.claims)
  }

  function ExitTest(s: State, w: nat, idx: nat): State
    requires w < |s.workers|
  {
    s.(workers := s.workers[w := if idx >= |s.jobs| then Gone else Working(idx)])
  }

  /** The digest is stored if it is one; a failed call and a digest of the wrong length end the process. */
  function Finish(s: State, w: nat, idx: nat, outcome: Outcome): State
    requires w < |s.workers|
  {
    if outcome.Digest? && 0 < |outcome.text| <= 32 && idx < |s.slots| then
      s.(workers := s.workers[w := Claiming], slots := s.slots[idx := Filled(outcome.text, w)])
    else s.(aborted := true)
  }

  function Next(s: State, c: Choice): State
    requires Enabled(s, c)
  {
    match c
    case Main => MainStep(s)
    case Step(w, outcome) =>
      var pc := s.workers[w];
      if pc.Claiming? then Claim(s, w)
      else if pc.Claimed? then ExitTest(s, w, pc.idx)
      else Finish(s, w, pc.idx, outcome)
  }

  predicate CanRun(s: State, choices: seq<Choice>)
    decreases |choices|
  {
    choices == [] || (Enabled(s, choices[0]) && CanRun(Next(s, choices[0]), choices[1..]))
  }

  function After(s: State, choices: seq<Choice>): State
    requires CanRun(s, choices)
    decreases |choices|
  {
    if choices == [] then s else After(Next(s, choices[0]), choices[1..])
  }

  // The invariant.

  /** Fetched an index past the last job. */
  predicate IsPast(pc: WorkerPc, amt: nat) {
    pc.Gone? || (pc.Claimed? && pc.idx >= amt)
  }

  /** The workers past the last job. */
  function PastCount(workers: seq<WorkerPc>, amt: nat): (n: nat)
    ensures n <= |workers|
  {
    if workers == [] then 0 else (if IsPast(workers[0], amt) then 1 else 0) + PastCount(workers[1..], amt)
  }

  lemma {:induction false} PastCountOfUpdate(workers: seq<WorkerPc>, amt: nat, w: nat, pc: WorkerPc)
    requires w < |workers|
    ensures PastCount(workers[w := pc], amt) ==
            PastCount(workers, amt) - (if IsPast(workers[w], amt) then 1 else 0) + (if IsPast(pc, amt) then 1 else 0)
  {
    if w == 0 {
      assert workers[0 := pc][1..] == workers[1..];
    } else {
      assert workers[w := pc][1..] == workers[1..][w - 1 := pc];
      PastCountOfUpdate(workers[1..], amt, w - 1, pc);
    }
  }

  lemma {:induction false} NobodyIsPast(workers: seq<WorkerPc>, amt: nat)
    requires forall i :: 0 <= i < |workers| ==> !IsPast(workers[i], amt)
    ensures PastCount(workers, amt) == 0
  {
    if workers != [] {
      assert forall i :: 0 <= i < |workers[1..]| ==> workers[1..][i] == workers[i + 1];
      NobodyIsPast(workers[1..], amt);
    }
  }

  lemma {:induction false} SomebodyIsPast(workers: seq<WorkerPc>, amt: nat, w: nat)
    requires w < |workers| && IsPast(workers[w], amt)
    ensures PastCount(workers, amt) > 0
  {
    if w > 0 {
      SomebodyIsPast(workers[1..], amt, w - 1);
    }
  }

  /** A worker with a job's index is the one that claimed it, and its slot is still empty. */
  predicate WorkerOk(s: State, w: nat)
    requires w < |s.workers|
  {
    var pc := s.workers[w];
    && (pc.Working? ==> pc.idx < |s.jobs|)
    && ((pc.Working? || pc.Claimed?) && pc.idx < |s.jobs| ==>
          pc.idx < |s.claims| && s.claims[pc.idx] == w && pc.idx < |s.slots| && s.slots[pc.idx].Empty?)
  }

  /** A claimed job is with its worker, or its slot was filled by that worker. */
  predicate ClaimOk(s: State, k: nat)
    requires k < |s.claims|
  {
    var w := s.claims[k];
    && w < |s.workers| && k < |s.slots|
    && match s.slots[k]
       case Empty => s.workers[w] == Claimed(k) || s.workers[w] == Working(k)
       case Filled(digest, v) => v == w && 0 < |digest| <= 32
  }

  predicate MainOk(s: State) {
    match s.main
    case Creating(k) => k <= |s.workers| && forall w :: 0 <= w < |s.workers| ==> (s.workers[w].NotCreated? <==> w >= k)
    case Joining(k) => k <= |s.workers| && (forall w :: 0 <= w < k ==> s.workers[w].Gone?)
                       && forall w :: 0 <= w < |s.workers| ==> !s.workers[w].NotCreated?
    case Done => forall w :: 0 <= w < |s.workers| ==> s.workers[w].Gone?
  }

  /** job_cur counts the claimed jobs and the workers past the exit test. */
  predicate CountOk(s: State) {
    && |s.slots| == |s.jobs| && |s.claims| <= |s.jobs|
    && s.cur == |s.claims| + PastCount(s.workers, |s.jobs|)
    && (|s.claims| < |s.jobs| ==> PastCount(s.workers, |s.jobs|) == 0)
  }

  predicate Inv(s: State) {
    && CountOk(s) && MainOk(s)
    && (forall w :: 0 <= w < |s.workers| ==> WorkerOk(s, w))
    && (forall k :: 0 <= k < |s.claims| ==> ClaimOk(s, k))
    && (forall k :: |s.claims| <= k < |s.slots| ==> s.slots[k].Empty?)
  }

  lemma InitHolds(jobs: seq<string>, n: nat)
    ensures Inv(Init(jobs, n))
  {
    var s := Init(jobs, n);
    NobodyIsPast(s.workers, |jobs|);
  }

  lemma MainKeeps(s: State)
    requires Inv(s) && Enabled(s, Main)
    ensures Inv(MainStep(s))
  {
    hide PastCount;
    var s' := MainStep(s);
    if s.main.Creating? && s.main.k < |s.workers| {
      PastCountOfUpdate(s.workers, |s.jobs|, s.main.k, Claiming);
    }
    forall w | 0 <= w < |s'.workers| ensures WorkerOk(s', w) {
      assert WorkerOk(s, w);
    }
    forall k | 0 <= k < |s'.claims| ensures ClaimOk(s', k) {
      assert ClaimOk(s, k);
    }
  }

  lemma ClaimKeeps(s: State, w: nat)
    requires Inv(s) && w < |s.workers| && s.workers[w].Claiming?
    ensures Inv(Claim(s, w))
  {
    hide PastCount;
    var s' := Claim(s, w);
    PastCountOfUpdate(s.workers, |s.jobs|, w, Claimed(s.cur));
    forall v | 0 <= v < |s'.workers| ensures WorkerOk(s', v) {
      assert WorkerOk(s, v);
    }
    forall k | 0 <= k < |s'.claims| ensures ClaimOk(s', k) {
      assert k < |s.claims| ==> ClaimOk(s, k);
    }
  }

  lemma ExitTestKeeps(s: State, w: nat)
    requires Inv(s) && w < |s.workers| && s.workers[w].Claimed?
    ensures Inv(ExitTest(s, w, s.workers[w].idx))
  {
    hide PastCount;
    var s' := ExitTest(s, w, s.workers[w].idx);
    PastCountOfUpdate(s.workers, |s.jobs|, w, s'.workers[w]);
    assert WorkerOk(s, w);
    forall v | 0 <= v < |s'.workers| ensures WorkerOk(s', v) {
      assert WorkerOk(s, v);
    }
    forall k | 0 <= k < |s'.claims| ensures ClaimOk(s', k) {
      assert ClaimOk(s, k);
    }
  }

  lemma FinishKeeps(s: State, w: nat, outcome: Outcome)
    requires Inv(s) && w < |s.workers| && s.workers[w].Working?
    ensures Inv(Finish(s, w, s.workers[w].idx, outcome))
  {
    hide PastCount;
    var s' := Finish(s, w, s.workers[w].idx, outcome);
    PastCountOfUpdate(s.workers, |s.jobs|, w, Claiming);
    assert WorkerOk(s, w);
    forall v | 0 <= v < |s'.workers| ensures WorkerOk(s', v) {
      assert WorkerOk(s, v);
    }
    forall k | 0 <= k < |s'.claims| ensures ClaimOk(s', k) {
      assert ClaimOk(s, k);
    }
  }

  lemma NextKeeps(s: State, c: Choice)
    requires Inv(s) && Enabled(s, c)
    ensures Inv(Next(s, c))
  {
    hide Inv, MainStep, Claim, ExitTest, Finish;
    match c
    case Main => MainKeeps(s);
    case Step(w, outcome) =>
      if s.workers[w].Claiming? {
        ClaimKeeps(s, w);
      } else if s.workers[w].Claimed? {
        ExitTestKeeps(s, w);
      } else {
        FinishKeeps(s, w, outcome);
      }
  }

  /** Jobs and number of workers stay, job_cur and the claims grow, and a filled slot keeps its digest. */
  ghost predicate Grows(s: State, t: State) {
    && t.jobs == s.jobs && |t.workers| == |s.workers| && |t.slots| == |s.slots| && s.cur <= t.cur
    && s.claims <= t.claims
    && forall k :: 0 <= k < |s.slots| && s.slots[k].Filled? ==> t.slots[k] == s.slots[k]
  }

  lemma NextGrows(s: State, c: Choice)
    requires Inv(s) && Enabled(s, c)
    ensures Grows(s, Next(s, c))
  {
    hide PastCount;
    if c.Step? {
      assert WorkerOk(s, c.w);
    }
  }

  lemma {:induction false} RunKeeps(s: State, choices: seq<Choice>)
    requires Inv(s) && CanRun(s, choices)
    ensures Inv(After(s, choices)) && Grows(s, After(s, choices))
    decreases |choices|
  {
    hide Inv, Enabled, Next;
    if choices != [] {
      NextKeeps(s, choices[0]);
      NextGrows(s, choices[0]);
      RunKeeps(Next(s, choices[0]), choices[1..]);
    }
  }

  // What it means.

  /** Who stands at a job: between claiming its index and storing its digest. */
  predicate IsAt(s: State, w: nat, k: nat)
    requires w < |s.workers|
  {
    s.workers[w] == Claimed(k) || s.workers[w] == Working(k)
  }

  /**
   * Any interleaving: no job has two workers, a slot is filled only by the worker that claimed it, and job_cur is the
   * number of claimed jobs and of workers past the exit test, so at most the jobs and the workers together.
   */
  lemma RunsAreSafe(jobs: seq<string>, n: nat, choices: seq<Choice>)
    requires CanRun(Init(jobs, n), choices)
    ensures var s := After(Init(jobs, n), choices);
            && |s.workers| == n && s.jobs == jobs && |s.slots| == |jobs|
            && (forall v, w, k :: 0 <= v < n && 0 <= w < n && 0 <= k < |jobs| && IsAt(s, v, k) && IsAt(s, w, k) ==>
                  v == w)
            && (forall w, k :: 0 <= w < n && 0 <= k < |jobs| && IsAt(s, w, k) ==>
                  k < |s.claims| && s.claims[k] == w && s.slots[k].Empty?)
            && (forall k :: 0 <= k < |jobs| && s.slots[k].Filled? ==>
                  k < |s.claims| && s.slots[k].writer == s.claims[k])
            && s.cur == |s.claims| + PastCount(s.workers, |jobs|) <= |jobs| + n
  {
    InitHolds(jobs, n);
    RunKeeps(Init(jobs, n), choices);
    hide After, CanRun, PastCount;
    var s := After(Init(jobs, n), choices);
    forall w, k | 0 <= w < n && 0 <= k < |jobs| && IsAt(s, w, k)
      ensures k < |s.claims| && s.claims[k] == w && s.slots[k].Empty?
    {
      assert WorkerOk(s, w);
    }
    forall k | 0 <= k < |jobs| && s.slots[k].Filled? ensures k < |s.claims| && s.slots[k].writer == s.claims[k] {
      assert k < |s.claims| ==> ClaimOk(s, k);
    }
  }

  lemma ClaimersExist(s: State)
    requires Inv(s) && |s.claims| > 0
    ensures |s.workers| > 0
  {
    assert ClaimOk(s, 0);
  }

  /** Behind the join loop: every job has been processed by its worker if there was a worker, and none otherwise. */
  lemma AllProcessedIff(jobs: seq<string>, n: nat, choices: seq<Choice>)
    requires CanRun(Init(jobs, n), choices) && After(Init(jobs, n), choices).main.Done?
    ensures var s := After(Init(jobs, n), choices);
            (forall k :: 0 <= k < |s.slots| ==> s.slots[k].Filled?) <==> n > 0 || jobs == []
    ensures n > 0 ==> |After(Init(jobs, n), choices).claims| == |jobs|
    ensures var s := After(Init(jobs, n), choices);
            n == 0 ==> forall k :: 0 <= k < |s.slots| ==> s.slots[k].Empty?
  {
    InitHolds(jobs, n);
    RunKeeps(Init(jobs, n), choices);
    hide After, CanRun, PastCount;
    var s := After(Init(jobs, n), choices);
    if n > 0 {
      SomebodyIsPast(s.workers, |jobs|, 0);
      forall k | 0 <= k < |s.slots| ensures s.slots[k].Filled? {
        assert ClaimOk(s, k);
      }
    } else {
      assert s.claims == [] by {
        if s.claims != [] {
          ClaimersExist(s);
        }
      }
      assert jobs != [] ==> s.slots[0].Empty?;
    }
  }

  /** The argument 0 leaves every job undone; any other one does not. */
  lemma AllProcessedForArgument(jobs: seq<string>, argument: int, choices: seq<Choice>)
    requires CanRun(Init(jobs, WorkerCount(argument)), choices)
    requires After(Init(jobs, WorkerCount(argument)), choices).main.Done?
    ensures var s := After(Init(jobs, WorkerCount(argument)), choices);
            (forall k :: 0 <= k < |s.slots| ==> s.slots[k].Filled?) <==> argument != 0 || jobs == []
  {
    AllProcessedIff(jobs, WorkerCount(argument), choices);
  }

  /** The argument 0 and one job: main passes both of its loops at once, and the job's slot stays empty. */
  lemma ArgumentZeroLeavesJobUndone(job: string)
    ensures WorkerCount(0) == 0
    ensures var s, run := Init([job], WorkerCount(0)), [Main, Main];
            CanRun(s, run) && After(s, run).main.Done? && After(s, run).slots == [Empty]
  {
    var s0 := Init([job], 0);
    var s1 := Next(s0, Main);
    var s2 := Next(s1, Main);
    assert s1.main == Joining(0) && s2.main == Done && s2.slots == [Empty];
    var run := [Main, Main];
    assert run[1..] == [Main] && [Main][1..] == [];
    assert CanRun(s2, []) && After(s2, []) == s2;
    assert CanRun(s1, [Main]) && After(s1, [Main]) == s2;
    assert CanRun(s0, run) && After(s0, run) == s2;
  }

  /** The step stores a digest: whose, and at which job. */
  predicate Stores(s: State, c: Choice) {
    && Enabled(s, c) && c.Step? && s.workers[c.w].Working? && c.outcome.Digest?
    && 0 < |c.outcome.text| <= 32 && s.workers[c.w].idx < |s.slots|
  }

  lemma OnlyStoresChangeSlots(s: State, c: Choice)
    requires Enabled(s, c)
    ensures Next(s, c).slots ==
            if Stores(s, c) then s.slots[s.workers[c.w].idx := Filled(c.outcome.text, c.w)] else s.slots
  {
  }

  /** Step number i of the run stores what the slot holds, by its writer at job k. */
  predicate StoresAt(s: State, choices: seq<Choice>, i: nat, k: nat, slot: Slot) {
    && i < |choices| && CanRun(s, choices[..i]) && slot.Filled?
    && choices[i] == Step(slot.writer, Digest(slot.digest))
    && Stores(After(s, choices[..i]), choices[i]) && After(s, choices[..i]).workers[slot.writer].idx == k
  }

  /** Some step of the run does. */
  ghost predicate IsStored(s: State, choices: seq<Choice>, k: nat, slot: Slot) {
    exists i: nat :: StoresAt(s, choices, i, k, slot)
  }

  /** Nothing but such a step fills a slot. */
  lemma {:induction false} StoredByWriter(s: State, choices: seq<Choice>, k: nat)
    requires Inv(s) && CanRun(s, choices) && k < |s.slots| && s.slots[k].Empty?
    requires k < |After(s, choices).slots| && After(s, choices).slots[k].Filled?
    ensures IsStored(s, choices, k, After(s, choices).slots[k])
    decreases |choices|
  {
    hide Inv, Enabled, Next, Stores;
    if choices != [] {
      var c, rest := choices[0], choices[1..];
      var t := Next(s, c);
      NextKeeps(s, c);
      NextGrows(s, c);
      RunKeeps(t, rest);
      OnlyStoresChangeSlots(s, c);
      var slot := After(s, choices).slots[k];
      if t.slots[k].Empty? {
        StoredByWriter(t, rest, k);
        var i: nat :| StoresAt(t, rest, i, k, slot);
        assert choices[..i + 1][0] == c && choices[..i + 1][1..] == rest[..i];
        assert StoresAt(s, choices, i + 1, k, slot);
      } else {
        assert choices[..0] == [];
        assert StoresAt(s, choices, 0, k, slot) by {
          StoreIsItsOwn(s, c, k);
        }
      }
    }
  }

  lemma StoreIsItsOwn(s: State, c: Choice, k: nat)
    requires Enabled(s, c) && k < |s.slots| && s.slots[k].Empty? && k < |Next(s, c).slots|
    requires Next(s, c).slots[k].Filled?
    ensures Stores(s, c) && s.workers[c.w].idx == k && Next(s, c).slots[k] == Filled(c.outcome.text, c.w)
  {
  }

  /** Behind the joins a job's slot holds what its claimer stored, if there is a worker. */
  lemma DigestsAreStored(jobs: seq<string>, n: nat, choices: seq<Choice>)
    requires CanRun(Init(jobs, n), choices) && After(Init(jobs, n), choices).main.Done? && n > 0
    ensures var s := After(Init(jobs, n), choices);
            && |s.slots| == |jobs| == |s.claims|
            && forall k :: 0 <= k < |jobs| ==> s.slots[k].Filled? && s.slots[k].writer == s.claims[k]
                                               && IsStored(Init(jobs, n), choices, k, s.slots[k])
  {
    var s0, s := Init(jobs, n), After(Init(jobs, n), choices);
    RunsAreSafe(jobs, n, choices);
    AllProcessedIff(jobs, n, choices);
    InitHolds(jobs, n);
    hide *;
    assert |s.slots| == |jobs| == |s.claims|;
    forall k | 0 <= k < |jobs|
      ensures s.slots[k].Filled? && s.slots[k].writer == s.claims[k]
      ensures IsStored(s0, choices, k, s.slots[k])
    {
      InitIsEmpty(jobs, n, k);
      StoredByWriter(s0, choices, k);
    }
  }

  lemma InitIsEmpty(jobs: seq<string>, n: nat, k: nat)
    requires k < |jobs|
    ensures k < |Init(jobs, n).slots| && Init(jobs, n).slots[k].Empty?
  {
  }

  // Termination.

  function Rank(pc: WorkerPc, amt: nat): nat {
    match pc
    case NotCreated => 3
    case Claiming => 2
    case Claimed(idx) => if idx < amt then 5 else 1
    case Working(_) => 4
    case Gone => 0
  }

  function RankSum(workers: seq<WorkerPc>, amt: nat): nat {
    if workers == [] then 0 else Rank(workers[0], amt) + RankSum(workers[1..], amt)
  }

  lemma {:induction false} RankSumOfUpdate(workers: seq<WorkerPc>, amt: nat, w: nat, pc: WorkerPc)
    requires w < |workers|
    ensures RankSum(workers[w := pc], amt) == RankSum(workers, amt) - Rank(workers[w], amt) + Rank(pc, amt)
  {
    if w == 0 {
      assert workers[0 := pc][1..] == workers[1..];
    } else {
      assert workers[w := pc][1..] == workers[1..][w - 1 := pc];
      RankSumOfUpdate(workers[1..], amt, w - 1, pc);
    }
  }

  function MainRank(s: State): int {
    match s.main
    case Creating(k) => |s.workers| + 2
    case Joining(k) => |s.workers| + 1 - k
    case Done => 0
  }

  /** An upper bound of the steps that are left. */
  function Measure(s: State): int {
    4 * (|s.jobs| - |s.claims|) + RankSum(s.workers, |s.jobs|) + MainRank(s) + if s.aborted then 0 else 1
  }

  lemma MeasureFalls(s: State, c: Choice)
    requires Inv(s) && Enabled(s, c)
    ensures Measure(Next(s, c)) < Measure(s)
  {
    hide RankSum, PastCount, WorkerOk, ClaimOk;
    match c
    case Main =>
      if s.main.Creating? && s.main.k < |s.workers| {
        RankSumOfUpdate(s.workers, |s.jobs|, s.main.k, Claiming);
      }
    case Step(w, outcome) =>
      CurAboveClaims(s);
      RankSumOfUpdate(s.workers, |s.jobs|, w, Next(s, c).workers[w]);
      assert s.workers[w := s.workers[w]] == s.workers;
  }

  lemma CurAboveClaims(s: State)
    requires CountOk(s)
    ensures s.cur < |s.jobs| <==> |s.claims| < |s.jobs|
  {
  }

  lemma MeasureIsNat(s: State)
    requires Inv(s)
    ensures Measure(s) >= 0
  {
  }

  lemma {:induction false} RunFitsMeasure(s: State, choices: seq<Choice>)
    requires Inv(s) && CanRun(s, choices)
    ensures |choices| <= Measure(s)
    decreases |choices|
  {
    hide Inv, Enabled, Next, Measure;
    MeasureIsNat(s);
    if choices != [] {
      MeasureFalls(s, choices[0]);
      NextKeeps(s, choices[0]);
      RunFitsMeasure(Next(s, choices[0]), choices[1..]);
    }
  }

  lemma {:induction false} RankSumOfNew(n: nat, amt: nat)
    ensures RankSum(seq(n, _ => NotCreated), amt) == 3 * n
  {
    if n > 0 {
      var f: nat -> WorkerPc := _ => NotCreated;
      assert seq(n, f)[1..] == seq(n - 1, f);
      RankSumOfNew(n - 1, amt);
    }
  }

  /** No interleaving goes on for ever: four steps a job and four a worker, and three more, are the most. */
  lemma RunsAreShort(jobs: seq<string>, n: nat, choices: seq<Choice>)
    requires CanRun(Init(jobs, n), choices)
    ensures |choices| <= 4 * |jobs| + 4 * n + 3
  {
    InitHolds(jobs, n);
    RunFitsMeasure(Init(jobs, n), choices);
    RankSumOfNew(n, |jobs|);
  }

  /** And none gets stuck: unless the process aborted or main is behind its joins, some step is possible. */
  lemma SomebodyCanMove(jobs: seq<string>, n: nat, choices: seq<Choice>)
    requires CanRun(Init(jobs, n), choices)
    ensures var s := After(Init(jobs, n), choices); s.aborted || s.main.Done? || exists c :: Enabled(s, c)
  {
    InitHolds(jobs, n);
    RunKeeps(Init(jobs, n), choices);
    hide After, CanRun, PastCount;
    var s := After(Init(jobs, n), choices);
    if !s.aborted && !s.main.Done? {
      if s.main.Joining? && s.main.k < |s.workers| && !s.workers[s.main.k].Gone? {
        assert Enabled(s, Step(s.main.k, if s.workers[s.main.k].Working? then Failure else Nothing));
      } else {
        assert Enabled(s, Main);
      }
    }
  }
}
