/** What each step of the threads does to the shared variables and to the threads. */
module JobEffects {
  import opened JobPool

  /** Nobody but worker w went on, and main did not. */
  predicate OthersStay(s: State, t: State, w: nat) {
    && t.jobs == s.jobs && t.main == s.main && |t.workers| == |s.workers|
    && forall v :: 0 <= v < |s.workers| && v != w ==> t.workers[v] == s.workers[v]
  }

  predicate IsAlive(s: State, w: nat, pc: WorkerPc) {
    !s.aborted && w < |s.workers| && s.workers[w] == pc
  }

  /** The fetch-and-add: the worker has the old value, the variable is one more, and the claim is on record. */
  lemma WorkerClaims(s: State, w: nat)
    requires Inv(s) && IsAlive(s, w, Claiming)
    ensures Enabled(s, Step(w, Nothing))
    ensures var t := Next(s, Step(w, Nothing));
            && OthersStay(s, t, w) && t.workers[w] == Claimed(s.cur) && t.cur == s.cur + 1 && t.slots == s.slots
            && t.claims == (if s.cur < |s.jobs| then s.claims + [w] else s.claims) && !t.aborted
  {
  }

  /** The exit test: the thread returns exactly if there is no such job. */
  lemma WorkerTests(s: State, w: nat, idx: nat)
    requires Inv(s) && IsAlive(s, w, Claimed(idx))
    ensures Enabled(s, Step(w, Nothing))
    ensures var t := Next(s, Step(w, Nothing));
            && OthersStay(s, t, w) && t.cur == s.cur && t.slots == s.slots && t.claims == s.claims && !t.aborted
            && t.workers[w] == if idx < |s.jobs| then Working(idx) else Gone
  {
  }

  /** The Lua call gave a text of one to 32 octets: it is in the job's slot, and the worker claims the next job. */
  lemma WorkerStores(s: State, w: nat, idx: nat, text: string)
    requires Inv(s) && IsAlive(s, w, Working(idx)) && 1 <= |text| <= 32
    ensures Enabled(s, Step(w, Digest(text)))
    ensures var t := Next(s, Step(w, Digest(text)));
            && OthersStay(s, t, w) && t.workers[w] == Claiming && t.cur == s.cur && t.claims == s.claims && !t.aborted
            && idx < |s.slots| == |t.slots| && s.slots[idx] == Empty && t.slots[idx] == Filled(text, w)
            && forall k :: 0 <= k < |s.slots| && k != idx ==> t.slots[k] == s.slots[k]
  {
    assert WorkerOk(s, w);
  }

  /** It failed, or gave a text of another length: the process ends, and no step is possible any more. */
  lemma WorkerAborts(s: State, w: nat, idx: nat, outcome: Outcome)
    requires Inv(s) && IsAlive(s, w, Working(idx)) && !outcome.Nothing?
    requires outcome.Digest? ==> outcome.text == "" || |outcome.text| > 32
    ensures Enabled(s, Step(w, outcome))
    ensures var t := Next(s, Step(w, outcome));
            t.aborted && t.slots == s.slots && forall c :: !Enabled(t, c)
  {
  }

  /** The two loops of main: the next worker is created, or the next one that has returned is joined. */
  lemma MainGoesOn(s: State)
    requires Inv(s) && !s.aborted && !s.main.Done?
    ensures s.main.Creating? ==> Enabled(s, Main)
    ensures s.main.Joining? && s.main.k < |s.workers| ==> (Enabled(s, Main) <==> s.workers[s.main.k] == Gone)
    ensures s.main.Joining? && s.main.k == |s.workers| ==> Enabled(s, Main)
    ensures Enabled(s, Main) ==>
              var t, n := Next(s, Main), |s.workers|;
              && t.slots == s.slots && t.cur == s.cur && t.claims == s.claims && t.jobs == s.jobs && !t.aborted
              && (s.main.Creating? && s.main.k < n ==>
                    t.main == Creating(s.main.k + 1) && t.workers == s.workers[s.main.k := Claiming])
              && (s.main == Creating(n) ==> t.main == Joining(0) && t.workers == s.workers)
              && (s.main.Joining? && s.main.k < n ==> t.main == Joining(s.main.k + 1) && t.workers == s.workers)
              && (s.main == Joining(n) ==> t.main == Done && t.workers == s.workers)
  {
  }
}
