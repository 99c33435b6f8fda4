/** For which numbers of threads and batch sizes the 32-bit counter is wide enough for every verdict to be right. */
module CheckQueueWrap {
  import opened CheckQueue
  import opened Products
  import opened Numbers

  /** `acts` can happen from `s` on, however many checks they add, and end in `f`. */
  ghost predicate Leads(s: System, acts: seq<Action>, nBatchSize: nat, f: System)
    decreases |acts|
  {
    if acts == [] then f == s
    else
      && |s.threads| > 0 && s.sh.Counted() && Enabled(s, acts[0]) && (acts[0].Wake? ==> s.sh.nIdle > 0)
      && Leads(Step(s, acts[0], nBatchSize), acts[1..], nBatchSize, f)
  }

  lemma {:induction false} LeadsOn(s: System, p: seq<Action>, m: System, q: seq<Action>, nBatchSize: nat, f: System)
    requires Leads(s, p, nBatchSize, m) && Leads(m, q, nBatchSize, f)
    ensures Leads(s, p + q, nBatchSize, f)
    decreases |p|
  {
    hide Step, Enabled;
    if p == [] {
      assert p + q == q;
    } else {
      assert (p + q)[0] == p[0] && (p + q)[1..] == p[1..] + q;
      LeadsOn(Step(s, p[0], nBatchSize), p[1..], m, q, nBatchSize, f);
    }
  }

  // ---------------------------------------------------------------- workers that take a batch and are slow

  /** Workers 1 to w - 1 hold `held` checks, `q` are in the queue; nothing has been run. */
  ghost predicate Taken(s: System, n: nat, w: nat, q: nat, held: nat) {
    && |s.threads| == n > 0 && s.threads[0].Outside? && (forall t :: w <= t < n ==> s.threads[t].Outside?)
    && (forall t :: 1 <= t < w && t < n ==> s.threads[t].Running?)
    && s.sh.nTotal == w - 1 && s.sh.nIdle == 0 && s.sh.nTodo == Wrap(q + held) && s.sh.fAllOk && !s.sh.fQuit
    && |s.sh.queue| == q && |s.hist.added| == q + held && s.hist == FRESH.(added := s.hist.added)
    && s.control == Control(false) && s.log == []
  }

  lemma OthersNotNotified(threads: seq<Thread>, n: nat)
    requires |threads| > 0
    ensures var r := NotifyWorkers(threads, n, 0);
            |r| == |threads| && forall t :: 0 <= t < |r| && !threads[t].Waiting? ==> r[t] == threads[t]
  {
    if n > 1 {
      var r := [threads[0]] + NotifyAll(threads[1..]);
      forall t | 1 <= t < |r| ensures r[t] == Notified(threads[t]) {
        assert r[t] == NotifyAll(threads[1..])[t - 1];
      }
    }
  }

  lemma AddMore(s: System, n: nat, w: nat, q: nat, held: nat, vChecks: seq<Check>, nBatchSize: nat)
    requires 1 <= w && Taken(s, n, w, q, held) && |vChecks| > 1
    ensures Enabled(s, Add(vChecks, 0)) && s.sh.Counted()
    ensures Taken(Step(s, Add(vChecks, 0), nBatchSize), n, w, q + |vChecks|, held)
  {
    hide NotifyWorkers, Wrap;
    WrapPlus(q + held, |vChecks|);
    OthersNotNotified(s.threads, |vChecks|);
  }

  lemma TakeBatch(s: System, n: nat, w: nat, q: nat, held: nat, take: nat, nBatchSize: nat)
    requires 1 <= w < n && Taken(s, n, w, q, held) && q > 0
    requires take == Max(1, Min(nBatchSize, Wrap(q) / (w + 1)))
    ensures Enabled(s, EnterLoop(w)) && s.sh.Counted() && take <= q
    ensures Taken(Step(s, EnterLoop(w), nBatchSize), n, w + 1, q - take, held + take)
  {
    var h := s.sh.(nTotal := s.sh.nTotal + 1);
    BatchSizeFits(h, nBatchSize);
    assert BatchSize(h, nBatchSize) == take;
  }

  /** Any batch up to the most that the w-th thread can take is what it takes of some number of checks. */
  lemma SomeNumber(take: nat, w: nat, nBatchSize: nat) returns (r: nat)
    requires 1 <= take <= Cap(w, nBatchSize)
    ensures r < UINT_MOD && take == Max(1, Min(nBatchSize, r / (w + 1)))
  {
    if take == 1 {
      r := 0;
    } else {
      r := take * (w + 1);
      var d := (UINT_MOD - 1) / (w + 1);
      LeTimes(take, d, w + 1);
      ModUnique(r, take, 0, w + 1);
    }
  }

  /** The queue can be filled up to any remainder. */
  lemma FillUpTo(q: nat, r: nat) returns (more: nat)
    requires r < UINT_MOD
    ensures more >= UINT_MOD && Wrap(q + more) == r
  {
    more := UINT_MOD + Wrap(r - q);
    WrapPlus(r - q, q + UINT_MOD);
  }

  lemma Threads(s: System, n: nat, w: nat, q: nat, held: nat)
    requires Taken(s, n, w, q, held)
    ensures |s.threads| == n > 0
  {
  }

  /** So many checks are added that the next worker takes what it should. */
  lemma Fill(s: System, n: nat, w: nat, q: nat, held: nat, take: nat, nBatchSize: nat) returns (acts: seq<Action>, s': System, q': nat)
    requires 1 <= w < n && Taken(s, n, w, q, held) && 1 <= take <= Cap(w, nBatchSize)
    ensures Leads(s, acts, nBatchSize, s') && Taken(s', n, w + 1, q', held + take) && q' > 0
  {
    var r := SomeNumber(take, w, nBatchSize);
    var more := FillUpTo(q, r);
    assert take < UINT_MOD;
    hide Taken, Step, Enabled, Cap, Min, Max;
    var vChecks: seq<Check> := seq(more, _ => Check(0));
    Threads(s, n, w, q, held);
    AddMore(s, n, w, q, held, vChecks, nBatchSize);
    var m := Step(s, Add(vChecks, 0), nBatchSize);
    Threads(m, n, w, q + more, held);
    TakeBatch(m, n, w, q + more, held, take, nBatchSize);
    s', q' := Step(m, EnterLoop(w), nBatchSize), q + more - take;
    acts := [Add(vChecks, 0), EnterLoop(w)];
    assert acts[1..] == [EnterLoop(w)] && acts[1..][1..] == [];
    assert Leads(s', [], nBatchSize, s');
    assert Leads(m, acts[1..], nBatchSize, s');
  }

  /** Where the workers can hold 2^32 checks they come to hold exactly 2^32. */
  lemma {:induction false} FillAll(s: System, n: nat, w: nat, q: nat, nBatchSize: nat)
    returns (acts: seq<Action>, s': System, w': nat, q': nat)
    requires 1 <= w <= n && Taken(s, n, w, q, MaxHeld(w - 1, nBatchSize))
    requires MaxHeld(w - 1, nBatchSize) < UINT_MOD <= MaxHeld(n - 1, nBatchSize)
    ensures Leads(s, acts, nBatchSize, s') && Taken(s', n, w', q', UINT_MOD) && q' > 0 && w' > 0
    decreases n - w
  {
    hide Taken, Cap, Leads;
    var held, most := MaxHeld(w - 1, nBatchSize), Cap(w, nBatchSize);
    assert MaxHeld(w, nBatchSize) == held + most;
    if held + most < UINT_MOD {
      SomeCap(w, nBatchSize);
      var first, m, q1 := Fill(s, n, w, q, held, most, nBatchSize);
      var more;
      more, s', w', q' := FillAll(m, n, w + 1, q1, nBatchSize);
      LeadsOn(s, first, m, more, nBatchSize, s');
      acts := first + more;
    } else {
      w' := w + 1;
      acts, s', q' := Fill(s, n, w, q, held, UINT_MOD - held, nBatchSize);
    }
  }

  lemma SomeCap(w: nat, nBatchSize: nat)
    ensures Cap(w, nBatchSize) >= 1
  {
  }

  // ---------------------------------------------------------------- a master that does all the rest

  /** The master has run its batch of `k` checks and all its earlier ones; the workers hold 2^32. */
  ghost predicate Draining(s: System, k: nat) { AtWork(s, k, []) }

  /** It has still to run `rest` of its batch. */
  ghost predicate AtWork(s: System, k: nat, rest: seq<Check>) {
    && |s.threads| > 0 && s.threads[0] == Running(k, rest, true) && s.control.Control?
    && s.sh.nTotal >= 0 && s.sh.nIdle == 0 && s.sh.nTodo == Wrap(|s.sh.queue| + k) && s.sh.fAllOk && !s.sh.fQuit
    && |s.hist.added| == |s.hist.passed| + |rest| + |s.sh.queue| + UINT_MOD && s.log == [] && k > 0
  }

  lemma {:induction false} RunsBatch(s: System, k: nat, rest: seq<Check>, nBatchSize: nat) returns (acts: seq<Action>, s': System)
    requires AtWork(s, k, rest)
    ensures Leads(s, acts, nBatchSize, s') && Draining(s', k) && |s'.sh.queue| == |s.sh.queue|
    decreases |rest|
  {
    if rest == [] {
      acts, s' := [], s;
    } else {
      var m := Step(s, Run(0, true), nBatchSize);
      assert AtWork(m, k, rest[1..]);
      var more;
      more, s' := RunsBatch(m, k, rest[1..], nBatchSize);
      acts := [Run(0, true)] + more;
      assert acts[1..] == more;
    }
  }

  lemma TakesNext(s: System, k: nat, nBatchSize: nat)
    requires Draining(s, k) && s.sh.queue != []
    ensures Enabled(s, EnterLoop(0)) && s.sh.Counted()
    ensures var m := Step(s, EnterLoop(0), nBatchSize);
            && |m.threads| == |s.threads| && m.threads[0].Running? && |m.sh.queue| < |s.sh.queue|
            && AtWork(m, m.threads[0].nNow, m.threads[0].todo)
  {
    hide Wrap, BatchSize;
    var h := s.sh.(nTodo := Wrap(s.sh.nTodo - k));
    WrapPlus(|s.sh.queue| + k, 0 - k);
    BatchSizeFits(h, nBatchSize);
  }

  /** A wait that has come to a true verdict while 2^32 checks are still to be run. */
  ghost predicate TooEarly(f: System) {
    |f.log| == 1 && f.log[0].fRet && |f.log[0].hist.added| == |f.log[0].hist.passed| + UINT_MOD
  }

  lemma {:induction false} Drains(s: System, k: nat, nBatchSize: nat) returns (acts: seq<Action>, f: System)
    requires Draining(s, k)
    ensures Leads(s, acts, nBatchSize, f) && TooEarly(f)
    decreases |s.sh.queue|
  {
    if s.sh.queue == [] {
      acts, f := [EnterLoop(0)], Step(s, EnterLoop(0), nBatchSize);
      WrapPlus(k, 0 - k);
      assert acts[1..] == [];
    } else {
      TakesNext(s, k, nBatchSize);
      hide AtWork, TooEarly;
      var m := Step(s, EnterLoop(0), nBatchSize);
      var batch, s' := RunsBatch(m, m.threads[0].nNow, m.threads[0].todo, nBatchSize);
      var more;
      more, f := Drains(s', m.threads[0].nNow, nBatchSize);
      LeadsOn(m, batch, s', more, nBatchSize, f);
      acts := [EnterLoop(0)] + (batch + more);
      assert acts[1..] == batch + more;
    }
  }

  lemma WrapsOff(q: nat)
    ensures Wrap(q + UINT_MOD) == Wrap(q)
  {
  }

  lemma MasterJoins(s: System, n: nat, w: nat, q: nat, nBatchSize: nat)
    requires w > 0 && Taken(s, n, w, q, UINT_MOD) && q > 0
    ensures Enabled(s, EnterLoop(0)) && s.sh.Counted()
    ensures var m := Step(s, EnterLoop(0), nBatchSize);
            |m.threads| == n && m.threads[0].Running? && AtWork(m, m.threads[0].nNow, m.threads[0].todo)
  {
    hide Wrap, BatchSize;
    var h := s.sh.(nTotal := s.sh.nTotal + 1);
    BatchSizeFits(h, nBatchSize);
    WrapsOff(q);
  }

  lemma WaitsTooLittle(s: System, n: nat, w: nat, q: nat, nBatchSize: nat) returns (acts: seq<Action>, f: System)
    requires w > 0 && Taken(s, n, w, q, UINT_MOD) && q > 0
    ensures Leads(s, acts, nBatchSize, f) && TooEarly(f)
  {
    hide AtWork, TooEarly;
    MasterJoins(s, n, w, q, nBatchSize);
    Threads(s, n, w, q, UINT_MOD);
    var m := Step(s, EnterLoop(0), nBatchSize);
    var batch, s' := RunsBatch(m, m.threads[0].nNow, m.threads[0].todo, nBatchSize);
    var more;
    more, f := Drains(s', m.threads[0].nNow, nBatchSize);
    LeadsOn(m, batch, s', more, nBatchSize, f);
    acts := [EnterLoop(0)] + (batch + more);
    assert acts[1..] == batch + more;
  }

  // ---------------------------------------------------------------- exactly when every verdict is right

  /** Where the workers can hold 2^32 checks, some schedule makes the first Wait() return true too early. */
  lemma EarlyVerdict(n: nat, nBatchSize: nat) returns (acts: seq<Action>, f: System)
    requires n > 0 && !Few(n, nBatchSize)
    ensures Leads(Init(n), acts, nBatchSize, f) && TooEarly(f) && !GoodVerdict(f.log[0])
  {
    hide Taken, Leads, Step, Cap;
    var s0 := Init(n).(control := Control(false));
    NothingTaken(n);
    var a1, s1, w, q := FillAll(s0, n, 1, 0, nBatchSize);
    Someone(s1, n, w, q);
    var a2;
    a2, f := WaitsTooLittle(s1, n, w, q, nBatchSize);
    LeadsOn(s0, a1, s1, a2, nBatchSize, f);
    acts := [NewControl] + (a1 + a2);
    Begins(n, a1 + a2, nBatchSize, f);
  }

  lemma NothingTaken(n: nat)
    requires n > 0
    ensures Taken(Init(n).(control := Control(false)), n, 1, 0, 0)
  {
  }

  lemma Someone(s: System, n: nat, w: nat, q: nat)
    requires Taken(s, n, w, q, UINT_MOD)
    ensures |s.threads| == n
  {
  }

  lemma Begins(n: nat, acts: seq<Action>, nBatchSize: nat, f: System)
    requires n > 0 && Leads(Init(n).(control := Control(false)), acts, nBatchSize, f)
    ensures Leads(Init(n), [NewControl] + acts, nBatchSize, f)
  {
    assert Step(Init(n), NewControl, nBatchSize) == Init(n).(control := Control(false));
    assert ([NewControl] + acts)[1..] == acts;
  }

  lemma SameThreads(s: System, a: Action, nBatchSize: nat)
    requires Inv(s, nBatchSize) && Enabled(s, a) && Countable(s, a, nBatchSize)
    ensures (StepKeepsInv(s, a, nBatchSize); |Step(s, a, nBatchSize).threads| == |s.threads|)
  {
    hide Sum, Decide, Flags, Ledger, Controlled;
    StepKeepsInv(s, a, nBatchSize);
    if a.EnterLoop? || a.Wake? {
      StepIsPass(s, a, nBatchSize);
      PassKeepsSum(s, a.t, nBatchSize, Held);
    }
  }

  /** With few workers nothing that can happen is left out of the runs of EveryVerdict. */
  lemma {:induction false} NothingLeftOut(s: System, acts: seq<Action>, nBatchSize: nat, f: System)
    requires Inv(s, nBatchSize) && Few(|s.threads|, nBatchSize) && Leads(s, acts, nBatchSize, f)
    ensures Possible(s, acts, nBatchSize) && Final(s, acts, nBatchSize) == f
    decreases |acts|
  {
    hide Inv, MaxHeld, Step;
    if acts != [] {
      StepKeepsInv(s, acts[0], nBatchSize);
      SameThreads(s, acts[0], nBatchSize);
      NothingLeftOut(Step(s, acts[0], nBatchSize), acts[1..], nBatchSize, f);
    }
  }

  /**
   Whatever is added and in whatever order the threads go on, every Wait() gives the right verdict:
   that holds exactly if the workers cannot hold 2^32 checks between them.
   */
  lemma EveryVerdictIff(n: nat, nBatchSize: nat)
    requires n > 0
    ensures (forall acts, f :: Leads(Init(n), acts, nBatchSize, f) ==> forall v :: v in f.log ==> GoodVerdict(v))
            <==> Few(n, nBatchSize)
  {
    hide Leads, MaxHeld, GoodVerdict;
    if Few(n, nBatchSize) {
      forall acts, f | Leads(Init(n), acts, nBatchSize, f)
        ensures forall v :: v in f.log ==> GoodVerdict(v)
      {
        InitInv(n, nBatchSize);
        NothingLeftOut(Init(n), acts, nBatchSize, f);
      }
    } else {
      var acts, f := EarlyVerdict(n, nBatchSize);
      assert f.log[0] in f.log;
    }
  }

  /** Few enough are, for one, all threads whose number times the batch size is below 2^32. */
  lemma {:induction false} SmallIsFew(m: nat, nBatchSize: nat)
    ensures MaxHeld(m, nBatchSize) <= m * Max(1, nBatchSize)
  {
    if m > 0 {
      SmallIsFew(m - 1, nBatchSize);
      Distribute(m - 1, 1, Max(1, nBatchSize));
    }
  }

  lemma TwoHold(nBatchSize: nat)
    ensures MaxHeld(2, nBatchSize) == Cap(1, nBatchSize) + Cap(2, nBatchSize)
  {
    hide Cap;
    assert MaxHeld(0, nBatchSize) == 0;
    assert MaxHeld(1, nBatchSize) == Cap(1, nBatchSize);
  }

  /** It takes three workers: two cannot hold 2^32 checks whatever the batch size, three can with batches of 2^31 - 1. */
  lemma ThreeWorkers(nBatchSize: nat)
    ensures Few(3, nBatchSize) && !Few(4, 0x7FFF_FFFF)
  {
    TwoHold(nBatchSize);
    TwoHold(0x7FFF_FFFF);
    assert MaxHeld(3, 0x7FFF_FFFF) == MaxHeld(2, 0x7FFF_FFFF) + Cap(3, 0x7FFF_FFFF);
  }
}
