/** The parallel check queue of one master and any number of workers. */
module CheckQueue {
  import opened Products
  import opened Numbers

  // The threads share a stack of checks, four counters and a status flag under one mutex. Every
  // stretch of code between taking the mutex and giving it back is one atomic section; a section
  // ends in returning, in going to sleep on a condition variable or in leaving with a batch of
  // checks to run outside the mutex. The sections are functions on the guarded fields (Shared),
  // `CCheckQueue` is the class that carries them out in place, and `System` runs them on all
  // threads at once.

  // ---------------------------------------------------------------- the guarded fields

  /** `unsigned int` arithmetic wraps here. */
  const UINT_MOD: int := 0x1_0000_0000

  function Wrap(n: int): (r: int)
    ensures 0 <= r < UINT_MOD
  {
    n % UINT_MOD
  }

  lemma WrapPlus(a: int, b: int)
    ensures Wrap(Wrap(a) + b) == Wrap(a + b)
  {
    var q := a / UINT_MOD;
    assert a + b == (Wrap(a) + b) + q * UINT_MOD;
  }

  /** A verification, known by its identity; what it answers is decided when it is run. */
  datatype Check = Check(id: nat)

  datatype Shared = Shared(queue: seq<Check>, nIdle: int, nTotal: int, fAllOk: bool, nTodo: int, fQuit: bool)
  {
    predicate Counted() { 0 <= nIdle && 0 <= nTotal && 0 <= nTodo < UINT_MOD }
  }

  datatype Exit = Returned(fRet: bool) | Sleeping | Picked(vChecks: seq<Check>, fOk: bool)

  datatype Section = Section(sh: Shared, exit: Exit, notifyMaster: bool)


  /** How many checks a thread takes: smaller batches as the stack empties, at least one. */
  function BatchSize(sh: Shared, nBatchSize: nat): int
    requires sh.Counted()
  {
    Max(1, Min(nBatchSize, Wrap(|sh.queue|) / (sh.nTotal + sh.nIdle + 1)))
  }

  lemma BatchSizeFits(sh: Shared, nBatchSize: nat)
    requires sh.Counted() && sh.queue != []
    ensures 1 <= BatchSize(sh, nBatchSize) <= |sh.queue|
    ensures BatchSize(sh, nBatchSize) <= Max(1, nBatchSize)
  {
    QuotientAtMost(Wrap(|sh.queue|), sh.nTotal + sh.nIdle + 1);
  }

  /** The last `n` elements, last one first: the order in which a stack gives them up. */
  function PopMany(q: seq<Check>, n: nat): (r: seq<Check>)
    requires n <= |q|
    ensures |r| == n
  {
    seq(n, i requires 0 <= i < n => q[|q| - 1 - i])
  }

  lemma {:induction false} PopManyContents(q: seq<Check>, n: nat)
    requires n <= |q|
    ensures multiset(q) == multiset(q[..|q| - n]) + multiset(PopMany(q, n))
  {
    if n == 0 {
      assert q[..|q|] == q;
    } else {
      var last := q[|q| - 1];
      assert q == q[..|q| - 1] + [last];
      PopManyContents(q[..|q| - 1], n - 1);
      assert q[..|q| - 1][..|q| - n] == q[..|q| - n];
      assert PopMany(q, n) == [last] + PopMany(q[..|q| - 1], n - 1);
    }
  }

  lemma PopManyCount(q: seq<Check>, n: nat, c: Check)
    requires n <= |q|
    ensures multiset(q)[c] == multiset(q[..|q| - n])[c] + multiset(PopMany(q, n))[c]
  {
    PopManyContents(q, n);
  }

  // ---------------------------------------------------------------- the critical sections

  /** From the head of the inner loop on: return, sleep, or take a batch. */
  function Decide(sh: Shared, fMaster: bool, nBatchSize: nat): Section
    requires sh.Counted()
  {
    if sh.queue == [] then
      if (fMaster || sh.fQuit) && sh.nTodo == 0 then
        Section(sh.(nTotal := sh.nTotal - 1, fAllOk := fMaster || sh.fAllOk), Returned(sh.fAllOk), false)
      else
        Section(sh.(nIdle := sh.nIdle + 1), Sleeping, false)
    else
      BatchSizeFits(sh, nBatchSize);
      var n := BatchSize(sh, nBatchSize);
      Section(sh.(queue := sh.queue[..|sh.queue| - n]), Picked(PopMany(sh.queue, n), sh.fAllOk), false)
  }

  /** Taking the mutex at the top of the loop: commit the finished batch, or join the pool. */
  function Enter(sh: Shared, fMaster: bool, nNow: nat, fOk: bool, nBatchSize: nat): Section
    requires sh.Counted()
  {
    if nNow != 0 then
      var committed := sh.(fAllOk := sh.fAllOk && fOk, nTodo := Wrap(sh.nTodo - nNow));
      Decide(committed, fMaster, nBatchSize).(notifyMaster := committed.nTodo == 0 && !fMaster)
    else
      Decide(sh.(nTotal := sh.nTotal + 1), fMaster, nBatchSize)
  }

  /** Coming back from the condition variable. */
  function Awaken(sh: Shared, fMaster: bool, nBatchSize: nat): Section
    requires sh.Counted() && sh.nIdle > 0
  {
    Decide(sh.(nIdle := sh.nIdle - 1), fMaster, nBatchSize)
  }

  function Push(sh: Shared, vChecks: seq<Check>): Shared {
    sh.(queue := sh.queue + vChecks, nTodo := Wrap(sh.nTodo + |vChecks|))
  }

  predicate IsIdle(sh: Shared) {
    sh.nTotal == sh.nIdle && sh.nTodo == 0 && sh.fAllOk
  }

  // ---------------------------------------------------------------- the class

  /** The queue itself. The caller of each method holds the mutex for the length of the call. */
  class CCheckQueue {
    const nBatchSize: nat
    var queue: seq<Check>
    var nIdle: int
    var nTotal: int
    var fAllOk: bool
    var nTodo: int
    var fQuit: bool

    ghost function View(): Shared
      reads this
    {
      Shared(queue, nIdle, nTotal, fAllOk, nTodo, fQuit)
    }

    constructor (nBatchSizeIn: nat)
      ensures View() == Shared([], 0, 0, true, 0, false) && nBatchSize == nBatchSizeIn
    {
      nBatchSize, queue, nIdle, nTotal, fAllOk, nTodo, fQuit := nBatchSizeIn, [], 0, 0, true, 0, false;
    }

    /** Everything the loop does from taking the mutex until it is given back. */
    method EnterSection(fMaster: bool, nNow: nat, fOk: bool) returns (exit: Exit, notifyMaster: bool)
      requires View().Counted()
      modifies this
      ensures Section(View(), exit, notifyMaster) == Enter(old(View()), fMaster, nNow, fOk, nBatchSize)
      ensures exit.Picked? ==> (exit.fOk <==> old(fAllOk) && (nNow == 0 || fOk)) && (fAllOk <==> exit.fOk)
      ensures exit.Returned? ==> (exit.fRet <==> old(fAllOk) && (nNow == 0 || fOk)) && (fMaster ==> fAllOk)
      ensures nNow != 0 ==> (nTodo - old(nTodo) + nNow) % UINT_MOD == 0
      ensures notifyMaster <==> nNow != 0 && nTodo == 0 && !fMaster
    {
      notifyMaster := false;
      if nNow != 0 {
        fAllOk := fAllOk && fOk;
        nTodo := Wrap(nTodo - nNow);
        if nTodo == 0 && !fMaster {
          notifyMaster := true;
        }
      } else {
        nTotal := nTotal + 1;
      }
      exit := DecideSection(fMaster);
    }

    method AwakenSection(fMaster: bool) returns (exit: Exit)
      requires View().Counted() && nIdle > 0
      modifies this
      ensures Section(View(), exit, false) == Awaken(old(View()), fMaster, nBatchSize)
      ensures exit.Picked? ==> (exit.fOk <==> old(fAllOk)) && fAllOk == old(fAllOk)
      ensures exit.Returned? ==> (exit.fRet <==> old(fAllOk)) && (fMaster ==> fAllOk)
      ensures nTodo == old(nTodo)
    {
      nIdle := nIdle - 1;
      exit := DecideSection(fMaster);
    }

    method DecideSection(fMaster: bool) returns (exit: Exit)
      requires View().Counted()
      modifies this
      ensures Section(View(), exit, false) == Decide(old(View()), fMaster, nBatchSize)
      ensures exit.Picked? <==> old(queue) != []
      ensures exit.Picked? ==>
                && exit.fOk == old(fAllOk) == fAllOk && 1 <= |exit.vChecks| <= Max(1, nBatchSize)
                && |exit.vChecks| + |queue| == |old(queue)| && queue == old(queue)[..|queue|]
                && (forall i :: 0 <= i < |exit.vChecks| ==> exit.vChecks[i] == old(queue)[|old(queue)| - 1 - i])
      ensures exit.Returned? <==> old(queue) == [] && (fMaster || fQuit) && nTodo == 0
      ensures exit.Returned? ==> exit.fRet == old(fAllOk) && (fAllOk <==> fMaster || old(fAllOk))
      ensures exit.Sleeping? ==> fAllOk == old(fAllOk)
      ensures nTodo == old(nTodo) && fQuit == old(fQuit)
    {
      if queue == [] {
        if (fMaster || fQuit) && nTodo == 0 {
          nTotal := nTotal - 1;
          exit := Returned(fAllOk);
          if fMaster {
            fAllOk := true;
          }
          return;
        }
        nIdle := nIdle + 1;
        return Sleeping;
      }
      BatchSizeFits(View(), nBatchSize);
      var nNow := Max(1, Min(nBatchSize, Wrap(|queue|) / (nTotal + nIdle + 1)));
      var vChecks := PopBatch(nNow);
      exit := Picked(vChecks, fAllOk);
    }

    method PopBatch(nNow: nat) returns (vChecks: seq<Check>)
      requires nNow <= |queue|
      modifies this`queue
      ensures vChecks == PopMany(old(queue), nNow) && queue == old(queue)[..|old(queue)| - nNow]
    {
      vChecks := [];
      var i := 0;
      while i < nNow
        invariant 0 <= i <= nNow
        invariant queue == old(queue)[..|old(queue)| - i]
        invariant vChecks == PopMany(old(queue), i)
      {
        vChecks := vChecks + [queue[|queue| - 1]];
        queue := queue[..|queue| - 1];
        i := i + 1;
      }
    }

    method Add(vChecks: seq<Check>)
      requires View().Counted()
      modifies this
      ensures View() == Push(old(View()), vChecks)
      ensures queue == old(queue) + vChecks && (nTodo - old(nTodo) - |vChecks|) % UINT_MOD == 0
    {
      var i := 0;
      while i < |vChecks|
        invariant 0 <= i <= |vChecks|
        invariant View() == old(View()).(queue := old(queue) + vChecks[..i])
      {
        queue := queue + [vChecks[i]];
        i := i + 1;
      }
      nTodo := Wrap(nTodo + |vChecks|);
    }

    method IsIdleSection() returns (r: bool)
      ensures r == IsIdle(View())
    {
      r := nTotal == nIdle && nTodo == 0 && fAllOk;
    }
  }

  // ---------------------------------------------------------------- all threads together

  /** Where a thread is while it does not hold the mutex. */
  datatype Thread =
    | Outside
    | Waiting(notified: bool)
    | Running(nNow: nat, todo: seq<Check>, fOk: bool)

  /** What became of the checks added since the last Wait() returned. */
  datatype History = History(added: multiset<Check>, passed: multiset<Check>, failed: multiset<Check>, skipped: multiset<Check>)

  const FRESH := History(multiset{}, multiset{}, multiset{}, multiset{})

  datatype Verdict = Verdict(fRet: bool, hist: History)

  /** The controller object that wraps one use of the queue, and its fDone flag. */
  datatype Control = NoControl | Control(fDone: bool)

  /** Thread 0 is the master. */
  datatype System = System(sh: Shared, threads: seq<Thread>, control: Control, hist: History, log: seq<Verdict>)

  datatype Action =
    | NewControl
    | EndControl
    | Add(vChecks: seq<Check>, target: nat)
    | EnterLoop(t: nat)
    | Wake(t: nat)
    | Run(t: nat, outcome: bool)

  predicate Sleeper(threads: seq<Thread>, t: nat) {
    0 < t < |threads| && threads[t] == Waiting(false)
  }

  ghost predicate Enabled(s: System, a: Action)
    requires |s.threads| > 0
  {
    match a
    case NewControl => s.control.NoControl? && s.threads[0].Outside?
    case EndControl => s.control == Control(true) && s.threads[0].Outside?
    case Add(vChecks, target) =>
      && s.control.Control? && s.threads[0].Outside?
      && (|vChecks| == 1 ==> Sleeper(s.threads, target) || forall t: nat :: !Sleeper(s.threads, t))
    case EnterLoop(t) =>
      && t < |s.threads|
      && (s.threads[t].Outside? || (s.threads[t].Running? && s.threads[t].todo == []))
      && (t == 0 && s.threads[0].Outside? ==> s.control.Control?)
    case Wake(t) => t < |s.threads| && s.threads[t].Waiting?     // notified or not: wake-ups may be spurious
    case Run(t, _) => t < |s.threads| && s.threads[t].Running? && s.threads[t].todo != []
  }

  function NotifyAll(threads: seq<Thread>): (r: seq<Thread>)
    ensures |r| == |threads|
    ensures forall i :: 0 <= i < |r| ==> r[i] == Notified(threads[i])
  {
    if threads == [] then [] else [Notified(threads[0])] + NotifyAll(threads[1..])
  }

  function Notified(th: Thread): Thread {
    if th.Waiting? then Waiting(true) else th
  }

  /** condMaster.notify_one() */
  function NotifyMaster(threads: seq<Thread>): seq<Thread>
    requires |threads| > 0
  {
    threads[0 := Notified(threads[0])]
  }

  /** While thread `t` holds the mutex it is neither asleep nor at work. */
  function Inside(s: System, t: nat): System
    requires t < |s.threads|
  {
    s.(threads := s.threads[t := Outside])
  }

  /** Giving the mutex back. */
  function Leave(s: System, t: nat, section: Section): System
    requires t < |s.threads|
  {
    var threads := if section.notifyMaster then NotifyMaster(s.threads) else s.threads;
    match section.exit
    case Sleeping => s.(sh := section.sh, threads := threads[t := Waiting(false)])
    case Picked(vChecks, fOk) => s.(sh := section.sh, threads := threads[t := Running(|vChecks|, vChecks, fOk)])
    case Returned(fRet) =>
      if t == 0 then
        s.(sh := section.sh, threads := threads[0 := Outside], control := Control(true), hist := FRESH,
        log := s.log + [Verdict(fRet, s.hist)])
      else
        s.(sh := section.sh, threads := threads[t := Outside])
  }

  function Execute(s: System, t: nat, outcome: bool): System
    requires t < |s.threads| && s.threads[t].Running? && s.threads[t].todo != []
  {
    var th := s.threads[t];
    var one := multiset{th.todo[0]};
    var rest := th.(todo := th.todo[1..]);
    if !th.fOk then
      s.(threads := s.threads[t := rest], hist := s.hist.(skipped := s.hist.skipped + one))
    else if outcome then
      s.(threads := s.threads[t := rest], hist := s.hist.(passed := s.hist.passed + one))
    else
      s.(threads := s.threads[t := rest.(fOk := false)], hist := s.hist.(failed := s.hist.failed + one))
  }

  /** notify_one() for a single check, notify_all() for more. */
  function NotifyWorkers(threads: seq<Thread>, n: nat, target: nat): seq<Thread>
    requires |threads| > 0
  {
    if n == 1 then
      if Sleeper(threads, target) then threads[target := Waiting(true)] else threads
    else if n > 1 then [threads[0]] + NotifyAll(threads[1..])
    else threads
  }

  function AddTo(s: System, vChecks: seq<Check>, target: nat): System
    requires |s.threads| > 0
  {
    s.(sh := Push(s.sh, vChecks),
    threads := NotifyWorkers(s.threads, |vChecks|, target),
    hist := s.hist.(added := s.hist.added + multiset(vChecks)))
  }

  function Step(s: System, a: Action, nBatchSize: nat): System
    requires |s.threads| > 0 && s.sh.Counted() && Enabled(s, a)
    requires a.Wake? ==> s.sh.nIdle > 0
  {
    match a
    case NewControl => s.(control := Control(false))
    case EndControl => s.(control := NoControl)
    case Add(vChecks, target) => AddTo(s, vChecks, target)
    case EnterLoop(t) =>
      var th := s.threads[t];
      Leave(Inside(s, t), t, if th.Running? then Enter(s.sh, t == 0, th.nNow, th.fOk, nBatchSize) else Enter(s.sh, t == 0, 0, true, nBatchSize))
    case Wake(t) => Leave(Inside(s, t), t, Awaken(s.sh, t == 0, nBatchSize))
    case Run(t, outcome) => Execute(s, t, outcome)
  }

  function Init(nThreads: nat): System {
    System(Shared([], 0, 0, true, 0, false), seq(nThreads, _ => Outside), NoControl, FRESH, [])
  }

  // ---------------------------------------------------------------- sums over the threads

  function Sum(threads: seq<Thread>, f: Thread -> int): int {
    if threads == [] then 0 else f(threads[0]) + Sum(threads[1..], f)
  }

  function InLoop(th: Thread): int { if th.Outside? then 0 else 1 }
  function Idle(th: Thread): int { if th.Waiting? then 1 else 0 }
  /** The size of the batch a thread has not committed yet. */
  function Held(th: Thread): int { if th.Running? then th.nNow else 0 }
  function Bad(th: Thread): int { if th.Running? && !th.fOk then 1 else 0 }
  /** How often a thread still has to look at check `c`. */
  function Todo(c: Check): Thread -> int { (th: Thread) => if th.Running? then multiset(th.todo)[c] else 0 }

  lemma {:induction false} SumUpdate(threads: seq<Thread>, f: Thread -> int, i: nat, th: Thread)
    requires i < |threads|
    ensures Sum(threads[i := th], f) == Sum(threads, f) - f(threads[i]) + f(th)
  {
    if i == 0 {
      assert threads[0 := th][1..] == threads[1..];
    } else {
      SumUpdate(threads[1..], f, i - 1, th);
      assert threads[i := th][1..] == threads[1..][i - 1 := th];
    }
  }

  /** Waking sleepers changes no sum that does not look at the wake-up flag. */
  lemma {:induction false} NotifyKeepsSum(threads: seq<Thread>, f: Thread -> int)
    requires f(Waiting(true)) == f(Waiting(false))
    ensures Sum(NotifyAll(threads), f) == Sum(threads, f)
  {
    if threads != [] {
      NotifyKeepsSum(threads[1..], f);
    }
  }

  lemma {:induction false} SumAtLeast(threads: seq<Thread>, f: Thread -> int, i: nat)
    requires i < |threads|
    requires forall j :: 0 <= j < |threads| ==> f(threads[j]) >= 0
    ensures f(threads[i]) <= Sum(threads, f)
  {
    SumPositive(threads[1..], f);
    if i > 0 {
      SumAtLeast(threads[1..], f, i - 1);
    }
  }

  lemma {:induction false} SumPositive(threads: seq<Thread>, f: Thread -> int)
    requires forall j :: 0 <= j < |threads| ==> f(threads[j]) >= 0
    ensures Sum(threads, f) >= 0
    ensures Sum(threads, f) > 0 ==> exists j :: 0 <= j < |threads| && f(threads[j]) > 0
  {
    if threads != [] {
      SumPositive(threads[1..], f);
      if Sum(threads[1..], f) > 0 {
        var j :| 0 <= j < |threads[1..]| && f(threads[1..][j]) > 0;
        assert f(threads[j + 1]) > 0;
      }
    }
  }

  /** If `f` is zero wherever `g` is not positive, no `g` at all means no `f` at all. */
  lemma {:induction false} SumVanishes(threads: seq<Thread>, f: Thread -> int, g: Thread -> int)
    requires forall j :: 0 <= j < |threads| ==> g(threads[j]) >= 0 && (g(threads[j]) == 0 ==> f(threads[j]) == 0)
    requires Sum(threads, g) == 0
    ensures Sum(threads, f) == 0
  {
    if threads != [] {
      SumPositive(threads[1..], g);
      SumVanishes(threads[1..], f, g);
    }
  }

  predicate Batches(threads: seq<Thread>) {
    forall i :: 0 <= i < |threads| && threads[i].Running? ==> 1 <= threads[i].nNow && |threads[i].todo| <= threads[i].nNow
  }

  lemma {:induction false} HeldBounded(threads: seq<Thread>)
    requires Batches(threads)
    ensures 0 <= Sum(threads, Idle) <= Sum(threads, InLoop)
    ensures Sum(threads, InLoop) - Sum(threads, Idle) <= Sum(threads, Held)
    ensures 0 <= Sum(threads, Bad) <= Sum(threads, Held)
  {
    if threads != [] {
      assert forall i :: 0 <= i < |threads[1..]| ==> threads[1..][i] == threads[i + 1];
      HeldBounded(threads[1..]);
    }
  }

  // ---------------------------------------------------------------- how much the workers can hold

  /** The most that a thread takes when it is the k-th in the loop. */
  function Cap(k: nat, nBatchSize: nat): nat { Max(1, Min(nBatchSize, (UINT_MOD - 1) / (k + 1))) }

  /** The most that `m` workers can hold at once, however many checks are added. */
  function MaxHeld(m: nat, nBatchSize: nat): nat {
    if m == 0 then 0 else MaxHeld(m - 1, nBatchSize) + Cap(m, nBatchSize)
  }

  /** It is no more than an `unsigned int` can count. */
  predicate Few(nThreads: nat, nBatchSize: nat) { nThreads > 0 && MaxHeld(nThreads - 1, nBatchSize) < UINT_MOD }

  function Above(x: int): Thread -> int { (th: Thread) => if Held(th) > x then 1 else 0 }

  function OfWorkers(threads: seq<Thread>, f: Thread -> int): int
    requires |threads| > 0
  {
    Sum(threads, f) - f(threads[0])
  }

  /** Of all workers fewer than k hold more than the k-th in the loop can take. */
  predicate Layer(threads: seq<Thread>, nBatchSize: nat, k: nat)
    requires |threads| > 0
  {
    OfWorkers(threads, Above(Cap(k, nBatchSize))) < k
  }

  ghost predicate Layered(threads: seq<Thread>, nBatchSize: nat)
    requires |threads| > 0
  {
    forall k: nat :: 1 <= k < |threads| ==> Layer(threads, nBatchSize, k)
  }

  lemma {:induction false} SumRemove(ws: seq<Thread>, f: Thread -> int, i: nat)
    requires i < |ws|
    ensures Sum(ws[..i] + ws[i + 1..], f) == Sum(ws, f) - f(ws[i])
  {
    if i == 0 {
      assert ws[..0] + ws[1..] == ws[1..];
    } else {
      SumRemove(ws[1..], f, i - 1);
      var v := ws[..i] + ws[i + 1..];
      assert v[1..] == ws[1..][..i - 1] + ws[1..][i..];
    }
  }

  lemma {:induction false} SomeNotAbove(ws: seq<Thread>, x: int) returns (i: nat)
    requires Sum(ws, Above(x)) < |ws|
    ensures i < |ws| && Held(ws[i]) <= x
  {
    if Held(ws[0]) <= x {
      i := 0;
    } else {
      i := SomeNotAbove(ws[1..], x);
      i := i + 1;
    }
  }

  /** So layer by layer they hold no more than that. */
  lemma {:induction false} LayersBound(ws: seq<Thread>, nBatchSize: nat)
    requires forall k: nat :: 1 <= k <= |ws| ==> Sum(ws, Above(Cap(k, nBatchSize))) < k
    ensures Sum(ws, Held) <= MaxHeld(|ws|, nBatchSize)
    decreases |ws|
  {
    hide Cap;
    if ws != [] {
      var i := SomeNotAbove(ws, Cap(|ws|, nBatchSize));
      var v := ws[..i] + ws[i + 1..];
      forall k: nat | 1 <= k <= |v|
        ensures Sum(v, Above(Cap(k, nBatchSize))) < k
      {
        SumRemove(ws, Above(Cap(k, nBatchSize)), i);
      }
      LayersBound(v, nBatchSize);
      SumRemove(ws, Held, i);
    }
  }

  lemma WorkersBound(threads: seq<Thread>, nBatchSize: nat)
    requires |threads| > 0 && Layered(threads, nBatchSize)
    ensures OfWorkers(threads, Held) <= MaxHeld(|threads| - 1, nBatchSize)
  {
    hide Cap, MaxHeld;
    forall k: nat | 1 <= k <= |threads[1..]|
      ensures Sum(threads[1..], Above(Cap(k, nBatchSize))) < k
    {
      assert Layer(threads, nBatchSize, k);
    }
    LayersBound(threads[1..], nBatchSize);
  }

  // ---------------------------------------------------------------- the invariant

  /** Checks queued or held by a thread that has not committed them. */
  function Outstanding(s: System): int { |s.sh.queue| + Sum(s.threads, Held) }

  /** Neither the workers nor the checks added since the last Wait() returned are too many to be counted. */
  predicate Fits(s: System, nBatchSize: nat) {
    |s.threads| > 0 && (Few(|s.threads|, nBatchSize) || |s.hist.added| < UINT_MOD)
  }

  /** An Add that keeps it so: any number of checks where the workers are few, fewer than 2^32 between two returns of Wait() elsewhere. */
  predicate Countable(s: System, a: Action, nBatchSize: nat) {
    a.Add? ==> Few(|s.threads|, nBatchSize) || |s.hist.added| + |a.vChecks| < UINT_MOD
  }

  predicate Counters(s: System) {
    && s.sh.nTodo == Wrap(Outstanding(s))
    && s.sh.nTotal == Sum(s.threads, InLoop)
    && s.sh.nIdle == Sum(s.threads, Idle)
    && !s.sh.fQuit
  }

  /** A sleeping master has nothing to do, and is told as soon as it may return. */
  predicate MasterAsleep(s: System)
    requires |s.threads| > 0
  {
    && (s.threads[0].Waiting? ==> s.sh.queue == [])
    && (s.threads[0] == Waiting(false) ==> s.sh.nTodo != 0)
  }

  /** The counters agree with what the threads are doing. */
  ghost predicate Agreement(s: System, nBatchSize: nat) {
    && Fits(s, nBatchSize) && Batches(s.threads) && Layered(s.threads, nBatchSize)
    && Counters(s) && MasterAsleep(s) && Outstanding(s) <= |s.hist.added|
  }

  /** A failed check is remembered by the queue or by the thread that ran it. */
  predicate Flags(s: System) {
    && (|s.hist.failed| > 0 <==> !s.sh.fAllOk || Sum(s.threads, Bad) > 0)
    && (|s.hist.skipped| > 0 ==> |s.hist.failed| > 0)
  }

  /** No check is lost and none is looked at twice. */
  predicate LedgerAt(s: System, c: Check) {
    s.hist.added[c] == multiset(s.sh.queue)[c] + Sum(s.threads, Todo(c)) + s.hist.passed[c] + s.hist.failed[c] + s.hist.skipped[c]
  }

  ghost predicate Ledger(s: System) {
    forall c :: LedgerAt(s, c)
  }

  predicate GoodVerdict(v: Verdict) {
    && v.hist.added == v.hist.passed + v.hist.failed + v.hist.skipped
    && (v.fRet <==> v.hist.passed == v.hist.added)
    && (!v.fRet <==> v.hist.failed != multiset{})
  }

  predicate Controlled(s: System)
    requires |s.threads| > 0
  {
    && (!s.threads[0].Outside? ==> s.control.Control?)
    && forall v :: v in s.log ==> GoodVerdict(v)
  }

  ghost predicate Inv(s: System, nBatchSize: nat) {
    Agreement(s, nBatchSize) && Flags(s) && Ledger(s) && Controlled(s)
  }

  lemma CountersFit(s: System, nBatchSize: nat)
    requires Agreement(s, nBatchSize)
    ensures s.sh.Counted() && 0 <= Sum(s.threads, Held)
    ensures forall t: nat :: t < |s.threads| && s.threads[t].Waiting? ==> s.sh.nIdle > 0
  {
    HeldBounded(s.threads);
    forall t: nat | t < |s.threads| && s.threads[t].Waiting?
      ensures s.sh.nIdle > 0
    {
      SumAtLeast(s.threads, Idle, t);
    }
  }

  lemma {:induction false} OutsideSum(threads: seq<Thread>, f: Thread -> int)
    requires forall i :: 0 <= i < |threads| ==> threads[i].Outside?
    requires f(Outside) == 0
    ensures Sum(threads, f) == 0
  {
    if threads != [] {
      OutsideSum(threads[1..], f);
    }
  }

  lemma InitInv(nThreads: nat, nBatchSize: nat)
    requires nThreads > 0
    ensures Inv(Init(nThreads), nBatchSize)
  {
    var threads := Init(nThreads).threads;
    OutsideSum(threads, InLoop);
    OutsideSum(threads, Idle);
    OutsideSum(threads, Held);
    OutsideSum(threads, Bad);
    forall k: nat | 1 <= k < nThreads ensures Layer(threads, nBatchSize, k) {
      OutsideSum(threads, Above(Cap(k, nBatchSize)));
    }
    forall c ensures LedgerAt(Init(nThreads), c) {
      OutsideSum(threads, Todo(c));
    }
  }

  // ---------------------------------------------------------------- every step keeps it: the simple steps

  lemma Replaced(threads: seq<Thread>, t: nat, th: Thread)
    requires t < |threads|
    ensures Sum(threads[t := th], InLoop) == Sum(threads, InLoop) - InLoop(threads[t]) + InLoop(th)
    ensures Sum(threads[t := th], Idle) == Sum(threads, Idle) - Idle(threads[t]) + Idle(th)
    ensures Sum(threads[t := th], Held) == Sum(threads, Held) - Held(threads[t]) + Held(th)
    ensures Sum(threads[t := th], Bad) == Sum(threads, Bad) - Bad(threads[t]) + Bad(th)
  {
    SumUpdate(threads, InLoop, t, th);
    SumUpdate(threads, Idle, t, th);
    SumUpdate(threads, Held, t, th);
    SumUpdate(threads, Bad, t, th);
  }

  /** A wake-up call reaches sleepers only, and moves no sum. */
  lemma NotifyWorkersKeepsSum(threads: seq<Thread>, n: nat, target: nat, f: Thread -> int)
    requires |threads| > 0 && f(Waiting(true)) == f(Waiting(false))
    ensures Sum(NotifyWorkers(threads, n, target), f) == Sum(threads, f)
  {
    if n > 1 {
      NotifyKeepsSum(threads[1..], f);
      assert NotifyWorkers(threads, n, target)[1..] == NotifyAll(threads[1..]);
    } else if n == 1 && Sleeper(threads, target) {
      SumUpdate(threads, f, target, Waiting(true));
    }
  }

  lemma AddKeepsAgreement(s: System, vChecks: seq<Check>, target: nat, nBatchSize: nat)
    requires Agreement(s, nBatchSize) && Flags(s) && s.threads[0].Outside?
    requires Countable(s, Add(vChecks, target), nBatchSize)
    ensures Agreement(AddTo(s, vChecks, target), nBatchSize) && Flags(AddTo(s, vChecks, target))
  {
    hide Sum, NotifyWorkers, Cap, Batches;
    NotifiedBatches(s.threads, |vChecks|, target);
    NotifyWorkersKeepsSum(s.threads, |vChecks|, target, InLoop);
    NotifyWorkersKeepsSum(s.threads, |vChecks|, target, Idle);
    NotifyWorkersKeepsSum(s.threads, |vChecks|, target, Held);
    NotifyWorkersKeepsSum(s.threads, |vChecks|, target, Bad);
    WrapPlus(Outstanding(s), |vChecks|);
    forall k: nat | 1 <= k < |s.threads| ensures Layer(AddTo(s, vChecks, target).threads, nBatchSize, k) {
      assert Layer(s.threads, nBatchSize, k);
      NotifyWorkersKeepsSum(s.threads, |vChecks|, target, Above(Cap(k, nBatchSize)));
    }
  }

  lemma NotifiedBatches(threads: seq<Thread>, n: nat, target: nat)
    requires |threads| > 0
    ensures |NotifyWorkers(threads, n, target)| == |threads| && NotifyWorkers(threads, n, target)[0] == threads[0]
    ensures Batches(threads) ==> Batches(NotifyWorkers(threads, n, target))
  {
  }

  lemma AddKeepsLedger(s: System, vChecks: seq<Check>, target: nat, c: Check)
    requires |s.threads| > 0 && LedgerAt(s, c)
    ensures LedgerAt(AddTo(s, vChecks, target), c)
  {
    NotifyWorkersKeepsSum(s.threads, |vChecks|, target, Todo(c));
    CountOfConcat(s.sh.queue, vChecks, c);
  }

  lemma CountOfConcat(p: seq<Check>, q: seq<Check>, c: Check)
    ensures multiset(p + q)[c] == multiset(p)[c] + multiset(q)[c]
  {
    assert multiset(p + q) == multiset(p) + multiset(q);
  }

  lemma AddKeepsInv(s: System, vChecks: seq<Check>, target: nat, nBatchSize: nat)
    requires Inv(s, nBatchSize) && s.threads[0].Outside? && s.control.Control?
    requires Countable(s, Add(vChecks, target), nBatchSize)
    ensures Inv(AddTo(s, vChecks, target), nBatchSize)
  {
    AddKeepsAgreement(s, vChecks, target, nBatchSize);
    forall c ensures LedgerAt(AddTo(s, vChecks, target), c) {
      assert LedgerAt(s, c);
      AddKeepsLedger(s, vChecks, target, c);
    }
  }

  lemma RunKeepsLedger(s: System, t: nat, outcome: bool, c: Check)
    requires t < |s.threads| && s.threads[t].Running? && s.threads[t].todo != [] && LedgerAt(s, c)
    ensures LedgerAt(Execute(s, t, outcome), c)
  {
    var th, th' := s.threads[t], Execute(s, t, outcome).threads[t];
    SumUpdate(s.threads, Todo(c), t, th');
    assert th.todo == [th.todo[0]] + th'.todo;
    CountOfConcat([th.todo[0]], th'.todo, c);
  }

  lemma RunKeepsAgreement(s: System, t: nat, outcome: bool, nBatchSize: nat)
    requires Agreement(s, nBatchSize)
    requires t < |s.threads| && s.threads[t].Running? && s.threads[t].todo != []
    ensures Agreement(Execute(s, t, outcome), nBatchSize)
  {
    var s' := Execute(s, t, outcome);
    Replaced(s.threads, t, s'.threads[t]);
    forall k: nat | 1 <= k < |s.threads| ensures Layer(s'.threads, nBatchSize, k) {
      assert Layer(s.threads, nBatchSize, k);
      SumUpdate(s.threads, Above(Cap(k, nBatchSize)), t, s'.threads[t]);
    }
  }

  lemma RunKeepsFlags(s: System, t: nat, outcome: bool)
    requires t < |s.threads| && s.threads[t].Running? && s.threads[t].todo != [] && Flags(s)
    ensures Flags(Execute(s, t, outcome))
  {
    var s' := Execute(s, t, outcome);
    SumUpdate(s.threads, Bad, t, s'.threads[t]);
    SumUpdate(s.threads, Held, t, s'.threads[t]);
    SumAtLeast(s.threads, Bad, t);
    SumAtLeast(s'.threads, Bad, t);
  }

  lemma RunKeepsInv(s: System, t: nat, outcome: bool, nBatchSize: nat)
    requires Inv(s, nBatchSize)
    requires t < |s.threads| && s.threads[t].Running? && s.threads[t].todo != []
    ensures Inv(Execute(s, t, outcome), nBatchSize)
  {
    RunKeepsAgreement(s, t, outcome, nBatchSize);
    RunKeepsFlags(s, t, outcome);
    forall c ensures LedgerAt(Execute(s, t, outcome), c) {
      assert LedgerAt(s, c);
      RunKeepsLedger(s, t, outcome, c);
    }
  }

  // ---------------------------------------------------------------- every step keeps it: the sections

  /** What happened on the way to the head of the inner loop. */
  function AtHead(s: System, t: nat): System
    requires t < |s.threads|
  {
    Inside(s, t).(sh :=
      match s.threads[t]
      case Running(nNow, _, fOk) => s.sh.(fAllOk := s.sh.fAllOk && fOk, nTodo := Wrap(s.sh.nTodo - nNow))
      case Outside => s.sh.(nTotal := s.sh.nTotal + 1)
      case Waiting(_) => s.sh.(nIdle := s.sh.nIdle - 1))
  }

  predicate Tells(s: System, t: nat)
    requires t < |s.threads|
  {
    s.threads[t].Running? && t != 0 && AtHead(s, t).sh.nTodo == 0
  }

  /** A whole section of thread `t`, told from the head of the inner loop. */
  function Pass(s: System, t: nat, nBatchSize: nat): System
    requires t < |s.threads| && AtHead(s, t).sh.Counted()
  {
    Leave(Inside(s, t), t, Decide(AtHead(s, t).sh, t == 0, nBatchSize).(notifyMaster := Tells(s, t)))
  }

  lemma StepIsPass(s: System, a: Action, nBatchSize: nat)
    requires Agreement(s, nBatchSize) && Enabled(s, a) && (a.EnterLoop? || a.Wake?)
    ensures a.t < |s.threads| && s.sh.Counted() && (a.Wake? ==> s.sh.nIdle > 0) && AtHead(s, a.t).sh.Counted()
    ensures Step(s, a, nBatchSize) == Pass(s, a.t, nBatchSize)
  {
    hide Sum, Decide, Wrap, MasterAsleep;
    CountersFit(s, nBatchSize);
    if AtHead(s, a.t).sh.Counted() {
      DecideTellsNobody(AtHead(s, a.t).sh, a.t == 0, nBatchSize);
    }
  }

  lemma DecideTellsNobody(sh: Shared, fMaster: bool, nBatchSize: nat)
    requires sh.Counted()
    ensures !Decide(sh, fMaster, nBatchSize).notifyMaster
  {
  }

  lemma HeadCounters(s: System, t: nat, nBatchSize: nat)
    requires Agreement(s, nBatchSize) && t < |s.threads|
    ensures var h := AtHead(s, t);
            && Batches(h.threads) && h.sh.queue == s.sh.queue && !h.sh.fQuit
            && h.sh.nTodo == Wrap(Outstanding(h)) && h.sh.Counted()
            && h.sh.nTotal == Sum(h.threads, InLoop) + 1 && h.sh.nIdle == Sum(h.threads, Idle)
            && (t == 0 && h.sh.queue == [] ==> (h.sh.nTodo == 0 <==> Sum(h.threads, Held) == 0))
    ensures t != 0 && s.threads[0] == Waiting(false) && AtHead(s, t).sh.nTodo == 0 ==> Tells(s, t)
  {
    hide Sum, Wrap, Batches;
    var h := AtHead(s, t);
    Replaced(s.threads, t, Outside);
    WrapPlus(Outstanding(s), -Held(s.threads[t]));
    HeadBatches(s, t, nBatchSize);
    HeldBounded(h.threads);
    if t == 0 {
      HeadTodo(s, nBatchSize);
    }
  }

  lemma HeadBatches(s: System, t: nat, nBatchSize: nat)
    requires t < |s.threads| && Batches(s.threads)
    ensures Batches(AtHead(s, t).threads) && |AtHead(s, t).threads| == |s.threads|
  {
  }

  /** What is held by workers is too little to wrap. */
  lemma HeadTodo(s: System, nBatchSize: nat)
    requires Agreement(s, nBatchSize)
    ensures var h := AtHead(s, 0); h.sh.queue == [] ==> (Wrap(Outstanding(h)) == 0 <==> Sum(h.threads, Held) == 0)
  {
    hide MaxHeld;
    var h := AtHead(s, 0);
    SumUpdate(s.threads, Held, 0, Outside);
    HeadBatches(s, 0, nBatchSize);
    HeldBounded(h.threads);
    HeldBounded(s.threads);
    WorkersBound(s.threads, nBatchSize);
  }

  /** What a section leaves, by how it ends. */
  lemma PassEnds(s: System, t: nat, nBatchSize: nat)
    requires t < |s.threads| && AtHead(s, t).sh.Counted()
    ensures var d, s' := Decide(AtHead(s, t).sh, t == 0, nBatchSize), Pass(s, t, nBatchSize);
            && s'.sh == d.sh && |s'.threads| == |s.threads|
            && match d.exit
               case Sleeping => s'.threads[t] == Waiting(false) && s'.hist == s.hist && s'.log == s.log
               case Picked(vChecks, fOk) =>
                 s'.threads[t] == Running(|vChecks|, vChecks, fOk) && s'.hist == s.hist && s'.log == s.log
               case Returned(fRet) =>
                 s'.threads[t] == Outside
                 && (t == 0 ==> s'.hist == FRESH && s'.log == s.log + [Verdict(fRet, s.hist)])
    ensures AtHead(s, t).sh.queue == s.sh.queue && AtHead(s, t).threads == s.threads[t := Outside] && AtHead(s, t).hist == s.hist
    ensures !s.sh.fAllOk ==> !AtHead(s, t).sh.fAllOk
  {
    hide Decide, Wrap;
  }

  lemma PassKeepsSum(s: System, t: nat, nBatchSize: nat, f: Thread -> int)
    requires t < |s.threads| && AtHead(s, t).sh.Counted()
    requires f(Waiting(true)) == f(Waiting(false)) && f(Outside) == 0
    ensures |Pass(s, t, nBatchSize).threads| == |s.threads|
    ensures Sum(Pass(s, t, nBatchSize).threads, f) == Sum(s.threads, f) - f(s.threads[t]) + f(Pass(s, t, nBatchSize).threads[t])
  {
    var h, s' := AtHead(s, t), Pass(s, t, nBatchSize);
    var told := if Tells(s, t) then NotifyMaster(h.threads) else h.threads;
    SumUpdate(s.threads, f, t, Outside);
    SumUpdate(h.threads, f, 0, Notified(h.threads[0]));
    SumUpdate(told, f, t, s'.threads[t]);
  }

  /** When a thread returns, it is the master, and nothing is in flight. */
  lemma ReturnMeansDone(s: System, t: nat, nBatchSize: nat)
    requires Agreement(s, nBatchSize) && t < |s.threads| && AtHead(s, t).sh.Counted()
    requires Decide(AtHead(s, t).sh, t == 0, nBatchSize).exit.Returned?
    ensures t == 0 && s.sh.queue == [] && !Tells(s, t)
    ensures Sum(AtHead(s, t).threads, Held) == 0 && Sum(AtHead(s, t).threads, Bad) == 0
    ensures forall c :: Sum(AtHead(s, t).threads, Todo(c)) == 0
  {
    HeadCounters(s, t, nBatchSize);
    var h := AtHead(s, t);
    HeldBounded(h.threads);
    forall c ensures Sum(h.threads, Todo(c)) == 0 {
      SumVanishes(h.threads, Todo(c), Held);
    }
  }

  /** Everyone who holds a batch is in the loop and not idle. */
  lemma {:induction false} AboveAtMost(ws: seq<Thread>, x: nat)
    ensures Sum(ws, Above(x)) <= Sum(ws, InLoop) - Sum(ws, Idle)
  {
    if ws != [] {
      AboveAtMost(ws[1..], x);
    }
  }

  lemma CapsGoDown(k: nat, l: nat, nBatchSize: nat)
    requires k <= l
    ensures Cap(k, nBatchSize) >= Cap(l, nBatchSize)
  {
    QuotientsGoDown(UINT_MOD - 1, UINT_MOD - 1, k + 1, l + 1);
  }

  lemma QuotientsGoDown(x: nat, y: nat, a: nat, b: nat)
    requires y <= x && 0 < a <= b
    ensures y / b <= x / a
  {
    var p, q := x / a, y / b;
    if q > p {
      LeTimes(p + 1, q, a);
      Distribute(p, 1, a);
      LeTimes(a, b, q);
    }
  }

  /** With `r` workers at work besides, a worker takes no more than the next one can. */
  lemma TakesAtMostCap(sh: Shared, r: nat, nBatchSize: nat)
    requires sh.Counted() && sh.nTotal + sh.nIdle >= r + 1
    ensures BatchSize(sh, nBatchSize) <= Cap(r + 1, nBatchSize)
  {
    QuotientsGoDown(UINT_MOD - 1, Wrap(|sh.queue|), r + 2, sh.nTotal + sh.nIdle + 1);
  }

  lemma PassKeepsLayer(s: System, t: nat, nBatchSize: nat, k: nat)
    requires Agreement(s, nBatchSize) && t < |s.threads| && AtHead(s, t).sh.Counted() && 1 <= k < |s.threads|
    ensures |Pass(s, t, nBatchSize).threads| == |s.threads| && Layer(Pass(s, t, nBatchSize).threads, nBatchSize, k)
  {
    hide Cap, BatchSize, PopMany;
    var h, s' := AtHead(s, t), Pass(s, t, nBatchSize);
    var f := Above(Cap(k, nBatchSize));
    assert Layer(s.threads, nBatchSize, k);
    PassKeepsSum(s, t, nBatchSize, f);
    if t != 0 && f(s'.threads[t]) == 1 {
      HeadCounters(s, t, nBatchSize);
      SumUpdate(s.threads, f, t, Outside);
      var r := Sum(h.threads, InLoop) - Sum(h.threads, Idle) - InLoop(h.threads[0]) + Idle(h.threads[0]);
      AboveAtMost(h.threads[1..], Cap(k, nBatchSize));
      HeldBounded(h.threads[1..]);
      HeldBounded(h.threads);
      TakesAtMostCap(h.sh, r, nBatchSize);
      if k <= r + 1 {
        CapsGoDown(k, r + 1, nBatchSize);
      }
    }
  }

  lemma PassKeepsLayers(s: System, t: nat, nBatchSize: nat)
    requires Agreement(s, nBatchSize) && t < |s.threads| && AtHead(s, t).sh.Counted()
    ensures |Pass(s, t, nBatchSize).threads| == |s.threads| && Layered(Pass(s, t, nBatchSize).threads, nBatchSize)
  {
    hide Layer, Pass, AtHead, Agreement;
    PassKeepsSum(s, t, nBatchSize, Held);
    forall k: nat | 1 <= k < |s.threads| ensures Layer(Pass(s, t, nBatchSize).threads, nBatchSize, k) {
      PassKeepsLayer(s, t, nBatchSize, k);
    }
  }

  lemma PassKeepsAgreement(s: System, t: nat, nBatchSize: nat)
    requires Agreement(s, nBatchSize) && t < |s.threads| && AtHead(s, t).sh.Counted()
    ensures Agreement(Pass(s, t, nBatchSize), nBatchSize)
  {
    hide Sum, PopMany, BatchSize, Layered;
    HeadCounters(s, t, nBatchSize);
    Replaced(s.threads, t, Outside);
    PassKeepsSum(s, t, nBatchSize, InLoop);
    PassKeepsSum(s, t, nBatchSize, Idle);
    PassKeepsSum(s, t, nBatchSize, Held);
    var h, s' := AtHead(s, t), Pass(s, t, nBatchSize);
    if s.sh.queue != [] {
      BatchSizeFits(h.sh, nBatchSize);
    }
    if Decide(h.sh, t == 0, nBatchSize).exit.Returned? {
      ReturnMeansDone(s, t, nBatchSize);
    }
    PassKeepsLayers(s, t, nBatchSize);
    assert Outstanding(s') == Outstanding(h);
    assert Counters(s');
    assert MasterAsleep(s');
  }

  lemma PassKeepsFlags(s: System, t: nat, nBatchSize: nat)
    requires Agreement(s, nBatchSize) && t < |s.threads| && AtHead(s, t).sh.Counted() && Flags(s)
    ensures Flags(Pass(s, t, nBatchSize))
  {
    var h := AtHead(s, t);
    SumUpdate(s.threads, Bad, t, Outside);
    SumPositive(h.threads, Bad);
    PassKeepsSum(s, t, nBatchSize, Bad);
    SumUpdate(s.threads, Held, t, Outside);
    PassKeepsSum(s, t, nBatchSize, Held);
    if h.sh.queue != [] {
      BatchSizeFits(h.sh, nBatchSize);
    }
    if Decide(h.sh, t == 0, nBatchSize).exit.Returned? {
      ReturnMeansDone(s, t, nBatchSize);
    }
  }

  lemma PassKeepsLedger(s: System, t: nat, nBatchSize: nat, c: Check)
    requires t < |s.threads| && AtHead(s, t).sh.Counted()
    requires s.threads[t].Running? ==> s.threads[t].todo == []
    requires Decide(AtHead(s, t).sh, t == 0, nBatchSize).exit.Returned? ==> t == 0 && Sum(AtHead(s, t).threads, Todo(c)) == 0
    requires LedgerAt(s, c)
    ensures LedgerAt(Pass(s, t, nBatchSize), c)
  {
    hide Sum, PopMany, BatchSize, Pass, AtHead;
    PassEnds(s, t, nBatchSize);
    var h, s' := AtHead(s, t), Pass(s, t, nBatchSize);
    SumUpdate(s.threads, Todo(c), t, Outside);
    assert Todo(c)(s.threads[t]) == 0;
    PassKeepsSum(s, t, nBatchSize, Todo(c));
    match Decide(h.sh, t == 0, nBatchSize).exit
    case Returned(_) =>
    case Sleeping =>
    case Picked(vChecks, _) =>
      BatchSizeFits(h.sh, nBatchSize);
      PopManyCount(h.sh.queue, |vChecks|, c);
      assert Todo(c)(s'.threads[t]) == multiset(vChecks)[c];
  }

  /** The verdict of a Wait() that returns now. */
  lemma VerdictIsGood(s: System, t: nat, nBatchSize: nat)
    requires Inv(s, nBatchSize) && t < |s.threads| && AtHead(s, t).sh.Counted()
    requires s.threads[t].Running? ==> s.threads[t].todo == []
    requires Decide(AtHead(s, t).sh, t == 0, nBatchSize).exit.Returned?
    ensures GoodVerdict(Verdict(Decide(AtHead(s, t).sh, t == 0, nBatchSize).exit.fRet, s.hist))
  {
    ReturnMeansDone(s, t, nBatchSize);
    SumUpdate(s.threads, Bad, t, Outside);
    var hist := s.hist;
    forall c ensures hist.added[c] == hist.passed[c] + hist.failed[c] + hist.skipped[c] {
      assert LedgerAt(s, c);
      SumUpdate(s.threads, Todo(c), t, Outside);
    }
    assert hist.added == hist.passed + hist.failed + hist.skipped;
    assert |hist.added| == |hist.passed| + |hist.failed| + |hist.skipped|;
    if |hist.failed| == 0 {
      assert hist.added == hist.passed;
    }
  }

  lemma PassKeepsInv(s: System, t: nat, nBatchSize: nat)
    requires Inv(s, nBatchSize) && t < |s.threads| && AtHead(s, t).sh.Counted()
    requires s.threads[t].Running? ==> s.threads[t].todo == []
    requires t == 0 ==> s.control.Control?
    ensures Inv(Pass(s, t, nBatchSize), nBatchSize)
  {
    PassKeepsAgreement(s, t, nBatchSize);
    PassKeepsFlags(s, t, nBatchSize);
    if Decide(AtHead(s, t).sh, t == 0, nBatchSize).exit.Returned? {
      VerdictIsGood(s, t, nBatchSize);
      ReturnMeansDone(s, t, nBatchSize);
    }
    forall c ensures LedgerAt(Pass(s, t, nBatchSize), c) {
      assert LedgerAt(s, c);
      PassKeepsLedger(s, t, nBatchSize, c);
    }
  }

  lemma StepKeepsInv(s: System, a: Action, nBatchSize: nat)
    requires Inv(s, nBatchSize) && Enabled(s, a) && Countable(s, a, nBatchSize)
    ensures s.sh.Counted() && (a.Wake? ==> s.sh.nIdle > 0)
    ensures Inv(Step(s, a, nBatchSize), nBatchSize)
  {
    CountersFit(s, nBatchSize);
    match a
    case Add(vChecks, target) => AddKeepsInv(s, vChecks, target, nBatchSize);
    case Run(t, outcome) => RunKeepsInv(s, t, outcome, nBatchSize);
    case EnterLoop(t) =>
      StepIsPass(s, a, nBatchSize);
      PassKeepsInv(s, t, nBatchSize);
    case Wake(t) =>
      StepIsPass(s, a, nBatchSize);
      PassKeepsInv(s, t, nBatchSize);
    case _ =>
      forall c ensures LedgerAt(Step(s, a, nBatchSize), c) {
        assert LedgerAt(s, c);
      }
  }

  // ---------------------------------------------------------------- whole runs

  /** `acts` is an interleaving that can happen from `s` on. */
  ghost predicate Possible(s: System, acts: seq<Action>, nBatchSize: nat)
    requires Inv(s, nBatchSize)
    decreases |acts|
  {
    acts == [] ||
    (Enabled(s, acts[0]) && Countable(s, acts[0], nBatchSize) &&
     (StepKeepsInv(s, acts[0], nBatchSize); Possible(Step(s, acts[0], nBatchSize), acts[1..], nBatchSize)))
  }

  ghost function Final(s: System, acts: seq<Action>, nBatchSize: nat): (r: System)
    requires Inv(s, nBatchSize) && Possible(s, acts, nBatchSize)
    ensures Inv(r, nBatchSize)
    decreases |acts|
  {
    if acts == [] then s
    else
      StepKeepsInv(s, acts[0], nBatchSize);
      Final(Step(s, acts[0], nBatchSize), acts[1..], nBatchSize)
  }

  function AllAdded(acts: seq<Action>): multiset<Check> {
    if acts == [] then multiset{}
    else (if acts[0].Add? then multiset(acts[0].vChecks) else multiset{}) + AllAdded(acts[1..])
  }

  function LogAdded(log: seq<Verdict>): multiset<Check> {
    if log == [] then multiset{} else LogAdded(log[..|log| - 1]) + log[|log| - 1].hist.added
  }

  /**
   Safety over every interleaving. Each Wait() that ever returned said true exactly when every
   check added before it had run and passed, and false exactly when one had run and failed; and
   the checks the verdicts speak about, with those still pending, are all that were ever added.
   */
  lemma {:induction false} EveryVerdict(nThreads: nat, nBatchSize: nat, acts: seq<Action>)
    requires nThreads > 0
    requires (InitInv(nThreads, nBatchSize); Possible(Init(nThreads), acts, nBatchSize))
    ensures (InitInv(nThreads, nBatchSize);
             var s := Final(Init(nThreads), acts, nBatchSize);
             && (forall v :: v in s.log ==> (v.fRet <==> v.hist.passed == v.hist.added) && (!v.fRet <==> v.hist.failed != multiset{}))
             && LogAdded(s.log) + s.hist.added == AllAdded(acts))
  {
    InitInv(nThreads, nBatchSize);
    AddedIsKept(Init(nThreads), acts, nBatchSize);
    assert forall v :: v in Final(Init(nThreads), acts, nBatchSize).log ==> GoodVerdict(v);
  }

  function AllLogged(s: System): multiset<Check> { LogAdded(s.log) + s.hist.added }

  lemma PassKeepsLogged(s: System, t: nat, nBatchSize: nat)
    requires t < |s.threads| && AtHead(s, t).sh.Counted()
    ensures AllLogged(Pass(s, t, nBatchSize)) == AllLogged(s)
  {
    var s' := Pass(s, t, nBatchSize);
    if s'.log != s.log {
      assert s'.log[..|s'.log| - 1] == s.log;
    }
  }

  lemma StepLogs(s: System, a: Action, nBatchSize: nat)
    requires Inv(s, nBatchSize) && Enabled(s, a) && Countable(s, a, nBatchSize)
    ensures (StepKeepsInv(s, a, nBatchSize);
             AllLogged(Step(s, a, nBatchSize)) == AllLogged(s) + if a.Add? then multiset(a.vChecks) else multiset{})
  {
    hide Sum, Decide;
    if a.EnterLoop? || a.Wake? {
      StepIsPass(s, a, nBatchSize);
      PassKeepsLogged(s, a.t, nBatchSize);
    }
  }

  lemma {:induction false} AddedIsKept(s: System, acts: seq<Action>, nBatchSize: nat)
    requires Inv(s, nBatchSize) && Possible(s, acts, nBatchSize)
    ensures AllLogged(Final(s, acts, nBatchSize)) == AllLogged(s) + AllAdded(acts)
    decreases |acts|
  {
    if acts != [] {
      StepKeepsInv(s, acts[0], nBatchSize);
      StepLogs(s, acts[0], nBatchSize);
      AddedIsKept(Step(s, acts[0], nBatchSize), acts[1..], nBatchSize);
    }
  }

  // ---------------------------------------------------------------- after a failure the rest is skipped

  /** How often a thread still has to look at check `c` with a batch that is not to be run. */
  function Skipping(c: Check): Thread -> int { (th: Thread) => if th.Running? && !th.fOk then multiset(th.todo)[c] else 0 }

  /** How often check `c` has been skipped, is being skipped or still waits in the queue. */
  function NotRun(s: System, c: Check): int {
    s.hist.skipped[c] + multiset(s.sh.queue)[c] + Sum(s.threads, Skipping(c))
  }

  lemma RunSkips(s: System, t: nat, outcome: bool, c: Check)
    requires t < |s.threads| && s.threads[t].Running? && s.threads[t].todo != []
    ensures NotRun(Execute(s, t, outcome), c) >= NotRun(s, c)
  {
    var th, th' := s.threads[t], Execute(s, t, outcome).threads[t];
    SumUpdate(s.threads, Skipping(c), t, th');
    assert th.todo == [th.todo[0]] + th'.todo;
    CountOfConcat([th.todo[0]], th'.todo, c);
  }

  lemma AddSkips(s: System, vChecks: seq<Check>, target: nat, c: Check)
    requires |s.threads| > 0
    ensures NotRun(AddTo(s, vChecks, target), c) >= NotRun(s, c)
  {
    NotifyWorkersKeepsSum(s.threads, |vChecks|, target, Skipping(c));
    CountOfConcat(s.sh.queue, vChecks, c);
  }

  /** A batch picked up after a failure is not to be run. */
  lemma PassSkips(s: System, t: nat, nBatchSize: nat, c: Check)
    requires Agreement(s, nBatchSize) && t < |s.threads| && AtHead(s, t).sh.Counted() && !s.sh.fAllOk
    requires s.threads[t].Running? ==> s.threads[t].todo == []
    ensures var s' := Pass(s, t, nBatchSize);
            if s'.log == s.log then !s'.sh.fAllOk && NotRun(s', c) >= NotRun(s, c)
            else |s'.log| == |s.log| + 1 && s'.log[..|s.log|] == s.log && s'.log[|s.log|].hist.skipped[c] >= NotRun(s, c)
  {
    hide Sum, PopMany, BatchSize, Agreement, Pass, AtHead;
    PassEnds(s, t, nBatchSize);
    var h, s' := AtHead(s, t), Pass(s, t, nBatchSize);
    PassKeepsSum(s, t, nBatchSize, Skipping(c));
    assert Skipping(c)(s.threads[t]) == 0;
    match Decide(h.sh, t == 0, nBatchSize).exit
    case Returned(_) =>
      ReturnMeansDone(s, t, nBatchSize);
      NoneSkipping(h.threads, c);
      SumUpdate(s.threads, Skipping(c), t, Outside);
    case Sleeping =>
    case Picked(vChecks, _) =>
      BatchSizeFits(h.sh, nBatchSize);
      PopManyCount(h.sh.queue, |vChecks|, c);
  }

  lemma NoneSkipping(threads: seq<Thread>, c: Check)
    requires Sum(threads, Todo(c)) == 0
    ensures Sum(threads, Skipping(c)) == 0
  {
    SumVanishes(threads, Skipping(c), Todo(c));
  }

  lemma StepSkips(s: System, a: Action, nBatchSize: nat, c: Check)
    requires Inv(s, nBatchSize) && Enabled(s, a) && Countable(s, a, nBatchSize) && !s.sh.fAllOk
    ensures (StepKeepsInv(s, a, nBatchSize);
             var s' := Step(s, a, nBatchSize);
             if s'.log == s.log then !s'.sh.fAllOk && NotRun(s', c) >= NotRun(s, c)
             else |s'.log| == |s.log| + 1 && s'.log[..|s.log|] == s.log && s'.log[|s.log|].hist.skipped[c] >= NotRun(s, c))
  {
    hide Sum, Decide, Flags, Ledger, Controlled;
    match a
    case Add(vChecks, target) => AddSkips(s, vChecks, target, c);
    case Run(t, outcome) => RunSkips(s, t, outcome, c);
    case EnterLoop(t) =>
      StepIsPass(s, a, nBatchSize);
      PassSkips(s, t, nBatchSize, c);
    case Wake(t) =>
      StepIsPass(s, a, nBatchSize);
      PassSkips(s, t, nBatchSize, c);
    case _ =>
  }

  /** A verdict once given stays in the log. */
  lemma {:induction false} LogGrows(s: System, acts: seq<Action>, nBatchSize: nat)
    requires Inv(s, nBatchSize) && Possible(s, acts, nBatchSize)
    ensures var f := Final(s, acts, nBatchSize); |s.log| <= |f.log| && f.log[..|s.log|] == s.log
    decreases |acts|
  {
    if acts != [] {
      StepKeepsInv(s, acts[0], nBatchSize);
      StepExtendsLog(s, acts[0], nBatchSize);
      LogGrows(Step(s, acts[0], nBatchSize), acts[1..], nBatchSize);
    }
  }

  lemma StepExtendsLog(s: System, a: Action, nBatchSize: nat)
    requires Inv(s, nBatchSize) && Enabled(s, a) && Countable(s, a, nBatchSize)
    ensures (StepKeepsInv(s, a, nBatchSize);
             var l := Step(s, a, nBatchSize).log; |s.log| <= |l| && l[..|s.log|] == s.log)
  {
    hide Sum, Decide;
    if a.EnterLoop? || a.Wake? {
      StepIsPass(s, a, nBatchSize);
    }
  }

  /**
   Once a failure is known to the queue, whatever is still in the queue is not run: until the next Wait() returns, in
   any interleaving, the flag stays down and each of these checks is skipped, is about to be, or waits; and the next
   verdict has skipped all of them.
   */
  lemma {:induction false} FailureSkipsTheRest(s: System, acts: seq<Action>, nBatchSize: nat, c: Check)
    requires Inv(s, nBatchSize) && !s.sh.fAllOk && Possible(s, acts, nBatchSize)
    ensures var f := Final(s, acts, nBatchSize);
            if f.log == s.log then !f.sh.fAllOk && NotRun(f, c) >= s.hist.skipped[c] + multiset(s.sh.queue)[c]
            else |f.log| > |s.log| && f.log[|s.log|].hist.skipped[c] >= s.hist.skipped[c] + multiset(s.sh.queue)[c]
  {
    RestIsSkipped(s, acts, nBatchSize, c);
    SkippingIsSome(s.threads, c);
  }

  lemma SkippingIsSome(threads: seq<Thread>, c: Check)
    ensures Sum(threads, Skipping(c)) >= 0
  {
    SumPositive(threads, Skipping(c));
  }

  lemma {:induction false} RestIsSkipped(s: System, acts: seq<Action>, nBatchSize: nat, c: Check)
    requires Inv(s, nBatchSize) && !s.sh.fAllOk && Possible(s, acts, nBatchSize)
    ensures var f := Final(s, acts, nBatchSize);
            if f.log == s.log then !f.sh.fAllOk && NotRun(f, c) >= NotRun(s, c)
            else |f.log| > |s.log| && f.log[|s.log|].hist.skipped[c] >= NotRun(s, c)
    decreases |acts|
  {
    hide Flags, Ledger, Batches, Counters, MasterAsleep, Controlled, Layered, NotRun;
    if acts != [] {
      StepKeepsInv(s, acts[0], nBatchSize);
      StepSkips(s, acts[0], nBatchSize, c);
      var s' := Step(s, acts[0], nBatchSize);
      LogGrows(s', acts[1..], nBatchSize);
      if s'.log == s.log {
        RestIsSkipped(s', acts[1..], nBatchSize, c);
      } else {
        assert Final(s', acts[1..], nBatchSize).log[..|s'.log|][|s.log|] == s'.log[|s.log|];
      }
    }
  }

  /** A master asleep and not told has nothing to do, and a worker is bound to tell it. */
  lemma NoLostWakeUp(s: System, nBatchSize: nat)
    requires Inv(s, nBatchSize) && s.threads[0] == Waiting(false)
    ensures s.sh.queue == [] && s.sh.nTodo > 0
    ensures exists w :: 0 < w < |s.threads| && s.threads[w].Running?
  {
    CountersFit(s, nBatchSize);
    assert forall j :: 0 <= j < |s.threads| ==> Held(s.threads[j]) >= 0;
    SumPositive(s.threads, Held);
  }

  /** Add wakes no master and nobody who is awake: one sleeping worker for one check, every sleeping worker for more. */
  lemma AddWakes(s: System, vChecks: seq<Check>, target: nat)
    requires |s.threads| > 0 && Enabled(s, Add(vChecks, target))
    ensures var after := AddTo(s, vChecks, target).threads;
            && |after| == |s.threads| && after[0] == s.threads[0]
            && (forall t :: 0 <= t < |after| && after[t] != s.threads[t] ==>
                  s.threads[t] == Waiting(false) && after[t] == Waiting(true) && vChecks != [])
            && (|vChecks| > 1 ==> forall t :: 0 < t < |after| ==> after[t] != Waiting(false))
            && (|vChecks| == 1 ==> forall t :: 0 < t < |after| && s.threads[t] == Waiting(false) ==>
                  (after[t] == Waiting(false) <==> t != target) && 0 < target < |after| && after[target] == Waiting(true))
  {
    var ws := NotifyAll(s.threads[1..]);
    assert |vChecks| > 1 ==> forall t :: 0 < t < |s.threads| ==> AddTo(s, vChecks, target).threads[t] == ws[t - 1];
    assert |vChecks| == 1 ==> forall t: nat :: 0 < t < |s.threads| && s.threads[t] == Waiting(false) ==> Sleeper(s.threads, t);
  }

  lemma {:induction false} NoneRunning(threads: seq<Thread>)
    ensures Sum(threads, InLoop) >= Sum(threads, Idle)
    ensures Sum(threads, InLoop) == Sum(threads, Idle) <==> forall t: nat :: t < |threads| ==> !threads[t].Running?
    ensures Sum(threads, InLoop) == Sum(threads, Idle) ==> Sum(threads, Held) == 0 && Sum(threads, Bad) == 0
  {
    if threads != [] {
      NoneRunning(threads[1..]);
      assert forall t: nat :: t < |threads[1..]| ==> threads[1..][t] == threads[t + 1];
      assert forall t: nat :: 0 < t < |threads| ==> threads[t] == threads[1..][t - 1];
    }
  }

  /**
   What IsIdle() says: no thread is at work, no check has failed, and the number of checks in the queue
   is one that `nTodo` takes for zero.
   */
  lemma IdleIff(s: System, nBatchSize: nat)
    requires Inv(s, nBatchSize)
    ensures IsIdle(s.sh) <==>
            && (forall t: nat :: t < |s.threads| ==> !s.threads[t].Running?)
            && Wrap(|s.sh.queue|) == 0 && s.hist.failed == multiset{}
  {
    hide Sum;
    NoneRunning(s.threads);
    assert |s.hist.failed| == 0 <==> s.hist.failed == multiset{};
  }

  /** While fewer than 2^32 checks are outstanding, that is: nothing is outstanding and nothing has failed. */
  lemma IdleMeans(s: System, nBatchSize: nat)
    requires Inv(s, nBatchSize) && Outstanding(s) < UINT_MOD
    ensures IsIdle(s.sh) <==> Outstanding(s) == 0 && s.hist.failed == multiset{}
  {
    CountersFit(s, nBatchSize);
    HeldBounded(s.threads);
    assert forall j :: 0 <= j < |s.threads| ==> Bad(s.threads[j]) >= 0;
    if Outstanding(s) == 0 {
      SumVanishes(s.threads, Bad, Held);
    }
  }

  /** The assertion in the controller's constructor holds whenever nothing has been added since the last Wait() returned. */
  lemma ControlFindsIdle(s: System, nBatchSize: nat)
    requires Inv(s, nBatchSize) && s.threads[0].Outside? && s.hist.added == multiset{}
    ensures IsIdle(s.sh)
  {
    CountersFit(s, nBatchSize);
    assert |s.hist.added| == 0;
    forall c ensures s.hist.failed[c] == 0 {
      assert LedgerAt(s, c);
      assert forall j :: 0 <= j < |s.threads| ==> Todo(c)(s.threads[j]) >= 0;
      SumPositive(s.threads, Todo(c));
    }
    assert s.hist.failed == multiset{};
    IdleMeans(s, nBatchSize);
  }

  /** A call of Add leaves such a queue idle exactly if `nTodo` takes the number of checks for zero. */
  lemma AddLeavesIdleIff(s: System, vChecks: seq<Check>, target: nat, nBatchSize: nat)
    requires Inv(s, nBatchSize) && s.threads[0].Outside? && s.hist.added == multiset{}
    ensures IsIdle(AddTo(s, vChecks, target).sh) <==> Wrap(|vChecks|) == 0
  {
    ControlFindsIdle(s, nBatchSize);
    assert Wrap(0 + |vChecks|) == Wrap(|vChecks|);
  }

  // ---------------------------------------------------------------- runs of a master that adds before it waits

  /** Checks are added on a controller before Wait, not after. */
  predicate Prompt(s: System, a: Action) {
    a.Add? && s.control == Control(true) ==> a.vChecks == []
  }

  ghost predicate AllPrompt(s: System, acts: seq<Action>, nBatchSize: nat)
    requires Inv(s, nBatchSize) && Possible(s, acts, nBatchSize)
    decreases |acts|
  {
    acts == [] ||
    (Prompt(s, acts[0]) && (StepKeepsInv(s, acts[0], nBatchSize); AllPrompt(Step(s, acts[0], nBatchSize), acts[1..], nBatchSize)))
  }

  predicate NothingLate(s: System) {
    |s.threads| > 0 && (s.threads[0].Outside? && s.control != Control(false) ==> s.hist.added == multiset{})
  }

  lemma PassKeepsNothingLate(s: System, t: nat, nBatchSize: nat)
    requires NothingLate(s) && t < |s.threads| && AtHead(s, t).sh.Counted()
    ensures NothingLate(Pass(s, t, nBatchSize))
  {
  }

  lemma PromptStepKeeps(s: System, a: Action, nBatchSize: nat)
    requires Inv(s, nBatchSize) && Enabled(s, a) && Countable(s, a, nBatchSize) && NothingLate(s) && Prompt(s, a)
    ensures (StepKeepsInv(s, a, nBatchSize); NothingLate(Step(s, a, nBatchSize)))
  {
    hide Pass, Sum, Decide, AtHead;
    if a.EnterLoop? || a.Wake? {
      StepIsPass(s, a, nBatchSize);
      PassKeepsNothingLate(s, a.t, nBatchSize);
    }
  }

  /** No run in which the master adds before it waits makes the assertion of any controller fail. */
  lemma {:induction false} PromptRunFindsIdle(s: System, acts: seq<Action>, nBatchSize: nat)
    requires Inv(s, nBatchSize) && NothingLate(s) && Possible(s, acts, nBatchSize) && AllPrompt(s, acts, nBatchSize)
    ensures var f := Final(s, acts, nBatchSize);
            NothingLate(f) && (Enabled(f, NewControl) ==> IsIdle(f.sh))
    decreases |acts|
  {
    hide Flags, Ledger, Batches, Counters, MasterAsleep, Controlled, NothingLate, Prompt, Sum;
    if acts == [] {
      if Enabled(s, NewControl) {
        NewControlIsIdle(s, nBatchSize);
      }
    } else {
      StepKeepsInv(s, acts[0], nBatchSize);
      PromptStepKeeps(s, acts[0], nBatchSize);
      PromptRunFindsIdle(Step(s, acts[0], nBatchSize), acts[1..], nBatchSize);
    }
  }

  lemma NewControlIsIdle(s: System, nBatchSize: nat)
    requires Inv(s, nBatchSize) && NothingLate(s) && Enabled(s, NewControl)
    ensures IsIdle(s.sh)
  {
    ControlFindsIdle(s, nBatchSize);
  }

  lemma Before(s: System, a: Action, s': System, acts: seq<Action>, nBatchSize: nat)
    requires Inv(s, nBatchSize) && Inv(s', nBatchSize) && Enabled(s, a) && Countable(s, a, nBatchSize)
    requires (StepKeepsInv(s, a, nBatchSize); Step(s, a, nBatchSize) == s') && Possible(s', acts, nBatchSize)
    ensures Possible(s, [a] + acts, nBatchSize) && Final(s, [a] + acts, nBatchSize) == Final(s', acts, nBatchSize)
  {
    assert ([a] + acts)[1..] == acts;
  }

  /**
   And every late call of Add can make it fail: after Wait, with nothing added since, adding a number
   of checks that `nTodo` does not take for zero and making the next controller at once trips its assertion.
   */
  lemma LateAddTripsAssertion(s: System, vChecks: seq<Check>, target: nat, nBatchSize: nat)
    requires Inv(s, nBatchSize) && s.control == Control(true) && s.hist.added == multiset{}
    requires Enabled(s, Add(vChecks, target)) && Countable(s, Add(vChecks, target), nBatchSize) && Wrap(|vChecks|) != 0
    ensures Possible(s, [Add(vChecks, target), EndControl], nBatchSize)
    ensures var f := Final(s, [Add(vChecks, target), EndControl], nBatchSize);
            Enabled(f, NewControl) && !IsIdle(f.sh)
  {
    hide Flags, Ledger, Batches, Counters, MasterAsleep, Controlled, Sum, NotifyWorkers, IsIdle;
    AddLeavesIdleIff(s, vChecks, target, nBatchSize);
    StepKeepsInv(s, Add(vChecks, target), nBatchSize);
    var s1 := Step(s, Add(vChecks, target), nBatchSize);
    MasterStaysOutside(s, vChecks, target);
    StepKeepsInv(s1, EndControl, nBatchSize);
    var s2 := Step(s1, EndControl, nBatchSize);
    Before(s1, EndControl, s2, [], nBatchSize);
    Before(s, Add(vChecks, target), s1, [EndControl], nBatchSize);
    assert [EndControl] + [] == [EndControl] && [Add(vChecks, target)] + [EndControl] == [Add(vChecks, target), EndControl];
  }

  lemma MasterStaysOutside(s: System, vChecks: seq<Check>, target: nat)
    requires |s.threads| > 0 && s.threads[0].Outside?
    ensures AddTo(s, vChecks, target).threads[0].Outside?
  {
  }

  /** Such states are reached: a master that waits at once, without any worker. */
  lemma LateAddHappens(c: Check)
    ensures Inv(Init(1), 128)
    ensures Possible(Init(1), [NewControl, EnterLoop(0), Add([c], 0), EndControl], 128)
    ensures var s := Final(Init(1), [NewControl, EnterLoop(0), Add([c], 0), EndControl], 128);
            Enabled(s, NewControl) && !IsIdle(s.sh)
  {
    hide Inv, Sum;
    InitInv(1, 128);
    var s0 := Init(1);
    StepKeepsInv(s0, NewControl, 128);
    var s1 := Step(s0, NewControl, 128);
    StepKeepsInv(s1, EnterLoop(0), 128);
    var s2 := Step(s1, EnterLoop(0), 128);
    WaitAtOnce(s2);
    LateAddTripsAssertion(s2, [c], 0, 128);
    var late := [Add([c], 0), EndControl];
    Before(s1, EnterLoop(0), s2, late, 128);
    Before(s0, NewControl, s1, [EnterLoop(0)] + late, 128);
    assert [NewControl] + ([EnterLoop(0)] + late) == [NewControl, EnterLoop(0), Add([c], 0), EndControl];
  }

  lemma WaitAtOnce(s: System)
    requires s == Step(Step(Init(1), NewControl, 128), EnterLoop(0), 128)
    ensures s.threads == [Outside] && s.control == Control(true) && s.hist.added == multiset{}
  {
  }

  // ---------------------------------------------------------------- Wait() comes to an end

  function Pot(th: Thread): int {
    match th
    case Outside => 1
    case Waiting(notified) => if notified then 1 else 0
    case Running(_, todo, _) => |todo| + 2
  }

  /** Bounds what can still happen before Wait() returns. */
  function Measure(s: System): int { 4 * |s.sh.queue| + Sum(s.threads, Pot) }

  predicate OfThread(a: Action) { a.EnterLoop? || a.Wake? || a.Run? }

  lemma PassDescends(s: System, t: nat, nBatchSize: nat)
    requires Agreement(s, nBatchSize) && t < |s.threads| && AtHead(s, t).sh.Counted()
    requires s.threads[t].Running? ==> s.threads[t].todo == []
    ensures var s' := Pass(s, t, nBatchSize);
            s' == s || s'.threads[0].Outside? || Measure(s') < Measure(s)
    ensures s.threads[t] != Waiting(false) || s.sh.queue != [] ==>
            (var s' := Pass(s, t, nBatchSize); s'.threads[0].Outside? || Measure(s') < Measure(s))
  {
    hide Sum, PopMany, BatchSize;
    var h, s' := AtHead(s, t), Pass(s, t, nBatchSize);
    var told := if Tells(s, t) then NotifyMaster(h.threads) else h.threads;
    SumUpdate(s.threads, Pot, t, Outside);
    SumUpdate(h.threads, Pot, 0, Notified(h.threads[0]));
    SumUpdate(told, Pot, t, s'.threads[t]);
    if h.sh.queue != [] {
      BatchSizeFits(h.sh, nBatchSize);
    } else if Decide(h.sh, t == 0, nBatchSize).exit.Returned? {
      ReturnMeansDone(s, t, nBatchSize);
    } else if s.threads[t] == Waiting(false) {
      assert s'.threads == s.threads;
    }
  }

  /** While the master is inside Wait(), a thread's step changes nothing, or ends the wait, or brings its end closer. */
  lemma StepDescends(s: System, a: Action, nBatchSize: nat)
    requires Inv(s, nBatchSize) && Enabled(s, a) && OfThread(a) && !s.threads[0].Outside?
    ensures (StepKeepsInv(s, a, nBatchSize);
             var s' := Step(s, a, nBatchSize);
             s' == s || s'.threads[0].Outside? || Measure(s') < Measure(s))
  {
    if a.Run? {
      SumUpdate(s.threads, Pot, a.t, Execute(s, a.t, a.outcome).threads[a.t]);
    } else {
      StepIsPass(s, a, nBatchSize);
      PassDescends(s, a.t, nBatchSize);
    }
  }

  /** `acts` all happen inside one Wait(), and each of them does something. */
  ghost predicate Busy(s: System, acts: seq<Action>, nBatchSize: nat)
    requires Inv(s, nBatchSize)
    decreases |acts|
  {
    !s.threads[0].Outside? &&
    (acts == [] ||
     (Enabled(s, acts[0]) && OfThread(acts[0]) &&
      (StepKeepsInv(s, acts[0], nBatchSize);
       var s' := Step(s, acts[0], nBatchSize);
       s' != s && Busy(s', acts[1..], nBatchSize))))
  }

  /** No schedule, fair or not, keeps Wait() busy for ever. */
  lemma {:induction false} WaitIsBounded(s: System, acts: seq<Action>, nBatchSize: nat)
    requires Inv(s, nBatchSize) && Busy(s, acts, nBatchSize)
    ensures |acts| <= Measure(s)
    decreases |acts|
  {
    if acts == [] {
      assert forall j :: 0 <= j < |s.threads| ==> Pot(s.threads[j]) >= 0;
      SumPositive(s.threads, Pot);
    } else {
      StepKeepsInv(s, acts[0], nBatchSize);
      StepDescends(s, acts[0], nBatchSize);
      WaitIsBounded(Step(s, acts[0], nBatchSize), acts[1..], nBatchSize);
    }
  }

  /** And no schedule gets stuck: inside Wait() some thread can always do something, without a spurious wake-up. */
  lemma WaitIsNotStuck(s: System, nBatchSize: nat) returns (a: Action)
    requires Inv(s, nBatchSize) && !s.threads[0].Outside?
    ensures Enabled(s, a) && OfThread(a) && (a.Wake? ==> s.threads[a.t] == Waiting(true))
    ensures (StepKeepsInv(s, a, nBatchSize); Step(s, a, nBatchSize) != s)
  {
    var t: nat := 0;
    if s.threads[0] == Waiting(false) {
      NoLostWakeUp(s, nBatchSize);
      t :| 0 < t < |s.threads| && s.threads[t].Running?;
    }
    if s.threads[t].Running? && s.threads[t].todo != [] {
      a := Run(t, true);
      assert |Execute(s, t, true).threads[t].todo| < |s.threads[t].todo|;
    } else {
      a := if s.threads[t].Waiting? then Wake(t) else EnterLoop(t);
      StepIsPass(s, a, nBatchSize);
      PassDescends(s, t, nBatchSize);
    }
  }
}
