/** The script check queue of src/checkqueue.h: one master and any number of workers
    share a stack of checks under one mutex, with a condition variable for each side.

    Everything a thread does between taking and giving up the mutex is one atomic step,
    so the protocol is a state machine: the fields of the queue, one local state per
    thread, and a record of which checks were added, ran and were skipped in the current
    round. A round ends when the master returns from Wait. */
module CheckQueueProtocol {

  /** A queued verification. `ok` is what its operator() returns when it is run. */
  datatype Check = Check(id: nat, ok: bool)

  /** The fields of CCheckQueue that the mutex protects. */
  datatype Shared = Shared(
    queue: seq<Check>,
    idle: int,
    total: int,
    allOk: bool,
    todo: int,
    quit: bool,
    batchSize: nat)

  /** How a thread comes to the head of the loop: first call, batch done, or woken. */
  datatype Arrival = First | Finished(taken: nat, ok: bool) | Woken

  /** How it leaves the critical section. */
  datatype Outcome = Returned(verdict: bool) | Blocked | Batch(checks: seq<Check>, ok: bool)

  /** One thread. A running thread holds the part of its batch that it has not reached. */
  datatype Local =
    | Outside
    | Waiting
    | Notified
    | Running(left: seq<Check>, taken: nat, ok: bool)

  /** What happened in a finished round, and what Wait returned. */
  datatype Round = Round(added: multiset<Check>, ran: multiset<Check>, verdict: bool)

  datatype State = State(
    shared: Shared,
    threads: seq<Local>,
    added: multiset<Check>,
    ran: multiset<Check>,
    skipped: multiset<Check>,
    rounds: seq<Round>)

  const MASTER: nat := 0

  // ----- the critical section of Loop

  /** The clean-up at the top of the critical section. */
  function Arrive(s: Shared, a: Arrival): (r: Shared)
    ensures r.queue == s.queue && r.quit == s.quit && r.batchSize == s.batchSize
  {
    match a
    case First => s.(total := s.total + 1)
    case Finished(taken, ok) => s.(allOk := s.allOk && ok, todo := s.todo - taken)
    case Woken => s.(idle := s.idle - 1)
  }

  /** n / d, by repeated subtraction. */
  function Quotient(n: nat, d: nat): (q: nat)
    requires d > 0
    ensures q <= n
  {
    if n < d then 0 else 1 + Quotient(n - d, d)
  }

  /** The number of checks to take: max(1, min(nBatchSize, size / (nTotal + nIdle + 1))).
      The divisor is converted to unsigned, so a negative one gives the quotient 0. */
  function BatchCount(s: Shared): (n: nat)
    requires s.queue != []
    ensures 1 <= n <= |s.queue|
  {
    var divisor := s.total + s.idle + 1;
    var share := if divisor <= 0 then 0 else Quotient(|s.queue|, divisor);
    var capped := if s.batchSize < share then s.batchSize else share;
    if capped < 1 then 1 else capped
  }

  lemma {:induction false} QuotientIs(n: nat, d: nat)
    requires d > 0
    ensures Quotient(n, d) * d <= n < (Quotient(n, d) + 1) * d
  {
    if n >= d {
      QuotientIs(n - d, d);
      assert Quotient(n, d) == 1 + Quotient(n - d, d);
    }
  }

  /** A batch of more than one check is no larger than the limit, and leaves as much again for
      each thread, idle threads counted twice; and no larger one would do. */
  lemma BatchIsFairShare(s: Shared)
    requires s.queue != [] && s.total + s.idle + 1 > 0
    ensures var n, threads := BatchCount(s), s.total + s.idle + 1;
            && (n == 1 || (n <= s.batchSize && n * threads <= |s.queue|))
            && (n + 1 > s.batchSize || (n + 1) * threads > |s.queue|)
  {
    hide Quotient;
    var threads, size := s.total + s.idle + 1, |s.queue|;
    QuotientIs(size, threads);
    FewerIsLess(BatchCount(s), Quotient(size, threads), threads);
    FewerIsLess(Quotient(size, threads) + 1, BatchCount(s) + 1, threads);
  }

  lemma FewerIsLess(m: nat, n: nat, d: nat)
    ensures m <= n ==> m * d <= n * d
  {
    if m <= n {
      assert n * d == m * d + (n - m) * d;
    }
  }

  function Reversed(s: seq<Check>): (r: seq<Check>)
    ensures |r| == |s|
    ensures forall i :: 0 <= i < |s| ==> r[i] == s[|s| - 1 - i]
  {
    seq(|s|, i requires 0 <= i < |s| => s[|s| - 1 - i])
  }

  lemma {:induction false} ReversedKeepsChecks(s: seq<Check>)
    ensures multiset(Reversed(s)) == multiset(s)
  {
    if s != [] {
      var init, last := s[..|s| - 1], s[|s| - 1];
      ReversedKeepsChecks(init);
      assert s == init + [last];
      assert Reversed(s) == [last] + Reversed(init);
    }
  }

  /** The rest of the critical section: return, wait, or take a batch off the stack. */
  function Dispatch(s: Shared, master: bool): (r: (Shared, Outcome))
  {
    if s.queue == [] then
      if (master || s.quit) && s.todo == 0 then
        (s.(total := s.total - 1, allOk := master || s.allOk), Returned(s.allOk))
      else
        (s.(idle := s.idle + 1), Blocked)
    else
      var keep := |s.queue| - BatchCount(s);
      (s.(queue := s.queue[..keep]), Batch(Reversed(s.queue[keep..]), s.allOk))
  }

  // ----- steps of the whole system

  datatype Event =
    | Add(checks: seq<Check>, woken: nat)  // `woken` is the worker notify_one picks
    | Enter(t: nat)                        // a thread calls Loop
    | Wake(t: nat)                         // a notified thread gets the mutex back
    | Spurious(t: nat)                     // a waiting thread wakes on its own
    | Execute(t: nat)                      // a running thread comes to its next check
    | Finish(t: nat)                       // a running thread has no check left

  ghost predicate Legal(s: State, e: Event) {
    match e
    case Add(checks, woken) =>
      && MASTER < |s.threads| && s.threads[MASTER].Outside?
      && (|checks| == 1 && (exists w :: 0 < w < |s.threads| && s.threads[w].Waiting?)
          ==> 0 < woken < |s.threads| && s.threads[woken].Waiting?)
    case Enter(t) => t < |s.threads| && s.threads[t].Outside?
    case Wake(t) => t < |s.threads| && s.threads[t].Notified?
    case Spurious(t) => t < |s.threads| && s.threads[t].Waiting?
    case Execute(t) => t < |s.threads| && s.threads[t].Running? && s.threads[t].left != []
    case Finish(t) => t < |s.threads| && s.threads[t].Running? && s.threads[t].left == []
  }

  function WakeAll(ts: seq<Local>): (r: seq<Local>)
    ensures |r| == |ts|
    ensures forall i :: 0 <= i < |ts| ==> r[i] == if i != MASTER && ts[i].Waiting? then Notified else ts[i]
  {
    seq(|ts|, i requires 0 <= i < |ts| => if i != MASTER && ts[i].Waiting? then Notified else ts[i])
  }

  function AddShared(s: Shared, checks: seq<Check>): Shared {
    s.(queue := s.queue + checks, todo := s.todo + |checks|)
  }

  function AddStep(s: State, checks: seq<Check>, woken: nat): State {
    var threads :=
      if |checks| == 1 then
        if 0 < woken < |s.threads| && s.threads[woken].Waiting? then s.threads[woken := Notified] else s.threads
      else if |checks| > 1 then WakeAll(s.threads)
      else s.threads;
    s.(shared := AddShared(s.shared, checks),
       threads := threads,
       added := s.added + multiset(checks))
  }

  /** A worker that brings nTodo to 0 notifies the master. */
  function AfterNotify(ts: seq<Local>, t: nat, a: Arrival, todo: int): (r: seq<Local>)
    requires t < |ts|
    ensures |r| == |ts|
  {
    if a.Finished? && t != MASTER && todo == 0 && ts[MASTER].Waiting? then ts[MASTER := Notified] else ts
  }

  function LocalAfter(out: Outcome): Local {
    match out
    case Returned(_) => Outside
    case Blocked => Waiting
    case Batch(checks, ok) => Running(checks, |checks|, ok)
  }

  function CriticalStep(s: State, t: nat, a: Arrival): State
    requires t < |s.threads|
  {
    var arrived := Arrive(s.shared, a);
    var threads := AfterNotify(s.threads, t, a, arrived.todo);
    var (shared, out) := Dispatch(arrived, t == MASTER);
    var s' := s.(shared := shared, threads := threads[t := LocalAfter(out)]);
    if t == MASTER && out.Returned? then
      s'.(rounds := s.rounds + [Round(s.added, s.ran, out.verdict)],
          added := multiset{}, ran := multiset{}, skipped := multiset{})
    else s'
  }

  function ExecuteStep(s: State, t: nat): State
    requires t < |s.threads| && s.threads[t].Running? && s.threads[t].left != []
  {
    var l := s.threads[t];
    var c := l.left[0];
    if l.ok then
      s.(threads := s.threads[t := Running(l.left[1..], l.taken, c.ok)], ran := s.ran + multiset{c})
    else
      s.(threads := s.threads[t := Running(l.left[1..], l.taken, false)], skipped := s.skipped + multiset{c})
  }

  function Step(s: State, e: Event): State
    requires Legal(s, e)
  {
    match e
    case Add(checks, woken) => AddStep(s, checks, woken)
    case Enter(t) => CriticalStep(s, t, First)
    case Wake(t) => CriticalStep(s, t, Woken)
    case Spurious(t) => s.(threads := s.threads[t := Notified])
    case Execute(t) => ExecuteStep(s, t)
    case Finish(t) => CriticalStep(s, t, Finished(s.threads[t].taken, s.threads[t].ok))
  }

  function Init(workers: nat, batchSize: nat): State {
    State(Shared([], 0, 0, true, 0, false, batchSize),
          seq(workers + 1, _ => Outside), multiset{}, multiset{}, multiset{}, [])
  }

  /** `es` can happen one after the other from `s`. */
  ghost predicate LegalRun(s: State, es: seq<Event>)
    decreases |es|
  {
    es == [] || (Legal(s, es[0]) && LegalRun(Step(s, es[0]), es[1..]))
  }

  ghost function After(s: State, es: seq<Event>): State
    requires LegalRun(s, es)
    decreases |es|
  {
    if es == [] then s else After(Step(s, es[0]), es[1..])
  }

  predicate IsIdle(s: Shared) {
    s.total == s.idle && s.todo == 0 && s.allOk
  }

  // ----- sums over the threads

  function SumOf(w: Local -> nat, ts: seq<Local>): nat {
    if ts == [] then 0 else SumOf(w, ts[..|ts| - 1]) + w(ts[|ts| - 1])
  }

  lemma {:induction false} SumUpdate(w: Local -> nat, ts: seq<Local>, i: nat, l: Local)
    requires i < |ts|
    ensures SumOf(w, ts[i := l]) + w(ts[i]) == SumOf(w, ts) + w(l)
  {
    var init := ts[..|ts| - 1];
    if i == |ts| - 1 {
      assert ts[i := l][..|ts| - 1] == init;
    } else {
      SumUpdate(w, init, i, l);
      assert ts[i := l][..|ts| - 1] == init[i := l];
    }
  }

  lemma {:induction false} SumAtLeast(w: Local -> nat, ts: seq<Local>, i: nat)
    requires i < |ts|
    ensures w(ts[i]) <= SumOf(w, ts)
  {
    if i < |ts| - 1 {
      SumAtLeast(w, ts[..|ts| - 1], i);
    }
  }

  lemma {:induction false} SumPointwise(w: Local -> nat, ts: seq<Local>, us: seq<Local>)
    requires |ts| == |us|
    requires forall i :: 0 <= i < |ts| ==> w(ts[i]) == w(us[i])
    ensures SumOf(w, ts) == SumOf(w, us)
  {
    if ts != [] {
      SumPointwise(w, ts[..|ts| - 1], us[..|us| - 1]);
    }
  }

  // Threads inside Loop, threads waiting or about to get the mutex back, checks in batches
  // that are not yet counted off, and running threads that have seen a false result.
  function InLoop(l: Local): nat { if l.Outside? then 0 else 1 }
  function IsWaiting(l: Local): nat { if l.Waiting? || l.Notified? then 1 else 0 }
  function Taken(l: Local): nat { if l.Running? then l.taken else 0 }
  function Failing(l: Local): nat { if l.Running? && !l.ok then 1 else 0 }

  /** How often `c` occurs in the unreached part of a thread's batch. */
  function Copies(c: Check): Local -> nat {
    (l: Local) => if l.Running? then multiset(l.left)[c] else 0
  }

  lemma {:induction false} SomeoneRuns(ts: seq<Local>) returns (t: nat)
    requires SumOf(Taken, ts) > 0
    ensures t < |ts| && ts[t].Running?
  {
    t := |ts| - 1;
    if !ts[t].Running? {
      t := SomeoneRuns(ts[..t]);
    }
  }

  /** With no batch out, every thread in the loop is idle. */
  lemma {:induction false} NoBatchMeansIdle(ts: seq<Local>)
    requires forall i :: 0 <= i < |ts| && ts[i].Running? ==> ts[i].taken >= 1
    requires SumOf(Taken, ts) == 0
    ensures SumOf(InLoop, ts) == SumOf(IsWaiting, ts)
    ensures SumOf(Failing, ts) == 0
    ensures forall c :: SumOf(Copies(c), ts) == 0
  {
    if ts != [] {
      NoBatchMeansIdle(ts[..|ts| - 1]);
    }
  }

  // ----- the invariant

  /** Some result so far is false. */
  ghost predicate Bad(s: State) {
    !s.shared.allOk || SumOf(Failing, s.threads) > 0
  }

  /** The counters agree with the threads. */
  ghost predicate CountersMatch(s: State) {
    && |s.threads| > 0
    && !s.shared.quit
    && s.shared.total == SumOf(InLoop, s.threads)
    && s.shared.idle == SumOf(IsWaiting, s.threads)
    && s.shared.todo == |s.shared.queue| + SumOf(Taken, s.threads)
    && s.shared.todo <= |s.added|
    && forall t :: 0 <= t < |s.threads| && s.threads[t].Running? ==>
         1 <= s.threads[t].taken && |s.threads[t].left| <= s.threads[t].taken
  }

  ghost function Located(s: State, c: Check): nat {
    s.ran[c] + s.skipped[c] + multiset(s.shared.queue)[c] + SumOf(Copies(c), s.threads)
  }

  /** Each added check is in exactly one place: ran, skipped, queued or in a batch. */
  ghost predicate ChecksConserved(s: State) {
    forall c :: s.added[c] == Located(s, c)
  }

  ghost predicate ResultsRecorded(s: State) {
    && (Bad(s) <==> exists c :: c in s.ran && !c.ok)
    && (!Bad(s) ==> s.skipped == multiset{})
  }

  /** A blocked master waits for a batch that is out, never for a queued check. */
  ghost predicate MasterWaitsForWork(s: State) {
    |s.threads| > 0 && s.threads[MASTER].Waiting? ==> s.shared.queue == [] && s.shared.todo > 0
  }

  ghost predicate RoundCorrect(r: Round) {
    && (r.verdict <==> forall c :: c in r.added ==> c.ok)
    && r.ran <= r.added
    && (r.verdict ==> r.ran == r.added)
  }

  ghost predicate Inv(s: State) {
    && CountersMatch(s)
    && ChecksConserved(s)
    && ResultsRecorded(s)
    && MasterWaitsForWork(s)
    && forall r :: r in s.rounds ==> RoundCorrect(r)
  }

  lemma {:induction false} AllOutside(ts: seq<Local>)
    requires forall i :: 0 <= i < |ts| ==> ts[i].Outside?
    ensures SumOf(InLoop, ts) == SumOf(IsWaiting, ts) == SumOf(Taken, ts) == SumOf(Failing, ts) == 0
    ensures forall c :: SumOf(Copies(c), ts) == 0
  {
    if ts != [] {
      AllOutside(ts[..|ts| - 1]);
    }
  }

  lemma InitInv(workers: nat, batchSize: nat)
    ensures Inv(Init(workers, batchSize))
  {
    AllOutside(Init(workers, batchSize).threads);
  }

  /** Changing one thread changes each sum by what that thread contributes. */
  lemma ThreadUpdate(ts: seq<Local>, i: nat, l: Local)
    requires i < |ts|
    ensures SumOf(InLoop, ts[i := l]) + InLoop(ts[i]) == SumOf(InLoop, ts) + InLoop(l)
    ensures SumOf(IsWaiting, ts[i := l]) + IsWaiting(ts[i]) == SumOf(IsWaiting, ts) + IsWaiting(l)
    ensures SumOf(Taken, ts[i := l]) + Taken(ts[i]) == SumOf(Taken, ts) + Taken(l)
    ensures SumOf(Failing, ts[i := l]) + Failing(ts[i]) == SumOf(Failing, ts) + Failing(l)
  {
    SumUpdate(InLoop, ts, i, l);
    SumUpdate(IsWaiting, ts, i, l);
    SumUpdate(Taken, ts, i, l);
    SumUpdate(Failing, ts, i, l);
  }

  // ----- every step keeps the invariant

  lemma AddConserves(s: State, checks: seq<Check>, woken: nat)
    requires ChecksConserved(s) && Legal(s, Add(checks, woken))
    ensures ChecksConserved(AddStep(s, checks, woken))
  {
    var s' := AddStep(s, checks, woken);
    forall c ensures s'.added[c] == Located(s', c) {
      SumPointwise(Copies(c), s.threads, s'.threads);
    }
  }

  lemma AddCounters(s: State, checks: seq<Check>, woken: nat)
    requires CountersMatch(s) && Legal(s, Add(checks, woken))
    ensures CountersMatch(AddStep(s, checks, woken))
  {
    var s' := AddStep(s, checks, woken);
    SumPointwise(InLoop, s.threads, s'.threads);
    SumPointwise(IsWaiting, s.threads, s'.threads);
    SumPointwise(Taken, s.threads, s'.threads);
  }

  lemma AddKeepsInv(s: State, checks: seq<Check>, woken: nat)
    requires Inv(s) && Legal(s, Add(checks, woken))
    ensures Inv(AddStep(s, checks, woken))
  {
    var s' := AddStep(s, checks, woken);
    AddConserves(s, checks, woken);
    AddCounters(s, checks, woken);
    assert ResultsRecorded(s') by {
      SumPointwise(Failing, s.threads, s'.threads);
    }
  }

  lemma SpuriousKeepsInv(s: State, t: nat)
    requires Inv(s) && Legal(s, Spurious(t))
    ensures Inv(Step(s, Spurious(t)))
  {
    var s' := Step(s, Spurious(t));
    ThreadUpdate(s.threads, t, Notified);
    forall c ensures s'.added[c] == Located(s', c) {
      SumUpdate(Copies(c), s.threads, t, Notified);
    }
  }

  lemma HeadCount(s: seq<Check>, c: Check)
    requires s != []
    ensures multiset(s)[c] == multiset(s[1..])[c] + if s[0] == c then 1 else 0
  {
    assert s == [s[0]] + s[1..];
  }

  lemma ExecuteConserves(s: State, t: nat)
    requires ChecksConserved(s) && Legal(s, Execute(t))
    ensures ChecksConserved(ExecuteStep(s, t))
  {
    var s' := ExecuteStep(s, t);
    var l := s.threads[t];
    forall c ensures s'.added[c] == Located(s', c) {
      SumUpdate(Copies(c), s.threads, t, s'.threads[t]);
      HeadCount(l.left, c);
    }
  }

  lemma ExecuteRecords(s: State, t: nat)
    requires ResultsRecorded(s) && Legal(s, Execute(t))
    ensures ResultsRecorded(ExecuteStep(s, t))
  {
    var s' := ExecuteStep(s, t);
    var l := s.threads[t];
    SumUpdate(Failing, s.threads, t, s'.threads[t]);
    SumAtLeast(Failing, s.threads, t);
    if l.ok {
      assert l.left[0] in s'.ran;
      assert forall c :: c in s'.ran ==> c in s.ran || c == l.left[0];
    } else {
      assert s'.ran == s.ran && Bad(s');
    }
  }

  lemma ExecuteCounters(s: State, t: nat)
    requires CountersMatch(s) && Legal(s, Execute(t))
    ensures CountersMatch(ExecuteStep(s, t))
  {
    ThreadUpdate(s.threads, t, ExecuteStep(s, t).threads[t]);
  }

  lemma ExecuteKeepsInv(s: State, t: nat)
    requires Inv(s) && Legal(s, Execute(t))
    ensures Inv(ExecuteStep(s, t))
  {
    ExecuteCounters(s, t);
    ExecuteConserves(s, t);
    ExecuteRecords(s, t);
  }

  // ----- the critical section

  /** Thread `t` is where arrival `a` finds it. */
  ghost predicate Arrives(s: State, t: nat, a: Arrival) {
    && t < |s.threads|
    && match a
       case First => s.threads[t].Outside?
       case Woken => s.threads[t].Notified?
       case Finished(taken, ok) => s.threads[t] == Running([], taken, ok)
  }

  /** Each sum after the critical section, whether or not the master was notified. */
  lemma CriticalSum(w: Local -> nat, s: State, t: nat, a: Arrival)
    requires Arrives(s, t, a)
    requires w(Waiting) == w(Notified)
    ensures var s' := CriticalStep(s, t, a);
            SumOf(w, s'.threads) + w(s.threads[t]) == SumOf(w, s.threads) + w(s'.threads[t])
  {
    var threads := AfterNotify(s.threads, t, a, Arrive(s.shared, a).todo);
    SumPointwise(w, s.threads, threads);
    SumUpdate(w, threads, t, CriticalStep(s, t, a).threads[t]);
  }

  /** What the critical section leaves in the shared fields and in thread `t`. */
  lemma CriticalShape(s: State, t: nat, a: Arrival)
    requires !s.shared.quit && Arrives(s, t, a)
    ensures var s', r := CriticalStep(s, t, a), Arrive(s.shared, a);
            && (s'.threads[t].Outside? <==> r.queue == [] && t == MASTER && r.todo == 0)
            && (s'.threads[t].Running? <==> r.queue != [])
            && (s'.threads[t].Running? ==>
                  && s'.threads[t].taken == |s'.threads[t].left| == BatchCount(r)
                  && s'.threads[t].ok == r.allOk
                  && |s'.shared.queue| + s'.threads[t].taken == |r.queue|)
            && s'.shared.todo == r.todo
            && s'.shared.quit == r.quit
  {
  }

  lemma CriticalCounters(s: State, t: nat, a: Arrival)
    requires CountersMatch(s) && Arrives(s, t, a)
    requires !CriticalStep(s, t, a).threads[t].Outside?
    ensures CountersMatch(CriticalStep(s, t, a))
  {
    CriticalShape(s, t, a);
    CriticalSum(InLoop, s, t, a);
    CriticalSum(IsWaiting, s, t, a);
    CriticalSum(Taken, s, t, a);
  }

  lemma DispatchTakesTop(r: Shared, master: bool)
    ensures var (r', out) := Dispatch(r, master);
            if out.Batch? then multiset(r.queue) == multiset(r'.queue) + multiset(out.checks)
            else r'.queue == r.queue
  {
    if r.queue != [] {
      var keep := |r.queue| - BatchCount(r);
      assert r.queue == r.queue[..keep] + r.queue[keep..];
      ReversedKeepsChecks(r.queue[keep..]);
    }
  }

  /** A batch is the top of the stack: nothing is lost or copied. */
  lemma CriticalTakesTop(s: State, t: nat, a: Arrival, c: Check)
    requires Arrives(s, t, a)
    ensures var s' := CriticalStep(s, t, a);
            multiset(s.shared.queue)[c] == multiset(s'.shared.queue)[c] + Copies(c)(s'.threads[t])
  {
    DispatchTakesTop(Arrive(s.shared, a), t == MASTER);
  }

  lemma CriticalConserves(s: State, t: nat, a: Arrival)
    requires ChecksConserved(s) && Arrives(s, t, a)
    requires !CriticalStep(s, t, a).threads[t].Outside?
    ensures ChecksConserved(CriticalStep(s, t, a))
  {
    var s' := CriticalStep(s, t, a);
    forall c ensures s'.added[c] == Located(s', c) {
      CriticalSum(Copies(c), s, t, a);
      CriticalTakesTop(s, t, a, c);
      assert Copies(c)(s.threads[t]) == 0;
      assert s.added[c] == Located(s, c);
    }
  }

  lemma CriticalRecords(s: State, t: nat, a: Arrival)
    requires !s.shared.quit && ResultsRecorded(s) && Arrives(s, t, a)
    requires !CriticalStep(s, t, a).threads[t].Outside?
    ensures ResultsRecorded(CriticalStep(s, t, a))
  {
    CriticalShape(s, t, a);
    CriticalSum(Failing, s, t, a);
    SumAtLeast(Failing, s.threads, t);
    SumAtLeast(Failing, CriticalStep(s, t, a).threads, t);
    assert Bad(CriticalStep(s, t, a)) <==> Bad(s);
  }

  lemma CriticalMasterWait(s: State, t: nat, a: Arrival)
    requires CountersMatch(s) && MasterWaitsForWork(s) && Arrives(s, t, a)
    ensures MasterWaitsForWork(CriticalStep(s, t, a))
  {
    CriticalShape(s, t, a);
    SumAtLeast(Taken, s.threads, t);
  }

  /** The round the master closes when it returns from Wait. */
  lemma ReturnRound(s: State, a: Arrival)
    requires Inv(s) && Arrives(s, MASTER, a)
    requires CriticalStep(s, MASTER, a).threads[MASTER].Outside?
    ensures var s' := CriticalStep(s, MASTER, a);
            && SumOf(Taken, s'.threads) == 0
            && s.ran + s.skipped == s.added
            && (Arrive(s.shared, a).allOk <==> !Bad(s))
  {
    CriticalShape(s, MASTER, a);
    var s' := CriticalStep(s, MASTER, a);
    CriticalSum(Taken, s, MASTER, a);
    CriticalSum(Failing, s, MASTER, a);
    NoBatchMeansIdle(s'.threads);
    forall c ensures (s.ran + s.skipped)[c] == s.added[c] {
      CriticalSum(Copies(c), s, MASTER, a);
      assert s.added[c] == Located(s, c);
    }
  }

  lemma RoundIsCorrect(s: State, verdict: bool)
    requires ResultsRecorded(s) && s.ran + s.skipped == s.added
    requires verdict <==> !Bad(s)
    ensures RoundCorrect(Round(s.added, s.ran, verdict))
  {
    assert forall c :: c in s.added <==> c in s.ran || c in s.skipped;
    assert s.skipped == multiset{} ==> s.ran == s.added;
  }

  /** In a new round nothing has been added yet. */
  lemma NothingLocated(s: State)
    ensures (s.ran == multiset{} && s.skipped == multiset{} && s.shared.queue == []
             && forall c :: SumOf(Copies(c), s.threads) == 0) ==> forall c :: Located(s, c) == 0
  {
  }

  lemma ReturnKeepsInv(s: State, a: Arrival)
    requires Inv(s) && Arrives(s, MASTER, a)
    requires CriticalStep(s, MASTER, a).threads[MASTER].Outside?
    ensures Inv(CriticalStep(s, MASTER, a))
    ensures IsIdle(CriticalStep(s, MASTER, a).shared)
  {
    hide RoundCorrect, Located;
    var s' := CriticalStep(s, MASTER, a);
    CriticalShape(s, MASTER, a);
    ReturnRound(s, a);
    RoundIsCorrect(s, Arrive(s.shared, a).allOk);
    NothingLocated(s');
    NoBatchMeansIdle(s'.threads);
    CriticalSum(InLoop, s, MASTER, a);
    CriticalSum(IsWaiting, s, MASTER, a);
  }

  lemma CriticalKeepsInv(s: State, t: nat, a: Arrival)
    requires Inv(s) && Arrives(s, t, a)
    ensures Inv(CriticalStep(s, t, a))
  {
    CriticalShape(s, t, a);
    if CriticalStep(s, t, a).threads[t].Outside? {
      ReturnKeepsInv(s, a);
    } else {
      CriticalCounters(s, t, a);
      CriticalConserves(s, t, a);
      CriticalRecords(s, t, a);
      CriticalMasterWait(s, t, a);
    }
  }

  lemma StepKeepsInv(s: State, e: Event)
    requires Inv(s) && Legal(s, e)
    ensures Inv(Step(s, e))
  {
    match e
    case Add(checks, woken) => AddKeepsInv(s, checks, woken);
    case Enter(t) => CriticalKeepsInv(s, t, First);
    case Wake(t) => CriticalKeepsInv(s, t, Woken);
    case Spurious(t) => SpuriousKeepsInv(s, t);
    case Execute(t) => ExecuteKeepsInv(s, t);
    case Finish(t) => CriticalKeepsInv(s, t, Finished(s.threads[t].taken, s.threads[t].ok));
  }

  lemma {:induction false} RunKeepsInv(s: State, es: seq<Event>)
    requires Inv(s) && LegalRun(s, es)
    ensures Inv(After(s, es))
    decreases |es|
  {
    if es != [] {
      StepKeepsInv(s, es[0]);
      RunKeepsInv(Step(s, es[0]), es[1..]);
    }
  }

  // ----- workers are awake while there is work

  ghost predicate WorkerInLoop(s: State) {
    exists w :: 0 < w < |s.threads| && !s.threads[w].Outside?
  }

  ghost predicate WorkerAwake(s: State) {
    exists w :: 0 < w < |s.threads| && (s.threads[w].Running? || s.threads[w].Notified?)
  }

  /** While a check is queued, not all workers in the loop wait. */
  ghost predicate WorkIsSeen(s: State) {
    s.shared.queue != [] && WorkerInLoop(s) ==> WorkerAwake(s)
  }

  lemma AddIsSeen(s: State, checks: seq<Check>, woken: nat)
    requires WorkIsSeen(s) && Legal(s, Add(checks, woken))
    ensures WorkIsSeen(AddStep(s, checks, woken))
  {
    var s' := AddStep(s, checks, woken);
    if s'.shared.queue != [] && WorkerInLoop(s') {
      var w :| 0 < w < |s'.threads| && !s'.threads[w].Outside?;
      assert !s.threads[w].Outside?;
      if s.threads[w].Waiting? && |checks| == 1 {
        assert s'.threads[woken].Notified?;
      } else if !s.threads[w].Waiting? || |checks| > 1 {
        assert s'.threads[w].Running? || s'.threads[w].Notified?;
      }
    }
  }

  lemma CriticalIsSeen(s: State, t: nat, a: Arrival)
    requires !s.shared.quit && WorkIsSeen(s) && Arrives(s, t, a)
    ensures WorkIsSeen(CriticalStep(s, t, a))
    ensures CriticalStep(s, t, a).shared.batchSize == s.shared.batchSize
  {
    var s' := CriticalStep(s, t, a);
    CriticalShape(s, t, a);
    if s'.shared.queue != [] && WorkerInLoop(s') {
      assert s'.threads[t].Running?;
      assert forall w :: 0 < w < |s.threads| && w != t ==> s'.threads[w] == s.threads[w];
    }
  }

  lemma AwakeIsSeen(s: State, s': State, t: nat)
    requires WorkIsSeen(s) && t < |s.threads| == |s'.threads| && !s.threads[t].Outside?
    requires s'.shared == s.shared && s'.threads == s.threads[t := s'.threads[t]]
    requires s'.threads[t].Running? || s'.threads[t].Notified?
    ensures WorkIsSeen(s')
  {
    if s'.shared.queue != [] && WorkerInLoop(s') {
      var w :| 0 < w < |s'.threads| && !s'.threads[w].Outside?;
      assert !s.threads[w].Outside?;
      var v :| 0 < v < |s.threads| && (s.threads[v].Running? || s.threads[v].Notified?);
      assert s'.threads[v].Running? || s'.threads[v].Notified?;
    }
  }

  lemma ExecuteChanges(s: State, t: nat)
    requires t < |s.threads| && s.threads[t].Running? && s.threads[t].left != []
    ensures var s' := ExecuteStep(s, t);
            && s'.shared == s.shared && |s'.threads| == |s.threads| && s'.threads[t].Running?
            && s'.threads == s.threads[t := s'.threads[t]]
  {
  }

  lemma StepIsSeen(s: State, e: Event)
    requires Inv(s) && WorkIsSeen(s) && Legal(s, e)
    ensures WorkIsSeen(Step(s, e)) && Step(s, e).shared.batchSize == s.shared.batchSize
  {
    hide WorkIsSeen, CriticalStep, ExecuteStep;
    match e
    case Add(checks, woken) => AddIsSeen(s, checks, woken);
    case Enter(t) => CriticalIsSeen(s, t, First);
    case Wake(t) => CriticalIsSeen(s, t, Woken);
    case Spurious(t) => AwakeIsSeen(s, Step(s, e), t);
    case Execute(t) => ExecuteChanges(s, t); AwakeIsSeen(s, Step(s, e), t);
    case Finish(t) => CriticalIsSeen(s, t, Finished(s.threads[t].taken, s.threads[t].ok));
  }

  lemma {:induction false} RunIsSeen(s: State, es: seq<Event>)
    requires Inv(s) && WorkIsSeen(s) && LegalRun(s, es)
    ensures WorkIsSeen(After(s, es)) && After(s, es).shared.batchSize == s.shared.batchSize
    decreases |es|
  {
    hide Inv, WorkIsSeen, Legal, Step;
    if es != [] {
      StepKeepsInv(s, es[0]);
      StepIsSeen(s, es[0]);
      RunIsSeen(Step(s, es[0]), es[1..]);
    }
  }

  // ----- what holds in every run

  /** In every run: while a check is queued and a worker is in the loop, some worker runs a
      batch or has been notified. */
  lemma WorkersAreAwake(workers: nat, batchSize: nat, es: seq<Event>)
    requires LegalRun(Init(workers, batchSize), es)
    ensures WorkIsSeen(After(Init(workers, batchSize), es))
  {
    InitInv(workers, batchSize);
    RunIsSeen(Init(workers, batchSize), es);
  }

  /** In every run: a thread that comes to the critical section while checks are queued takes
      one, or as many as the batch size and a fair share allow, and no fewer. The share counts
      the threads in the loop, and those that wait or have only been notified once more. */
  lemma BatchesAreFair(workers: nat, batchSize: nat, es: seq<Event>, t: nat, a: Arrival)
    requires LegalRun(Init(workers, batchSize), es)
    requires var s := After(Init(workers, batchSize), es); Arrives(s, t, a) && s.shared.queue != []
    ensures var s := After(Init(workers, batchSize), es);
            var s' := CriticalStep(s, t, a);
            var share := SumOf(InLoop, s'.threads) + SumOf(IsWaiting, s'.threads) + 1;
            && s'.threads[t].Running?
            && var n := s'.threads[t].taken;
               && (n == 1 || (n <= batchSize && n * share <= |s.shared.queue|))
               && (n + 1 > batchSize || (n + 1) * share > |s.shared.queue|)
  {
    hide Inv, WorkIsSeen, LegalRun, After;
    InitInv(workers, batchSize);
    RunKeepsInv(Init(workers, batchSize), es);
    NoWorkIsSeen(workers, batchSize);
    RunIsSeen(Init(workers, batchSize), es);
    FairShareOf(After(Init(workers, batchSize), es), t, a);
  }

  lemma NoWorkIsSeen(workers: nat, batchSize: nat)
    ensures WorkIsSeen(Init(workers, batchSize))
  {
  }

  lemma FairShareOf(s: State, t: nat, a: Arrival)
    requires Inv(s) && Arrives(s, t, a) && s.shared.queue != []
    ensures var s' := CriticalStep(s, t, a);
            var share := SumOf(InLoop, s'.threads) + SumOf(IsWaiting, s'.threads) + 1;
            && s'.threads[t].Running?
            && var n := s'.threads[t].taken;
               && (n == 1 || (n <= s.shared.batchSize && n * share <= |s.shared.queue|))
               && (n + 1 > s.shared.batchSize || (n + 1) * share > |s.shared.queue|)
  {
    hide BatchCount;
    CriticalShape(s, t, a);
    CriticalCounters(s, t, a);
    BatchIsFairShare(Arrive(s.shared, a));
  }

  /** For every interleaving of the master with any number of workers, Wait returns true
      exactly when every check added in its round is true; no check runs twice; and a true
      verdict means that each check ran. */
  lemma VerdictsAreRight(workers: nat, batchSize: nat, es: seq<Event>)
    requires LegalRun(Init(workers, batchSize), es)
    ensures forall r :: r in After(Init(workers, batchSize), es).rounds ==> RoundCorrect(r)
  {
    InitInv(workers, batchSize);
    RunKeepsInv(Init(workers, batchSize), es);
  }

  /** nTodo counts the queued checks and those in batches, nTotal and nIdle count threads,
      and a master that waits without having been notified waits for a busy worker. */
  lemma CountersAreRight(workers: nat, batchSize: nat, es: seq<Event>)
    requires LegalRun(Init(workers, batchSize), es)
    ensures var s := After(Init(workers, batchSize), es);
            && CountersMatch(s)
            && (s.threads[MASTER].Waiting? ==>
                  s.shared.queue == [] && exists w :: 0 < w < |s.threads| && s.threads[w].Running?)
  {
    InitInv(workers, batchSize);
    RunKeepsInv(Init(workers, batchSize), es);
    var s := After(Init(workers, batchSize), es);
    if s.threads[MASTER].Waiting? {
      var w := SomeoneRuns(s.threads);
      assert w != MASTER;
    }
  }

  /** Whenever the master is outside Loop and has added nothing since it last returned, the
      queue is idle: the assertion in the constructor of CCheckQueueControl cannot fail. */
  lemma IdleBetweenRounds(workers: nat, batchSize: nat, es: seq<Event>)
    requires LegalRun(Init(workers, batchSize), es)
    requires After(Init(workers, batchSize), es).added == multiset{}
    ensures IsIdle(After(Init(workers, batchSize), es).shared)
  {
    InitInv(workers, batchSize);
    RunKeepsInv(Init(workers, batchSize), es);
    NothingAddedMeansIdle(After(Init(workers, batchSize), es));
  }

  lemma NothingAddedMeansIdle(s: State)
    requires Inv(s) && s.added == multiset{}
    ensures IsIdle(s.shared)
  {
    NoBatchMeansIdle(s.threads);
    forall c ensures c !in s.ran {
      assert s.added[c] == Located(s, c);
    }
  }

  // ----- Wait always returns

  predicate Internal(e: Event) {
    e.Wake? || e.Execute? || e.Finish?
  }

  function Work(l: Local): nat {
    if l.Running? then 2 + |l.left| else if l.Notified? then 1 else 0
  }

  function Measure(s: State): nat {
    4 * |s.shared.queue| + SumOf(Work, s.threads)
  }

  lemma ExecuteDecreases(s: State, t: nat)
    requires Legal(s, Execute(t))
    ensures Measure(ExecuteStep(s, t)) < Measure(s)
  {
    SumUpdate(Work, s.threads, t, ExecuteStep(s, t).threads[t]);
  }

  /** A worker that notifies the master finds nothing to do itself. */
  lemma NotifyCost(s: State, t: nat, a: Arrival)
    requires CountersMatch(s) && Arrives(s, t, a)
    ensures var threads := AfterNotify(s.threads, t, a, Arrive(s.shared, a).todo);
            && threads[t] == s.threads[t]
            && SumOf(Work, threads) <= SumOf(Work, s.threads) + 1
            && (SumOf(Work, threads) > SumOf(Work, s.threads) ==> a.Finished? && s.shared.queue == [])
  {
    if AfterNotify(s.threads, t, a, Arrive(s.shared, a).todo) != s.threads {
      SumUpdate(Work, s.threads, MASTER, Notified);
      SumUpdate(Taken, s.threads, t, Waiting);
    }
  }

  lemma CriticalDecreases(s: State, t: nat, a: Arrival)
    requires CountersMatch(s) && Arrives(s, t, a) && !a.First?
    ensures Measure(CriticalStep(s, t, a)) < Measure(s)
  {
    var threads := AfterNotify(s.threads, t, a, Arrive(s.shared, a).todo);
    CriticalShape(s, t, a);
    NotifyCost(s, t, a);
    SumUpdate(Work, threads, t, CriticalStep(s, t, a).threads[t]);
    DispatchTakesTop(Arrive(s.shared, a), t == MASTER);
  }

  lemma InternalDecreases(s: State, e: Event)
    requires Inv(s) && Legal(s, e) && Internal(e)
    ensures Measure(Step(s, e)) < Measure(s)
  {
    match e
    case Wake(t) => CriticalDecreases(s, t, Woken);
    case Execute(t) => ExecuteDecreases(s, t);
    case Finish(t) => CriticalDecreases(s, t, Finished(s.threads[t].taken, s.threads[t].ok));
  }

  /** While the master is inside Loop, some thread can move without a spurious wake-up. */
  lemma SomeoneCanMove(s: State) returns (e: Event)
    requires Inv(s) && !s.threads[MASTER].Outside?
    ensures Internal(e) && Legal(s, e)
  {
    var t: nat := MASTER;
    if s.threads[MASTER].Waiting? {
      t := SomeoneRuns(s.threads);
    }
    e := if s.threads[t].Notified? then Wake(t) else if s.threads[t].left == [] then Finish(t) else Execute(t);
  }

  /** Between `s`, where the master is in Wait, and `s'`: it still is, or it has returned
      once with a verdict on exactly what had been added. */
  ghost predicate WaitGoesOn(s: State, s': State) {
    && |s'.threads| == |s.threads| > 0
    && if s'.threads[MASTER].Outside?
       then |s'.rounds| == |s.rounds| + 1 && s'.rounds[..|s.rounds|] == s.rounds
            && s'.rounds[|s.rounds|].added == s.added && s'.added == multiset{}
       else s'.rounds == s.rounds && s'.added == s.added
  }

  lemma CriticalKeepsWait(s: State, s': State, t: nat, a: Arrival)
    requires WaitGoesOn(s, s') && Inv(s') && Arrives(s', t, a) && !a.First?
    ensures WaitGoesOn(s, CriticalStep(s', t, a))
  {
    CriticalShape(s', t, a);
    var s'' := CriticalStep(s', t, a);
    assert t != MASTER ==> s''.threads[MASTER].Outside? == s'.threads[MASTER].Outside?;
    if s''.threads[t].Outside? {
      assert s''.rounds[..|s.rounds|] == s.rounds;
    }
  }

  lemma ExecuteKeepsWait(s: State, s': State, t: nat)
    requires WaitGoesOn(s, s') && t < |s'.threads| && s'.threads[t].Running? && s'.threads[t].left != []
    ensures WaitGoesOn(s, ExecuteStep(s', t))
  {
  }

  lemma InternalKeepsWait(s: State, s': State, e: Event)
    requires WaitGoesOn(s, s') && Inv(s') && Legal(s', e) && Internal(e)
    ensures WaitGoesOn(s, Step(s', e))
  {
    hide WaitGoesOn, CriticalStep, ExecuteStep, Inv;
    match e
    case Wake(t) => CriticalKeepsWait(s, s', t, Woken);
    case Execute(t) => ExecuteKeepsWait(s, s', t);
    case Finish(t) => CriticalKeepsWait(s, s', t, Finished(s'.threads[t].taken, s'.threads[t].ok));
  }

  lemma {:induction false} WaitEnds(s0: State, s: State, es: seq<Event>)
    requires WaitGoesOn(s0, s) && Inv(s)
    requires LegalRun(s, es) && forall i :: 0 <= i < |es| ==> Internal(es[i])
    ensures WaitGoesOn(s0, After(s, es)) && Inv(After(s, es))
    ensures |es| <= Measure(s)
    decreases |es|
  {
    if es != [] {
      InternalDecreases(s, es[0]);
      InternalKeepsWait(s0, s, es[0]);
      StepKeepsInv(s, es[0]);
      WaitEnds(s0, Step(s, es[0]), es[1..]);
    }
  }

  /** From any reachable state with the master in Wait: only finitely many steps can follow
      before a spurious wake-up or a new worker, and when no more can, Wait has returned,
      with the right verdict on the checks of its round. */
  lemma WaitReturns(workers: nat, batchSize: nat, before: seq<Event>, es: seq<Event>)
    requires LegalRun(Init(workers, batchSize), before)
    requires var s := After(Init(workers, batchSize), before);
             s.threads != [] && !s.threads[MASTER].Outside? && LegalRun(s, es)
    requires forall i :: 0 <= i < |es| ==> Internal(es[i])
    ensures var s := After(Init(workers, batchSize), before);
            var s' := After(s, es);
            && |es| <= Measure(s)
            && ((forall e :: Internal(e) ==> !Legal(s', e)) ==>
                  && |s'.rounds| == |s.rounds| + 1
                  && (s'.rounds[|s.rounds|].verdict <==> forall c :: c in s.added ==> c.ok)
                  && IsIdle(s'.shared))
  {
    InitInv(workers, batchSize);
    RunKeepsInv(Init(workers, batchSize), before);
    var s := After(Init(workers, batchSize), before);
    WaitEnds(s, s, es);
    if forall e :: Internal(e) ==> !Legal(After(s, es), e) {
      QuiescentMeansReturned(s, After(s, es));
    }
  }

  lemma QuiescentMeansReturned(s: State, s': State)
    requires WaitGoesOn(s, s') && Inv(s')
    requires forall e :: Internal(e) ==> !Legal(s', e)
    ensures |s'.rounds| == |s.rounds| + 1
    ensures s'.rounds[|s.rounds|].verdict <==> forall c :: c in s.added ==> c.ok
    ensures IsIdle(s'.shared)
  {
    if !s'.threads[MASTER].Outside? {
      var e := SomeoneCanMove(s');
      assert false;
    }
    assert s'.rounds[|s.rounds|] in s'.rounds;
    NothingAddedMeansIdle(s');
  }
}

/** CCheckQueue as an object: each method is what one thread does while it holds the mutex,
    except RunBatch, which runs a batch without it. */
module CheckQueue {
  import opened CheckQueueProtocol

  datatype Notify = NoOne | OneWorker | AllWorkers

  class CheckQueue {
    var queue: seq<Check>
    var idle: int
    var total: int
    var allOk: bool
    var todo: int
    var quit: bool
    const batchSize: nat

    constructor (batchSize: nat)
      ensures View() == Init(0, batchSize).shared
    {
      this.batchSize := batchSize;
      queue, idle, total, allOk, todo, quit := [], 0, 0, true, 0, false;
    }

    ghost function View(): Shared
      reads this
    {
      Shared(queue, idle, total, allOk, todo, quit, batchSize)
    }

    method Add(checks: seq<Check>) returns (notify: Notify)
      modifies this
      ensures View() == AddShared(old(View()), checks)
      ensures notify == if |checks| == 0 then NoOne else if |checks| == 1 then OneWorker else AllWorkers
    {
      for i := 0 to |checks|
        invariant View() == old(View()).(queue := old(queue) + checks[..i])
      {
        queue := queue + [checks[i]];
        assert checks[..i + 1] == checks[..i] + [checks[i]];
      }
      assert checks[..|checks|] == checks;
      todo := todo + |checks|;
      notify := if |checks| == 1 then OneWorker else if |checks| > 1 then AllWorkers else NoOne;
    }

    /** The clean-up of the previous pass, or the count of a new thread. */
    method CleanUp(a: Arrival, master: bool) returns (notifyMaster: bool)
      modifies this
      ensures View() == Arrive(old(View()), a)
      ensures notifyMaster <==> a.Finished? && !master && todo == 0
    {
      notifyMaster := false;
      match a {
        case First => total := total + 1;
        case Finished(taken, ok) =>
          allOk := allOk && ok;
          todo := todo - taken;
          notifyMaster := todo == 0 && !master;
        case Woken => idle := idle - 1;
      }
    }

    /** One pass through the critical section of Loop, up to return, wait or a full batch. */
    method Pass(a: Arrival, master: bool) returns (out: Outcome, notifyMaster: bool)
      modifies this
      ensures (View(), out) == Dispatch(Arrive(old(View()), a), master)
      ensures notifyMaster <==> a.Finished? && !master && todo == 0
    {
      notifyMaster := CleanUp(a, master);
      if queue == [] {
        if (master || quit) && todo == 0 {
          total := total - 1;
          out := Returned(allOk);
          if master { allOk := true; }
        } else {
          idle := idle + 1;
          out := Blocked;
        }
      } else {
        var batch := TakeBatch(BatchCount(Shared(queue, idle, total, allOk, todo, quit, batchSize)));
        out := Batch(batch, allOk);
      }
    }

    /** Moves the top `count` checks off the stack, last one first. */
    method TakeBatch(count: nat) returns (batch: seq<Check>)
      requires count <= |queue|
      modifies this`queue
      ensures queue == old(queue)[..|old(queue)| - count]
      ensures batch == Reversed(old(queue)[|old(queue)| - count..])
    {
      batch := [];
      for i := 0 to count
        invariant queue == old(queue)[..|old(queue)| - i]
        invariant |batch| == i
        invariant forall j :: 0 <= j < i ==> batch[j] == old(queue)[|old(queue)| - 1 - j]
      {
        batch := batch + [queue[|queue| - 1]];
        queue := queue[..|queue| - 1];
      }
    }

    method IsIdle() returns (r: bool)
      ensures r == CheckQueueProtocol.IsIdle(View())
    {
      r := total == idle && todo == 0 && allOk;
    }
  }

  /** Runs a batch outside the mutex: the checks up to the first false one are called. */
  method RunBatch(batch: seq<Check>, start: bool) returns (ok: bool, called: seq<Check>)
    ensures ok <==> start && forall i :: 0 <= i < |batch| ==> batch[i].ok
    ensures called <= batch
    ensures forall i :: 0 <= i < |called| - 1 ==> called[i].ok
    ensures !start ==> called == []
    ensures start && |called| < |batch| ==> called != [] && !called[|called| - 1].ok
  {
    ok, called := start, [];
    for i := 0 to |batch|
      invariant ok <==> start && forall j :: 0 <= j < i ==> batch[j].ok
      invariant ok ==> called == batch[..i]
      invariant called <= batch[..i]
      invariant forall j :: 0 <= j < |called| - 1 ==> called[j].ok
      invariant !start ==> called == []
      invariant start && !ok ==> called != [] && !called[|called| - 1].ok
    {
      if ok {
        ok := batch[i].ok;
        called := called + [batch[i]];
      }
    }
  }
}
