/** The parallel verification queue CCheckQueue (src/checkqueue.h) as a transition system.

    One master adds checks and then joins the workers in Loop until everything is
    done; each critical section of the source is one atomic step here, each check is
    run in a step of its own outside the lock, and any interleaving of the steps is
    allowed. Thread 0 is the master. Sessions follow one another without end, and a
    worker's local_result is never reset between them. */
module CheckQueue {
  import opened Wrappers
  import opened Sequences

  /** unsigned int wraps here. */
  const UINT_RANGE: nat := 0x1_0000_0000

  datatype Check = Check(id: nat)
  datatype Error = Error(code: int)

  /** The outcome of running one check: nothing, or an error. */
  type Outcome = Option<Error>

  datatype Phase =
    | Outside                        // the master, between calls
    | Notifying(all: bool)           // the master, leaving Add after its critical section
    | Start                          // about to enter Loop
    | Waiting(woken: bool)           // in cond.wait, asleep or notified
    | Working(batch: seq<Check>, ran: seq<Outcome>, doWork: bool)

  /** A thread with the local_result that outlives its batches. */
  datatype Thread = Thread(phase: Phase, local: Outcome) {
    function Held(): multiset<Check> {
      if phase.Working? then multiset(phase.batch) else multiset{}
    }

    /** All checks of the batch ran, one of them failed, or there was no need to run them. */
    predicate Finished() {
      phase.Working? &&
      (!phase.doWork || |phase.ran| == |phase.batch| || (phase.ran != [] && phase.ran[|phase.ran| - 1].Some?))
    }
  }

  /** What one session did, once its Complete has returned. */
  datatype Session = Session(added: multiset<Check>, ran: seq<(Check, Outcome)>, skipped: multiset<Check>)

  datatype Answer = Answer(session: Session, returned: Outcome)

  datatype State = State(
    queue: seq<Check>,
    nTodo: nat,
    nIdle: nat,
    nTotal: nat,
    result: Outcome,
    threads: seq<Thread>,
    session: Session,
    answers: seq<Answer>)

  const EMPTY_SESSION := Session(multiset{}, [], multiset{})

  // ---------------------------------------------------------------- bookkeeping

  function HeldBy(threads: seq<Thread>): multiset<Check> {
    if threads == [] then multiset{} else threads[0].Held() + HeldBy(threads[1..])
  }

  function CountIdle(threads: seq<Thread>): nat {
    if threads == [] then 0 else (if threads[0].phase.Waiting? then 1 else 0) + CountIdle(threads[1..])
  }

  /** Threads that are inside Loop and have passed its first critical section. */
  function CountEntered(threads: seq<Thread>): nat {
    if threads == [] then 0
    else (if threads[0].phase.Waiting? || threads[0].phase.Working? then 1 else 0) + CountEntered(threads[1..])
  }

  /** The checks of a batch that ran, each with its outcome. */
  function Zip(checks: seq<Check>, ran: seq<Outcome>): (log: seq<(Check, Outcome)>)
    requires |ran| <= |checks|
    ensures |log| == |ran| && forall i :: 0 <= i < |ran| ==> log[i] == (checks[i], ran[i])
  {
    seq(|ran|, i requires 0 <= i < |ran| => (checks[i], ran[i]))
  }

  function ChecksOf(log: seq<(Check, Outcome)>): multiset<Check> {
    if log == [] then multiset{} else multiset{log[0].0} + ChecksOf(log[1..])
  }

  // --------------------------------------------------------------------- steps

  datatype Action =
    | Add(checks: seq<Check>)
    | Notify(who: nat)
    | CallComplete
    | Enter(t: nat)
    | Wake(t: nat)
    | Exec(t: nat, check: Check, outcome: Outcome)   // thread t runs a check, with that outcome
    | Report(t: nat)
    | Spurious(t: nat)

  function SetPhase(s: State, t: nat, p: Phase): State
    requires t < |s.threads|
  {
    s.(threads := s.threads[t := s.threads[t].(phase := p)])
  }

  function Max(a: nat, b: nat): nat { if a < b then b else a }
  function Min(a: nat, b: nat): nat { if a < b then a else b }

  /** How many checks a thread takes at once. */
  function BatchSize(s: State, batchSize: nat): (n: nat)
    requires s.queue != []
    ensures 1 <= n <= |s.queue| && n <= Max(1, batchSize)
  {
    var share := (|s.queue| % UINT_RANGE) / (s.nTotal + s.nIdle + 1);
    assert share <= |s.queue|;
    Max(1, Min(batchSize, share))
  }

  /** The inner while loop, up to releasing the lock: return, wait, or take a batch. */
  function LoopHead(s: State, t: nat, batchSize: nat): State
    requires t < |s.threads|
  {
    if s.queue == [] then
      if t == 0 && s.nTodo == 0 then
        s.(nTotal := if s.nTotal > 0 then s.nTotal - 1 else 0,
           result := None,
           threads := s.threads[0 := Thread(Outside, None)],
           session := EMPTY_SESSION,
           answers := s.answers + [Answer(s.session, s.result)])
      else
        SetPhase(s, t, Waiting(false)).(nIdle := s.nIdle + 1)
    else
      var n := BatchSize(s, batchSize);
      SetPhase(s, t, Working(s.queue[|s.queue| - n..], [], s.result.None?))
        .(queue := s.queue[..|s.queue| - n])
  }

  /** m_master_cv.notify_one(): only the master ever waits there. */
  function WakeMaster(threads: seq<Thread>): seq<Thread>
    requires threads != []
  {
    if threads[0].phase.Waiting? then threads[0 := threads[0].(phase := Waiting(true))] else threads
  }

  function WakeAll(threads: seq<Thread>): seq<Thread> {
    seq(|threads|, i requires 0 <= i < |threads| =>
      if i > 0 && threads[i].phase.Waiting? then threads[i].(phase := Waiting(true)) else threads[i])
  }

  /** The clean-up of the previous loop run, at the start of the critical section. */
  function CleanUp(s: State, t: nat): State
    requires t < |s.threads| && s.threads[t].Finished()
    requires |s.threads[t].phase.ran| <= |s.threads[t].phase.batch|
  {
    var th := s.threads[t];
    var batch, ran := th.phase.batch, th.phase.ran;
    var swap := th.local.Some? && s.result.None?;
    var todo := (s.nTodo + UINT_RANGE - |batch| % UINT_RANGE) % UINT_RANGE;
    var threads := s.threads[t := Thread(Start, if swap then None else th.local)];
    s.(result := if swap then th.local else s.result,
       nTodo := todo,
       threads := if todo == 0 && t != 0 then WakeMaster(threads) else threads,
       session := s.session.(ran := s.session.ran + Zip(batch, ran),
                             skipped := s.session.skipped + multiset(batch[|ran|..])))
  }

  /** The critical section of Add. */
  function Added(s: State, checks: seq<Check>): State
    requires s.threads != []
  {
    SetPhase(s, 0, Notifying(|checks| != 1))
      .(queue := s.queue + checks,
        nTodo := (s.nTodo + |checks|) % UINT_RANGE,
        session := s.session.(added := s.session.added + multiset(checks)))
  }

  predicate Asleep(s: State, t: nat) {
    t < |s.threads| && s.threads[t].phase == Waiting(false)
  }

  ghost predicate Enabled(s: State, a: Action) {
    s.threads != [] &&
    match a
    case Add(_) => s.threads[0].phase.Outside?
    case Notify(who) =>
      s.threads[0].phase.Notifying? &&
      (!s.threads[0].phase.all ==> (who > 0 && Asleep(s, who)) || forall t :: t > 0 ==> !Asleep(s, t))
    case CallComplete => s.threads[0].phase.Outside?
    case Enter(t) => t < |s.threads| && s.threads[t].phase.Start?
    case Wake(t) => t < |s.threads| && s.threads[t].phase == Waiting(true)
    case Exec(t, check, _) =>
      t < |s.threads| && s.threads[t].phase.Working? && !s.threads[t].Finished() &&
      |s.threads[t].phase.ran| < |s.threads[t].phase.batch| && check == s.threads[t].phase.batch[|s.threads[t].phase.ran|]
    case Report(t) =>
      t < |s.threads| && s.threads[t].Finished() && |s.threads[t].phase.ran| <= |s.threads[t].phase.batch|
    case Spurious(t) => Asleep(s, t)
  }

  ghost function Step(s: State, a: Action, batchSize: nat): State
    requires Enabled(s, a)
  {
    match a
    case Add(checks) =>
      if checks == [] then s
      else
        Added(s, checks)
    case Notify(who) =>
      var left := SetPhase(s, 0, Outside);
      if s.threads[0].phase.all then left.(threads := WakeAll(left.threads))
      else if who > 0 && Asleep(s, who) then SetPhase(left, who, Waiting(true))
      else left
    case CallComplete => s.(threads := s.threads[0 := Thread(Start, None)])
    case Enter(t) => LoopHead(s.(nTotal := s.nTotal + 1), t, batchSize)
    case Wake(t) => LoopHead(SetPhase(s, t, Start).(nIdle := if s.nIdle > 0 then s.nIdle - 1 else 0), t, batchSize)
    case Exec(t, _, outcome) =>
      var p := s.threads[t].phase;
      s.(threads := s.threads[t := Thread(p.(ran := p.ran + [outcome]), outcome)])
    case Report(t) => LoopHead(CleanUp(s, t), t, batchSize)
    case Spurious(t) => SetPhase(s, t, Waiting(true))
  }

  /** A queue with its worker threads started and no session yet. */
  predicate Initial(s: State) {
    && s.threads != [] && s.threads[0].phase.Outside?
    && (forall t :: 0 < t < |s.threads| ==> s.threads[t] == Thread(Start, None))
    && s == State([], 0, 0, 0, None, s.threads, EMPTY_SESSION, [])
  }

  ghost predicate IsRun(s: State, actions: seq<Action>, batchSize: nat, end: State)
    decreases |actions|
  {
    if actions == [] then s == end
    else Enabled(s, actions[0]) && IsRun(Step(s, actions[0], batchSize), actions[1..], batchSize, end)
  }

  ghost predicate Reaches(s: State, batchSize: nat, end: State) {
    exists actions :: IsRun(s, actions, batchSize, end)
  }

  /** A state that some run of a queue gets to. */
  ghost predicate Reachable(s: State, batchSize: nat) {
    exists start :: Initial(start) && Reaches(start, batchSize, s)
  }

  // ------------------------------------------------------- what the calls amount to

  /** What a session was about, by its actions alone: the checks added, and the checks run with
      their outcomes. */
  datatype Logged = Logged(added: multiset<Check>, ran: seq<(Check, Outcome)>)

  /** The sessions before the latest, the latest, and whether Complete has been called in it. */
  datatype Log = Log(done: seq<Logged>, current: Logged, closing: bool)

  const EMPTY_LOG := Log([], Logged(multiset{}, []), false)

  /** Reads an action into the log. The first call after Complete begins a new session. */
  function Record(l: Log, a: Action): Log {
    var m := if l.closing && (a.Add? || a.CallComplete?) then Log(l.done + [l.current], Logged(multiset{}, []), false) else l;
    match a
    case Add(checks) => m.(current := m.current.(added := m.current.added + multiset(checks)))
    case CallComplete => m.(closing := true)
    case Exec(_, check, outcome) => m.(current := m.current.(ran := m.current.ran + [(check, outcome)]))
    case _ => m
  }

  function LogOf(l: Log, actions: seq<Action>): Log
    decreases |actions|
  {
    if actions == [] then l else LogOf(Record(l, actions[0]), actions[1..])
  }

  /** The sessions of a run, by its actions alone. */
  function Sessions(actions: seq<Action>): seq<Logged> {
    var l := LogOf(EMPTY_LOG, actions);
    l.done + [l.current]
  }

  /** An answer is right about a session: nothing is returned only if every check added ran and
      passed, and an error only if a check added produced it. */
  ghost predicate RightAbout(logged: Logged, returned: Outcome) {
    match returned
    case None => ChecksOf(logged.ran) == logged.added && AllPassed(logged.ran)
    case Some(e) => exists i :: 0 <= i < |logged.ran| && logged.ran[i].0 in logged.added && logged.ran[i].1 == Some(e)
  }

  /** The i-th answer of a run is right about its i-th session. */
  ghost predicate RightAt(actions: seq<Action>, end: State, i: nat)
    requires i < |end.answers|
  {
    i < |Sessions(actions)| && RightAbout(Sessions(actions)[i], end.answers[i].returned)
  }

  // ------------------------------------------------------------------ invariant

  /** The largest batch a thread can take when `entered` threads are in Loop. */
  function Cap(entered: nat, batchSize: nat): (c: nat)
    ensures c >= 1
  {
    Max(1, Min(batchSize, (UINT_RANGE - 1) / (entered + 1)))
  }

  /** The most checks that many workers can hold at once: the k-th to enter Loop never takes more
      than Cap(k). */
  function Reach(workers: nat, batchSize: nat): nat {
    if workers == 0 then 0 else Reach(workers - 1, batchSize) + Cap(workers, batchSize)
  }

  /** The workers together cannot hold as many checks as it takes to wrap nTodo. */
  predicate Fits(threadCount: nat, batchSize: nat) {
    threadCount > 0 && Reach(threadCount - 1, batchSize) < UINT_RANGE
  }

  predicate Entered(th: Thread) {
    th.phase.Waiting? || th.phase.Working?
  }

  /** `order` lists the workers in Loop as they entered it, and bounds their batches accordingly.
      Thread `head`, if it is a worker, is one of them although it is between two batches. */
  ghost predicate RankedBy(threads: seq<Thread>, order: seq<nat>, batchSize: nat, head: nat) {
    && (forall i :: 0 <= i < |order| ==> 0 < order[i] < |threads|)
    && Distinct(order)
    && (forall i :: 0 <= i < |order| ==> RankOk(threads[order[i]], order[i] == head, i + 1, batchSize))
    && (forall t :: 0 < t < |threads| && (t == head || Entered(threads[t])) ==> t in order)
  }

  ghost predicate RankOk(th: Thread, atHead: bool, rank: nat, batchSize: nat) {
    (atHead || Entered(th)) && |th.Held()| <= Cap(rank, batchSize)
  }

  ghost predicate Ranked(threads: seq<Thread>, batchSize: nat, head: nat) {
    exists order :: RankedBy(threads, order, batchSize, head)
  }

  /** A thread never holds an empty batch nor has run more of it than there is. */
  predicate BatchOk(th: Thread) {
    th.phase.Working? ==> 1 <= |th.phase.batch| && |th.phase.ran| <= |th.phase.batch|
  }

  /** nTodo counts the checks that are queued or in a batch, modulo 2^32. */
  ghost predicate TodoExact(s: State) {
    s.nTodo == (|s.queue| + |HeldBy(s.threads)|) % UINT_RANGE
  }

  /** A sleeping master has work in other hands to wait for. */
  predicate MasterHasReason(s: State) {
    s.threads != [] && s.threads[0].phase == Waiting(false) ==> s.queue == [] && HeldBy(s.threads) != multiset{}
  }

  /** What holds whether or not nTodo can wrap, except for nTotal. */
  ghost predicate Tally(s: State, batchSize: nat, head: nat) {
    && s.threads != [] && TodoExact(s) && s.nIdle == CountIdle(s.threads) && MasterHasReason(s)
    && (forall t :: 0 <= t < |s.threads| ==> BatchOk(s.threads[t]))
    && Ranked(s.threads, batchSize, head)
  }

  /** The invariant of the counters and of the protocol's progress. */
  ghost predicate Counted(s: State, batchSize: nat) {
    Tally(s, batchSize, 0) && s.nTotal == CountEntered(s.threads)
  }

  /** A batch in hand is being run, or an error of this session made running it needless. Once a
      check of it has run, local_result is the outcome of the latest one. */
  predicate ThreadOk(th: Thread, result: Outcome) {
    th.phase.Working? ==>
      && (!th.phase.doWork ==> th.phase.ran == [] && result.Some?)
      && (forall i :: 0 <= i < |th.phase.ran| - 1 ==> th.phase.ran[i].None?)
      && (th.phase.ran != [] ==> th.local == th.phase.ran[|th.phase.ran| - 1])
  }

  predicate ThreadsOk(s: State) {
    forall t :: 0 <= t < |s.threads| ==> ThreadOk(s.threads[t], s.result)
  }

  /** Every check added this session is queued, in a batch, has run, or was skipped. */
  ghost predicate Balanced(s: State) {
    s.session.added == multiset(s.queue) + HeldBy(s.threads) + ChecksOf(s.session.ran) + s.session.skipped
  }

  predicate AllPassed(log: seq<(Check, Outcome)>) {
    forall i :: 0 <= i < |log| ==> log[i].1.None?
  }

  /** m_result is an error of this session; without one, nothing failed and nothing was skipped. */
  predicate ResultOk(result: Outcome, session: Session) {
    match result
    case None => session.skipped == multiset{} && AllPassed(session.ran)
    case Some(e) => exists i :: 0 <= i < |session.ran| && session.ran[i].1 == Some(e)
  }

  /** The answer of Complete is right about its own session. */
  ghost predicate Right(a: Answer) {
    match a.returned
    case None => ChecksOf(a.session.ran) == a.session.added && AllPassed(a.session.ran)
    case Some(e) => exists i :: 0 <= i < |a.session.ran| && a.session.ran[i].0 in a.session.added && a.session.ran[i].1 == Some(e)
  }

  ghost predicate AnswersRight(s: State) {
    forall i :: 0 <= i < |s.answers| ==> Right(s.answers[i])
  }

  /** The session's books are in order and every answer given so far is right. */
  ghost predicate Faithful(s: State) {
    ThreadsOk(s) && Balanced(s) && ResultOk(s.result, s.session) && AnswersRight(s)
  }

  ghost predicate Inv(s: State, batchSize: nat) {
    Counted(s, batchSize) && Fits(|s.threads|, batchSize) && Faithful(s)
  }

  // ------------------------------------------------------- changing one thread

  lemma SwapHeld(rest: multiset<Check>, r: multiset<Check>, x: multiset<Check>, y: multiset<Check>)
    requires x <= r
    ensures x <= rest + r && rest + (r - x + y) == rest + r - x + y
  {
  }

  lemma {:induction false} HeldChanged(threads: seq<Thread>, t: nat, th: Thread)
    requires t < |threads|
    ensures threads[t].Held() <= HeldBy(threads)
    ensures HeldBy(threads[t := th]) == HeldBy(threads) - threads[t].Held() + th.Held()
  {
    var x, y := threads[t].Held(), th.Held();
    if t == 0 {
      assert threads[0 := th][1..] == threads[1..];
      SwapHeld(HeldBy(threads[1..]), x, x, y);
    } else {
      assert threads[t := th][1..] == threads[1..][t - 1 := th];
      HeldChanged(threads[1..], t - 1, th);
      SwapHeld(threads[0].Held(), HeldBy(threads[1..]), x, y);
    }
  }

  lemma {:induction false} IdleChanged(threads: seq<Thread>, t: nat, th: Thread)
    requires t < |threads|
    ensures CountIdle(threads[t := th]) + (if threads[t].phase.Waiting? then 1 else 0)
            == CountIdle(threads) + (if th.phase.Waiting? then 1 else 0)
  {
    if t == 0 {
      assert threads[0 := th][1..] == threads[1..];
    } else {
      assert threads[t := th][1..] == threads[1..][t - 1 := th];
      IdleChanged(threads[1..], t - 1, th);
    }
  }

  lemma {:induction false} EnteredChanged(threads: seq<Thread>, t: nat, th: Thread)
    requires t < |threads|
    ensures CountEntered(threads[t := th]) + (if threads[t].phase.Waiting? || threads[t].phase.Working? then 1 else 0)
            == CountEntered(threads) + (if th.phase.Waiting? || th.phase.Working? then 1 else 0)
  {
    if t == 0 {
      assert threads[0 := th][1..] == threads[1..];
    } else {
      assert threads[t := th][1..] == threads[1..][t - 1 := th];
      EnteredChanged(threads[1..], t - 1, th);
    }
  }

  lemma ThreadChanged(threads: seq<Thread>, t: nat, th: Thread)
    requires t < |threads|
    ensures threads[t].Held() <= HeldBy(threads)
    ensures HeldBy(threads[t := th]) == HeldBy(threads) - threads[t].Held() + th.Held()
    ensures CountIdle(threads[t := th]) + (if threads[t].phase.Waiting? then 1 else 0)
            == CountIdle(threads) + (if th.phase.Waiting? then 1 else 0)
    ensures CountEntered(threads[t := th]) + (if threads[t].phase.Waiting? || threads[t].phase.Working? then 1 else 0)
            == CountEntered(threads) + (if th.phase.Waiting? || th.phase.Working? then 1 else 0)
  {
    hide HeldBy, CountIdle, CountEntered;
    HeldChanged(threads, t, th);
    IdleChanged(threads, t, th);
    EnteredChanged(threads, t, th);
  }

  lemma {:induction false} ChecksOfConcat(a: seq<(Check, Outcome)>, b: seq<(Check, Outcome)>)
    ensures ChecksOf(a + b) == ChecksOf(a) + ChecksOf(b)
  {
    if a == [] {
      assert a + b == b;
    } else {
      assert (a + b)[1..] == a[1..] + b;
      ChecksOfConcat(a[1..], b);
    }
  }

  lemma {:induction false} ChecksOfZip(checks: seq<Check>, ran: seq<Outcome>)
    requires |ran| <= |checks|
    ensures ChecksOf(Zip(checks, ran)) == multiset(checks[..|ran|])
  {
    hide Zip;
    if ran != [] {
      var log := Zip(checks, ran);
      assert log[1..] == Zip(checks[1..], ran[1..]);
      ChecksOfZip(checks[1..], ran[1..]);
      assert ChecksOf(log) == multiset{log[0].0} + ChecksOf(log[1..]);
      assert checks[..|ran|] == [checks[0]] + checks[1..][..|ran| - 1];
    } else {
      assert Zip(checks, ran) == [] && checks[..|ran|] == [];
    }
  }

  lemma {:induction false} ChecksOfContains(log: seq<(Check, Outcome)>, i: nat)
    requires i < |log|
    ensures log[i].0 in ChecksOf(log)
  {
    if i > 0 {
      ChecksOfContains(log[1..], i - 1);
    }
  }

  // ------------------------------------------------------- how much workers hold

  lemma CapFalls(j: nat, k: nat, batchSize: nat)
    requires j <= k
    ensures Cap(k, batchSize) <= Cap(j, batchSize)
  {
    QuotientFalls(UINT_RANGE - 1, j + 1, k + 1);
  }

  lemma QuotientFalls(x: nat, a: nat, b: nat)
    requires 0 < a <= b
    ensures x / b <= x / a
  {
    var q := x / b;
    if x / a < q {
      ProductsGrow(a, b, q);
      ProductsGrow(x / a + 1, q, a);
    }
  }

  lemma ProductsGrow(a: nat, b: nat, q: nat)
    requires a <= b
    ensures a * q <= b * q
  {
  }

  lemma {:induction false} ReachGrows(j: nat, k: nat, batchSize: nat)
    requires j <= k
    ensures Reach(j, batchSize) <= Reach(k, batchSize)
    decreases k
  {
    if j < k { ReachGrows(j, k - 1, batchSize); }
  }

  lemma {:induction false} NobodyHolds(threads: seq<Thread>)
    requires forall t :: 0 <= t < |threads| ==> threads[t].Held() == multiset{}
    ensures HeldBy(threads) == multiset{}
  {
    if threads != [] { NobodyHolds(threads[1..]); }
  }

  /** Taking the last to enter out of the list. */
  lemma RankedWithoutLast(threads: seq<Thread>, order: seq<nat>, batchSize: nat, head: nat)
    requires RankedBy(threads, order, batchSize, head) && order != []
    ensures var last := order[|order| - 1];
            last < |threads| && RankedBy(threads[last := Thread(Outside, None)], order[..|order| - 1], batchSize, if head == last then 0 else head)
  {
    hide Entered, RankOk;
    var last := order[|order| - 1];
    var rest, fewer := order[..|order| - 1], threads[last := Thread(Outside, None)];
    NotEntered();
    assert Distinct(rest) && last !in rest;
    forall i | 0 <= i < |rest| ensures RankOk(fewer[rest[i]], rest[i] == (if head == last then 0 else head), i + 1, batchSize) {
      assert rest[i] != last && RankOk(threads[order[i]], order[i] == head, i + 1, batchSize);
    }
    forall t | 0 < t < |fewer| && t != last && t in order ensures t in rest {
      assert order == rest + [last];
    }
  }

  lemma NotEntered()
    ensures !Entered(Thread(Outside, None))
  {
  }

  lemma {:induction false} HeldRanked(threads: seq<Thread>, order: seq<nat>, batchSize: nat, head: nat)
    requires RankedBy(threads, order, batchSize, head)
    requires threads != [] && threads[0].Held() == multiset{} && (head < |threads| ==> threads[head].Held() == multiset{})
    ensures |HeldBy(threads)| <= Reach(|order|, batchSize)
    decreases |order|
  {
    hide HeldBy, Cap;
    if order == [] {
      NobodyHolds(threads);
    } else {
      var last := order[|order| - 1];
      var none := Thread(Outside, None);
      RankedWithoutLast(threads, order, batchSize, head);
      HeldRanked(threads[last := none], order[..|order| - 1], batchSize, if head == last then 0 else head);
      HeldChanged(threads, last, none);
      HeldSize(HeldBy(threads), threads[last].Held());
    }
  }

  lemma {:induction false} OrderLength(threads: seq<Thread>, order: seq<nat>, batchSize: nat, head: nat)
    requires RankedBy(threads, order, batchSize, head)
    ensures |order| <= CountEntered(threads) + if head == 0 then 0 else 1
    decreases |order|
  {
    hide CountEntered, Cap;
    if order != [] {
      var last := order[|order| - 1];
      var none := Thread(Outside, None);
      RankedWithoutLast(threads, order, batchSize, head);
      OrderLength(threads[last := none], order[..|order| - 1], batchSize, if head == last then 0 else head);
      EnteredChanged(threads, last, none);
    }
  }

  lemma HeldSize(all: multiset<Check>, part: multiset<Check>)
    requires part <= all
    ensures |all - part + multiset{}| == |all| - |part|
  {
    assert all == all - part + part;
  }

  lemma {:induction false} NoMoreThan(order: seq<nat>, n: nat)
    requires forall i :: 0 <= i < |order| ==> 0 < order[i] <= n
    requires Distinct(order)
    ensures |order| <= n
    decreases n
  {
    if order != [] {
      assert 0 < order[0] <= n;
      if exists i :: 0 <= i < |order| && order[i] == n {
        var i :| 0 <= i < |order| && order[i] == n;
        NoMoreThan(order[..i] + order[i + 1..], n - 1);
      } else {
        NoMoreThan(order, n - 1);
      }
    }
  }

  /** However long the queue and whatever the batch size: the workers never hold more than Reach. */
  lemma WorkersHold(threads: seq<Thread>, batchSize: nat)
    requires Ranked(threads, batchSize, 0) && threads != [] && threads[0].Held() == multiset{}
    ensures |HeldBy(threads)| <= Reach(|threads| - 1, batchSize)
  {
    hide HeldBy, Cap;
    var order :| RankedBy(threads, order, batchSize, 0);
    HeldRanked(threads, order, batchSize, 0);
    NoMoreThan(order, |threads| - 1);
    ReachGrows(|order|, |threads| - 1, batchSize);
  }

  lemma NoWrap(s: State, batchSize: nat)
    requires Tally(s, batchSize, 0) && Fits(|s.threads|, batchSize) && s.queue == [] && s.threads[0].Held() == multiset{}
    ensures s.nTodo == 0 <==> HeldBy(s.threads) == multiset{}
  {
    hide HeldBy, CountIdle, Ranked, Reach;
    WorkersHold(s.threads, batchSize);
  }

  // ----------------------------------------------------- keeping the entry order

  /** A thread that enters Loop is the last in the order. */
  lemma RankEnter(threads: seq<Thread>, t: nat, batchSize: nat)
    requires Ranked(threads, batchSize, 0) && t < |threads| && !Entered(threads[t])
    ensures Ranked(threads, batchSize, t)
  {
    hide Cap;
    var order :| RankedBy(threads, order, batchSize, 0);
    if t == 0 {
      assert RankedBy(threads, order, batchSize, t);
    } else {
      assert t !in order;
      assert RankedBy(threads, order + [t], batchSize, t);
    }
  }

  /** A thread in Loop that gives its batch back keeps its place. */
  lemma RankRelease(threads: seq<Thread>, t: nat, th: Thread, batchSize: nat)
    requires Ranked(threads, batchSize, 0) && t < |threads| && Entered(threads[t]) && th.phase.Start?
    ensures Ranked(threads[t := th], batchSize, t)
  {
    hide Cap;
    var order :| RankedBy(threads, order, batchSize, 0);
    assert RankedBy(threads[t := th], order, batchSize, t);
  }

  /** A thread that takes a batch or goes to sleep keeps its place, if the batch is no larger than
      the number of threads in Loop allows. */
  lemma RankSettle(threads: seq<Thread>, t: nat, th: Thread, batchSize: nat)
    requires Ranked(threads, batchSize, t) && t < |threads|
    requires t > 0 ==> Entered(th) && |th.Held()| <= Cap(CountEntered(threads) + 1, batchSize)
    ensures Ranked(threads[t := th], batchSize, 0)
  {
    hide Cap, CountEntered;
    var order :| RankedBy(threads, order, batchSize, t);
    OrderLength(threads, order, batchSize, t);
    var after := threads[t := th];
    forall i | 0 <= i < |order| ensures RankOk(after[order[i]], false, i + 1, batchSize) {
      assert RankOk(threads[order[i]], order[i] == t, i + 1, batchSize);
      if order[i] == t { CapFalls(i + 1, CountEntered(threads) + 1, batchSize); }
    }
    assert RankedBy(after, order, batchSize, 0);
  }

  lemma RankSame(a: seq<Thread>, b: seq<Thread>, batchSize: nat, head: nat)
    requires Ranked(a, batchSize, head) && |a| == |b|
    requires forall t :: 0 < t < |a| ==> a[t].Held() == b[t].Held() && Entered(a[t]) == Entered(b[t])
    ensures Ranked(b, batchSize, head)
  {
    hide Cap;
    var order :| RankedBy(a, order, batchSize, head);
    assert RankedBy(b, order, batchSize, head);
  }

  // ------------------------------------------------------------ the loop head

  /** The state in which a thread reaches the inner while loop: it is counted in nTotal, but
      holds nothing and is not waiting. */
  ghost predicate AtHead(s: State, t: nat, batchSize: nat) {
    && Tally(s, batchSize, t) && t < |s.threads| && s.threads[t].phase.Start?
    && s.nTotal == CountEntered(s.threads) + 1
  }

  lemma ReturnCounted(s: State, batchSize: nat)
    requires AtHead(s, 0, batchSize) && s.queue == [] && s.nTodo == 0
    ensures Counted(LoopHead(s, 0, batchSize), batchSize)
  {
    hide HeldBy, CountIdle, CountEntered, Ranked;
    ThreadChanged(s.threads, 0, Thread(Outside, None));
    RankSettle(s.threads, 0, Thread(Outside, None), batchSize);
  }

  lemma WaitCounted(s: State, t: nat, batchSize: nat)
    requires AtHead(s, t, batchSize) && s.queue == [] && (t != 0 || s.nTodo != 0)
    ensures Counted(LoopHead(s, t, batchSize), batchSize)
    ensures LoopHead(s, t, batchSize) == SetPhase(s, t, Waiting(false)).(nIdle := s.nIdle + 1)
    ensures HeldBy(LoopHead(s, t, batchSize).threads) == HeldBy(s.threads)
  {
    hide HeldBy, CountIdle, CountEntered, Ranked;
    var th := s.threads[t].(phase := Waiting(false));
    ThreadChanged(s.threads, t, th);
    RankSettle(s.threads, t, th, batchSize);
  }

  lemma BatchCapped(s: State, batchSize: nat)
    requires s.queue != []
    ensures BatchSize(s, batchSize) <= Cap(s.nTotal, batchSize)
  {
    var size, all := |s.queue| % UINT_RANGE, s.nTotal + s.nIdle + 1;
    QuotientFalls(size, s.nTotal + 1, all);
    QuotientGrows(size, UINT_RANGE - 1, s.nTotal + 1);
  }

  lemma QuotientGrows(x: nat, y: nat, a: nat)
    requires x <= y && a > 0
    ensures x / a <= y / a
  {
    if y / a < x / a {
      ProductsGrow(y / a + 1, x / a, a);
    }
  }

  /** What taking a batch off the queue does to the state. */
  lemma TakeIs(s: State, t: nat, batchSize: nat) returns (left: seq<Check>, batch: seq<Check>, th: Thread)
    requires t < |s.threads| && s.threads[t].phase.Start? && s.queue != []
    ensures s.queue == left + batch && 1 <= |batch| <= Cap(s.nTotal, batchSize)
    ensures th == s.threads[t].(phase := Working(batch, [], s.result.None?))
    ensures LoopHead(s, t, batchSize) == s.(queue := left, threads := s.threads[t := th])
    ensures HeldBy(s.threads[t := th]) == HeldBy(s.threads) + multiset(batch)
  {
    hide HeldBy, CountIdle, CountEntered, BatchSize, Cap;
    BatchCapped(s, batchSize);
    var n := BatchSize(s, batchSize);
    left, batch := s.queue[..|s.queue| - n], s.queue[|s.queue| - n..];
    th := s.threads[t].(phase := Working(batch, [], s.result.None?));
    HeldChanged(s.threads, t, th);
  }

  lemma TakeCounted(s: State, t: nat, batchSize: nat)
    requires AtHead(s, t, batchSize) && s.queue != []
    ensures Counted(LoopHead(s, t, batchSize), batchSize)
  {
    hide HeldBy, CountIdle, CountEntered, Ranked, Cap, LoopHead;
    var left, batch, th := TakeIs(s, t, batchSize);
    ThreadChanged(s.threads, t, th);
    assert |th.Held()| == |batch|;
    RankSettle(s.threads, t, th, batchSize);
  }

  lemma HeadCounted(s: State, t: nat, batchSize: nat)
    requires AtHead(s, t, batchSize)
    ensures Counted(LoopHead(s, t, batchSize), batchSize)
  {
    hide AtHead, Counted, LoopHead;
    if s.queue != [] {
      TakeCounted(s, t, batchSize);
    } else if t == 0 && s.nTodo == 0 {
      ReturnCounted(s, batchSize);
    } else {
      WaitCounted(s, t, batchSize);
    }
  }

  // -------------------------------------------------------------- the clean-up

  lemma TodoAfter(x: nat, b: nat)
    requires b <= x
    ensures (x % UINT_RANGE + UINT_RANGE - b % UINT_RANGE) % UINT_RANGE == (x - b) % UINT_RANGE
  {
  }

  lemma WakeMasterCounts(threads: seq<Thread>)
    requires threads != []
    ensures HeldBy(WakeMaster(threads)) == HeldBy(threads)
    ensures CountIdle(WakeMaster(threads)) == CountIdle(threads)
    ensures CountEntered(WakeMaster(threads)) == CountEntered(threads)
  {
    assert WakeMaster(threads)[1..] == threads[1..];
  }

  lemma CleanUpCounts(s: State, t: nat)
    requires t < |s.threads| && s.threads[t].Finished()
    requires |s.threads[t].phase.ran| <= |s.threads[t].phase.batch|
    ensures s.threads[t].Held() <= HeldBy(s.threads)
    ensures HeldBy(CleanUp(s, t).threads) == HeldBy(s.threads) - s.threads[t].Held()
    ensures CountIdle(CleanUp(s, t).threads) == CountIdle(s.threads)
    ensures CountEntered(CleanUp(s, t).threads) + 1 == CountEntered(s.threads)
  {
    hide HeldBy, CountIdle, CountEntered, WakeMaster;
    var th := s.threads[t];
    var cleaned := s.threads[t := Thread(Start, if th.local.Some? && s.result.None? then None else th.local)];
    ThreadChanged(s.threads, t, cleaned[t]);
    WakeMasterCounts(cleaned);
    var c := CleanUp(s, t).threads;
    assert c == cleaned || c == WakeMaster(cleaned);
  }

  lemma CleanUpTodo(s: State, t: nat)
    requires TodoExact(s) && t < |s.threads| && s.threads[t].Finished()
    requires |s.threads[t].phase.ran| <= |s.threads[t].phase.batch|
    ensures TodoExact(CleanUp(s, t))
  {
    hide HeldBy, WakeMaster;
    CleanUpCounts(s, t);
    HeldSize(HeldBy(s.threads), s.threads[t].Held());
    TodoAfter(|s.queue| + |HeldBy(s.threads)|, |s.threads[t].phase.batch|);
  }

  /** The last reporter finds nTodo at zero and wakes the master. One that finds it at zero
      because it wrapped wakes the master as well, and no other leaves it without a reason. */
  lemma CleanUpWakesMaster(s: State, t: nat)
    requires MasterHasReason(s) && t < |s.threads| && s.threads[t].Finished() && TodoExact(s)
    requires |s.threads[t].phase.ran| <= |s.threads[t].phase.batch|
    ensures MasterHasReason(CleanUp(s, t))
  {
    hide HeldBy;
    CleanUpTodo(s, t);
  }

  lemma CleanUpRanked(s: State, t: nat, batchSize: nat)
    requires Ranked(s.threads, batchSize, 0) && t < |s.threads| && s.threads[t].Finished()
    requires |s.threads[t].phase.ran| <= |s.threads[t].phase.batch|
    ensures Ranked(CleanUp(s, t).threads, batchSize, t)
  {
    hide Ranked;
    var th := CleanUp(s, t).threads[t];
    RankRelease(s.threads, t, th, batchSize);
    RankSame(s.threads[t := th], CleanUp(s, t).threads, batchSize, t);
  }

  lemma CleanUpReady(s: State, t: nat, batchSize: nat)
    requires Counted(s, batchSize) && t < |s.threads| && s.threads[t].Finished()
    ensures |s.threads[t].phase.ran| <= |s.threads[t].phase.batch| && AtHead(CleanUp(s, t), t, batchSize)
  {
    hide HeldBy, CountIdle, CountEntered, TodoExact, MasterHasReason, Ranked;
    assert BatchOk(s.threads[t]);
    CleanUpCounts(s, t);
    CleanUpTodo(s, t);
    CleanUpWakesMaster(s, t);
    CleanUpRanked(s, t, batchSize);
  }

  // ------------------------------------------------- counters over every step and run

  lemma AddCounts(s: State, checks: seq<Check>)
    requires s.threads != [] && s.threads[0].phase.Outside?
    ensures HeldBy(Added(s, checks).threads) == HeldBy(s.threads)
    ensures CountIdle(Added(s, checks).threads) == CountIdle(s.threads)
    ensures CountEntered(Added(s, checks).threads) == CountEntered(s.threads)
  {
    hide HeldBy, CountIdle, CountEntered;
    ThreadChanged(s.threads, 0, Added(s, checks).threads[0]);
  }

  lemma AddCounted(s: State, checks: seq<Check>, batchSize: nat)
    requires Counted(s, batchSize) && s.threads[0].phase.Outside?
    ensures Counted(Added(s, checks), batchSize)
  {
    hide HeldBy, CountIdle, CountEntered, Ranked;
    AddCounts(s, checks);
    RankSame(s.threads, Added(s, checks).threads, batchSize, 0);
  }

  /** Two threads that hold the same checks and are counted alike. */
  predicate SameKind(a: Thread, b: Thread) {
    && a.Held() == b.Held()
    && a.phase.Waiting? == b.phase.Waiting?
    && a.phase.Working? == b.phase.Working?
  }

  lemma {:induction false} SameKinds(a: seq<Thread>, b: seq<Thread>)
    requires |a| == |b| && forall t :: 0 <= t < |a| ==> SameKind(a[t], b[t])
    ensures HeldBy(a) == HeldBy(b) && CountIdle(a) == CountIdle(b) && CountEntered(a) == CountEntered(b)
  {
    if a != [] {
      SameKinds(a[1..], b[1..]);
    }
  }

  /** The threads after a step that moves no check: it wakes threads, runs a check, or lets the
      master come and go. */
  ghost predicate Quiet(before: seq<Thread>, after: seq<Thread>) {
    && |after| == |before|
    && (forall t :: 0 <= t < |after| ==> SameKind(after[t], before[t]) && (BatchOk(before[t]) ==> BatchOk(after[t])))
    && (after != [] ==> after[0].phase != Waiting(false) || after[0] == before[0])
  }

  lemma QuietCounted(s: State, threads: seq<Thread>, batchSize: nat)
    requires Counted(s, batchSize) && Quiet(s.threads, threads)
    ensures Counted(s.(threads := threads), batchSize)
  {
    hide HeldBy, CountIdle, CountEntered, Ranked, BatchOk;
    SameKinds(threads, s.threads);
    RankSame(s.threads, threads, batchSize, 0);
  }

  predicate QuietAction(a: Action) {
    a.Notify? || a.CallComplete? || a.Exec? || a.Spurious?
  }

  lemma QuietStep(s: State, a: Action, batchSize: nat)
    requires QuietAction(a) && Enabled(s, a)
    ensures Quiet(s.threads, Step(s, a, batchSize).threads)
    ensures Step(s, a, batchSize) == s.(threads := Step(s, a, batchSize).threads)
  {
    hide LoopHead, CleanUp;
    match a
    case Notify(who) => NotifyQuiet(s, who, batchSize);
    case CallComplete =>
    case Exec(t, _, outcome) => OneQuiet(s.threads, t, Step(s, a, batchSize).threads[t]);
    case Spurious(t) => OneQuiet(s.threads, t, Step(s, a, batchSize).threads[t]);
  }

  lemma OneQuiet(threads: seq<Thread>, t: nat, th: Thread)
    requires t < |threads| && SameKind(th, threads[t]) && (BatchOk(threads[t]) ==> BatchOk(th)) && th.phase != Waiting(false)
    ensures Quiet(threads, threads[t := th])
  {
    hide BatchOk;
  }

  lemma NotifyQuiet(s: State, who: nat, batchSize: nat)
    requires Enabled(s, Notify(who))
    ensures Quiet(s.threads, Step(s, Notify(who), batchSize).threads)
    ensures Step(s, Notify(who), batchSize) == s.(threads := Step(s, Notify(who), batchSize).threads)
  {
    hide LoopHead, CleanUp, WakeAll, Quiet;
    var left := s.threads[0 := s.threads[0].(phase := Outside)];
    OneQuiet(s.threads, 0, left[0]);
    if s.threads[0].phase.all {
      WakeAllQuiet(left);
      QuietTrans(s.threads, left, WakeAll(left));
    } else if who > 0 && Asleep(s, who) {
      OneQuiet(left, who, left[who].(phase := Waiting(true)));
      QuietTrans(s.threads, left, left[who := left[who].(phase := Waiting(true))]);
    }
  }

  lemma WakeAllQuiet(threads: seq<Thread>)
    ensures Quiet(threads, WakeAll(threads))
  {
  }

  lemma QuietTrans(a: seq<Thread>, b: seq<Thread>, c: seq<Thread>)
    requires Quiet(a, b) && Quiet(b, c)
    ensures Quiet(a, c)
  {
    hide BatchOk, Thread.Held;
  }

  lemma WakeReady(s: State, t: nat, batchSize: nat)
    requires Counted(s, batchSize) && t < |s.threads| && s.threads[t].phase == Waiting(true)
    ensures s.nIdle > 0 && AtHead(SetPhase(s, t, Start).(nIdle := s.nIdle - 1), t, batchSize)
    ensures HeldBy(SetPhase(s, t, Start).threads) == HeldBy(s.threads)
  {
    hide HeldBy, CountIdle, CountEntered, Ranked;
    ThreadChanged(s.threads, t, s.threads[t].(phase := Start));
    RankRelease(s.threads, t, s.threads[t].(phase := Start), batchSize);
  }

  lemma EnterReady(s: State, t: nat, batchSize: nat)
    requires Counted(s, batchSize) && t < |s.threads| && s.threads[t].phase.Start?
    ensures AtHead(s.(nTotal := s.nTotal + 1), t, batchSize)
  {
    hide HeldBy, CountIdle, CountEntered, Ranked;
    RankEnter(s.threads, t, batchSize);
  }

  /** Every enabled step of every thread keeps the counters exact, and the master never sleeps
      without a reason, however many checks are in flight. */
  lemma StepCounted(s: State, a: Action, batchSize: nat)
    requires Counted(s, batchSize) && Enabled(s, a)
    ensures Counted(Step(s, a, batchSize), batchSize)
  {
    hide Counted, LoopHead, CleanUp, AtHead;
    match a
    case Add(checks) => if checks != [] { AddCounted(s, checks, batchSize); }
    case Enter(t) =>
      EnterReady(s, t, batchSize);
      HeadCounted(s.(nTotal := s.nTotal + 1), t, batchSize);
    case Wake(t) =>
      WakeReady(s, t, batchSize);
      HeadCounted(SetPhase(s, t, Start).(nIdle := s.nIdle - 1), t, batchSize);
    case Report(t) =>
      CleanUpReady(s, t, batchSize);
      HeadCounted(CleanUp(s, t), t, batchSize);
    case _ =>
      QuietStep(s, a, batchSize);
      QuietCounted(s, Step(s, a, batchSize).threads, batchSize);
  }

  lemma {:induction false} NothingHeld(threads: seq<Thread>)
    requires forall t :: 0 <= t < |threads| ==> threads[t].phase.Start? || threads[t].phase.Outside?
    ensures HeldBy(threads) == multiset{} && CountIdle(threads) == 0 && CountEntered(threads) == 0
  {
    if threads != [] {
      NothingHeld(threads[1..]);
    }
  }

  lemma InitialCounted(s: State, batchSize: nat)
    requires Initial(s)
    ensures Counted(s, batchSize) && HeldBy(s.threads) == multiset{}
  {
    NothingHeld(s.threads);
    assert RankedBy(s.threads, [], batchSize, 0);
  }

  lemma {:induction false} RunCounted(s: State, actions: seq<Action>, batchSize: nat, end: State)
    requires Counted(s, batchSize) && IsRun(s, actions, batchSize, end)
    ensures Counted(end, batchSize)
    decreases |actions|
  {
    hide Counted, Step, Enabled;
    if actions != [] {
      StepCounted(s, actions[0], batchSize);
      RunCounted(Step(s, actions[0], batchSize), actions[1..], batchSize, end);
    }
  }

  /** In every reachable state, whatever the number of threads and the batch size: nTodo counts the
      checks that are queued or in the hands of a thread, modulo 2^32, nIdle the waiting and nTotal
      the entered threads. */
  lemma CountersExact(s: State, actions: seq<Action>, batchSize: nat, end: State)
    requires Initial(s) && IsRun(s, actions, batchSize, end)
    ensures end.nTodo == (|end.queue| + |HeldBy(end.threads)|) % UINT_RANGE
    ensures end.nIdle == CountIdle(end.threads) && end.nTotal == CountEntered(end.threads)
  {
    InitialCounted(s, batchSize);
    hide HeldBy, CountIdle, CountEntered, Initial;
    RunCounted(s, actions, batchSize, end);
  }

  lemma WithoutMaster(threads: seq<Thread>, batchSize: nat)
    requires Ranked(threads, batchSize, 0) && threads != []
    ensures |HeldBy(threads[1..])| <= Reach(|threads| - 1, batchSize)
  {
    hide Ranked, Reach;
    var idle := threads[0 := Thread(Outside, None)];
    assert idle[1..] == threads[1..] && HeldBy(idle) == HeldBy(threads[1..]);
    RankSame(threads, idle, batchSize, 0);
    WorkersHold(idle, batchSize);
  }

  /** In every reachable state the workers hold at most Reach checks between them. */
  lemma HeldByWorkers(s: State, actions: seq<Action>, batchSize: nat, end: State)
    requires Initial(s) && IsRun(s, actions, batchSize, end)
    ensures end.threads != [] && |HeldBy(end.threads[1..])| <= Reach(|end.threads| - 1, batchSize)
  {
    hide HeldBy, CountIdle, CountEntered, Initial, Reach, Ranked;
    InitialCounted(s, batchSize);
    RunCounted(s, actions, batchSize, end);
    WithoutMaster(end.threads, batchSize);
  }

  // --------------------------------------------------------- the books of a session

  lemma EmptyHanded(threads: seq<Thread>, t: nat)
    requires HeldBy(threads) == multiset{} && t < |threads| && BatchOk(threads[t])
    ensures !threads[t].phase.Working?
  {
    HeldChanged(threads, t, threads[t]);
    assert |threads[t].Held()| == 0;
  }

  lemma AnswerRight(s: State)
    requires Faithful(s) && s.queue == [] && HeldBy(s.threads) == multiset{}
    ensures Right(Answer(s.session, s.result))
  {
    match s.result
    case None =>
    case Some(e) =>
      var i :| 0 <= i < |s.session.ran| && s.session.ran[i].1 == Some(e);
      ChecksOfContains(s.session.ran, i);
      assert s.session.ran[i].0 in s.session.added;
  }

  lemma ReturnFaithful(s: State, batchSize: nat)
    requires AtHead(s, 0, batchSize) && Fits(|s.threads|, batchSize) && Faithful(s) && s.queue == [] && s.nTodo == 0
    ensures Faithful(LoopHead(s, 0, batchSize))
  {
    hide HeldBy, CountIdle, CountEntered, Right, Fits, Ranked;
    NoWrap(s, batchSize);
    AnswerRight(s);
    var r := LoopHead(s, 0, batchSize);
    HeldChanged(s.threads, 0, Thread(Outside, None));
    forall t | 0 <= t < |r.threads| ensures ThreadOk(r.threads[t], r.result) {
      EmptyHanded(s.threads, t);
    }
    assert ChecksOf([]) == multiset{};
    assert HeldBy(r.threads) == multiset{};
  }

  lemma WaitFaithful(s: State, t: nat, batchSize: nat)
    requires AtHead(s, t, batchSize) && Faithful(s) && s.queue == [] && (t != 0 || s.nTodo != 0)
    ensures Faithful(LoopHead(s, t, batchSize))
  {
    hide HeldBy, ChecksOf, Right, LoopHead, Tally, CountEntered, ResultOk;
    WaitCounted(s, t, batchSize);
  }

  /** Moving checks from the queue into a batch changes no total. */
  lemma TakeBalanced(s: State, left: seq<Check>, batch: seq<Check>, threads: seq<Thread>)
    requires Balanced(s) && s.queue == left + batch
    requires HeldBy(threads) == HeldBy(s.threads) + multiset(batch)
    ensures Balanced(s.(queue := left, threads := threads))
  {
    hide HeldBy, ChecksOf;
    assert multiset(s.queue) == multiset(left) + multiset(batch);
  }

  lemma TakeFaithful(s: State, t: nat, batchSize: nat)
    requires t < |s.threads| && s.threads[t].phase.Start? && Faithful(s) && s.queue != []
    ensures Faithful(LoopHead(s, t, batchSize))
  {
    hide HeldBy, Right, ResultOk, Balanced, LoopHead;
    var left, batch, th := TakeIs(s, t, batchSize);
    TakeBalanced(s, left, batch, s.threads[t := th]);
  }

  lemma HeadFaithful(s: State, t: nat, batchSize: nat)
    requires AtHead(s, t, batchSize) && Fits(|s.threads|, batchSize) && Faithful(s)
    ensures Faithful(LoopHead(s, t, batchSize))
  {
    if s.queue != [] {
      TakeFaithful(s, t, batchSize);
    } else if t == 0 && s.nTodo == 0 {
      ReturnFaithful(s, batchSize);
    } else {
      WaitFaithful(s, t, batchSize);
    }
  }

  /** The clean-up publishes an error only if a check of this very batch produced it: a stale
      local_result meets an m_result that is already set. */
  lemma CleanUpResult(s: State, t: nat)
    requires ResultOk(s.result, s.session) && t < |s.threads| && s.threads[t].Finished() && ThreadOk(s.threads[t], s.result)
    requires BatchOk(s.threads[t])
    ensures ResultOk(CleanUp(s, t).result, CleanUp(s, t).session)
    ensures s.result.Some? ==> CleanUp(s, t).result.Some?
  {
    hide WakeMaster;
    var th := s.threads[t];
    var batch, ran := th.phase.batch, th.phase.ran;
    var c := CleanUp(s, t);
    var log := c.session.ran;
    assert log == s.session.ran + Zip(batch, ran);
    match c.result
    case Some(e) =>
      if s.result.Some? {
        var i :| 0 <= i < |s.session.ran| && s.session.ran[i].1 == Some(e);
        assert log[i].1 == Some(e);
      } else {
        assert log[|log| - 1].1 == Some(e);
      }
    case None =>
      assert |ran| == |batch| && batch[|ran|..] == [];
  }

  /** A reported batch moves from the hands of a thread to the checks that ran or were skipped. */
  lemma ReportBalance(queued: multiset<Check>, held: multiset<Check>, ran: multiset<Check>, skipped: multiset<Check>,
                      run: multiset<Check>, left: multiset<Check>)
    requires run + left <= held
    ensures queued + held + ran + skipped == queued + (held - (run + left)) + (ran + run) + (skipped + left)
  {
  }

  lemma CleanUpMoves(s: State, t: nat, run: multiset<Check>, left: multiset<Check>)
    requires t < |s.threads| && s.threads[t].Finished()
    requires |s.threads[t].phase.ran| <= |s.threads[t].phase.batch|
    requires var p := s.threads[t].phase; run == multiset(p.batch[..|p.ran|]) && left == multiset(p.batch[|p.ran|..])
    ensures run + left <= HeldBy(s.threads) && HeldBy(CleanUp(s, t).threads) == HeldBy(s.threads) - (run + left)
    ensures ChecksOf(CleanUp(s, t).session.ran) == ChecksOf(s.session.ran) + run
    ensures CleanUp(s, t).session.skipped == s.session.skipped + left
  {
    hide HeldBy, ChecksOf, WakeMaster;
    var batch, ran := s.threads[t].phase.batch, s.threads[t].phase.ran;
    assert batch == batch[..|ran|] + batch[|ran|..];
    CleanUpCounts(s, t);
    ChecksOfConcat(s.session.ran, Zip(batch, ran));
    ChecksOfZip(batch, ran);
  }

  lemma CleanUpBalanced(s: State, t: nat)
    requires Balanced(s) && t < |s.threads| && s.threads[t].Finished()
    requires |s.threads[t].phase.ran| <= |s.threads[t].phase.batch|
    ensures Balanced(CleanUp(s, t))
  {
    hide HeldBy, ChecksOf, WakeMaster, Zip;
    var batch, ran := s.threads[t].phase.batch, s.threads[t].phase.ran;
    var run, left := multiset(batch[..|ran|]), multiset(batch[|ran|..]);
    CleanUpMoves(s, t, run, left);
    ReportBalance(multiset(s.queue), HeldBy(s.threads), ChecksOf(s.session.ran), s.session.skipped, run, left);
  }

  lemma CleanUpFaithful(s: State, t: nat)
    requires Faithful(s) && t < |s.threads| && s.threads[t].Finished() && BatchOk(s.threads[t])
    ensures Faithful(CleanUp(s, t))
  {
    hide Balanced, ResultOk, Right, Zip;
    assert ThreadOk(s.threads[t], s.result);
    CleanUpResult(s, t);
    CleanUpBalanced(s, t);
    var c := CleanUp(s, t);
    forall u | 0 <= u < |c.threads| ensures ThreadOk(c.threads[u], c.result) {
      assert ThreadOk(s.threads[u], s.result);
    }
  }

  lemma AddBalanced(s: State, checks: seq<Check>)
    requires Balanced(s) && s.threads != [] && s.threads[0].phase.Outside?
    ensures Balanced(Added(s, checks))
  {
    hide HeldBy, CountIdle, CountEntered, ChecksOf;
    AddCounts(s, checks);
    assert multiset(s.queue + checks) == multiset(s.queue) + multiset(checks);
  }

  lemma AddFaithful(s: State, checks: seq<Check>)
    requires Faithful(s) && s.threads != [] && s.threads[0].phase.Outside?
    ensures Faithful(Added(s, checks))
  {
    hide Balanced, Right;
    AddBalanced(s, checks);
  }

  lemma QuietFaithful(s: State, threads: seq<Thread>)
    requires Faithful(s) && Quiet(s.threads, threads) && ThreadsOk(s.(threads := threads))
    ensures Faithful(s.(threads := threads))
  {
    hide HeldBy, CountIdle, CountEntered, ChecksOf, Right, ResultOk, ThreadOk, BatchOk;
    SameKinds(threads, s.threads);
  }

  lemma QuietThread(s: State, a: Action, batchSize: nat, t: nat)
    requires QuietAction(a) && Enabled(s, a) && t < |s.threads| && ThreadOk(s.threads[t], s.result)
    ensures |Step(s, a, batchSize).threads| == |s.threads| && ThreadOk(Step(s, a, batchSize).threads[t], s.result)
  {
    hide LoopHead, CleanUp;
    match a
    case Notify(who) =>
    case CallComplete =>
    case Exec(u, _, outcome) =>
    case Spurious(u) =>
  }

  lemma QuietThreads(s: State, a: Action, batchSize: nat)
    requires QuietAction(a) && Enabled(s, a) && ThreadsOk(s)
    ensures ThreadsOk(s.(threads := Step(s, a, batchSize).threads))
  {
    QuietThread(s, a, batchSize, 0);
    hide Step, Enabled, ThreadOk;
    forall t | 0 <= t < |Step(s, a, batchSize).threads| ensures ThreadOk(Step(s, a, batchSize).threads[t], s.result) {
      QuietThread(s, a, batchSize, t);
    }
  }

  lemma WakeFaithful(s: State, t: nat, batchSize: nat)
    requires Faithful(s) && Counted(s, batchSize) && t < |s.threads| && s.threads[t].phase == Waiting(true)
    ensures s.nIdle > 0 && Faithful(SetPhase(s, t, Start).(nIdle := s.nIdle - 1))
  {
    hide HeldBy, ChecksOf, Right, Counted, AtHead;
    WakeReady(s, t, batchSize);
  }

  lemma StepFaithful(s: State, a: Action, batchSize: nat)
    requires Inv(s, batchSize) && Enabled(s, a)
    ensures Faithful(Step(s, a, batchSize)) && |Step(s, a, batchSize).threads| == |s.threads|
  {
    hide Counted, Faithful, LoopHead, CleanUp, AtHead, Fits;
    match a
    case Add(checks) => if checks != [] { AddFaithful(s, checks); }
    case Enter(t) =>
      EnterReady(s, t, batchSize);
      var r := s.(nTotal := s.nTotal + 1);
      SameBooks(s, r);
      HeadFaithful(r, t, batchSize);
      HeadThreads(r, t, batchSize);
    case Wake(t) =>
      WakeReady(s, t, batchSize);
      WakeFaithful(s, t, batchSize);
      HeadFaithful(SetPhase(s, t, Start).(nIdle := s.nIdle - 1), t, batchSize);
      HeadThreads(SetPhase(s, t, Start).(nIdle := s.nIdle - 1), t, batchSize);
    case Report(t) =>
      CleanUpReady(s, t, batchSize);
      BatchFits(s, t, batchSize);
      CleanUpFaithful(s, t);
      CleanUpLength(s, t);
      HeadFaithful(CleanUp(s, t), t, batchSize);
      HeadThreads(CleanUp(s, t), t, batchSize);
    case _ =>
      QuietStep(s, a, batchSize);
      FaithfulThreads(s);
      QuietThreads(s, a, batchSize);
      QuietFaithful(s, Step(s, a, batchSize).threads);
  }

  lemma FaithfulThreads(s: State)
    requires Faithful(s)
    ensures ThreadsOk(s)
  {
  }

  lemma SameBooks(s: State, r: State)
    requires Faithful(s) && r == s.(nTotal := r.nTotal)
    ensures Faithful(r)
  {
    hide Right;
  }

  lemma HeadThreads(s: State, t: nat, batchSize: nat)
    requires t < |s.threads|
    ensures |LoopHead(s, t, batchSize).threads| == |s.threads|
  {
  }

  lemma CleanUpLength(s: State, t: nat)
    requires t < |s.threads| && s.threads[t].Finished() && |s.threads[t].phase.ran| <= |s.threads[t].phase.batch|
    ensures |CleanUp(s, t).threads| == |s.threads|
  {
  }

  lemma StepKeeps(s: State, a: Action, batchSize: nat)
    requires Inv(s, batchSize) && Enabled(s, a)
    ensures Inv(Step(s, a, batchSize), batchSize)
  {
    hide Counted, Faithful, Step, Enabled, Fits;
    StepCounted(s, a, batchSize);
    StepFaithful(s, a, batchSize);
  }

  lemma InitialInv(s: State, batchSize: nat)
    requires Initial(s) && Fits(|s.threads|, batchSize)
    ensures Inv(s, batchSize)
  {
    InitialCounted(s, batchSize);
    hide Counted;
    assert ChecksOf(s.session.ran) == multiset{};
  }

  // ------------------------------------------------------ the books agree with the log

  function RanBy(th: Thread): multiset<(Check, Outcome)> {
    if th.phase.Working? && |th.phase.ran| <= |th.phase.batch| then multiset(Zip(th.phase.batch, th.phase.ran)) else multiset{}
  }

  /** What the threads have run of the batches in their hands. */
  function InProgress(threads: seq<Thread>): multiset<(Check, Outcome)> {
    if threads == [] then multiset{} else RanBy(threads[0]) + InProgress(threads[1..])
  }

  lemma SwapRan(rest: multiset<(Check, Outcome)>, r: multiset<(Check, Outcome)>, x: multiset<(Check, Outcome)>, y: multiset<(Check, Outcome)>)
    requires x <= r
    ensures x <= rest + r && rest + (r - x + y) == rest + r - x + y
  {
  }

  lemma {:induction false} ProgressChanged(threads: seq<Thread>, t: nat, th: Thread)
    requires t < |threads|
    ensures RanBy(threads[t]) <= InProgress(threads)
    ensures InProgress(threads[t := th]) == InProgress(threads) - RanBy(threads[t]) + RanBy(th)
  {
    hide RanBy;
    var x, y := RanBy(threads[t]), RanBy(th);
    if t == 0 {
      assert threads[0 := th][1..] == threads[1..];
      SwapRan(InProgress(threads[1..]), x, x, y);
    } else {
      assert threads[t := th][1..] == threads[1..][t - 1 := th];
      ProgressChanged(threads[1..], t - 1, th);
      SwapRan(RanBy(threads[0]), InProgress(threads[1..]), x, y);
    }
  }

  lemma {:induction false} NoProgress(threads: seq<Thread>)
    requires HeldBy(threads) == multiset{} && forall t :: 0 <= t < |threads| ==> BatchOk(threads[t])
    ensures InProgress(threads) == multiset{}
    ensures forall t :: 0 <= t < |threads| ==> !threads[t].phase.Working?
  {
    if threads != [] {
      EmptyHanded(threads, 0);
      assert threads[0].Held() == multiset{};
      NoProgress(threads[1..]);
      forall t | 0 <= t < |threads| ensures !threads[t].phase.Working? {
        if t > 0 { assert threads[t] == threads[1..][t - 1]; }
      }
    }
  }

  /** The books of a session hold what its actions were. */
  ghost predicate Matches(session: Session, logged: Logged) {
    session.added == logged.added && multiset(session.ran) == multiset(logged.ran)
  }

  /** Complete has been called, and has returned. */
  predicate Returned(s: State, l: Log) {
    l.closing && s.threads != [] && s.threads[0].phase.Outside?
  }

  ghost predicate Open(s: State, l: Log) {
    s.session.added == l.current.added && multiset(l.current.ran) == multiset(s.session.ran) + InProgress(s.threads)
  }

  ghost predicate Recorded(s: State, l: Log) {
    && s.threads != [] && (if l.closing then !s.threads[0].phase.Notifying? else s.threads[0].phase.Outside? || s.threads[0].phase.Notifying?)
    && |s.answers| == |l.done| + (if Returned(s, l) then 1 else 0)
    && (forall i :: 0 <= i < |l.done| ==> Matches(s.answers[i].session, l.done[i]))
    && (if Returned(s, l) then
          Matches(s.answers[|l.done|].session, l.current) && s.session == EMPTY_SESSION && s.queue == [] && HeldBy(s.threads) == multiset{}
        else Open(s, l))
  }

  /** A thread that reaches the loop head: nobody has returned who is not outside. */
  lemma HeadRecorded(s: State, t: nat, batchSize: nat, l: Log)
    requires AtHead(s, t, batchSize) && Fits(|s.threads|, batchSize) && Recorded(s, l)
    ensures Recorded(LoopHead(s, t, batchSize), l)
  {
    hide HeldBy, CountIdle, CountEntered, Ranked, Fits, InProgress;
    if s.queue != [] {
      TakeRecorded(s, t, batchSize, l);
    } else if t == 0 && s.nTodo == 0 {
      ReturnRecorded(s, batchSize, l);
    } else {
      WaitRecorded(s, t, batchSize, l);
    }
  }

  lemma TakeRecorded(s: State, t: nat, batchSize: nat, l: Log)
    requires t < |s.threads| && s.threads[t].phase.Start? && s.queue != [] && Recorded(s, l)
    ensures Recorded(LoopHead(s, t, batchSize), l)
  {
    hide HeldBy, LoopHead, InProgress, Cap;
    var left, batch, th := TakeIs(s, t, batchSize);
    ProgressChanged(s.threads, t, th);
    StartRanNothing(s.threads[t], th);
  }

  lemma StartRanNothing(a: Thread, b: Thread)
    ensures !a.phase.Working? ==> RanBy(a) == multiset{}
    ensures b.phase.Working? && b.phase.ran == [] ==> RanBy(b) == multiset{}
  {
  }

  lemma WaitRecorded(s: State, t: nat, batchSize: nat, l: Log)
    requires AtHead(s, t, batchSize) && s.queue == [] && (t != 0 || s.nTodo != 0) && Recorded(s, l)
    ensures Recorded(LoopHead(s, t, batchSize), l)
  {
    hide HeldBy, LoopHead, InProgress, Tally, CountEntered;
    WaitCounted(s, t, batchSize);
    var th := s.threads[t].(phase := Waiting(false));
    ProgressChanged(s.threads, t, th);
    StartRanNothing(s.threads[t], th);
    StartRanNothing(th, th);
  }

  lemma ReturnRecorded(s: State, batchSize: nat, l: Log)
    requires AtHead(s, 0, batchSize) && Fits(|s.threads|, batchSize) && Recorded(s, l) && s.queue == [] && s.nTodo == 0
    ensures Recorded(LoopHead(s, 0, batchSize), l)
  {
    hide HeldBy, CountIdle, CountEntered, Ranked, Fits, InProgress;
    NoWrap(s, batchSize);
    NoProgress(s.threads);
    HeldChanged(s.threads, 0, Thread(Outside, None));
    assert Matches(s.session, l.current);
  }

  lemma CleanUpRecorded(s: State, t: nat, l: Log)
    requires Recorded(s, l) && t < |s.threads| && s.threads[t].Finished() && BatchOk(s.threads[t])
    ensures Recorded(CleanUp(s, t), l)
  {
    hide HeldBy, InProgress, CleanUp, Matches, Open;
    assert !Returned(s, l) by {
      if HeldBy(s.threads) == multiset{} { EmptyHanded(s.threads, t); }
    }
    CleanUpOpen(s, t, l);
    CleanUpMaster(s, t);
  }

  lemma CleanUpMaster(s: State, t: nat)
    requires t < |s.threads| && s.threads[t].Finished() && |s.threads[t].phase.ran| <= |s.threads[t].phase.batch|
    ensures CleanUp(s, t).threads != [] && CleanUp(s, t).answers == s.answers
    ensures CleanUp(s, t).threads[0].phase.Outside? <==> s.threads[0].phase.Outside?
    ensures CleanUp(s, t).threads[0].phase.Notifying? <==> s.threads[0].phase.Notifying?
  {
  }

  lemma CleanUpOpen(s: State, t: nat, l: Log)
    requires Open(s, l) && t < |s.threads| && s.threads[t].Finished() && |s.threads[t].phase.ran| <= |s.threads[t].phase.batch|
    ensures Open(CleanUp(s, t), l)
  {
    hide InProgress, Zip;
    var c := CleanUp(s, t);
    var cleaned := s.threads[t := c.threads[t]];
    ProgressChanged(s.threads, t, c.threads[t]);
    ProgressChanged(cleaned, 0, c.threads[0]);
    assert c.threads == cleaned[0 := c.threads[0]];
    assert RanBy(c.threads[t]) == multiset{};
    assert RanBy(c.threads[0]) == RanBy(cleaned[0]);
    assert multiset(c.session.ran) == multiset(s.session.ran) + RanBy(s.threads[t]);
    ReportRan(multiset(s.session.ran), InProgress(s.threads), RanBy(s.threads[t]), RanBy(cleaned[0]), InProgress(c.threads));
  }

  lemma ReportRan(done: multiset<(Check, Outcome)>, all: multiset<(Check, Outcome)>, part: multiset<(Check, Outcome)>,
                  same: multiset<(Check, Outcome)>, left: multiset<(Check, Outcome)>)
    requires part <= all && same <= all - part + multiset{} && left == all - part + multiset{} - same + same
    ensures done + all == done + part + left
  {
  }

  lemma AddRecorded(s: State, checks: seq<Check>, l: Log)
    requires Recorded(s, l) && s.threads[0].phase.Outside? && forall t :: 0 <= t < |s.threads| ==> BatchOk(s.threads[t])
    ensures Recorded(if checks == [] then s else Added(s, checks), Record(l, Add(checks)))
  {
    hide HeldBy, InProgress;
    if Returned(s, l) {
      NoProgress(s.threads);
      NewDone(s, l);
    }
    var th := s.threads[0].(phase := Notifying(|checks| != 1));
    ProgressChanged(s.threads, 0, th);
    StartRanNothing(s.threads[0], th);
    StartRanNothing(th, th);
    assert checks == [] ==> multiset(checks) == multiset{};
  }

  /** When a new session begins, the answer of the last one joins those of the others. */
  lemma NewDone(s: State, l: Log)
    requires Recorded(s, l) && Returned(s, l)
    ensures forall i :: 0 <= i < |l.done + [l.current]| ==> Matches(s.answers[i].session, (l.done + [l.current])[i])
  {
  }

  lemma CallRecorded(s: State, l: Log)
    requires Recorded(s, l) && s.threads[0].phase.Outside? && forall t :: 0 <= t < |s.threads| ==> BatchOk(s.threads[t])
    ensures Recorded(s.(threads := s.threads[0 := Thread(Start, None)]), Record(l, CallComplete))
  {
    hide HeldBy, InProgress;
    if Returned(s, l) {
      NoProgress(s.threads);
      NewDone(s, l);
    }
    var th := Thread(Start, None);
    ProgressChanged(s.threads, 0, th);
    StartRanNothing(s.threads[0], th);
    StartRanNothing(th, th);
  }

  lemma ExecRecorded(s: State, t: nat, check: Check, outcome: Outcome, batchSize: nat, l: Log)
    requires Recorded(s, l) && Enabled(s, Exec(t, check, outcome)) && BatchOk(s.threads[t])
    ensures Recorded(Step(s, Exec(t, check, outcome), batchSize), Record(l, Exec(t, check, outcome)))
  {
    hide HeldBy, InProgress;
    assert !Returned(s, l) by {
      if HeldBy(s.threads) == multiset{} { EmptyHanded(s.threads, t); }
    }
    var p := s.threads[t].phase;
    var th := Thread(p.(ran := p.ran + [outcome]), outcome);
    ProgressChanged(s.threads, t, th);
    assert Zip(p.batch, p.ran + [outcome]) == Zip(p.batch, p.ran) + [(check, outcome)];
    assert RanBy(th) == RanBy(s.threads[t]) + multiset{(check, outcome)};
  }

  lemma {:induction false} SameProgress(a: seq<Thread>, b: seq<Thread>)
    requires |a| == |b| && forall t :: 0 <= t < |a| ==> RanBy(a[t]) == RanBy(b[t])
    ensures InProgress(a) == InProgress(b)
  {
    hide RanBy;
    if a != [] { SameProgress(a[1..], b[1..]); }
  }

  /** Steps that run nothing and do not move the master between inside and outside. */
  lemma QuietRecorded(s: State, threads: seq<Thread>, l: Log)
    requires Recorded(s, l) && Quiet(s.threads, threads) && forall t :: 0 <= t < |threads| ==> RanBy(threads[t]) == RanBy(s.threads[t])
    requires threads[0].phase == s.threads[0].phase || (s.threads[0].phase.Notifying? && threads[0].phase.Outside?)
             || (s.threads[0].phase.Waiting? && threads[0].phase.Waiting?)
    ensures Recorded(s.(threads := threads), l)
  {
    hide HeldBy, InProgress, RanBy, BatchOk, CountIdle, CountEntered;
    SameProgress(threads, s.threads);
    SameKinds(threads, s.threads);
  }

  lemma WakingRecorded(s: State, a: Action, batchSize: nat, l: Log)
    requires Recorded(s, l) && (a.Notify? || a.Spurious?) && Enabled(s, a)
    ensures Recorded(Step(s, a, batchSize), Record(l, a))
  {
    QuietStep(s, a, batchSize);
    var threads := Step(s, a, batchSize).threads;
    hide LoopHead, CleanUp, Quiet, Recorded;
    forall t | 0 <= t < |threads| ensures RanBy(threads[t]) == RanBy(s.threads[t]) { WakingRan(s, a, batchSize, t); }
    WakingMaster(s, a, batchSize);
    QuietRecorded(s, threads, l);
  }

  lemma WakingRan(s: State, a: Action, batchSize: nat, t: nat)
    requires (a.Notify? || a.Spurious?) && Enabled(s, a) && t < |Step(s, a, batchSize).threads|
    ensures t < |s.threads| && RanBy(Step(s, a, batchSize).threads[t]) == RanBy(s.threads[t])
  {
    hide LoopHead, CleanUp;
    match a
    case Notify(who) =>
    case Spurious(u) =>
  }

  lemma WakingMaster(s: State, a: Action, batchSize: nat)
    requires (a.Notify? || a.Spurious?) && Enabled(s, a)
    ensures var threads := Step(s, a, batchSize).threads;
            threads != [] && (threads[0].phase == s.threads[0].phase || (s.threads[0].phase.Notifying? && threads[0].phase.Outside?)
                              || (s.threads[0].phase.Waiting? && threads[0].phase.Waiting?))
  {
    hide LoopHead, CleanUp;
    match a
    case Notify(who) =>
    case Spurious(u) =>
  }

  lemma WakeRecorded(s: State, t: nat, batchSize: nat, l: Log)
    requires Recorded(s, l) && Counted(s, batchSize) && t < |s.threads| && s.threads[t].phase == Waiting(true)
    ensures s.nIdle > 0 && Recorded(SetPhase(s, t, Start).(nIdle := s.nIdle - 1), l)
  {
    hide HeldBy, InProgress, Counted, AtHead;
    WakeReady(s, t, batchSize);
    var th := s.threads[t].(phase := Start);
    ProgressChanged(s.threads, t, th);
    StartRanNothing(s.threads[t], th);
    StartRanNothing(th, th);
  }

  lemma EnterRecorded(s: State, l: Log)
    requires Recorded(s, l)
    ensures Recorded(s.(nTotal := s.nTotal + 1), l)
  {
    hide HeldBy, InProgress;
  }

  lemma AllBatchesOk(s: State, batchSize: nat)
    requires Counted(s, batchSize)
    ensures s.threads != [] && forall t :: 0 <= t < |s.threads| ==> BatchOk(s.threads[t])
  {
  }

  /** Every step keeps the books in line with what the actions say. */
  lemma StepRecorded(s: State, a: Action, batchSize: nat, l: Log)
    requires Inv(s, batchSize) && Enabled(s, a) && Recorded(s, l)
    ensures Recorded(Step(s, a, batchSize), Record(l, a))
  {
    hide Counted, Faithful, LoopHead, CleanUp, AtHead, Fits, Recorded;
    AllBatchesOk(s, batchSize);
    match a
    case Add(checks) => AddRecorded(s, checks, l);
    case CallComplete => CallRecorded(s, l);
    case Exec(t, check, outcome) => ExecRecorded(s, t, check, outcome, batchSize, l);
    case Enter(t) =>
      EnterReady(s, t, batchSize);
      EnterRecorded(s, l);
      HeadRecorded(s.(nTotal := s.nTotal + 1), t, batchSize, l);
    case Wake(t) =>
      WakeReady(s, t, batchSize);
      WakeRecorded(s, t, batchSize, l);
      HeadRecorded(SetPhase(s, t, Start).(nIdle := s.nIdle - 1), t, batchSize, l);
    case Report(t) =>
      CleanUpReady(s, t, batchSize);
      CleanUpRecorded(s, t, l);
      CleanUpLength(s, t);
      HeadRecorded(CleanUp(s, t), t, batchSize, l);
    case _ => WakingRecorded(s, a, batchSize, l);
  }

  lemma {:induction false} RunRecorded(s: State, actions: seq<Action>, batchSize: nat, end: State, l: Log)
    requires Inv(s, batchSize) && IsRun(s, actions, batchSize, end) && Recorded(s, l)
    ensures Inv(end, batchSize) && Recorded(end, LogOf(l, actions))
    decreases |actions|
  {
    hide Inv, Step, Enabled, Recorded, Record;
    if actions != [] {
      StepKeeps(s, actions[0], batchSize);
      StepRecorded(s, actions[0], batchSize, l);
      RunRecorded(Step(s, actions[0], batchSize), actions[1..], batchSize, end, Record(l, actions[0]));
    }
  }

  lemma InitialRecorded(s: State, batchSize: nat)
    requires Initial(s)
    ensures Recorded(s, EMPTY_LOG)
  {
    InitialCounted(s, batchSize);
    AllBatchesOk(s, batchSize);
    NoProgress(s.threads);
  }

  lemma {:induction false} ChecksOfElement(log: seq<(Check, Outcome)>, i: nat)
    requires i < |log|
    ensures ChecksOf(log) == multiset{log[i].0} + ChecksOf(log[..i] + log[i + 1..])
  {
    if i == 0 {
      assert log[..0] + log[1..] == log[1..];
    } else {
      var rest := log[..i] + log[i + 1..];
      ChecksOfElement(log[1..], i - 1);
      assert log[1..][..i - 1] + log[1..][i..] == rest[1..];
    }
  }

  lemma WithoutOne(log: seq<(Check, Outcome)>, i: nat)
    requires i < |log|
    ensures multiset(log[..i] + log[i + 1..]) == multiset(log) - multiset{log[i]}
  {
    assert log == log[..i] + ([log[i]] + log[i + 1..]);
    assert multiset(log) == multiset(log[..i]) + (multiset{log[i]} + multiset(log[i + 1..]));
  }

  lemma {:induction false} SameChecks(a: seq<(Check, Outcome)>, b: seq<(Check, Outcome)>)
    requires multiset(a) == multiset(b)
    ensures ChecksOf(a) == ChecksOf(b)
  {
    if a == [] {
      assert |multiset(b)| == |b| && |multiset(a)| == 0;
    } else {
      assert a[0] in multiset(b);
      var i :| 0 <= i < |b| && b[i] == a[0];
      var rest := b[..i] + b[i + 1..];
      WithoutOne(b, i);
      WithoutOne(a, 0);
      assert a[..0] + a[1..] == a[1..];
      SameChecks(a[1..], rest);
      ChecksOfElement(b, i);
    }
  }

  /** What the books of a session say is right, the actions say is right. */
  lemma MatchesRight(a: Answer, logged: Logged)
    requires Matches(a.session, logged) && Right(a)
    ensures RightAbout(logged, a.returned)
  {
    hide ChecksOf;
    SameChecks(a.session.ran, logged.ran);
    match a.returned
    case None =>
      forall i | 0 <= i < |logged.ran| ensures logged.ran[i].1.None? {
        assert logged.ran[i] in multiset(a.session.ran);
      }
    case Some(e) =>
      var i :| 0 <= i < |a.session.ran| && a.session.ran[i].0 in a.session.added && a.session.ran[i].1 == Some(e);
      assert a.session.ran[i] in multiset(logged.ran);
      var j :| 0 <= j < |logged.ran| && logged.ran[j] == a.session.ran[i];
  }

  /** Under every interleaving and over any number of sessions, each answer of Complete is right about
      its own session as the actions of the run tell it: nothing was returned only if every check
      passed to Add in that session was executed in it and passed, and otherwise the error was the
      outcome of executing a check added in that very session. */
  lemma CompleteIsRight(s: State, actions: seq<Action>, batchSize: nat, end: State, i: nat)
    requires Initial(s) && Fits(|s.threads|, batchSize) && IsRun(s, actions, batchSize, end) && i < |end.answers|
    ensures RightAt(actions, end, i)
  {
    hide RightAbout, Right, Counted, Initial;
    InitialInv(s, batchSize);
    InitialRecorded(s, batchSize);
    RunRecorded(s, actions, batchSize, end, EMPTY_LOG);
    assert Right(end.answers[i]) && Matches(end.answers[i].session, Sessions(actions)[i]);
    MatchesRight(end.answers[i], Sessions(actions)[i]);
  }

  // ------------------------------------------------- when the counter is too small

  ghost predicate Conserved(s: State) {
    Balanced(s) && TodoExact(s)
  }

  lemma TakeConserved(s: State, left: seq<Check>, batch: seq<Check>, threads: seq<Thread>)
    requires Conserved(s) && s.queue == left + batch
    requires HeldBy(threads) == HeldBy(s.threads) + multiset(batch)
    ensures Conserved(s.(queue := left, threads := threads))
  {
    hide HeldBy, ChecksOf;
    TakeBalanced(s, left, batch, threads);
  }

  lemma AddConserved(s: State, checks: seq<Check>)
    requires Conserved(s) && s.threads != [] && s.threads[0].phase.Outside?
    ensures Conserved(Added(s, checks)) && HeldBy(Added(s, checks).threads) == HeldBy(s.threads)
  {
    hide HeldBy, ChecksOf, CountIdle, CountEntered, Balanced;
    AddCounts(s, checks);
    AddBalanced(s, checks);
  }

  /** Some answer given so far is wrong about its session. */
  ghost predicate Misled(s: State, l: Log) {
    exists i :: 0 <= i < |s.answers| && i < |l.done + [l.current]| && !RightAbout((l.done + [l.current])[i], s.answers[i].returned)
  }

  /** The state, with what happened before in the log, can end in a wrong answer. */
  ghost predicate Doomed(s: State, l: Log, batchSize: nat) {
    exists actions, end :: IsRun(s, actions, batchSize, end) && Misled(end, LogOf(l, actions))
  }

  lemma StepDoomed(s: State, a: Action, batchSize: nat, l: Log)
    requires Enabled(s, a) && Doomed(Step(s, a, batchSize), Record(l, a), batchSize)
    ensures Doomed(s, l, batchSize)
  {
    hide Enabled, Step, Misled, Record;
    var actions, end :| IsRun(Step(s, a, batchSize), actions, batchSize, end) && Misled(end, LogOf(Record(l, a), actions));
    var all := [a] + actions;
    assert all[1..] == actions;
    assert IsRun(s, all, batchSize, end) && LogOf(l, all) == LogOf(Record(l, a), actions);
  }

  /** The books of the one session so far agree with the log. */
  ghost predicate FirstSession(s: State, l: Log) {
    l.done == [] && s.answers == [] && Matches(s.session, l.current)
  }

  /** The master at the loop head, everything passed so far, and exactly as many checks in the
      hands of the workers as make nTodo wrap around. */
  ghost predicate Overloaded(s: State, l: Log) {
    && s.threads != [] && s.threads[0] == Thread(Start, None) && s.result == None
    && Conserved(s) && |HeldBy(s.threads)| == UINT_RANGE && FirstSession(s, l)
  }

  lemma {:induction false} ChecksOfSize(log: seq<(Check, Outcome)>)
    ensures |ChecksOf(log)| == |log|
  {
    if log != [] { ChecksOfSize(log[1..]); }
  }

  lemma OverloadedReturns(s: State, batchSize: nat, l: Log)
    requires Overloaded(s, l) && s.queue == []
    ensures Doomed(LoopHead(s, 0, batchSize), l, batchSize)
  {
    hide HeldBy, ChecksOf;
    var r := LoopHead(s, 0, batchSize);
    assert |l.current.added| == |HeldBy(s.threads)| + |ChecksOf(s.session.ran)| + |s.session.skipped|;
    ChecksOfSize(s.session.ran);
    ChecksOfSize(l.current.ran);
    assert |multiset(s.session.ran)| == |multiset(l.current.ran)|;
    assert !RightAbout(l.current, None);
    assert (l.done + [l.current])[0] == l.current && r.answers[0].returned == None;
    assert Misled(r, l);
    assert IsRun(r, [], batchSize, r) && LogOf(l, []) == l;
  }

  /** Checks that all pass. */
  function Passing(checks: seq<Check>): (log: seq<(Check, Outcome)>)
    ensures |log| == |checks| && forall i :: 0 <= i < |checks| ==> log[i] == (checks[i], None)
  {
    seq(|checks|, i requires 0 <= i < |checks| => (checks[i], None))
  }

  function WithRan(l: Log, log: seq<(Check, Outcome)>): Log {
    l.(current := l.current.(ran := l.current.ran + log))
  }

  lemma PassOne(l: Log, batch: seq<Check>, k: nat)
    requires k < |batch|
    ensures WithRan(l, Passing(batch[k..])) == WithRan(Record(l, Exec(0, batch[k], None)), Passing(batch[k + 1..]))
  {
    assert Passing(batch[k..]) == [(batch[k], None)] + Passing(batch[k + 1..]);
    assert l.current.ran + ([(batch[k], None)] + Passing(batch[k + 1..])) == l.current.ran + [(batch[k], None)] + Passing(batch[k + 1..]);
  }

  /** The master runs a whole batch and every check passes. */
  lemma {:induction false} PassAll(s: State, batchSize: nat, ran: seq<Outcome>, l: Log)
    requires s.threads != [] && s.threads[0].phase.Working? && s.threads[0].phase.doWork && s.threads[0].local == None
    requires s.threads[0].phase.ran == ran && |ran| <= |s.threads[0].phase.batch|
    requires forall i :: 0 <= i < |ran| ==> ran[i] == None
    requires var p := s.threads[0].phase;
             Doomed(s.(threads := s.threads[0 := Thread(p.(ran := seq(|p.batch|, _ => None)), None)]), WithRan(l, Passing(p.batch[|ran|..])), batchSize)
    ensures Doomed(s, l, batchSize)
    decreases |s.threads[0].phase.batch| - |ran|
  {
    hide Doomed;
    var p := s.threads[0].phase;
    var all := seq(|p.batch|, _ => None);
    var done := s.(threads := s.threads[0 := Thread(p.(ran := all), None)]);
    if |ran| == |p.batch| {
      assert ran == all;
      assert s.threads[0] == done.threads[0];
      assert done.threads == s.threads;
      assert done == s;
      assert Passing(p.batch[|ran|..]) == [] && l.current.ran + [] == l.current.ran;
      assert WithRan(l, []) == l;
    } else {
      var check := p.batch[|ran|];
      var a := Exec(0, check, None);
      var r := s.(threads := s.threads[0 := Thread(p.(ran := ran + [None]), None)]);
      assert Enabled(s, a) && r == Step(s, a, batchSize);
      assert r.threads[0 := done.threads[0]] == done.threads;
      PassOne(l, p.batch, |ran|);
      PassAll(r, batchSize, ran + [None], Record(l, a));
      StepDoomed(s, a, batchSize, l);
    }
  }

  /** The master empties the queue by itself and then returns over the heads of the workers. */
  lemma {:induction false} OverloadedIsDoomed(s: State, batchSize: nat, l: Log)
    requires Overloaded(s, l)
    ensures Doomed(LoopHead(s, 0, batchSize), l, batchSize)
    decreases |s.queue|
  {
    hide Doomed, HeldBy, Conserved, FirstSession;
    if s.queue == [] {
      OverloadedReturns(s, batchSize, l);
    } else {
      var n := BatchSize(s, batchSize);
      var left, batch := s.queue[..|s.queue| - n], s.queue[|s.queue| - n..];
      var r := LoopHead(s, 0, batchSize);
      assert r == s.(queue := left, threads := s.threads[0 := Thread(Working(batch, [], true), None)]);
      HeldChanged(s.threads, 0, r.threads[0]);
      assert s.queue == left + batch;
      TakeConserved(s, left, batch, r.threads);
      var done := r.(threads := r.threads[0 := Thread(Working(batch, seq(|batch|, _ => None), true), None)]);
      var m := WithRan(l, Passing(batch));
      MasterReports(s, r, done, batchSize, l, m);
      OverloadedIsDoomed(CleanUp(done, 0), batchSize, m);
      StepDoomed(done, Report(0), batchSize, m);
      assert batch[0..] == batch;
      PassAll(r, batchSize, [], l);
    }
  }

  lemma MasterReports(s: State, r: State, done: State, batchSize: nat, l: Log, m: Log)
    requires Overloaded(s, l) && r.session == s.session && r.answers == s.answers && Conserved(r) && r.result == None && |r.queue| < |s.queue|
    requires r.threads != [] && r.threads[0].phase.Working? && r.threads[0].phase.doWork
    requires HeldBy(r.threads) == HeldBy(s.threads) + r.threads[0].Held()
    requires var p := r.threads[0].phase;
             done == r.(threads := r.threads[0 := Thread(p.(ran := seq(|p.batch|, _ => None)), None)]) && m == WithRan(l, Passing(p.batch))
    ensures Enabled(done, Report(0)) && Overloaded(CleanUp(done, 0), m) && |CleanUp(done, 0).queue| < |s.queue|
    ensures Step(done, Report(0), batchSize) == LoopHead(CleanUp(done, 0), 0, batchSize)
  {
    hide HeldBy, ChecksOf, LoopHead, Balanced, TodoExact;
    assert HeldBy(done.threads) == HeldBy(r.threads) by {
      HeldChanged(r.threads, 0, done.threads[0]);
    }
    assert Conserved(done) by { SameConserved(r, done); }
    CleanUpBalanced(done, 0);
    CleanUpTodo(done, 0);
    CleanUpCounts(done, 0);
    PartBack(HeldBy(s.threads), done.threads[0].Held());
    var p := done.threads[0].phase;
    assert Zip(p.batch, p.ran) == Passing(p.batch);
  }

  lemma PartBack(a: multiset<Check>, b: multiset<Check>)
    ensures a + b - b == a
  {
  }

  lemma SameConserved(s: State, r: State)
    requires Conserved(s) && r.queue == s.queue && HeldBy(r.threads) == HeldBy(s.threads) && r.session == s.session && r.nTodo == s.nTodo
    ensures Conserved(r)
  {
    hide HeldBy, ChecksOf;
  }

  /** The first `k` workers are busy with `held` checks between them; nobody else has started. */
  ghost predicate Busy(s: State, k: nat, held: nat, l: Log) {
    && !l.closing && FirstSession(s, l)
    && k < |s.threads| && s.threads[0] == Thread(Outside, None)
    && (forall t :: 0 < t <= k ==> s.threads[t].phase.Working?)
    && (forall t :: k < t < |s.threads| ==> s.threads[t] == Thread(Start, None))
    && s.nIdle == 0 && s.nTotal == k && s.result == None
    && Conserved(s) && |HeldBy(s.threads)| == held
  }

  /** How long the queue has to be, modulo 2^32, for the next worker to take `b` checks. */
  function Wanted(b: nat, k: nat): nat {
    if b == 1 then 1 else b * (k + 2)
  }

  lemma ExactShare(b: nat, d: nat, top: nat)
    requires d > 0 && b <= top / d
    ensures b * d <= top && (b * d) / d == b
  {
    ProductsGrow(b, top / d, d);
    QuotientIs(b * d, d, b);
  }

  lemma QuotientIs(x: nat, d: nat, q: nat)
    requires d > 0 && q * d <= x < q * d + d
    ensures x / d == q
  {
    var p := x / d;
    assert p * d <= x < p * d + d;
    if p < q {
      ProductsGrow(p + 1, q, d);
    } else if q < p {
      ProductsGrow(q + 1, p, d);
    }
  }

  lemma ExactBatch(s: State, k: nat, b: nat, batchSize: nat)
    requires 1 <= b <= Cap(k + 1, batchSize)
    ensures Wanted(b, k) < UINT_RANGE
    ensures s.queue != [] && s.nTotal == k + 1 && s.nIdle == 0 && |s.queue| % UINT_RANGE == Wanted(b, k) ==>
              BatchSize(s, batchSize) == b
  {
    if b > 1 {
      ExactShare(b, k + 2, UINT_RANGE - 1);
    }
  }

  /** Checks to add so that the queue gets the wanted length. */
  lemma Padding(have: nat, want: nat) returns (n: nat)
    requires want < UINT_RANGE
    ensures n > 1 && (have + n) % UINT_RANGE == want
  {
    n := 2 * UINT_RANGE + want - have % UINT_RANGE;
    assert have == have / UINT_RANGE * UINT_RANGE + have % UINT_RANGE;
    assert have + n == (have / UINT_RANGE + 2) * UINT_RANGE + want;
  }

  lemma AddStep(s: State, k: nat, held: nat, checks: seq<Check>, batchSize: nat, l: Log)
    requires Busy(s, k, held, l) && |checks| > 1
    ensures Enabled(s, Add(checks)) && Enabled(Step(s, Add(checks), batchSize), Notify(0))
    ensures var r := Step(Step(s, Add(checks), batchSize), Notify(0), batchSize);
            r.queue == s.queue + checks && |r.threads| == |s.threads| && Busy(r, k, held, Record(l, Add(checks)))
  {
    hide HeldBy, ChecksOf, Conserved;
    var added := s.(queue := s.queue + checks,
                    nTodo := (s.nTodo + |checks|) % UINT_RANGE,
                    session := s.session.(added := s.session.added + multiset(checks)));
    var r := Step(Step(s, Add(checks), batchSize), Notify(0), batchSize);
    var left := SetPhase(Step(s, Add(checks), batchSize), 0, Outside);
    assert left.threads == s.threads;
    assert WakeAll(s.threads) == s.threads;
    assert r == added;
    AddConserved(s, checks);
    SameConserved(Added(s, checks), r);
  }

  lemma EnterStep(s: State, k: nat, held: nat, b: nat, batchSize: nat, l: Log)
    requires Busy(s, k, held, l) && k + 1 < |s.threads| && 1 <= b <= Cap(k + 1, batchSize)
    requires s.queue != [] && |s.queue| % UINT_RANGE == Wanted(b, k)
    ensures Enabled(s, Enter(k + 1))
    ensures Busy(Step(s, Enter(k + 1), batchSize), k + 1, held + b, l)
    ensures |Step(s, Enter(k + 1), batchSize).threads| == |s.threads|
  {
    hide HeldBy, ChecksOf, Conserved, Wanted, Cap, BatchSize, FirstSession;
    var e := s.(nTotal := s.nTotal + 1);
    ExactBatch(e, k, b, batchSize);
    var left, batch := s.queue[..|s.queue| - b], s.queue[|s.queue| - b..];
    var th := Thread(Working(batch, [], true), None);
    var r := e.(queue := left, threads := s.threads[k + 1 := th]);
    assert Step(s, Enter(k + 1), batchSize) == r;
    HeldChanged(s.threads, k + 1, th);
    assert s.threads[k + 1].Held() == multiset{};
    assert s.queue == left + batch;
    TakeConserved(s, left, batch, r.threads);
    SameConserved(s.(queue := left, threads := r.threads), r);
    SameFirst(s, r, l);
  }

  lemma SameFirst(s: State, r: State, l: Log)
    requires FirstSession(s, l) && r.session == s.session && r.answers == s.answers
    ensures FirstSession(r, l)
  {
  }

  /** One more worker takes exactly `b` checks. */
  lemma WorkerLoads(s: State, k: nat, held: nat, b: nat, batchSize: nat, l: Log) returns (r: State, m: Log)
    requires Busy(s, k, held, l) && k + 1 < |s.threads| && 1 <= b <= Cap(k + 1, batchSize)
    ensures Busy(r, k + 1, held + b, m) && |r.threads| == |s.threads|
    ensures Doomed(r, m, batchSize) ==> Doomed(s, l, batchSize)
  {
    hide Doomed, Busy, Cap, Wanted, Step;
    ExactBatch(s, k, b, batchSize);
    var n := Padding(|s.queue|, Wanted(b, k));
    var checks := seq(n, _ => Check(0));
    AddStep(s, k, held, checks, batchSize, l);
    m := Record(l, Add(checks));
    var s1 := Step(s, Add(checks), batchSize);
    var s2 := Step(s1, Notify(0), batchSize);
    EnterStep(s2, k, held, b, batchSize, m);
    r := Step(s2, Enter(k + 1), batchSize);
    if Doomed(r, m, batchSize) {
      StepDoomed(s2, Enter(k + 1), batchSize, m);
      StepDoomed(s1, Notify(0), batchSize, m);
      StepDoomed(s, Add(checks), batchSize, l);
    }
  }

  lemma MasterJoins(s: State, k: nat, batchSize: nat, l: Log)
    requires Busy(s, k, UINT_RANGE, l)
    ensures Doomed(s, l, batchSize)
  {
    hide Doomed, HeldBy, LoopHead, Conserved, CleanUp, WakeAll;
    var c := s.(threads := s.threads[0 := Thread(Start, None)]);
    var e := c.(nTotal := c.nTotal + 1);
    var m := Record(l, CallComplete);
    assert Overloaded(e, m) by {
      HeldChanged(s.threads, 0, Thread(Start, None));
      PartBack(HeldBy(s.threads), multiset{});
      SameConserved(s, e);
    }
    OverloadedIsDoomed(e, batchSize, m);
    hide Busy, Overloaded;
    assert Enabled(c, Enter(0)) && Step(c, Enter(0), batchSize) == LoopHead(e, 0, batchSize);
    StepDoomed(c, Enter(0), batchSize, m);
    StepDoomed(s, CallComplete, batchSize, l);
  }

  lemma {:induction false} BusyIsDoomed(s: State, k: nat, held: nat, batchSize: nat, l: Log)
    requires Busy(s, k, held, l) && held <= UINT_RANGE
    requires held + Reach(|s.threads| - 1, batchSize) >= UINT_RANGE + Reach(k, batchSize) || held == UINT_RANGE
    ensures Doomed(s, l, batchSize)
    decreases |s.threads| - k
  {
    hide Doomed, Cap;
    if held == UINT_RANGE {
      MasterJoins(s, k, batchSize, l);
    } else {
      assert k + 1 < |s.threads|;
      var b := Min(Cap(k + 1, batchSize), UINT_RANGE - held);
      var r, m := WorkerLoads(s, k, held, b, batchSize, l);
      BusyIsDoomed(r, k + 1, held + b, batchSize, m);
    }
  }

  function Fresh(threadCount: nat): (s: State)
    requires threadCount > 0
    ensures Initial(s) && |s.threads| == threadCount
  {
    State([], 0, 0, 0, None, seq(threadCount, t => Thread(if t == 0 then Outside else Start, None)), EMPTY_SESSION, [])
  }

  lemma FreshBusy(threadCount: nat)
    requires threadCount > 0
    ensures Busy(Fresh(threadCount), 0, 0, EMPTY_LOG)
  {
    NothingHeld(Fresh(threadCount).threads);
    assert ChecksOf([]) == multiset{};
  }

  /** Complete is right in every run of a queue with that many threads. */
  ghost predicate AlwaysRight(threadCount: nat, batchSize: nat) {
    forall s, actions, end, i ::
      Initial(s) && |s.threads| == threadCount && IsRun(s, actions, batchSize, end) && 0 <= i < |end.answers| ==>
        RightAt(actions, end, i)
  }

  /** The width of nTodo decides: Complete is right in every run exactly if the workers together
      cannot hold 2^32 checks. Beyond that, some schedule makes the master return nothing over
      checks that never ran. */
  lemma RightExactlyIfFits(threadCount: nat, batchSize: nat)
    requires threadCount > 0
    ensures AlwaysRight(threadCount, batchSize) <==> Fits(threadCount, batchSize)
  {
    if Fits(threadCount, batchSize) {
      forall s, actions, end, i | Initial(s) && |s.threads| == threadCount && IsRun(s, actions, batchSize, end) && 0 <= i < |end.answers|
        ensures RightAt(actions, end, i)
      {
        CompleteIsRight(s, actions, batchSize, end, i);
      }
    } else {
      hide RightAbout, Initial;
      var s := Fresh(threadCount);
      FreshBusy(threadCount);
      BusyIsDoomed(s, 0, 0, batchSize, EMPTY_LOG);
      var actions, end :| IsRun(s, actions, batchSize, end) && Misled(end, LogOf(EMPTY_LOG, actions));
      var i :| 0 <= i < |end.answers| && i < |Sessions(actions)| && !RightAbout(Sessions(actions)[i], end.answers[i].returned);
      assert !RightAt(actions, end, i);
      assert !AlwaysRight(threadCount, batchSize);
    }
  }

  /** A bound that needs no sum. */
  lemma {:induction false} FitsSimply(threadCount: nat, batchSize: nat)
    requires threadCount > 0 && (threadCount - 1) * Max(1, batchSize) < UINT_RANGE
    ensures Fits(threadCount, batchSize)
  {
    ReachAtMost(threadCount - 1, batchSize);
  }

  lemma {:induction false} ReachAtMost(workers: nat, batchSize: nat)
    ensures Reach(workers, batchSize) <= workers * Max(1, batchSize)
  {
    if workers > 0 {
      ReachAtMost(workers - 1, batchSize);
      assert workers * Max(1, batchSize) == (workers - 1) * Max(1, batchSize) + Max(1, batchSize);
    }
  }

  // ------------------------------------------------------------------ progress

  /** The steps the threads take by themselves, leaving aside spurious wake-ups. */
  predicate Internal(a: Action) {
    a.Enter? || a.Wake? || a.Exec? || a.Report?
  }

  predicate InLoop(s: State) {
    s.threads != [] && (s.threads[0].phase.Start? || s.threads[0].phase.Waiting? || s.threads[0].phase.Working?)
  }

  lemma {:induction false} SomeoneHolds(threads: seq<Thread>) returns (t: nat)
    requires HeldBy(threads) != multiset{}
    ensures t < |threads| && threads[t].phase.Working?
  {
    if threads[0].phase.Working? {
      t := 0;
    } else {
      t := SomeoneHolds(threads[1..]);
      t := t + 1;
    }
  }

  lemma WorkerMoves(s: State, t: nat, batchSize: nat) returns (a: Action)
    requires Counted(s, batchSize) && t < |s.threads| && s.threads[t].phase.Working?
    ensures Internal(a) && Enabled(s, a)
  {
    assert BatchOk(s.threads[t]);
    a := if s.threads[t].Finished() then Report(t) else Exec(t, s.threads[t].phase.batch[|s.threads[t].phase.ran|], None);
  }

  lemma ReachableCounted(s: State, batchSize: nat)
    requires Reachable(s, batchSize)
    ensures Counted(s, batchSize)
  {
    hide Initial, Counted;
    var start :| Initial(start) && Reaches(start, batchSize, s);
    var actions :| IsRun(start, actions, batchSize, s);
    InitialCounted(start, batchSize);
    RunCounted(start, actions, batchSize, s);
  }

  /** The protocol never stalls, whatever the number of threads and the batch size: while Complete
      has not returned, some thread can move without any spurious wake-up. */
  lemma NeverStalls(s: State, batchSize: nat) returns (a: Action)
    requires Reachable(s, batchSize) && InLoop(s)
    ensures Internal(a) && Enabled(s, a)
  {
    ReachableCounted(s, batchSize);
    a := SomeoneMoves(s, batchSize);
  }

  /** A sleeping master in particular has a worker to wait for. */
  lemma SomeoneMoves(s: State, batchSize: nat) returns (a: Action)
    requires Counted(s, batchSize) && InLoop(s)
    ensures Internal(a) && Enabled(s, a)
  {
    match s.threads[0].phase
    case Start => a := Enter(0);
    case Waiting(woken) =>
      if woken {
        a := Wake(0);
      } else {
        var t := SomeoneHolds(s.threads);
        a := WorkerMoves(s, t, batchSize);
      }
    case Working(_, _, _) => a := WorkerMoves(s, 0, batchSize);
  }

  function Weight(th: Thread): nat {
    match th.phase
    case Start => 1
    case Waiting(woken) => if woken then 1 else 0
    case Working(batch, ran, _) => 3 + if |ran| <= |batch| then |batch| - |ran| else 0
    case _ => 0
  }

  function Weights(threads: seq<Thread>): nat {
    if threads == [] then 0 else Weight(threads[0]) + Weights(threads[1..])
  }

  /** Work left to do, counted so that every internal step reduces it. */
  function Effort(s: State): nat {
    5 * |s.queue| + Weights(s.threads)
  }

  lemma {:induction false} WeightsChanged(threads: seq<Thread>, t: nat, th: Thread)
    requires t < |threads|
    ensures Weights(threads[t := th]) + Weight(threads[t]) == Weights(threads) + Weight(th)
  {
    if t == 0 {
      assert threads[0 := th][1..] == threads[1..];
    } else {
      assert threads[t := th][1..] == threads[1..][t - 1 := th];
      WeightsChanged(threads[1..], t - 1, th);
    }
  }

  lemma HeadEffort(s: State, t: nat, batchSize: nat)
    requires t < |s.threads| && s.threads[t].phase.Start?
    ensures Effort(LoopHead(s, t, batchSize)) < Effort(s)
  {
    hide BatchSize, Weights;
    var r := LoopHead(s, t, batchSize);
    WeightsChanged(s.threads, t, r.threads[t]);
    assert r.threads == s.threads[t := r.threads[t]];
  }

  lemma CleanUpEffort(s: State, t: nat)
    requires t < |s.threads| && s.threads[t].Finished()
    requires |s.threads[t].phase.ran| <= |s.threads[t].phase.batch|
    ensures Effort(CleanUp(s, t)) < Effort(s) && CleanUp(s, t).threads[t].phase.Start?
    ensures |CleanUp(s, t).threads| == |s.threads|
    ensures t != 0 && InLoop(s) ==> InLoop(CleanUp(s, t))
    ensures t != 0 && s.threads[0].phase.Outside? ==> CleanUp(s, t).threads[0].phase.Outside?
  {
    hide Weights;
    var cleaned := s.threads[t := CleanUp(s, t).threads[t]];
    WeightsChanged(s.threads, t, cleaned[t]);
    WeightsChanged(cleaned, 0, CleanUp(s, t).threads[0]);
    assert CleanUp(s, t).threads == cleaned[0 := CleanUp(s, t).threads[0]];
  }

  lemma BatchFits(s: State, t: nat, batchSize: nat)
    requires Counted(s, batchSize) && t < |s.threads|
    ensures BatchOk(s.threads[t])
  {
  }

  /** Every internal step reduces the effort left, and only the master's return adds an answer. */
  lemma StepEffort(s: State, a: Action, batchSize: nat)
    requires Counted(s, batchSize) && Internal(a) && Enabled(s, a)
    ensures Effort(Step(s, a, batchSize)) < Effort(s)
    ensures Settled(s, Step(s, a, batchSize))
  {
    hide Weights, BatchSize, Counted;
    match a
    case Enter(t) => HeadEffort(s.(nTotal := s.nTotal + 1), t, batchSize);
    case Wake(t) =>
      WeightsChanged(s.threads, t, s.threads[t].(phase := Start));
      HeadEffort(SetPhase(s, t, Start).(nIdle := if s.nIdle > 0 then s.nIdle - 1 else 0), t, batchSize);
    case Exec(t, _, outcome) =>
      BatchFits(s, t, batchSize);
      WeightsChanged(s.threads, t, Step(s, a, batchSize).threads[t]);
    case Report(t) =>
      CleanUpEffort(s, t);
      HeadEffort(CleanUp(s, t), t, batchSize);
  }

  /** What internal steps can do to the master: leave it where it is, or let it return once. */
  predicate Settled(s: State, r: State) {
    && (s.threads != [] && s.threads[0].phase.Outside? ==> r.threads != [] && r.threads[0].phase.Outside? && r.answers == s.answers)
    && (InLoop(s) ==>
          || (InLoop(r) && r.answers == s.answers)
          || (r.threads != [] && r.threads[0].phase.Outside? && |r.answers| == |s.answers| + 1))
  }

  lemma {:induction false} RunEffort(s: State, actions: seq<Action>, batchSize: nat, end: State)
    requires Counted(s, batchSize) && IsRun(s, actions, batchSize, end)
    requires forall i :: 0 <= i < |actions| ==> Internal(actions[i])
    ensures |actions| + Effort(end) <= Effort(s) && Settled(s, end) && Counted(end, batchSize)
    decreases |actions|
  {
    hide Counted, Step, Enabled, Effort;
    if actions != [] {
      StepCounted(s, actions[0], batchSize);
      StepEffort(s, actions[0], batchSize);
      RunEffort(Step(s, actions[0], batchSize), actions[1..], batchSize, end);
    }
  }

  /** Complete always returns, without help from spurious wake-ups and whatever the scheduler does:
      from a state with the master in Loop no schedule is longer than the effort left, and a
      schedule that cannot be continued has ended with exactly one more answer. */
  lemma CompleteReturns(s: State, actions: seq<Action>, batchSize: nat, end: State)
    requires Reachable(s, batchSize) && InLoop(s) && IsRun(s, actions, batchSize, end)
    requires forall i :: 0 <= i < |actions| ==> Internal(actions[i])
    ensures |actions| <= Effort(s)
    ensures (forall a :: Internal(a) ==> !Enabled(end, a)) ==>
              end.threads != [] && end.threads[0].phase.Outside? && |end.answers| == |s.answers| + 1
  {
    ReachableCounted(s, batchSize);
    RunEffort(s, actions, batchSize, end);
    hide Enabled, Effort;
    if InLoop(end) {
      var a := SomeoneMoves(end, batchSize);
      assert Internal(a) && Enabled(end, a);
    }
  }
}
