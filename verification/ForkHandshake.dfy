/** The fork and clone handshake between payload threads and the main thread (km/km_fork.c), as a
    state machine over its shared record. Threads interleave between any two steps; a step that needs
    the mutex waits until it is free. Back in its hypercall a requester stores its result
    (km/km_hcalls.c) and tells the main thread by an event (km/km_vcpu_run.c), which the main thread
    waits for (km/km_main.c). */
module ForkHandshake {

  type Thread = nat

  /** What a requester hands over: registers, stack top, signal state and call arguments. */
  datatype Request = Request(
    regs: int, stackTop: int, guestThread: int, altStack: int, sigmask: int, arg: int, isClone: bool)

  /** Program counters. A requester in km_before_fork, then one waiting for its answer; */
  datatype Pc =
    | Outside // not in km_before_fork, no request open
    | Checking // has the mutex, at the loop condition
    | Waiting // in km_cond_wait, mutex given back, in the wait set
    | Woken // out of the wait set, before the mutex is taken again
    | Saving // past the loop, before the registers are read
    | Filling // registers saved, before the rest is
    | Leaving // everything saved, before the mutex is given back
    | Returned // back in the hypercall, before the result 0 is stored in hc_ret
    | Notifying // stored, before the main thread is told
    | Pending // parked until the main thread answers

  /** and the main thread in km_dofork. */
  datatype MainPc =
    | Idle // waiting for the event
    | Called // has read the event, before the mutex is taken
    | Looking // has the mutex, before looking at fork_in_progress
    | Forking // counted, before fork or clone
    | Answering(pid: int) // back in the parent with the result
    | Releasing // answered, before the mutex is given back

  datatype Owner = Free | Main | By(t: Thread)

  /** `saved` is km_fork_state and `hcRet` the hc_ret fields of the callers' arguments. `accepted`,
      `answered` and `results` are the history: requests in the order they were accepted, their answers,
      and the last outcome of each thread's calls. */
  datatype State = State(
    pc: map<Thread, Pc>, main: MainPc, mutex: Owner, inProgress: bool, saved: Request, owner: Thread, event: bool,
    requests: map<Thread, Request>, hcRet: map<Thread, int>, count: int,
    accepted: seq<(Thread, Request)>, answered: seq<(Thread, Request, int)>, results: map<Thread, int>)

  datatype Step =
    | Lock(t: Thread, r: Request) // enter km_before_fork with this request
    | Check(t: Thread) // the loop condition
    | WakeUp(t: Thread) // km_cond_wait ends although nobody signalled
    | Resume(t: Thread) // km_cond_wait returns
    | SaveRegs(t: Thread, errno: int) // KVM_GET_REGS, which may fail
    | Fill(t: Thread)
    | Unlock(t: Thread)
    | Store(t: Thread)
    | Notify(t: Thread)
    | MainRead
    | MainLock
    | MainLook
    | MainFork(pid: int) // the parent's result: a pid, or a negative errno
    | MainAnswer(w: Thread) // answers, and signals the waiter `w`, if there is any
    | MainUnlock

  predicate At(s: State, t: Thread, p: Pc) {
    t in s.pc && s.pc[t] == p
  }

  predicate NoneWaiting(s: State) {
    forall t :: t in s.pc ==> s.pc[t] != Waiting
  }

  predicate Enabled(s: State, a: Step) {
    match a
    case Lock(t, _) => At(s, t, Outside) && s.mutex == Free
    case Check(t) => At(s, t, Checking)
    case WakeUp(t) => At(s, t, Waiting)
    case Resume(t) => At(s, t, Woken) && s.mutex == Free
    case SaveRegs(t, errno) => At(s, t, Saving) && errno >= 0
    case Fill(t) => At(s, t, Filling)
    case Unlock(t) => At(s, t, Leaving)
    case Store(t) => At(s, t, Returned)
    case Notify(t) => At(s, t, Notifying)
    case MainRead => s.main == Idle && s.event
    case MainLock => s.main == Called && s.mutex == Free
    case MainLook => s.main == Looking
    case MainFork(pid) => s.main == Forking && pid != 0
    case MainAnswer(w) => s.main.Answering? && (At(s, w, Waiting) || NoneWaiting(s))
    case MainUnlock => s.main == Releasing
  }

  function Own(s: State, t: Thread): Request {
    if t in s.requests then s.requests[t] else s.saved
  }

  // km_cond_signal
  function Signalled(pc: map<Thread, Pc>, w: Thread): map<Thread, Pc> {
    if w in pc && pc[w] == Waiting then pc[w := Woken] else pc
  }

  function Next(s: State, a: Step): State
    requires Enabled(s, a)
  {
    match a
    case Lock(t, r) => s.(pc := s.pc[t := Checking], mutex := By(t), requests := s.requests[t := r])
    case Check(t) =>
      if s.inProgress then s.(pc := s.pc[t := Waiting], mutex := Free) else s.(pc := s.pc[t := Saving])
    case WakeUp(t) => s.(pc := s.pc[t := Woken])
    case Resume(t) => s.(pc := s.pc[t := Checking], mutex := By(t))
    case SaveRegs(t, errno) =>
      if errno == 0 then s.(pc := s.pc[t := Filling], saved := s.saved.(regs := Own(s, t).regs))
      else s.(pc := s.pc[t := Outside], mutex := Free, hcRet := s.hcRet[t := -errno], results := s.results[t := -errno])
    case Fill(t) =>
      s.(pc := s.pc[t := Leaving], inProgress := true, owner := t, saved := Own(s, t).(regs := s.saved.regs),
         accepted := s.accepted + [(t, Own(s, t))])
    case Unlock(t) => s.(pc := s.pc[t := Returned], mutex := Free)
    case Store(t) => s.(pc := s.pc[t := Notifying], hcRet := s.hcRet[t := 0])
    case Notify(t) => s.(pc := s.pc[t := Pending], event := true)
    case MainRead => s.(main := Called, event := false)
    case MainLock => s.(main := Looking, mutex := Main)
    case MainLook => if s.inProgress then s.(main := Forking, count := s.count + 1) else s.(main := Idle, mutex := Free)
    case MainFork(pid) => s.(main := Answering(pid))
    case MainAnswer(w) =>
      var pid := s.main.pid;
      s.(main := Releasing, inProgress := false, count := if pid >= 0 then s.count else s.count - 1,
         pc := Signalled(s.pc[s.owner := Outside], w), answered := s.answered + [(s.owner, s.saved, pid)],
         hcRet := s.hcRet[s.owner := pid], results := s.results[s.owner := pid])
    case MainUnlock => s.(main := Idle, mutex := Free)
  }

  // ---- what every step keeps ---------------------------------------------------------------------------

  predicate Critical(p: Pc) {
    p == Checking || p == Saving || p == Filling || p == Leaving
  }

  /** Has a request open. */
  predicate Open(p: Pc) {
    p == Leaving || p == Returned || p == Notifying || p == Pending
  }

  /** The mutex belongs to the one thread inside. */
  predicate Exclusive(s: State) {
    && (forall t :: t in s.pc ==> (Critical(s.pc[t]) <==> s.mutex == By(t)))
    && (s.main != Idle && s.main != Called <==> s.mutex == Main)
    && (s.mutex.By? ==> s.mutex.t in s.pc)
  }

  /** At most one request is open: the one of `owner`, and it is what is saved. */
  predicate OneRequest(s: State) {
    && (s.inProgress <==> s.owner in s.pc && Open(s.pc[s.owner]))
    && (forall t :: t in s.pc && Open(s.pc[t]) ==> t == s.owner)
    && (forall t :: t in s.pc && s.pc[t] != Outside ==> t in s.requests)
    && (forall t :: t in s.pc && (s.pc[t] == Saving || s.pc[t] == Filling) ==> !s.inProgress)
    && (forall t :: t in s.pc && s.pc[t] == Filling ==> s.saved.regs == s.requests[t].regs)
    && (s.inProgress ==> s.saved == s.requests[s.owner])
  }

  /** The main thread has been told, and has not answered yet. */
  predicate Busy(s: State) {
    s.event || s.main == Called || s.main == Looking || s.main == Forking || s.main.Answering?
  }

  /** It has been told of exactly the requests whose thread is parked, and once. */
  predicate Told(s: State) {
    && (Busy(s) <==> s.inProgress && At(s, s.owner, Pending))
    && (s.event ==> s.main == Idle || s.main == Releasing)
  }

  /** What a thread finds in hc_ret, until it returns from its next call to km_before_fork, is the
      outcome of its last call. */
  predicate Delivered(s: State) {
    forall t :: t in s.results && (t in s.pc ==> s.pc[t] != Notifying && s.pc[t] != Pending) ==>
      t in s.hcRet && s.hcRet[t] == s.results[t]
  }

  /** The answers so far are those to the accepted requests, one each and in order. */
  predicate History(s: State) {
    && |s.accepted| == |s.answered| + (if s.inProgress then 1 else 0)
    && (forall k :: 0 <= k < |s.answered| ==> s.answered[k].0 == s.accepted[k].0 && s.answered[k].1 == s.accepted[k].1)
    && (s.inProgress ==> s.accepted[|s.answered|] == (s.owner, s.saved))
  }

  function Successes(log: seq<(Thread, Request, int)>): nat {
    if log == [] then 0 else Successes(log[..|log| - 1]) + if log[|log| - 1].2 >= 0 then 1 else 0
  }

  /** The counter is the number of successful forks, one ahead while a fork is under way. */
  predicate Counted(s: State) {
    s.count == Successes(s.answered) + if s.main == Forking || s.main.Answering? then 1 else 0
  }

  predicate Inv(s: State) {
    Exclusive(s) && OneRequest(s) && Told(s) && Delivered(s) && History(s) && Counted(s)
  }

  /** Steps of a requester up to its look at fork_in_progress, from there on, and back in the hypercall. */
  predicate Entering(a: Step) {
    a.Lock? || a.Check? || a.WakeUp? || a.Resume?
  }

  predicate Requesting(a: Step) {
    a.SaveRegs? || a.Fill?
  }

  predicate Returning(a: Step) {
    a.Unlock? || a.Store? || a.Notify?
  }

  lemma ExclusiveEntering(s: State, a: Step)
    requires Exclusive(s) && Enabled(s, a) && Entering(a)
    ensures Exclusive(Next(s, a))
  {
  }

  lemma ExclusiveRequesting(s: State, a: Step)
    requires Exclusive(s) && Enabled(s, a) && (Requesting(a) || Returning(a))
    ensures Exclusive(Next(s, a))
  {
  }

  lemma ExclusiveMain(s: State, a: Step)
    requires Exclusive(s) && Enabled(s, a) && !Entering(a) && !Requesting(a) && !Returning(a) && !a.MainAnswer?
    ensures Exclusive(Next(s, a))
  {
  }

  lemma ExclusiveAnswer(s: State, w: Thread)
    requires Exclusive(s) && Enabled(s, MainAnswer(w)) && At(s, s.owner, Pending)
    ensures Exclusive(Next(s, MainAnswer(w)))
  {
    hide NoneWaiting;
  }

  lemma OwnerPending(s: State)
    requires OneRequest(s) && Told(s) && s.main.Answering?
    ensures At(s, s.owner, Pending)
  {
  }

  lemma ExclusiveKept(s: State, a: Step)
    requires Inv(s) && Enabled(s, a)
    ensures Exclusive(Next(s, a))
  {
    hide Next, Exclusive, OneRequest, Told, Delivered, History, Counted;
    if Entering(a) {
      ExclusiveEntering(s, a);
    } else if Requesting(a) || Returning(a) {
      ExclusiveRequesting(s, a);
    } else if a.MainAnswer? {
      OwnerPending(s);
      ExclusiveAnswer(s, a.w);
    } else {
      ExclusiveMain(s, a);
    }
  }

  lemma OneRequestEntering(s: State, a: Step)
    requires Exclusive(s) && OneRequest(s) && Enabled(s, a) && Entering(a) && !a.Check?
    ensures OneRequest(Next(s, a))
  {
  }

  lemma OneRequestChecked(s: State, a: Step)
    requires Exclusive(s) && OneRequest(s) && Enabled(s, a) && a.Check?
    ensures OneRequest(Next(s, a))
  {
  }

  lemma OneRequestSaved(s: State, a: Step)
    requires Exclusive(s) && OneRequest(s) && Enabled(s, a) && a.SaveRegs?
    ensures OneRequest(Next(s, a))
  {
  }

  lemma OneRequestFilled(s: State, a: Step)
    requires Exclusive(s) && OneRequest(s) && Enabled(s, a) && a.Fill?
    ensures OneRequest(Next(s, a))
  {
  }

  lemma OneRequestReturning(s: State, a: Step)
    requires Exclusive(s) && OneRequest(s) && Enabled(s, a) && Returning(a)
    ensures OneRequest(Next(s, a))
  {
  }

  lemma OneRequestMain(s: State, a: Step)
    requires Exclusive(s) && OneRequest(s) && Told(s) && Enabled(s, a) && !Entering(a) && !Requesting(a) &&
             !Returning(a)
    ensures OneRequest(Next(s, a))
  {
    hide NoneWaiting;
  }

  lemma OneRequestKept(s: State, a: Step)
    requires Inv(s) && Enabled(s, a)
    ensures OneRequest(Next(s, a))
  {
    hide Next, OneRequest, Exclusive, Told, Delivered, History, Counted, Enabled;
    if a.Check? {
      OneRequestChecked(s, a);
    } else if Entering(a) {
      OneRequestEntering(s, a);
    } else if a.SaveRegs? {
      OneRequestSaved(s, a);
    } else if a.Fill? {
      OneRequestFilled(s, a);
    } else if Returning(a) {
      OneRequestReturning(s, a);
    } else {
      OneRequestMain(s, a);
    }
  }

  lemma ToldRequester(s: State, a: Step)
    requires Exclusive(s) && OneRequest(s) && Told(s) && Enabled(s, a) && (Entering(a) || Requesting(a) || Returning(a))
    ensures Told(Next(s, a))
  {
  }

  lemma ToldMain(s: State, a: Step)
    requires Exclusive(s) && OneRequest(s) && Told(s) && Enabled(s, a) && !Entering(a) && !Requesting(a) &&
             !Returning(a)
    ensures Told(Next(s, a))
  {
    hide NoneWaiting;
  }

  lemma ToldKept(s: State, a: Step)
    requires Inv(s) && Enabled(s, a)
    ensures Told(Next(s, a))
  {
    hide Next, OneRequest, Exclusive, Told, Delivered, History, Counted, Enabled;
    if Entering(a) || Requesting(a) || Returning(a) {
      ToldRequester(s, a);
    } else {
      ToldMain(s, a);
    }
  }

  lemma DeliveredKept(s: State, a: Step)
    requires Inv(s) && Enabled(s, a)
    ensures Delivered(Next(s, a))
  {
    hide History, Counted, NoneWaiting;
  }

  lemma HistoryKept(s: State, a: Step)
    requires Inv(s) && Enabled(s, a)
    ensures History(Next(s, a))
  {
    hide Counted, Delivered, NoneWaiting, Signalled;
  }

  lemma CountedKept(s: State, a: Step)
    requires Counted(s) && Enabled(s, a) && Told(s)
    ensures Counted(Next(s, a))
  {
    hide NoneWaiting, Signalled;
    if a.MainAnswer? {
      var log := s.answered + [(s.owner, s.saved, s.main.pid)];
      assert log[..|s.answered|] == s.answered;
    } else {
      hide Successes;
    }
  }

  /** Every step, of any thread, keeps the invariant. */
  lemma StepKeeps(s: State, a: Step)
    requires Inv(s) && Enabled(s, a)
    ensures Inv(Next(s, a))
  {
    hide Next, Exclusive, OneRequest, Told, Delivered, History, Counted;
    ExclusiveKept(s, a);
    OneRequestKept(s, a);
    ToldKept(s, a);
    DeliveredKept(s, a);
    HistoryKept(s, a);
    CountedKept(s, a);
  }

  predicate Start(s: State) {
    && s.main == Idle && s.mutex == Free && !s.inProgress && !s.event && s.count == 0
    && s.accepted == [] && s.answered == [] && s.results == map[] && forall t :: t in s.pc ==> s.pc[t] == Outside
  }

  /** The states a run goes through. */
  predicate Run(states: seq<State>, steps: seq<Step>) {
    && |states| == |steps| + 1 && Start(states[0])
    && forall k :: 0 <= k < |steps| ==> Enabled(states[k], steps[k]) && states[k + 1] == Next(states[k], steps[k])
  }

  /** Over every interleaving. */
  lemma {:induction false} RunKeeps(states: seq<State>, steps: seq<Step>, k: nat)
    requires Run(states, steps) && k < |states|
    ensures Inv(states[k])
  {
    if k > 0 {
      RunKeeps(states, steps, k - 1);
      hide Inv, Next, Enabled;
      StepKeeps(states[k - 1], steps[k - 1]);
    }
  }

  /** An open request is not overwritten: it stays as it is until it is answered. */
  lemma SavedStays(s: State, a: Step)
    requires Inv(s) && Enabled(s, a) && s.inProgress && Next(s, a).inProgress
    ensures Next(s, a).saved == s.saved && Next(s, a).owner == s.owner && Next(s, a).accepted == s.accepted
  {
    hide History, Counted, Delivered, NoneWaiting, Signalled;
  }

  lemma AnswerIs(s: State, w: Thread)
    requires Inv(s) && Enabled(s, MainAnswer(w))
    ensures At(s, s.owner, Pending) && s.owner in s.requests && s.saved == s.requests[s.owner]
    ensures var t := Next(s, MainAnswer(w));
            t.answered == s.answered + [(s.owner, s.saved, s.main.pid)] && At(t, s.owner, Outside) && !t.inProgress &&
            t.main == Releasing && s.owner in t.hcRet && t.hcRet[s.owner] == s.main.pid
  {
    hide History, Counted, Delivered, NoneWaiting;
  }

  lemma SettledCount(s: State)
    requires Inv(s) && s.main == Releasing
    ensures s.count == Successes(s.answered)
  {
    hide History, Delivered, Successes;
  }

  /** What the main thread forks for is the request of a parked thread, as that thread made it; the
      child starts from it, and the parent answers that thread, which finds the answer in hc_ret. */
  lemma ForkIsFor(s: State, pid: int, w: Thread)
    requires Inv(s) && Enabled(s, MainFork(pid)) && Enabled(Next(s, MainFork(pid)), MainAnswer(w))
    ensures At(s, s.owner, Pending) && s.owner in s.requests && s.saved == s.requests[s.owner]
    ensures var t := Next(Next(s, MainFork(pid)), MainAnswer(w));
            t.answered == s.answered + [(s.owner, s.requests[s.owner], pid)] && At(t, s.owner, Outside) &&
            !t.inProgress &&
            t.count == Successes(t.answered) && s.owner in t.hcRet && t.hcRet[s.owner] == pid
  {
    var u := Next(s, MainFork(pid));
    assert u == s.(main := Answering(pid));
    StepKeeps(s, MainFork(pid));
    StepKeeps(u, MainAnswer(w));
    hide Inv, Enabled;
    AnswerIs(u, w);
    hide Next;
    SettledCount(Next(u, MainAnswer(w)));
  }

  // ---- waiters ---------------------------------------------------------------------------------------------

  /** On its way to a look at fork_in_progress, or past it with nothing open yet. */
  predicate Coming(p: Pc) {
    p == Woken || p == Checking || p == Saving || p == Filling
  }

  /** Whoever waits will be signalled: a request is open, whose answer signals, or a thread is coming that
      will open one or be answered itself. */
  predicate Awake(s: State) {
    NoneWaiting(s) || s.inProgress || exists t :: t in s.pc && Coming(s.pc[t])
  }

  /** The registers of the only thread that was coming cannot be read, and it leaves without signalling. */
  predicate Strands(s: State, a: Step) {
    && a.SaveRegs? && a.errno != 0 && !NoneWaiting(s)
    && forall u :: u in s.pc && u != a.t ==> s.pc[u] != Woken
  }

  lemma StrandsOnly(s: State, a: Step)
    requires Inv(s) && Enabled(s, a) && Awake(s) && a.SaveRegs?
    ensures Awake(Next(s, a)) <==> !Strands(s, a)
  {
    var t := Next(s, a);
    hide History, Counted, Delivered, Told;
    if a.errno == 0 {
      assert Coming(t.pc[a.t]);
    } else if u :| u in s.pc && u != a.t && s.pc[u] == Woken {
      assert Coming(t.pc[u]);
    } else {
      assert !t.inProgress;
      forall u | u in t.pc
        ensures !Coming(t.pc[u])
      {
        assert u != a.t ==> !Critical(s.pc[u]);
      }
      assert NoneWaiting(t) <==> NoneWaiting(s) by {
        if x :| x in s.pc && s.pc[x] == Waiting {
          assert t.pc[x] == Waiting;
        }
        if x :| x in t.pc && t.pc[x] == Waiting {
          assert s.pc[x] == Waiting;
        }
      }
    }
  }

  lemma OthersKeepAwake(s: State, a: Step)
    requires Inv(s) && Enabled(s, a) && Awake(s) && !a.SaveRegs? && !a.MainAnswer?
    ensures Awake(Next(s, a))
  {
    var t := Next(s, a);
    hide History, Counted, Delivered, Told;
    if a.Lock? || a.Resume? || a.WakeUp? {
      assert Coming(t.pc[a.t]);
    } else if a.Check? && !s.inProgress {
      assert Coming(t.pc[a.t]);
    } else if s.inProgress {
      assert t.inProgress;
    } else if u :| u in s.pc && Coming(s.pc[u]) {
      if a.Fill? {
        assert t.inProgress;
      } else {
        assert u in t.pc && Coming(t.pc[u]);
      }
    } else {
      assert NoneWaiting(s);
      assert NoneWaiting(t);
    }
  }

  lemma AnswerKeepsAwake(s: State, a: Step)
    requires Inv(s) && Enabled(s, a) && a.MainAnswer?
    ensures Awake(Next(s, a))
  {
    var t := Next(s, a);
    hide History, Counted, Delivered;
    if At(s, a.w, Waiting) {
      assert a.w != s.owner;
      assert t.pc[a.w] == Woken && Coming(t.pc[a.w]);
    } else {
      assert NoneWaiting(t);
    }
  }

  /** A step leaves waiters that nobody will signal exactly when it is such a failure. */
  lemma AwakeKept(s: State, a: Step)
    requires Inv(s) && Enabled(s, a) && Awake(s)
    ensures Awake(Next(s, a)) <==> !Strands(s, a)
  {
    hide Awake, Inv, Next, NoneWaiting;
    if a.SaveRegs? {
      StrandsOnly(s, a);
    } else if a.MainAnswer? {
      AnswerKeepsAwake(s, a);
    } else {
      OthersKeepAwake(s, a);
    }
  }

  predicate AlwaysAwake(states: seq<State>, n: nat)
    requires n < |states|
  {
    forall k :: 0 <= k <= n ==> Awake(states[k])
  }

  predicate NoneStrand(states: seq<State>, steps: seq<Step>, n: nat)
    requires n <= |steps| < |states|
  {
    forall k :: 0 <= k < n ==> !Strands(states[k], steps[k])
  }

  lemma AwakeStep(states: seq<State>, steps: seq<Step>, n: nat)
    requires n < |steps| < |states|
    requires Awake(states[n]) ==> (Awake(states[n + 1]) <==> !Strands(states[n], steps[n]))
    requires AlwaysAwake(states, n) <==> NoneStrand(states, steps, n)
    ensures AlwaysAwake(states, n + 1) <==> NoneStrand(states, steps, n + 1)
  {
    hide Awake, Strands;
    assert AlwaysAwake(states, n + 1) <==> AlwaysAwake(states, n) && Awake(states[n + 1]);
    assert NoneStrand(states, steps, n + 1) <==> NoneStrand(states, steps, n) && !Strands(states[n], steps[n]);
  }

  /** Over every run: no waiter is ever forgotten exactly when no step is such a failure. */
  lemma {:induction false} RunAwake(states: seq<State>, steps: seq<Step>, n: nat)
    requires Run(states, steps) && n < |states|
    ensures AlwaysAwake(states, n) <==> NoneStrand(states, steps, n)
  {
    if n == 0 {
      assert NoneWaiting(states[0]);
    } else {
      RunAwake(states, steps, n - 1);
      RunKeeps(states, steps, n - 1);
      hide Awake, Strands, Inv, Next, Enabled, Start, AlwaysAwake, NoneStrand;
      if Awake(states[n - 1]) {
        AwakeKept(states[n - 1], steps[n - 1]);
      }
      AwakeStep(states, steps, n - 1);
    }
  }

  // ---- a run that forgets a waiter ---------------------------------------------------------------------------

  /** The steps lead from `s` to `t`. */
  ghost predicate Executes(s: State, steps: seq<Step>, t: State)
    decreases |steps|
  {
    if steps == [] then s == t else Enabled(s, steps[0]) && Executes(Next(s, steps[0]), steps[1..], t)
  }

  lemma {:induction false} ExecutesJoin(s: State, a: seq<Step>, t: State, b: seq<Step>, u: State)
    requires Executes(s, a, t) && Executes(t, b, u)
    ensures Executes(s, a + b, u)
    decreases |a|
  {
    hide Next, Enabled;
    if a == [] {
      assert a + b == b;
    } else {
      assert (a + b)[1..] == a[1..] + b;
      ExecutesJoin(Next(s, a[0]), a[1..], t, b, u);
    }
  }

  lemma ExecutesOne(s: State, a: Step, steps: seq<Step>, t: State)
    requires Enabled(s, a) && Executes(Next(s, a), steps, t)
    ensures Executes(s, [a] + steps, t)
  {
    hide Next, Enabled;
    assert ([a] + steps)[1..] == steps;
  }

  /** Three threads, nobody inside, no event. */
  predicate Calm(s: State, a: Pc, b: Pc, c: Pc) {
    && s.pc == map[1 := a, 2 := b, 3 := c] && s.mutex == Free && s.main == Idle && !s.event
  }

  lemma FirstEnters(s: State, r: Request) returns (t: State)
    requires Calm(s, Outside, Outside, Outside) && !s.inProgress
    ensures Executes(s, [Lock(1, r), Check(1), SaveRegs(1, 0)], t)
    ensures t.pc == map[1 := Filling, 2 := Outside, 3 := Outside] && t.main == Idle && !t.event
  {
    var s1 := Next(s, Lock(1, r));
    var s2 := Next(s1, Check(1));
    t := Next(s2, SaveRegs(1, 0));
    assert Executes(s2, [SaveRegs(1, 0)], t);
    ExecutesOne(s1, Check(1), [SaveRegs(1, 0)], t);
    ExecutesOne(s, Lock(1, r), [Check(1), SaveRegs(1, 0)], t);
  }

  lemma FirstRequests(s: State) returns (t: State)
    requires s.pc == map[1 := Filling, 2 := Outside, 3 := Outside] && s.main == Idle && !s.event
    ensures Executes(s, [Fill(1), Unlock(1)], t)
    ensures Calm(t, Returned, Outside, Outside) && t.inProgress && t.owner == 1
  {
    var s1 := Next(s, Fill(1));
    t := Next(s1, Unlock(1));
    assert Executes(s1, [Unlock(1)], t);
    ExecutesOne(s, Fill(1), [Unlock(1)], t);
  }

  lemma OthersWait(s: State, r: Request) returns (t: State)
    requires Calm(s, Returned, Outside, Outside) && s.inProgress && s.owner == 1
    ensures Executes(s, [Lock(2, r), Check(2), Lock(3, r), Check(3)], t)
    ensures Calm(t, Returned, Waiting, Waiting) && t.inProgress && t.owner == 1
  {
    var s1 := Next(s, Lock(2, r));
    var s2 := Next(s1, Check(2));
    var s3 := Next(s2, Lock(3, r));
    t := Next(s3, Check(3));
    assert Executes(s3, [Check(3)], t);
    ExecutesOne(s2, Lock(3, r), [Check(3)], t);
    ExecutesOne(s1, Check(2), [Lock(3, r), Check(3)], t);
    ExecutesOne(s, Lock(2, r), [Check(2), Lock(3, r), Check(3)], t);
  }

  lemma MainIsTold(s: State) returns (t: State)
    requires Calm(s, Returned, Waiting, Waiting) && s.inProgress && s.owner == 1
    ensures Executes(s, [Store(1), Notify(1)], t)
    ensures t.pc == map[1 := Pending, 2 := Waiting, 3 := Waiting] && t.owner == 1 && t.inProgress && t.event
    ensures t.main == Idle && t.mutex == Free
  {
    var s1 := Next(s, Store(1));
    t := Next(s1, Notify(1));
    assert Executes(s1, [Notify(1)], t);
    ExecutesOne(s, Store(1), [Notify(1)], t);
  }

  lemma MainLooks(s: State) returns (t: State)
    requires s.pc == map[1 := Pending, 2 := Waiting, 3 := Waiting] && s.owner == 1 && s.inProgress && s.event
    requires s.main == Idle && s.mutex == Free
    ensures Executes(s, [MainRead, MainLock, MainLook], t)
    ensures t.pc == map[1 := Pending, 2 := Waiting, 3 := Waiting] && t.owner == 1 && !t.event && t.main == Forking
  {
    var s1 := Next(s, MainRead);
    var s2 := Next(s1, MainLock);
    t := Next(s2, MainLook);
    assert Executes(s2, [MainLook], t);
    ExecutesOne(s1, MainLock, [MainLook], t);
    ExecutesOne(s, MainRead, [MainLock, MainLook], t);
  }

  lemma FirstIsAnswered(s: State) returns (t: State)
    requires s.pc == map[1 := Pending, 2 := Waiting, 3 := Waiting] && s.owner == 1 && !s.event && s.main == Forking
    ensures Executes(s, [MainFork(7), MainAnswer(2), MainUnlock], t)
    ensures Calm(t, Outside, Woken, Waiting) && !t.inProgress
  {
    var s1 := Next(s, MainFork(7));
    var s2 := Next(s1, MainAnswer(2));
    t := Next(s2, MainUnlock);
    assert Executes(s2, [MainUnlock], t);
    ExecutesOne(s1, MainAnswer(2), [MainUnlock], t);
    ExecutesOne(s, MainFork(7), [MainAnswer(2), MainUnlock], t);
  }

  lemma SecondFails(s: State) returns (t: State)
    requires Calm(s, Outside, Woken, Waiting) && !s.inProgress
    ensures Executes(s, [Resume(2), Check(2), SaveRegs(2, 5)], t)
    ensures Calm(t, Outside, Outside, Waiting) && !t.inProgress
  {
    var s1 := Next(s, Resume(2));
    var s2 := Next(s1, Check(2));
    t := Next(s2, SaveRegs(2, 5));
    assert Executes(s2, [SaveRegs(2, 5)], t);
    ExecutesOne(s1, Check(2), [SaveRegs(2, 5)], t);
    ExecutesOne(s, Resume(2), [Check(2), SaveRegs(2, 5)], t);
  }

  /** From every start with three threads: the first forks while the others wait; the second is signalled
      and its registers cannot be read; the third waits on with no fork open, and nothing but a new
      request, or a wake-up that nobody caused, can happen. */
  lemma WaiterForgotten(s: State, r: Request) returns (steps: seq<Step>, t: State)
    requires Start(s) && s.pc == map[1 := Outside, 2 := Outside, 3 := Outside]
    ensures Executes(s, steps, t) && At(t, 3, Waiting) && !t.inProgress && !Awake(t)
    ensures forall a :: Enabled(t, a) ==> a.Lock? || a == WakeUp(3)
  {
    hide Executes, Enabled, Next, Awake;
    var a := FirstEnters(s, r);
    var b := FirstRequests(a);
    steps := [Lock(1, r), Check(1), SaveRegs(1, 0)] + [Fill(1), Unlock(1)];
    ExecutesJoin(s, [Lock(1, r), Check(1), SaveRegs(1, 0)], a, [Fill(1), Unlock(1)], b);
    var c := OthersWait(b, r);
    steps := Appended(s, steps, b, [Lock(2, r), Check(2), Lock(3, r), Check(3)], c);
    var d := MainIsTold(c);
    steps := Appended(s, steps, c, [Store(1), Notify(1)], d);
    var e := MainLooks(d);
    steps := Appended(s, steps, d, [MainRead, MainLock, MainLook], e);
    var f := FirstIsAnswered(e);
    steps := Appended(s, steps, e, [MainFork(7), MainAnswer(2), MainUnlock], f);
    t := SecondFails(f);
    steps := Appended(s, steps, f, [Resume(2), Check(2), SaveRegs(2, 5)], t);
    OnlyRequests(t);
  }

  lemma OnlyRequests(t: State)
    requires Calm(t, Outside, Outside, Waiting) && !t.inProgress
    ensures At(t, 3, Waiting) && !Awake(t) && forall a :: Enabled(t, a) ==> a.Lock? || a == WakeUp(3)
  {
    assert t.pc[3] == Waiting;
  }

  lemma Appended(s: State, a: seq<Step>, t: State, b: seq<Step>, u: State) returns (c: seq<Step>)
    requires Executes(s, a, t) && Executes(t, b, u)
    ensures Executes(s, c, u)
  {
    ExecutesJoin(s, a, t, b, u);
    c := a + b;
  }
}
