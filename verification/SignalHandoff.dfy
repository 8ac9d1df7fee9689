/** N threads each publish a wanted signal and raise it on themselves; whichever handler runs first serves
    the first thread waiting for that signal. All interleavings of the atomic steps of threads and handlers. */
module SignalHandoff {

  const SIGUSR1: int := 10
  const SIGUSR2: int := 12

  function SignalOf(id: nat): int {
    if id % 2 == 0 then SIGUSR1 else SIGUSR2
  }

  /** Where a thread is: first in its own code, then in its handler, then waiting for its flag. */
  datatype Pc =
    | Start                 // about to block the signals
    | Blocked               // about to publish the wanted signal
    | Published             // about to send it to itself
    | Pending               // about to unblock it, which delivers it
    | Acquire               // in the handler, about to exchange the lock
    | Spin                  // lock found taken, reading it until it is free
    | Scan(i: nat)          // lock held, about to look at slot i
    | SetFlag(i: nat)       // slot i matched, about to set its flag
    | Clear(i: nat)         // about to clear slot i
    | Missed                // no slot matched
    | Served                // slot cleared, about to note that a signal came
    | Release               // about to give up the lock
    | Waiting               // handler done, waiting for the own flag
    | Done

  datatype State = State(lock: bool, waiting: seq<int>, flags: seq<int>, pcs: seq<Pc>, received: bool)

  function Initially(n: nat): State {
    State(false, seq(n, _ => 0), seq(n, _ => 0), seq(n, _ => Start), false)
  }

  predicate Shaped(n: nat, s: State) {
    |s.waiting| == n && |s.flags| == n && |s.pcs| == n
  }

  /** The next atomic step of thread t. */
  function Next(n: nat, s: State, t: nat): (r: State)
    requires Shaped(n, s) && t < n
    ensures Shaped(n, r)
  {
    var sig := SignalOf(t);
    match s.pcs[t]
    case Start => Moved(s, t, Blocked)
    case Blocked => Moved(s, t, Published).(waiting := s.waiting[t := sig])
    case Published => Moved(s, t, Pending)
    case Pending => Moved(s, t, Acquire)
    case Acquire => if s.lock then Moved(s, t, Spin) else Moved(s, t, Scan(0)).(lock := true)
    case Spin => if s.lock then s else Moved(s, t, Acquire)
    case Scan(i) =>
      if i >= n then Moved(s, t, Missed)
      else if s.waiting[i] == sig then Moved(s, t, SetFlag(i))
      else Moved(s, t, Scan(i + 1))
    case SetFlag(i) => if i >= n then s else Moved(s, t, Clear(i)).(flags := s.flags[i := sig])
    case Clear(i) => if i >= n then s else Moved(s, t, Served).(waiting := s.waiting[i := 0])
    case Missed => Moved(s, t, Release).(received := true)
    case Served => Moved(s, t, Release).(received := true)
    case Release => Moved(s, t, Waiting).(lock := false)
    case Waiting => if s.flags[t] == sig then Moved(s, t, Done) else s
    case Done => s
  }

  function Moved(s: State, t: nat, pc: Pc): State
    requires t < |s.pcs|
  {
    s.(pcs := s.pcs[t := pc])
  }

  predicate IsSchedule(n: nat, schedule: seq<nat>) {
    forall k :: 0 <= k < |schedule| ==> schedule[k] < n
  }

  /** The state after the threads named by the schedule took one step each, in that order. */
  function After(n: nat, s: State, schedule: seq<nat>): (r: State)
    requires Shaped(n, s) && IsSchedule(n, schedule)
    ensures Shaped(n, r)
    decreases |schedule|
  {
    if schedule == [] then s else After(n, Next(n, s, schedule[0]), schedule[1..])
  }

  // ----- what every run keeps -----

  predicate InCriticalSection(pc: Pc) {
    pc.Scan? || pc.SetFlag? || pc.Clear? || pc.Missed? || pc.Served? || pc.Release?
  }

  predicate HasPublished(pc: Pc) {
    pc != Start && pc != Blocked
  }

  /** Published, and its handler has not cleared a slot yet. */
  predicate Owes(pc: Pc) {
    pc == Published || pc == Pending || pc == Acquire || pc == Spin || pc.Scan? || pc.SetFlag? || pc.Clear?
  }

  /** The slots waiting for a signal. */
  ghost function SlotsWaiting(s: State, sig: int): set<nat> {
    set i: nat | i < |s.waiting| && s.waiting[i] == sig
  }

  /** The threads whose signal it is and whose handler still has a slot to serve. */
  ghost function ThreadsOwing(s: State, sig: int): set<nat> {
    set t: nat | t < |s.pcs| && Owes(s.pcs[t]) && SignalOf(t) == sig
  }

  /** As many slots wait for a signal as handlers are still to serve one. */
  ghost predicate Balanced(s: State, sig: int) {
    |SlotsWaiting(s, sig)| == |ThreadsOwing(s, sig)|
  }

  ghost predicate LockHeldOnce(n: nat, s: State)
    requires Shaped(n, s)
  {
    && (forall t :: 0 <= t < n && InCriticalSection(s.pcs[t]) ==> s.lock)
    && (s.lock ==> exists t :: 0 <= t < n && InCriticalSection(s.pcs[t]))
    && (forall t, u :: 0 <= t < n && 0 <= u < n && InCriticalSection(s.pcs[t]) && InCriticalSection(s.pcs[u]) ==> t == u)
  }

  /** A slot holds nothing or its owner's signal, and once published it is empty only after its flag was set. */
  ghost predicate SlotTyped(n: nat, s: State, i: nat)
    requires Shaped(n, s) && i < n
  {
    && (s.waiting[i] == 0 || s.waiting[i] == SignalOf(i))
    && (s.flags[i] == 0 || s.flags[i] == SignalOf(i))
    && (!HasPublished(s.pcs[i]) ==> s.waiting[i] == 0 && s.flags[i] == 0)
    && (HasPublished(s.pcs[i]) && s.waiting[i] == 0 ==> s.flags[i] == SignalOf(i))
  }

  /** A scanning handler has a match ahead of it; a serving one is at a match. */
  ghost predicate HandlerSound(n: nat, s: State, t: nat)
    requires Shaped(n, s) && t < n
  {
    match s.pcs[t]
    case Scan(i) => exists j :: i <= j < n && s.waiting[j] == SignalOf(t)
    case SetFlag(i) => i < n && s.waiting[i] == SignalOf(t)
    case Clear(i) => i < n && s.waiting[i] == SignalOf(t) && s.flags[i] == SignalOf(t)
    case Missed => false
    case Done => s.flags[t] == SignalOf(t)
    case _ => true
  }

  ghost predicate Inv(n: nat, s: State) {
    && Shaped(n, s)
    && LockHeldOnce(n, s)
    && (forall i :: 0 <= i < n ==> SlotTyped(n, s, i))
    && (forall t :: 0 <= t < n ==> HandlerSound(n, s, t))
    && Balanced(s, SIGUSR1) && Balanced(s, SIGUSR2)
  }

  lemma InitiallyInv(n: nat)
    ensures Inv(n, Initially(n))
  {
    var s := Initially(n);
    assert SlotsWaiting(s, SIGUSR1) == {} && SlotsWaiting(s, SIGUSR2) == {};
    assert ThreadsOwing(s, SIGUSR1) == {} && ThreadsOwing(s, SIGUSR2) == {};
  }

  lemma LockKept(n: nat, s: State, t: nat)
    requires Inv(n, s) && t < n
    ensures LockHeldOnce(n, Next(n, s, t))
  {
    hide Balanced, HandlerSound, SlotTyped;
    var r := Next(n, s, t);
    assert forall u :: 0 <= u < n && u != t ==> r.pcs[u] == s.pcs[u];
    if r.lock {
      if InCriticalSection(r.pcs[t]) {
      } else {
        assert s.lock;
        var u :| 0 <= u < n && InCriticalSection(s.pcs[u]);
        assert u != t;
        assert InCriticalSection(r.pcs[u]);
      }
    }
  }

  /** What a step changes outside the thread's own position: a slot when it publishes or clears, a flag
      when it serves. */
  lemma StepEffect(n: nat, s: State, t: nat)
    requires Shaped(n, s) && t < n
    ensures var r, pc := Next(n, s, t), s.pcs[t];
            && (forall u :: 0 <= u < n && u != t ==> r.pcs[u] == s.pcs[u])
            && r.waiting == (if pc == Blocked then s.waiting[t := SignalOf(t)]
                             else if pc.Clear? && pc.i < n then s.waiting[pc.i := 0] else s.waiting)
            && r.flags == (if pc.SetFlag? && pc.i < n then s.flags[pc.i := SignalOf(t)] else s.flags)
            && (HasPublished(r.pcs[t]) <==> pc != Start)
            && (Owes(r.pcs[t]) <==> pc == Blocked || (Owes(pc) && !(pc.Clear? && pc.i < n) && !(pc.Scan? && pc.i >= n)))
  {
  }

  lemma SlotKept(n: nat, s: State, t: nat, i: nat)
    requires Inv(n, s) && t < n && i < n
    ensures SlotTyped(n, Next(n, s, t), i)
  {
    hide LockHeldOnce, Balanced, Next;
    StepEffect(n, s, t);
    assert SlotTyped(n, s, i) && HandlerSound(n, s, t);
  }

  lemma HandlerKept(n: nat, s: State, t: nat, u: nat)
    requires Inv(n, s) && t < n && u < n
    ensures HandlerSound(n, Next(n, s, t), u)
  {
    hide Balanced;
    assert HandlerSound(n, s, t) && HandlerSound(n, s, u);
    if u == t {
      match s.pcs[t] {
        case Acquire => HandlerFindsSlot(n, s, t);
        case _ =>
      }
    } else {
      OtherHandlerKept(n, s, t, u);
    }
  }

  lemma OtherHandlerKept(n: nat, s: State, t: nat, u: nat)
    requires Inv(n, s) && t < n && u < n && t != u
    ensures HandlerSound(n, Next(n, s, t), u)
  {
    hide Balanced, Next;
    StepEffect(n, s, t);
    var r := Next(n, s, t);
    assert HandlerSound(n, s, t) && HandlerSound(n, s, u) && SlotTyped(n, s, t) && SlotTyped(n, s, u);
    assert r.pcs[u] == s.pcs[u];
    match s.pcs[u] {
      case Scan(i) =>
        var j :| i <= j < n && s.waiting[j] == SignalOf(u);
        assert r.waiting[j] == SignalOf(u);
      case _ =>
    }
  }

  /** At the moment a handler takes the lock some slot waits for its signal. */
  lemma HandlerFindsSlot(n: nat, s: State, t: nat)
    requires Inv(n, s) && t < n && s.pcs[t] == Acquire
    ensures exists j :: 0 <= j < n && s.waiting[j] == SignalOf(t)
  {
    var sig := SignalOf(t);
    assert t in ThreadsOwing(s, sig);
    assert SlotsWaiting(s, sig) != {};
    var j :| j in SlotsWaiting(s, sig);
  }

  lemma SlotsAfterStore(s: State, r: State, sig: int, k: nat, value: int)
    requires k < |s.waiting| && r.waiting == s.waiting[k := value]
    ensures SlotsWaiting(r, sig) == if value == sig then SlotsWaiting(s, sig) + {k} else SlotsWaiting(s, sig) - {k}
  {
  }

  lemma OwingAfterMove(s: State, r: State, sig: int, t: nat)
    requires t < |s.pcs| == |r.pcs| && forall u :: 0 <= u < |s.pcs| && u != t ==> r.pcs[u] == s.pcs[u]
    ensures ThreadsOwing(r, sig) == if Owes(r.pcs[t]) && SignalOf(t) == sig then ThreadsOwing(s, sig) + {t}
                                    else ThreadsOwing(s, sig) - {t}
  {
  }

  lemma BalanceKept(n: nat, s: State, t: nat, sig: int)
    requires Inv(n, s) && t < n && (sig == SIGUSR1 || sig == SIGUSR2)
    ensures Balanced(Next(n, s, t), sig)
  {
    var r, pc := Next(n, s, t), s.pcs[t];
    assert Balanced(s, sig) && SlotTyped(n, s, t) && HandlerSound(n, s, t);
    StepEffect(n, s, t);
    BalanceStep(n, s, r, t, sig);
  }

  lemma BalanceStep(n: nat, s: State, r: State, t: nat, sig: int)
    requires Shaped(n, s) && Shaped(n, r) && t < n && (sig == SIGUSR1 || sig == SIGUSR2)
    requires Balanced(s, sig) && SlotTyped(n, s, t) && HandlerSound(n, s, t)
    requires forall u :: 0 <= u < n && u != t ==> r.pcs[u] == s.pcs[u]
    requires r.waiting == (if s.pcs[t] == Blocked then s.waiting[t := SignalOf(t)]
                           else if s.pcs[t].Clear? then s.waiting[s.pcs[t].i := 0] else s.waiting)
    requires Owes(r.pcs[t]) <==> s.pcs[t] == Blocked || (Owes(s.pcs[t]) && !s.pcs[t].Clear?)
    ensures Balanced(r, sig)
  {
    var pc := s.pcs[t];
    OwingAfterMove(s, r, sig, t);
    if pc == Blocked {
      SlotsAfterStore(s, r, sig, t, SignalOf(t));
    } else if pc.Clear? {
      SlotsAfterStore(s, r, sig, pc.i, 0);
    } else {
      assert SlotsWaiting(r, sig) == SlotsWaiting(s, sig);
    }
  }

  lemma InvKept(n: nat, s: State, t: nat)
    requires Inv(n, s) && t < n
    ensures Inv(n, Next(n, s, t))
  {
    hide Next, HandlerSound, SlotTyped, LockHeldOnce, Balanced;
    var r := Next(n, s, t);
    LockKept(n, s, t);
    forall i | 0 <= i < n
      ensures SlotTyped(n, r, i) && HandlerSound(n, r, i)
    {
      SlotKept(n, s, t, i);
      HandlerKept(n, s, t, i);
    }
    BalanceKept(n, s, t, SIGUSR1);
    BalanceKept(n, s, t, SIGUSR2);
  }

  lemma InvShaped(n: nat, s: State)
    requires Inv(n, s)
    ensures Shaped(n, s)
  {
  }

  lemma {:induction false} InvAfter(n: nat, s: State, schedule: seq<nat>)
    requires Inv(n, s) && IsSchedule(n, schedule)
    ensures Inv(n, After(n, s, schedule))
    decreases |schedule|
  {
    hide Inv;
    assert Shaped(n, s) by { InvShaped(n, s); }
    if schedule != [] {
      InvKept(n, s, schedule[0]);
      InvAfter(n, Next(n, s, schedule[0]), schedule[1..]);
    }
  }

  // ----- what follows for whole runs -----

  predicate HandlerFinished(pc: Pc) {
    pc == Waiting || pc == Done
  }

  /** In every run: one lock holder at most, as many waiting slots as handlers still to serve, no handler
      without a slot, and no flag that is not its owner's signal. */
  lemma EveryRunIsSafe(n: nat, schedule: seq<nat>)
    requires IsSchedule(n, schedule)
    ensures var s := After(n, Initially(n), schedule);
            && (forall t, u :: 0 <= t < n && 0 <= u < n ==>
                  InCriticalSection(s.pcs[t]) && InCriticalSection(s.pcs[u]) ==> t == u)
            && |SlotsWaiting(s, SIGUSR1)| == |ThreadsOwing(s, SIGUSR1)|
            && |SlotsWaiting(s, SIGUSR2)| == |ThreadsOwing(s, SIGUSR2)|
            && (forall t :: 0 <= t < n ==> s.pcs[t] != Missed)
            && (forall t :: 0 <= t < n && s.pcs[t] == Done ==> s.flags[t] == SignalOf(t))
  {
    var s := After(n, Initially(n), schedule);
    InitiallyInv(n);
    InvAfter(n, Initially(n), schedule);
    forall t | 0 <= t < n
      ensures s.pcs[t] != Missed && (s.pcs[t] == Done ==> s.flags[t] == SignalOf(t))
    {
      assert HandlerSound(n, s, t);
    }
  }

  /** A thread that is done was flagged with SIGUSR1 if its number is even, and with SIGUSR2 if it is odd. */
  lemma FlagsByNumber(n: nat, schedule: seq<nat>)
    requires IsSchedule(n, schedule)
    ensures var s := After(n, Initially(n), schedule);
            forall t :: 0 <= t < n && s.pcs[t] == Done ==> s.flags[t] == if t % 2 == 0 then 10 else 12
  {
    EveryRunIsSafe(n, schedule);
  }

  // ----- that a signal came is noted -----

  /** Whoever has given up the lock, or is about to, has noted it. */
  ghost predicate Noted(s: State) {
    (exists t :: 0 <= t < |s.pcs| && (s.pcs[t] == Release || HandlerFinished(s.pcs[t]))) ==> s.received
  }

  lemma {:induction false} NotedAfter(n: nat, s: State, schedule: seq<nat>)
    requires Shaped(n, s) && Noted(s) && IsSchedule(n, schedule)
    ensures Noted(After(n, s, schedule))
    decreases |schedule|
  {
    hide Next;
    if schedule != [] {
      NotedNext(n, s, schedule[0]);
      NotedAfter(n, Next(n, s, schedule[0]), schedule[1..]);
    }
  }

  lemma NotedNext(n: nat, s: State, t: nat)
    requires Shaped(n, s) && Noted(s) && t < n
    ensures Noted(Next(n, s, t))
  {
    var r := Next(n, s, t);
    if u :| 0 <= u < n && (r.pcs[u] == Release || HandlerFinished(r.pcs[u])) {
      assert u != t ==> r.pcs[u] == s.pcs[u];
      assert s.pcs[t] == s.pcs[t];
    }
  }

  /** In every run the note that a signal came is there as soon as one handler has finished. */
  lemma SignalIsNoted(n: nat, schedule: seq<nat>)
    requires IsSchedule(n, schedule)
    ensures var s := After(n, Initially(n), schedule);
            (exists t :: 0 <= t < n && HandlerFinished(s.pcs[t])) ==> s.received
  {
    NotedAfter(n, Initially(n), schedule);
  }

  /** Once every handler has finished, every thread's flag is its own signal and no slot waits. */
  lemma AllServed(n: nat, s: State)
    requires Inv(n, s) && forall t :: 0 <= t < n ==> HandlerFinished(s.pcs[t])
    ensures forall t :: 0 <= t < n ==> s.flags[t] == SignalOf(t) && s.waiting[t] == 0
  {
    assert ThreadsOwing(s, SIGUSR1) == {} && ThreadsOwing(s, SIGUSR2) == {};
    assert SlotsWaiting(s, SIGUSR1) == {} && SlotsWaiting(s, SIGUSR2) == {};
    forall t | 0 <= t < n
      ensures s.flags[t] == SignalOf(t) && s.waiting[t] == 0
    {
      assert SlotTyped(n, s, t);
      assert t !in SlotsWaiting(s, SignalOf(t));
    }
  }

  lemma EveryFinishedRunServesAll(n: nat, schedule: seq<nat>)
    requires IsSchedule(n, schedule)
    requires forall t :: 0 <= t < n ==> HandlerFinished(After(n, Initially(n), schedule).pcs[t])
    ensures forall t :: 0 <= t < n ==> After(n, Initially(n), schedule).flags[t] == SignalOf(t)
  {
    InitiallyInv(n);
    InvAfter(n, Initially(n), schedule);
    AllServed(n, After(n, Initially(n), schedule));
  }

  // ----- no run gets stuck -----

  /** How many steps a thread can still take that are not spinning. */
  function StepsLeft(n: nat, pc: Pc): nat {
    match pc
    case Start => n + 11
    case Blocked => n + 10
    case Published => n + 9
    case Pending => n + 8
    case Acquire => n + 7
    case Spin => n + 7
    case Scan(i) => if i <= n then n - i + 6 else 6
    case SetFlag(i) => 5
    case Clear(i) => 4
    case Missed => 3
    case Served => 3
    case Release => 2
    case Waiting => 1
    case Done => 0
  }

  function TotalStepsLeft(n: nat, pcs: seq<Pc>): nat {
    if pcs == [] then 0 else StepsLeft(n, pcs[0]) + TotalStepsLeft(n, pcs[1..])
  }

  lemma {:induction false} TotalAfterMove(n: nat, pcs: seq<Pc>, t: nat, pc: Pc)
    requires t < |pcs|
    ensures TotalStepsLeft(n, pcs[t := pc]) == TotalStepsLeft(n, pcs) - StepsLeft(n, pcs[t]) + StepsLeft(n, pc)
  {
    if t > 0 {
      TotalAfterMove(n, pcs[1..], t - 1, pc);
      assert pcs[t := pc][1..] == pcs[1..][t - 1 := pc];
    } else {
      assert pcs[t := pc][1..] == pcs[1..];
    }
  }

  /** The next step of thread t brings it nearer to its end. */
  ghost predicate Productive(n: nat, s: State, t: nat)
    requires Shaped(n, s) && t < n
  {
    StepsLeft(n, Next(n, s, t).pcs[t]) < StepsLeft(n, s.pcs[t])
  }

  lemma ProductiveStepCounts(n: nat, s: State, t: nat)
    requires Shaped(n, s) && t < n
    ensures TotalStepsLeft(n, Next(n, s, t).pcs) <= TotalStepsLeft(n, s.pcs)
    ensures Productive(n, s, t) ==> TotalStepsLeft(n, Next(n, s, t).pcs) < TotalStepsLeft(n, s.pcs)
  {
    hide TotalStepsLeft, StepsLeft, Next;
    var r := Next(n, s, t);
    StepEffect(n, s, t);
    StepNeverBack(n, s, t);
    TotalAfterMove(n, s.pcs, t, r.pcs[t]);
    assert r.pcs == s.pcs[t := r.pcs[t]];
  }

  lemma StepNeverBack(n: nat, s: State, t: nat)
    requires Shaped(n, s) && t < n
    ensures StepsLeft(n, Next(n, s, t).pcs[t]) <= StepsLeft(n, s.pcs[t])
  {
    match s.pcs[t] {
      case Acquire =>
      case Scan(i) =>
      case SetFlag(i) =>
      case Clear(i) =>
      case _ =>
    }
  }

  predicate Finished(s: State) {
    forall t :: 0 <= t < |s.pcs| ==> s.pcs[t] == Done
  }

  /** Short of the end some thread has a productive step, at worst after it looked at the free lock once more. */
  lemma SomeoneAdvances(n: nat, s: State) returns (t: nat)
    requires Inv(n, s) && !Finished(s)
    ensures t < n
    ensures Productive(n, s, t) || (s.pcs[t] == Spin && Productive(n, Next(n, s, t), t))
  {
    if s.lock {
      t :| 0 <= t < n && InCriticalSection(s.pcs[t]);
      assert HandlerSound(n, s, t);
    } else if t' :| 0 <= t' < n && !HandlerFinished(s.pcs[t']) {
      t := t';
      assert HandlerSound(n, s, t);
    } else {
      AllServed(n, s);
      t :| 0 <= t < n && s.pcs[t] != Done;
    }
  }

  /** From wherever a run is, some continuation of at most two steps per step left ends with every thread done. */
  lemma {:induction false} EveryRunCanFinish(n: nat, s: State) returns (schedule: seq<nat>)
    requires Inv(n, s)
    ensures IsSchedule(n, schedule) && |schedule| <= 2 * TotalStepsLeft(n, s.pcs)
    ensures Finished(After(n, s, schedule))
    decreases TotalStepsLeft(n, s.pcs)
  {
    hide Inv, TotalStepsLeft, StepsLeft;
    if Finished(s) {
      schedule := [];
    } else {
      InvShaped(n, s);
      var t := SomeoneAdvances(n, s);
      var r := Next(n, s, t);
      InvKept(n, s, t);
      ProductiveStepCounts(n, s, t);
      ProductiveStepCounts(n, r, t);
      if Productive(n, s, t) {
        var rest := EveryRunCanFinish(n, r);
        schedule := [t] + rest;
      } else {
        InvKept(n, r, t);
        var rest := EveryRunCanFinish(n, Next(n, r, t));
        schedule := [t] + ([t] + rest);
        assert schedule[1..] == [t] + rest;
        assert ([t] + rest)[1..] == rest;
      }
    }
  }
}
