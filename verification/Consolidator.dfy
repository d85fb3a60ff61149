/** The error consolidator of plugin/errors/errors.go: counters, timers and shutdown
    that share nothing but atomic variables, in every interleaving. */
module Consolidator {
  import opened Wrappers

  const WRAP := 0x1_0000_0000

  datatype TimerStatus = Armed | Fired | Stopped

  /** A timer, and whether another one has taken its place in its pattern. */
  datatype Timer = Timer(pattern: nat, status: TimerStatus, replaced: bool)

  /** A pattern: its two atomic variables, and what has happened to it so far; armed counts the
      timers made for it, and flushes how often a positive count was swapped out. */
  datatype Pattern = Pattern(
    count: nat, ptimer: Option<nat>,
    started: nat, refused: nat, committed: nat, logged: nat, wraps: nat, armed: nat, flushes: nat)

  /** Where a goroutine stands: before which atomic step. */
  datatype PC =
    | IncLoad(i: nat)                // inc: read stopFlag
    | IncAdd(i: nat)                 // inc: add one to the count
    | IncArm(i: nat)                 // inc: start a timer
    | IncSet(i: nat, t: nat)         // inc: store the timer
    | IncCheck(i: nat, t: nat)       // inc: read stopFlag again
    | IncStop(i: nat, t: nat)        // inc: stop the timer
    | Swap(i: nat)                   // logPattern from inc or from a timer: swap the count
    | Log(i: nat, n: nat)            // logPattern: log what was swapped out
    | StopStore                      // stop: set stopFlag
    | StopLoad(i: nat)               // stop: read the timer of pattern i
    | StopTry(i: nat, t: nat)        // stop: stop that timer
    | StopSwap(i: nat)               // stop: swap the count of pattern i
    | StopLog(i: nat, n: nat)        // stop: log what was swapped out
    | Done

  datatype State = State(stopFlag: bool, patterns: seq<Pattern>, timers: seq<Timer>, threads: seq<PC>)

  /** What can happen next: an error matches pattern i, shutdown begins, a goroutine
      takes its next step, or a timer goes off. */
  datatype Event = Error(i: nat) | Shutdown | Run(k: nat) | Expire(t: nat)

  predicate Enabled(st: State, ev: Event) {
    match ev
    case Error(i) => i < |st.patterns|
    case Shutdown => true
    case Run(k) => k < |st.threads| && st.threads[k] != Done
    case Expire(t) => t < |st.timers| && st.timers[t].status == Armed
  }

  function Start(n: nat): (st: State) {
    State(false, seq(n, _ => Pattern(0, None, 0, 0, 0, 0, 0, 0, 0)), [], [])
  }

  // ----- one atomic step -----

  function Goto(st: State, k: nat, pc: PC): (st': State)
    requires k < |st.threads|
  {
    st.(threads := st.threads[k := pc])
  }

  function SetPattern(st: State, i: nat, p: Pattern): (st': State)
    requires i < |st.patterns|
  {
    st.(patterns := st.patterns[i := p])
  }

  /** atomic.AddUint32 wraps around. */
  function AddOne(p: Pattern): (p': Pattern) {
    if p.count + 1 == WRAP
    then p.(count := 0, committed := p.committed + 1, wraps := p.wraps + 1)
    else p.(count := p.count + 1, committed := p.committed + 1)
  }

  /** atomic.SwapUint32 with 0. */
  function Emptied(p: Pattern): (p': Pattern) {
    p.(count := 0, flushes := p.flushes + if p.count > 0 then 1 else 0)
  }

  /** setTimer: the timer that was stored before is no longer to be found. */
  function StoreTimer(st: State, i: nat, t: nat): (st': State)
    requires i < |st.patterns| && (st.patterns[i].ptimer.Some? ==> st.patterns[i].ptimer.value < |st.timers|)
  {
    var last := st.patterns[i].ptimer;
    var st1 := SetPattern(st, i, st.patterns[i].(ptimer := Some(t)));
    if last.None? || last.value == t then st1
    else st1.(timers := st.timers[last.value := st.timers[last.value].(replaced := true)])
  }

  /** Timer.Stop: true exactly when the timer had not gone off or been stopped before. */
  function StopTimer(st: State, t: nat): (r: (State, bool))
    requires t < |st.timers|
  {
    if st.timers[t].status == Armed
    then (st.(timers := st.timers[t := st.timers[t].(status := Stopped)]), true)
    else (st, false)
  }

  /** After pattern i, stop goes on to the next one. */
  function AfterStop(st: State, i: nat): (pc: PC) {
    if i + 1 < |st.patterns| then StopLoad(i + 1) else Done
  }

  /** The indices a goroutine works with exist. */
  predicate PCOk(st: State, pc: PC) {
    match pc
    case IncLoad(i) => i < |st.patterns|
    case IncAdd(i) => i < |st.patterns|
    case IncArm(i) => i < |st.patterns|
    case IncSet(i, t) => i < |st.patterns| && t < |st.timers| && st.timers[t].pattern == i
    case IncCheck(i, t) => i < |st.patterns| && t < |st.timers| && st.timers[t].pattern == i
    case IncStop(i, t) => i < |st.patterns| && t < |st.timers| && st.timers[t].pattern == i
    case Swap(i) => i < |st.patterns|
    case Log(i, n) => i < |st.patterns|
    case StopLoad(i) => i < |st.patterns|
    case StopTry(i, t) => i < |st.patterns| && t < |st.timers| && st.timers[t].pattern == i
    case StopSwap(i) => i < |st.patterns|
    case StopLog(i, n) => i < |st.patterns|
    case _ => true
  }

  predicate Shaped(st: State) {
    && (forall k :: 0 <= k < |st.threads| ==> PCOk(st, st.threads[k]))
    && (forall t :: 0 <= t < |st.timers| ==> st.timers[t].pattern < |st.patterns|)
    && PatternsShaped(st)
  }

  predicate PatternsShaped(st: State) {
    forall i :: 0 <= i < |st.patterns| ==>
      && st.patterns[i].count < WRAP
      && (st.patterns[i].ptimer.Some? ==>
            && st.patterns[i].ptimer.value < |st.timers|
            && st.timers[st.patterns[i].ptimer.value].pattern == i)
  }

  /** The next step of goroutine k. */
  function RunThread(st: State, k: nat): (st': State)
    requires Shaped(st) && k < |st.threads|
  {
    match st.threads[k]
    case IncLoad(i) =>
      if st.stopFlag then
        Goto(SetPattern(st, i, st.patterns[i].(refused := st.patterns[i].refused + 1)), k, Done)
      else Goto(st, k, IncAdd(i))
    case IncAdd(i) =>
      var p := AddOne(st.patterns[i]);
      Goto(SetPattern(st, i, p), k, if p.count == 1 then IncArm(i) else Done)
    case IncArm(i) =>
      var p := st.patterns[i].(armed := st.patterns[i].armed + 1);
      Goto(SetPattern(st, i, p).(timers := st.timers + [Timer(i, Armed, false)]), k, IncSet(i, |st.timers|))
    case IncSet(i, t) => Goto(StoreTimer(st, i, t), k, IncCheck(i, t))
    case IncCheck(i, t) => Goto(st, k, if st.stopFlag then IncStop(i, t) else Done)
    case IncStop(i, t) =>
      var (st1, stopped) := StopTimer(st, t);
      Goto(st1, k, if stopped then Swap(i) else Done)
    case Swap(i) =>
      var n := st.patterns[i].count;
      Goto(SetPattern(st, i, Emptied(st.patterns[i])), k, if n > 0 then Log(i, n) else Done)
    case Log(i, n) =>
      Goto(SetPattern(st, i, st.patterns[i].(logged := st.patterns[i].logged + n)), k, Done)
    case StopStore => Goto(st.(stopFlag := true), k, if |st.patterns| > 0 then StopLoad(0) else Done)
    case StopLoad(i) =>
      var t := st.patterns[i].ptimer;
      Goto(st, k, if t.Some? then StopTry(i, t.value) else AfterStop(st, i))
    case StopTry(i, t) =>
      var (st1, stopped) := StopTimer(st, t);
      Goto(st1, k, if stopped then StopSwap(i) else AfterStop(st, i))
    case StopSwap(i) =>
      var n := st.patterns[i].count;
      Goto(SetPattern(st, i, Emptied(st.patterns[i])), k, if n > 0 then StopLog(i, n) else AfterStop(st, i))
    case StopLog(i, n) =>
      Goto(SetPattern(st, i, st.patterns[i].(logged := st.patterns[i].logged + n)), k, AfterStop(st, i))
    case Done => st
  }

  function Step(st: State, ev: Event): (st': State)
    requires Shaped(st) && Enabled(st, ev)
  {
    match ev
    case Error(i) =>
      SetPattern(st, i, st.patterns[i].(started := st.patterns[i].started + 1)).(threads := st.threads + [IncLoad(i)])
    case Shutdown => st.(threads := st.threads + [StopStore])
    case Run(k) => RunThread(st, k)
    case Expire(t) =>
      st.(timers := st.timers[t := st.timers[t].(status := Fired)],
          threads := st.threads + [Swap(st.timers[t].pattern)])
  }

  // ----- sums over goroutines -----

  function Sum(s: seq<PC>, f: PC -> nat): (n: nat) {
    if s == [] then 0 else Sum(s[..|s| - 1], f) + f(s[|s| - 1])
  }

  lemma {:induction false} SumUpdate(s: seq<PC>, k: nat, pc: PC, f: PC -> nat)
    requires k < |s|
    ensures Sum(s[k := pc], f) + f(s[k]) == Sum(s, f) + f(pc)
  {
    var m := |s| - 1;
    if k < m {
      SumUpdate(s[..m], k, pc, f);
      assert s[k := pc][..m] == s[..m][k := pc];
    } else {
      assert s[k := pc][..m] == s[..m];
    }
  }

  lemma SumAppend(s: seq<PC>, pc: PC, f: PC -> nat)
    ensures Sum(s + [pc], f) == Sum(s, f) + f(pc)
  {}

  lemma {:induction false} SumZero(s: seq<PC>, f: PC -> nat)
    requires forall k :: 0 <= k < |s| ==> f(s[k]) == 0
    ensures Sum(s, f) == 0
  {
    if s != [] {
      SumZero(s[..|s| - 1], f);
    }
  }

  /** Errors swapped out of the count of pattern i and not logged yet. */
  function InHand(i: nat): PC -> nat {
    (pc: PC) => if (pc.Log? || pc.StopLog?) && pc.i == i then pc.n else 0
  }

  /** Errors of pattern i that have not reached the count yet. */
  function OnTheWay(i: nat): PC -> nat {
    (pc: PC) => if (pc.IncLoad? || pc.IncAdd?) && pc.i == i then 1 else 0
  }

  /** Timers of pattern i about to be made. */
  function Arming(i: nat): PC -> nat {
    (pc: PC) => if pc == IncArm(i) then 1 else 0
  }

  // ----- the invariant -----

  /** Every error counted is in the count, in somebody's hand, or logged; apart from
      the multiples of 2^32 the counter has dropped by wrapping. Every time the count rises
      from zero one timer is made. */
  predicate Conserved(st: State, i: nat)
    requires i < |st.patterns|
  {
    var p := st.patterns[i];
    && p.committed == p.logged + Sum(st.threads, InHand(i)) + p.count + WRAP * p.wraps
    && p.started == p.refused + p.committed + Sum(st.threads, OnTheWay(i))
    && p.armed + Sum(st.threads, Arming(i)) == p.flushes + p.wraps + Filling(p)
  }

  /** Whether a batch of errors has begun and not been swapped out. */
  function Filling(p: Pattern): (n: nat) {
    if p.count > 0 then 1 else 0
  }

  predicate ArmedFor(t: Timer, i: nat) {
    t.pattern == i && t.status == Armed
  }

  predicate FlusherTimer(st: State, i: nat) {
    exists t :: 0 <= t < |st.timers| && ArmedFor(st.timers[t], i)
  }

  predicate FlusherThread(st: State, i: nat) {
    exists k :: 0 <= k < |st.threads| && st.threads[k] in {IncArm(i), Swap(i), StopSwap(i)}
  }

  /** Somebody is going to empty the count: an armed timer, a goroutine about to arm
      one, or a goroutine about to swap. */
  predicate Pending(st: State, i: nat) {
    FlusherTimer(st, i) || FlusherThread(st, i)
  }

  predicate Inv(st: State) {
    && Shaped(st)
    && (forall i :: 0 <= i < |st.patterns| ==>
          && Conserved(st, i) && (st.patterns[i].count > 0 ==> Pending(st, i))
          && (st.patterns[i].refused > 0 ==> st.stopFlag))
    && TimersSeen(st)
  }

  // ----- who stops a timer at shutdown -----

  /** A goroutine that has made timer t and not stored it yet. */
  predicate Setting(st: State, i: nat, t: nat) {
    exists k :: 0 <= k < |st.threads| && st.threads[k] == IncSet(i, t)
  }

  /** A goroutine that has timer t in hand and reads stopFlag or stops it next. */
  predicate Attended(st: State, i: nat, t: nat) {
    exists k :: 0 <= k < |st.threads| && st.threads[k] in {IncCheck(i, t), IncStop(i, t), StopTry(i, t)}
  }

  /** stop has yet to come to pattern i. */
  predicate Ahead(pc: PC, i: nat) {
    match pc
    case StopLoad(j) => j <= i
    case StopTry(j, _) => j < i
    case StopSwap(j) => j < i
    case StopLog(j, _) => j < i
    case _ => false
  }

  predicate Visiting(st: State, i: nat) {
    exists k :: 0 <= k < |st.threads| && Ahead(st.threads[k], i)
  }

  /** A timer that is armed and was not replaced is about to be stored or is the one stored, and
      once stopFlag is set somebody is going to stop it. */
  predicate Seen(st: State, t: nat)
    requires t < |st.timers| && st.timers[t].pattern < |st.patterns|
  {
    var i := st.timers[t].pattern;
    st.timers[t].status == Armed && !st.timers[t].replaced ==>
      || Setting(st, i, t)
      || (st.patterns[i].ptimer == Some(t) && (st.stopFlag ==> Attended(st, i, t) || Visiting(st, i)))
  }

  predicate TimersSeen(st: State) {
    forall t :: 0 <= t < |st.timers| ==> st.timers[t].pattern < |st.patterns| && Seen(st, t)
  }

  /** Patterns stay, and timers keep the pattern they were made for. */
  predicate Extends(st: State, st': State) {
    && |st'.patterns| == |st.patterns| && |st.timers| <= |st'.timers|
    && forall t :: 0 <= t < |st.timers| ==> st'.timers[t].pattern == st.timers[t].pattern
  }

  lemma PCOkExtends(st: State, st': State, pc: PC)
    requires Extends(st, st') && PCOk(st, pc)
    ensures PCOk(st', pc)
  {}

  lemma RunExtends(st: State, k: nat)
    requires Shaped(st) && k < |st.threads|
    ensures var st' := RunThread(st, k);
      && Extends(st, st') && |st'.threads| == |st.threads| && st'.threads == st.threads[k := st'.threads[k]]
  {
    assert PCOk(st, st.threads[k]);
  }

  lemma RunPCOk(st: State, k: nat)
    requires Shaped(st) && k < |st.threads|
    ensures |RunThread(st, k).threads| == |st.threads| && PCOk(RunThread(st, k), RunThread(st, k).threads[k])
  {
    assert PCOk(st, st.threads[k]);
  }

  lemma RunPatternsShaped(st: State, k: nat)
    requires Shaped(st) && k < |st.threads|
    ensures PatternsShaped(RunThread(st, k))
  {
    assert PCOk(st, st.threads[k]);
    RunExtends(st, k);
  }

  lemma RunTimersShaped(st: State, k: nat)
    requires Shaped(st) && k < |st.threads|
    ensures var st' := RunThread(st, k);
      forall t :: 0 <= t < |st'.timers| ==> st'.timers[t].pattern < |st'.patterns|
  {}

  lemma StepShaped(st: State, ev: Event)
    requires Shaped(st) && Enabled(st, ev)
    ensures Shaped(Step(st, ev)) && |Step(st, ev).patterns| == |st.patterns|
  {
    var st' := Step(st, ev);
    if ev.Run? {
      RunExtends(st, ev.k);
      RunPCOk(st, ev.k);
      RunPatternsShaped(st, ev.k);
      RunTimersShaped(st, ev.k);
    }
    assert Extends(st, st');
    hide PCOk, RunThread;
    forall k | 0 <= k < |st.threads| && !(ev == Run(k))
      ensures PCOk(st', st'.threads[k])
    {
      PCOkExtends(st, st', st.threads[k]);
    }
    if !ev.Run? {
      NewThreadOk(st, ev);
    }
  }

  lemma NewThreadOk(st: State, ev: Event)
    requires Shaped(st) && Enabled(st, ev) && !ev.Run?
    ensures var st' := Step(st, ev);
      |st'.threads| == |st.threads| + 1 && PCOk(st', st'.threads[|st.threads|])
  {}

  /** What one step of a goroutine changes in the accounts of a pattern. */
  lemma RunBalance(st: State, k: nat, i: nat)
    requires Shaped(st) && k < |st.threads| && i < |st.patterns|
    ensures var st' := RunThread(st, k);
      var p, p' := st.patterns[i], st'.patterns[i];
      && |st'.threads| == |st.threads|
      && p'.committed - p.committed ==
           (p'.logged - p.logged) + (InHand(i)(st'.threads[k]) - InHand(i)(st.threads[k]))
           + (p'.count - p.count) + WRAP * (p'.wraps - p.wraps)
  {
    assert PCOk(st, st.threads[k]);
  }

  lemma RunArrivals(st: State, k: nat, i: nat)
    requires Shaped(st) && k < |st.threads| && i < |st.patterns|
    ensures var st' := RunThread(st, k);
      var p, p' := st.patterns[i], st'.patterns[i];
      && |st'.threads| == |st.threads|
      && p'.started - p.started ==
           (p'.refused - p.refused) + (p'.committed - p.committed)
           + (OnTheWay(i)(st'.threads[k]) - OnTheWay(i)(st.threads[k]))
  {
    assert PCOk(st, st.threads[k]);
  }

  /** A batch begins with a timer to be made and ends with a swap or a wrap-around. */
  lemma RunBatches(st: State, k: nat, i: nat)
    requires Shaped(st) && k < |st.threads| && i < |st.patterns|
    ensures var st' := RunThread(st, k);
      var p, p' := st.patterns[i], st'.patterns[i];
      && |st'.threads| == |st.threads|
      && (p'.armed - p.armed) + (Arming(i)(st'.threads[k]) - Arming(i)(st.threads[k])) ==
           (p'.flushes - p.flushes) + (p'.wraps - p.wraps) + (Filling(p') - Filling(p))
  {
    assert PCOk(st, st.threads[k]);
  }

  lemma RunConserved(st: State, k: nat, i: nat)
    requires Shaped(st) && k < |st.threads| && i < |st.patterns| && Conserved(st, i)
    ensures |RunThread(st, k).patterns| == |st.patterns| && Conserved(RunThread(st, k), i)
  {
    var st' := RunThread(st, k);
    RunExtends(st, k);
    RunBalance(st, k, i);
    RunArrivals(st, k, i);
    RunBatches(st, k, i);
    hide RunThread, InHand, OnTheWay, Arming, Filling, Sum, Shaped;
    SumUpdate(st.threads, k, st'.threads[k], Arming(i));
    SumUpdate(st.threads, k, st'.threads[k], InHand(i));
    SumUpdate(st.threads, k, st'.threads[k], OnTheWay(i));
  }

  lemma StepConserved(st: State, ev: Event, i: nat)
    requires Shaped(st) && Enabled(st, ev) && i < |st.patterns| && Conserved(st, i)
    ensures |Step(st, ev).patterns| == |st.patterns| && Conserved(Step(st, ev), i)
  {
    hide Sum, Shaped, RunThread, InHand, OnTheWay, Arming;
    if ev.Run? {
      hide Conserved;
      RunConserved(st, ev.k, i);
    } else {
      var st' := Step(st, ev);
      NewBalance(st, ev, i);
      SumAppend(st.threads, st'.threads[|st.threads|], Arming(i));
      SumAppend(st.threads, st'.threads[|st.threads|], InHand(i));
      SumAppend(st.threads, st'.threads[|st.threads|], OnTheWay(i));
      hide Step;
    }
  }

  /** What a new goroutine changes in the accounts of a pattern. */
  lemma NewBalance(st: State, ev: Event, i: nat)
    requires Shaped(st) && Enabled(st, ev) && i < |st.patterns| && !ev.Run?
    ensures var st' := Step(st, ev);
      && |st'.patterns| == |st.patterns| && |st'.threads| == |st.threads| + 1
      && st'.threads == st.threads + [st'.threads[|st.threads|]]
      && InHand(i)(st'.threads[|st.threads|]) == Arming(i)(st'.threads[|st.threads|]) == 0
      && st'.patterns[i] == st.patterns[i].(started := st'.patterns[i].started)
      && st'.patterns[i].started == st.patterns[i].started + OnTheWay(i)(st'.threads[|st.threads|])
  {
    hide Shaped, RunThread;
  }

  /** A flusher stays, hands over to the next one, or empties the count. */
  lemma StepPending(st: State, ev: Event, i: nat)
    requires Shaped(st) && Enabled(st, ev) && i < |st.patterns|
    requires st.patterns[i].count > 0 ==> Pending(st, i)
    ensures |Step(st, ev).patterns| == |st.patterns|
    ensures Step(st, ev).patterns[i].count > 0 ==> Pending(Step(st, ev), i)
  {
    var st' := Step(st, ev);
    if st'.patterns[i].count > 0 {
      if st.patterns[i].count == 0 {
        assert ev.Run? && st.threads[ev.k] == IncAdd(i);
        assert st'.threads[ev.k] == IncArm(i);
      } else if FlusherTimer(st, i) {
        var t :| 0 <= t < |st.timers| && ArmedFor(st.timers[t], i);
        KeepTimer(st, ev, i, t);
      } else {
        var k :| 0 <= k < |st.threads| && st.threads[k] in {IncArm(i), Swap(i), StopSwap(i)};
        KeepThread(st, ev, i, k);
      }
    }
  }

  lemma KeepTimer(st: State, ev: Event, i: nat, t: nat)
    requires Shaped(st) && Enabled(st, ev) && i < |st.patterns|
    requires t < |st.timers| && ArmedFor(st.timers[t], i)
    ensures Pending(Step(st, ev), i)
  {
    var st' := Step(st, ev);
    if ArmedFor(st'.timers[t], i) {
      assert FlusherTimer(st', i);
    } else {
      var k := if ev.Expire? then |st.threads| else ev.k;
      assert ev.Run? ==> PCOk(st, st.threads[k]);
      assert st'.threads[k] in {Swap(i), StopSwap(i)};
      assert FlusherThread(st', i);
    }
  }

  lemma KeepThread(st: State, ev: Event, i: nat, k: nat)
    requires Shaped(st) && Enabled(st, ev) && i < |st.patterns|
    requires k < |st.threads| && st.threads[k] in {IncArm(i), Swap(i), StopSwap(i)}
    ensures |Step(st, ev).patterns| == |st.patterns|
    ensures Step(st, ev).patterns[i].count == 0 || Pending(Step(st, ev), i)
  {
    var st' := Step(st, ev);
    if ev == Run(k) {
      KeepOwn(st, i, k);
    } else {
      hide RunThread;
      if ev.Run? {
        RunExtends(st, ev.k);
      }
      assert st'.threads[k] == st.threads[k];
      assert FlusherThread(st', i);
    }
  }

  lemma KeepOwn(st: State, i: nat, k: nat)
    requires Shaped(st) && i < |st.patterns|
    requires k < |st.threads| && st.threads[k] in {IncArm(i), Swap(i), StopSwap(i)}
    ensures |RunThread(st, k).patterns| == |st.patterns|
    ensures RunThread(st, k).patterns[i].count == 0 || Pending(RunThread(st, k), i)
  {
    var st' := RunThread(st, k);
    if st.threads[k] == IncArm(i) {
      assert ArmedFor(st'.timers[|st.timers|], i);
      assert FlusherTimer(st', i);
    }
  }

  /** What a step of goroutine k does to a timer that stays armed and is not replaced. */
  lemma {:induction false} RunTimer(st: State, k: nat, t: nat)
    requires Shaped(st) && k < |st.threads| && t < |st.timers| <= |RunThread(st, k).timers|
    requires var u := RunThread(st, k).timers[t]; u.status == Armed && !u.replaced
    ensures st.timers[t].status == Armed && !st.timers[t].replaced
    ensures var st', i := RunThread(st, k), st.timers[t].pattern;
      && |st'.patterns| == |st.patterns| && |st'.threads| == |st.threads|
      && (st.patterns[i].ptimer == Some(t) || st.threads[k] == IncSet(i, t) ==> st'.patterns[i].ptimer == Some(t))
      && (st.threads[k] == IncSet(i, t) ==> st'.threads[k] == IncCheck(i, t))
  {
    RunExtends(st, k);
    assert PCOk(st, st.threads[k]);
  }

  /** How the goroutine that is to stop a timer goes on. */
  lemma {:induction false} RunStops(st: State, k: nat, t: nat)
    requires Shaped(st) && k < |st.threads| && t < |st.timers| <= |RunThread(st, k).timers|
    requires RunThread(st, k).timers[t].status == Armed
    requires st.patterns[st.timers[t].pattern].ptimer == Some(t)
    ensures var st', i := RunThread(st, k), st.timers[t].pattern;
      && |st'.threads| == |st.threads|
      && (st'.stopFlag && !st.stopFlag ==> Ahead(st'.threads[k], i))
      && (st.stopFlag && st.threads[k] in {IncCheck(i, t), IncStop(i, t), StopTry(i, t)} ==> st'.threads[k] == IncStop(i, t))
      && (Ahead(st.threads[k], i) ==> Ahead(st'.threads[k], i) || st'.threads[k] == StopTry(i, t))
  {
    assert PCOk(st, st.threads[k]);
  }

  lemma RunSeen(st: State, k: nat, t: nat)
    requires Shaped(st) && TimersSeen(st) && k < |st.threads| && t < |st.timers|
    ensures var st' := RunThread(st, k);
      |st'.patterns| == |st.patterns| && |st.timers| <= |st'.timers| && st'.timers[t].pattern == st.timers[t].pattern
    ensures Seen(RunThread(st, k), t)
  {
    var st', i := RunThread(st, k), st.timers[t].pattern;
    RunExtends(st, k);
    hide Shaped, Ahead, RunThread;
    if st'.timers[t].status == Armed && !st'.timers[t].replaced {
      RunTimer(st, k, t);
      assert Seen(st, t);
      if Setting(st, i, t) {
        var j :| 0 <= j < |st.threads| && st.threads[j] == IncSet(i, t);
        assert st'.threads[j] == if j == k then IncCheck(i, t) else IncSet(i, t);
      } else if st'.stopFlag {
        RunStops(st, k, t);
        RunCovered(st, st', k, i, t);
      }
    }
  }

  /** Whoever was to stop the timer still is, or has handed it on. */
  lemma {:induction false} RunCovered(st: State, st': State, k: nat, i: nat, t: nat)
    requires k < |st.threads| == |st'.threads| && st'.threads == st.threads[k := st'.threads[k]]
    requires st'.stopFlag && (st.stopFlag ==> Attended(st, i, t) || Visiting(st, i))
    requires !st.stopFlag ==> Ahead(st'.threads[k], i)
    requires st.stopFlag && st.threads[k] in {IncCheck(i, t), IncStop(i, t), StopTry(i, t)} ==>
               st'.threads[k] == IncStop(i, t)
    requires Ahead(st.threads[k], i) ==> Ahead(st'.threads[k], i) || st'.threads[k] == StopTry(i, t)
    ensures Attended(st', i, t) || Visiting(st', i)
  {
    hide Ahead;
    if !st.stopFlag {
      assert Ahead(st'.threads[k], i);
    } else if Attended(st, i, t) {
      var j :| 0 <= j < |st.threads| && st.threads[j] in {IncCheck(i, t), IncStop(i, t), StopTry(i, t)};
      assert st'.threads[j] in {IncCheck(i, t), IncStop(i, t), StopTry(i, t)};
    } else {
      var j :| 0 <= j < |st.threads| && Ahead(st.threads[j], i);
      assert Ahead(st'.threads[j], i) || st'.threads[j] == StopTry(i, t);
    }
  }

  lemma StepSeen(st: State, ev: Event)
    requires Shaped(st) && TimersSeen(st) && Enabled(st, ev)
    ensures TimersSeen(Step(st, ev))
  {
    var st' := Step(st, ev);
    if ev.Run? {
      RunExtends(st, ev.k);
      RunTimersShaped(st, ev.k);
      forall t | 0 <= t < |st.timers|
        ensures Seen(st', t)
      {
        RunSeen(st, ev.k, t);
      }
      if |st'.timers| > |st.timers| {
        NewTimer(st, ev.k);
      }
    } else {
      hide Ahead;
      NewThread(st, ev);
      forall t | 0 <= t < |st.timers|
        ensures Seen(st', t)
      {
        KeepSeen(st, ev, t);
      }
    }
  }

  lemma NewTimer(st: State, k: nat)
    requires Shaped(st) && k < |st.threads| && |RunThread(st, k).timers| > |st.timers|
    ensures var st' := RunThread(st, k);
      && |st'.timers| == |st.timers| + 1 && |st'.patterns| == |st.patterns|
      && st'.timers[|st.timers|].pattern < |st'.patterns| && Seen(st', |st.timers|)
  {
    var st' := RunThread(st, k);
    assert PCOk(st, st.threads[k]);
    assert st'.threads[k] == IncSet(st'.timers[|st.timers|].pattern, |st.timers|);
  }

  lemma NewThread(st: State, ev: Event)
    requires Shaped(st) && Enabled(st, ev) && !ev.Run?
    ensures var st' := Step(st, ev);
      && |st'.timers| == |st.timers| && |st'.patterns| == |st.patterns|
      && st.threads <= st'.threads && st'.stopFlag == st.stopFlag
      && (forall i :: 0 <= i < |st.patterns| ==> st'.patterns[i].ptimer == st.patterns[i].ptimer)
      && forall t :: 0 <= t < |st.timers| ==>
           && st'.timers[t].pattern == st.timers[t].pattern && st'.timers[t].replaced == st.timers[t].replaced
           && (st'.timers[t].status == Armed ==> st.timers[t].status == Armed)
  {
    hide RunThread;
  }

  lemma KeepSeen(st: State, ev: Event, t: nat)
    requires Shaped(st) && TimersSeen(st) && Enabled(st, ev) && !ev.Run? && t < |st.timers|
    ensures var st' := Step(st, ev);
      |st'.timers| == |st.timers| && st'.timers[t].pattern < |st'.patterns| && Seen(st', t)
  {
    var st', i := Step(st, ev), st.timers[t].pattern;
    NewThread(st, ev);
    assert Seen(st, t);
    hide Step, Shaped, Ahead;
    assert forall k :: 0 <= k < |st.threads| ==> st'.threads[k] == st.threads[k];
  }

  /** An error is refused only after stopFlag was set. */
  lemma StepRefused(st: State, ev: Event, i: nat)
    requires Shaped(st) && Enabled(st, ev) && i < |st.patterns|
    requires st.patterns[i].refused > 0 ==> st.stopFlag
    ensures |Step(st, ev).patterns| == |st.patterns| && (st.stopFlag ==> Step(st, ev).stopFlag)
    ensures Step(st, ev).patterns[i].refused > 0 ==> Step(st, ev).stopFlag
  {
    assert ev.Run? ==> PCOk(st, st.threads[ev.k]);
  }

  lemma StepInv(st: State, ev: Event)
    requires Inv(st) && Enabled(st, ev)
    ensures Inv(Step(st, ev))
  {
    StepShaped(st, ev);
    StepSeen(st, ev);
    hide Shaped, Conserved, Pending, Step, TimersSeen;
    forall i | 0 <= i < |st.patterns|
      ensures Conserved(Step(st, ev), i)
      ensures Step(st, ev).patterns[i].count > 0 ==> Pending(Step(st, ev), i)
      ensures Step(st, ev).patterns[i].refused > 0 ==> Step(st, ev).stopFlag
    {
      StepConserved(st, ev, i);
      StepPending(st, ev, i);
      StepRefused(st, ev, i);
    }
  }

  // ----- whole runs -----

  /** The state after a run; an event that is not enabled does not happen. */
  function After(n: nat, evs: seq<Event>): (st: State)
    ensures Inv(st) && |st.patterns| == n
  {
    if evs == [] then
      StartInv(n);
      Start(n)
    else
      var st := After(n, evs[..|evs| - 1]);
      var ev := evs[|evs| - 1];
      if Enabled(st, ev) then
        StepInv(st, ev);
        StepShaped(st, ev);
        Step(st, ev)
      else st
  }

  lemma StartInv(n: nat)
    ensures Inv(Start(n))
  {}

  /** No goroutine is running and no timer is waiting. */
  predicate Quiet(st: State) {
    && (forall k :: 0 <= k < |st.threads| ==> st.threads[k] == Done)
    && (forall t :: 0 <= t < |st.timers| ==> st.timers[t].status != Armed)
  }

  /** In every interleaving: what was counted is logged, held or still in the count; each batch,
      from the first error to the swap, has one timer made for it; and a positive count is
      going to be flushed. */
  lemma RunConserves(n: nat, evs: seq<Event>, i: nat)
    requires i < n
    ensures var st := After(n, evs);
      var p := st.patterns[i];
      && p.committed == p.logged + Sum(st.threads, InHand(i)) + p.count + WRAP * p.wraps
      && p.started == p.refused + p.committed + Sum(st.threads, OnTheWay(i))
      && p.armed + Sum(st.threads, Arming(i)) == p.flushes + p.wraps + (if p.count > 0 then 1 else 0)
      && (p.count > 0 ==> Pending(st, i))
  {}

  lemma AfterOne(n: nat, evs: seq<Event>, ev: Event)
    ensures var st := After(n, evs);
            After(n, evs + [ev]) == if Enabled(st, ev) then Step(st, ev) else st
  {
    assert (evs + [ev])[..|evs|] == evs;
  }

  /** Without a shutdown nobody sets stopFlag. */
  lemma {:induction false} StopNeedsShutdown(n: nat, evs: seq<Event>)
    requires Shutdown !in evs
    ensures Going(After(n, evs))
  {
    hide Shaped, Conserved, Pending, TimersSeen, Step, Enabled, Going;
    if evs == [] {
      AfterNone(n);
      StartGoing(n);
    } else {
      var more, ev := evs[..|evs| - 1], evs[|evs| - 1];
      StopNeedsShutdown(n, more);
      assert evs == more + [ev];
      AfterOne(n, more, ev);
      hide After;
      if Enabled(After(n, more), ev) {
        StepKeepsGoing(After(n, more), ev);
      }
    }
  }

  /** stop has not started. */
  predicate Going(st: State) {
    !st.stopFlag && forall k :: 0 <= k < |st.threads| ==> st.threads[k] != StopStore
  }

  lemma StartGoing(n: nat)
    ensures Going(Start(n))
  {}

  lemma StepKeepsGoing(st: State, ev: Event)
    requires Shaped(st) && Enabled(st, ev) && !ev.Shutdown? && Going(st)
    ensures Going(Step(st, ev))
  {
    if ev.Run? {
      RunExtends(st, ev.k);
      assert PCOk(st, st.threads[ev.k]);
    }
  }

  /** An error is refused only once a shutdown has set stopFlag. */
  lemma RefusedAfterShutdown(n: nat, evs: seq<Event>, i: nat)
    requires i < n && After(n, evs).patterns[i].refused > 0
    ensures After(n, evs).stopFlag && Shutdown in evs
  {
    hide Shaped, Conserved, Pending, TimersSeen;
    if Shutdown !in evs {
      StopNeedsShutdown(n, evs);
    }
  }

  /** Errors of pattern i that have been let in and not counted yet. */
  function LetIn(i: nat): PC -> nat {
    (pc: PC) => if pc.IncAdd? && pc.i == i then 1 else 0
  }

  /** Once stopFlag is set every error that reads it is refused: no error is let in any more,
      whatever happens. */
  lemma {:induction false} StopBars(n: nat, evs: seq<Event>, more: seq<Event>, i: nat)
    requires i < n && After(n, evs).stopFlag
    ensures var st, st' := After(n, evs), After(n, evs + more);
      && st'.stopFlag
      && st'.patterns[i].committed + Sum(st'.threads, LetIn(i)) == st.patterns[i].committed + Sum(st.threads, LetIn(i))
    decreases |more|
  {
    hide Shaped, Conserved, Pending, TimersSeen, LetIn, Sum, Step, Enabled;
    if more == [] {
      assert evs + more == evs;
    } else {
      var l, ev := more[..|more| - 1], more[|more| - 1];
      StopBars(n, evs, l, i);
      assert evs + more == evs + l + [ev];
      AfterOne(n, evs + l, ev);
      hide After;
      var st := After(n, evs + l);
      if Enabled(st, ev) {
        StepBars(st, ev, i);
      }
    }
  }

  lemma StepBars(st: State, ev: Event, i: nat)
    requires Shaped(st) && Enabled(st, ev) && st.stopFlag && i < |st.patterns|
    ensures var st' := Step(st, ev);
      && st'.stopFlag && |st'.patterns| == |st.patterns|
      && st'.patterns[i].committed + Sum(st'.threads, LetIn(i)) == st.patterns[i].committed + Sum(st.threads, LetIn(i))
  {
    hide Sum;
    var st' := Step(st, ev);
    if ev.Run? {
      var k := ev.k;
      RunExtends(st, k);
      assert PCOk(st, st.threads[k]);
      SumUpdate(st.threads, k, st'.threads[k], LetIn(i));
    } else {
      SumAppend(st.threads, st'.threads[|st.threads|], LetIn(i));
    }
  }

  /** Once everything has come to rest the count is empty, and every error that
      matched the pattern was refused, or logged exactly once; unless 2^32 errors
      met between two flushes. Without a shutdown none was refused. */
  lemma QuietMeansLogged(n: nat, evs: seq<Event>, i: nat)
    requires i < n && Quiet(After(n, evs))
    ensures var p := After(n, evs).patterns[i];
      && p.count == 0 && p.armed == p.flushes + p.wraps
      && p.started == p.refused + p.committed
      && p.committed == p.logged + WRAP * p.wraps
      && (p.logged == p.committed <==> p.wraps == 0)
      && (Shutdown !in evs ==> p.refused == 0 && p.started == p.logged + WRAP * p.wraps)
  {
    var st := After(n, evs);
    if st.patterns[i].refused > 0 {
      RefusedAfterShutdown(n, evs, i);
    }
    RunConserves(n, evs, i);
    SumZero(st.threads, InHand(i));
    SumZero(st.threads, OnTheWay(i));
    SumZero(st.threads, Arming(i));
    hide After;
    assert !Pending(st, i);
  }

  // ----- shutdown -----

  /** Every goroutine, that of stop included, has finished. */
  predicate Finished(st: State) {
    forall k :: 0 <= k < |st.threads| ==> st.threads[k] == Done
  }

  /** After a finished shutdown a timer is still waiting only if a goroutine that was late to
      store its own timer had put it in the place of this one. Otherwise nothing is waiting,
      and all counts are empty. */
  lemma ShutdownFlushes(n: nat, evs: seq<Event>)
    requires After(n, evs).stopFlag && Finished(After(n, evs))
    ensures var st := After(n, evs);
      && (forall t :: 0 <= t < |st.timers| && st.timers[t].status == Armed ==> st.timers[t].replaced)
      && (Quiet(st) <==> forall t :: 0 <= t < |st.timers| && st.timers[t].replaced ==> st.timers[t].status != Armed)
      && (Quiet(st) ==> forall i :: 0 <= i < n ==> st.patterns[i].count == 0)
  {
    var st := After(n, evs);
    hide After, Shaped, Conserved, Pending;
    forall t | 0 <= t < |st.timers| && st.timers[t].status == Armed
      ensures st.timers[t].replaced
    {
      assert Seen(st, t);
    }
    if Quiet(st) {
      forall i | 0 <= i < n
        ensures st.patterns[i].count == 0
      {
        QuietMeansLogged(n, evs, i);
      }
    }
  }

  /** One more event of a run. */
  lemma {:induction false} Happens(n: nat, evs: seq<Event>, st: State, ev: Event) returns (evs': seq<Event>, st': State)
    requires st == After(n, evs) && Shaped(st) && Enabled(st, ev)
    ensures st' == Step(st, ev) == After(n, evs') && Shaped(st')
  {
    AfterOne(n, evs, ev);
    StepShaped(st, ev);
    hide *;
    evs', st' := evs + [ev], Step(st, ev);
  }

  lemma TimerMade() returns (evs: seq<Event>, st: State)
    ensures st == After(1, evs) && Shaped(st)
    ensures st == State(false, [Pattern(1, None, 1, 0, 1, 0, 0, 1, 0)], [Timer(0, Armed, false)], [IncSet(0, 0)])
  {
    hide After, Inv, Shaped, PCOk;
    evs, st := [], State(false, [Pattern(0, None, 0, 0, 0, 0, 0, 0, 0)], [], []);
    OnePattern(st);
    evs, st := Happens(1, evs, st, Error(0));
    assert st == State(false, [Pattern(0, None, 1, 0, 0, 0, 0, 0, 0)], [], [IncLoad(0)]);
    evs, st := Happens(1, evs, st, Run(0));
    evs, st := Happens(1, evs, st, Run(0));
    assert st == State(false, [Pattern(1, None, 1, 0, 1, 0, 0, 0, 0)], [], [IncArm(0)]);
    evs, st := Happens(1, evs, st, Run(0));
  }

  /** Such a run. Goroutine 0 makes timer 0, which goes off before it is stored. */
  lemma LateStore() returns (evs: seq<Event>, st: State)
    ensures st == After(1, evs) && Shaped(st)
    ensures st == State(false, [Pattern(0, None, 1, 0, 1, 1, 0, 1, 1)], [Timer(0, Fired, false)], [IncSet(0, 0), Done])
  {
    hide After, Inv, Shaped, PCOk;
    evs, st := TimerMade();
    evs, st := Happens(1, evs, st, Expire(0));
    assert st == State(false, [Pattern(1, None, 1, 0, 1, 0, 0, 1, 0)], [Timer(0, Fired, false)], [IncSet(0, 0), Swap(0)]);
    evs, st := Happens(1, evs, st, Run(1));
    evs, st := Happens(1, evs, st, Run(1));
  }

  /** Goroutine 2 counts another error and stores timer 1, and goroutine 0 stores timer 0
      over it. */
  lemma TimerReplaced() returns (evs: seq<Event>, st: State)
    ensures st == After(1, evs) && Shaped(st)
    ensures st == State(false, [Pattern(1, Some(0), 2, 0, 2, 1, 0, 2, 1)], [Timer(0, Fired, false), Timer(0, Armed, true)],
                        [Done, Done, Done])
  {
    hide After, Inv, Shaped, PCOk;
    evs, st := LateStore();
    evs, st := Happens(1, evs, st, Error(0));
    evs, st := Happens(1, evs, st, Run(2));
    evs, st := Happens(1, evs, st, Run(2));
    assert st == State(false, [Pattern(1, None, 2, 0, 2, 1, 0, 1, 1)], [Timer(0, Fired, false)], [IncSet(0, 0), Done, IncArm(0)]);
    evs, st := Happens(1, evs, st, Run(2));
    evs, st := Happens(1, evs, st, Run(2));
    evs, st := Happens(1, evs, st, Run(2));
    assert st == State(false, [Pattern(1, Some(1), 2, 0, 2, 1, 0, 2, 1)], [Timer(0, Fired, false), Timer(0, Armed, false)],
                       [IncSet(0, 0), Done, Done]);
    evs, st := Happens(1, evs, st, Run(0));
    evs, st := Happens(1, evs, st, Run(0));
  }

  lemma AfterNone(n: nat)
    ensures After(n, []) == Start(n)
  {}

  lemma {:induction false} OnePattern(st: State)
    requires st == State(false, [Pattern(0, None, 0, 0, 0, 0, 0, 0, 0)], [], [])
    ensures st == After(1, []) && Shaped(st)
  {
    assert st == Start(1);
  }

  /** stop, which finds only timer 0, then ends with an error counted and timer 1 waiting. */
  lemma ShutdownMissesTimer() returns (evs: seq<Event>, st: State)
    ensures st == After(1, evs) && st.stopFlag && Finished(st) && !Quiet(st)
    ensures |st.patterns| == 1 && st.patterns[0].count == 1
    ensures |st.timers| == 2 && st.timers[1] == Timer(0, Armed, true)
  {
    hide After, Inv, Shaped, PCOk;
    evs, st := TimerReplaced();
    evs, st := Happens(1, evs, st, Shutdown);
    evs, st := Happens(1, evs, st, Run(3));
    evs, st := Happens(1, evs, st, Run(3));
    evs, st := Happens(1, evs, st, Run(3));
    assert st == State(true, [Pattern(1, Some(0), 2, 0, 2, 1, 0, 2, 1)], [Timer(0, Fired, false), Timer(0, Armed, true)],
                       [Done, Done, Done, Done]);
    assert st.timers[1].status == Armed;
  }
}
