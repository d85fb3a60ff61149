/** Group.Do of plugin/pkg/singleflight/singleflight.go as a transition system: any
    number of Do calls, interleaved at every lock, assignment and wait. */
module Singleflight {
  import opened Wrappers

  /** What fn returns. */
  datatype Value = Value(val: int, err: int)

  /** The call object: the Do that made it, the result fields, and whether wg.Done ran. */
  datatype Call = Call(key: nat, owner: nat, val: Option<Value>, done: bool)

  /** Where a Do stands, and the call object it works with. */
  datatype PC =
    | Begin
    | Waiting(call: nat)
    | Running(call: nat)
    | Computed(call: nat)
    | Signalled(call: nat)
    | Deleted(call: nat)
    | Returned(call: nat, val: Option<Value>)

  /** One invocation of Do, with the times at which it began and returned. */
  datatype Do = Do(key: nat, pc: PC, start: nat, end: Option<nat>)

  datatype State = State(m: map<nat, nat>, calls: seq<Call>, dos: seq<Do>, clock: nat)

  const INIT := State(map[], [], [], 0)

  datatype Event =
    | Invoke(key: nat)
    | LookUp(t: nat)
    | Finish(t: nat, val: Value)
    | Signal(t: nat)
    | Delete(t: nat)
    | Return(t: nat)

  predicate Enabled(s: State, e: Event) {
    match e
    case Invoke(_) => true
    case LookUp(t) => t < |s.dos| && s.dos[t].pc.Begin?
    case Finish(t, _) => t < |s.dos| && s.dos[t].pc.Running? && s.dos[t].pc.call < |s.calls|
    case Signal(t) => t < |s.dos| && s.dos[t].pc.Computed? && s.dos[t].pc.call < |s.calls|
    case Delete(t) => t < |s.dos| && s.dos[t].pc.Signalled?
    case Return(t) =>
      && t < |s.dos| && (s.dos[t].pc.Deleted? || s.dos[t].pc.Waiting?) && s.dos[t].pc.call < |s.calls|
      && (s.dos[t].pc.Waiting? ==> s.calls[s.dos[t].pc.call].done)
  }

  function Move(s: State, t: nat, pc: PC): (s': State)
    requires t < |s.dos|
  {
    s.(dos := s.dos[t := s.dos[t].(pc := pc)], clock := s.clock + 1)
  }

  function Step(s: State, e: Event): (s': State)
    requires Enabled(s, e)
  {
    match e
    case Invoke(key) => s.(dos := s.dos + [Do(key, Begin, s.clock, None)], clock := s.clock + 1)
    case LookUp(t) =>
      var key := s.dos[t].key;
      if key in s.m then Move(s, t, Waiting(s.m[key]))
      else
        var c := |s.calls|;
        Move(s.(calls := s.calls + [Call(key, t, None, false)], m := s.m[key := c]), t, Running(c))
    case Finish(t, val) =>
      var c := s.dos[t].pc.call;
      Move(s.(calls := s.calls[c := s.calls[c].(val := Some(val))]), t, Computed(c))
    case Signal(t) =>
      var c := s.dos[t].pc.call;
      Move(s.(calls := s.calls[c := s.calls[c].(done := true)]), t, Signalled(c))
    case Delete(t) =>
      Move(s.(m := s.m - {s.dos[t].key}), t, Deleted(s.dos[t].pc.call))
    case Return(t) =>
      var c := s.dos[t].pc.call;
      var s' := Move(s, t, Returned(c, s.calls[c].val));
      s'.(dos := s'.dos[t := s'.dos[t].(end := Some(s.clock))])
  }

  // ----- invariant -----

  /** Between inserting its call object and deleting it. */
  predicate Holding(pc: PC) {
    pc.Running? || pc.Computed? || pc.Signalled?
  }

  /** Working on a call object of its own. */
  predicate Owning(pc: PC) {
    Holding(pc) || pc.Deleted?
  }

  /** Some moment belongs to both invocations. */
  predicate Overlap(a: Do, b: Do) {
    && (a.end.Some? ==> b.start <= a.end.value)
    && (b.end.Some? ==> a.start <= b.end.value)
  }

  /** The owner's progress shows in its call object. */
  predicate CallOk(s: State, c: nat)
    requires c < |s.calls|
  {
    var call := s.calls[c];
    && call.owner < |s.dos|
    && var o := s.dos[call.owner];
    && o.key == call.key && !o.pc.Begin? && !o.pc.Waiting? && o.pc.call == c
    && (call.val.Some? <==> !o.pc.Running?)
    && (call.done <==> o.pc.Signalled? || o.pc.Deleted? || o.pc.Returned?)
  }

  ghost predicate CallsOk(s: State) {
    forall c: nat :: c < |s.calls| ==> CallOk(s, c)
  }

  /** An entry of the map is a call for its key whose owner has yet to delete it. */
  predicate EntryOk(s: State, k: nat)
    requires k in s.m
  {
    && s.m[k] < |s.calls| && s.calls[s.m[k]].key == k
    && s.calls[s.m[k]].owner < |s.dos| && Holding(s.dos[s.calls[s.m[k]].owner].pc)
  }

  ghost predicate MapOk(s: State) {
    forall k: nat :: k in s.m ==> EntryOk(s, k)
  }

  /** A Do that has seen the map works with a call for its own key, whose owner's Do
      overlaps it; until it deletes its own call object, that is the map's entry. */
  predicate DoOk(s: State, t: nat)
    requires t < |s.dos|
  {
    var d := s.dos[t];
    && d.start < s.clock && (d.end.Some? <==> d.pc.Returned?) && (d.end.Some? ==> d.end.value < s.clock)
    && (!d.pc.Begin? ==>
          && d.pc.call < |s.calls| && s.calls[d.pc.call].key == d.key
          && s.calls[d.pc.call].owner < |s.dos| && Overlap(s.dos[s.calls[d.pc.call].owner], d))
    && (Owning(d.pc) ==> s.calls[d.pc.call].owner == t)
    && (Holding(d.pc) ==> d.key in s.m && s.m[d.key] == d.pc.call)
    && (d.pc.Returned? ==> d.pc.val.Some? && s.calls[d.pc.call].val == d.pc.val && s.calls[d.pc.call].done)
  }

  ghost predicate DosOk(s: State) {
    forall t: nat :: t < |s.dos| ==> DoOk(s, t)
  }

  ghost predicate Inv(s: State) {
    CallsOk(s) && MapOk(s) && DosOk(s)
  }

  lemma StepCalls(s: State, e: Event)
    requires Inv(s) && Enabled(s, e)
    ensures CallsOk(Step(s, e))
  {
    var s' := Step(s, e);
    forall c: nat | c < |s'.calls| ensures CallOk(s', c) {
      if c < |s.calls| {
        assert CallOk(s, c);
      }
      if !e.Invoke? {
        assert DoOk(s, e.t);
      }
    }
  }

  lemma StepMap(s: State, e: Event)
    requires Inv(s) && Enabled(s, e)
    ensures MapOk(Step(s, e))
  {
    var s' := Step(s, e);
    forall k: nat | k in s'.m
      ensures EntryOk(s', k)
    {
      if k in s.m {
        assert EntryOk(s, k);
        KeepsEntry(s, e, k);
      } else {
        assert e.LookUp? && s.dos[e.t].key == k;
      }
    }
  }

  /** An entry stays until its owner deletes it. */
  lemma KeepsEntry(s: State, e: Event, k: nat)
    requires Inv(s) && Enabled(s, e) && k in s.m && k in Step(s, e).m
    ensures EntryOk(Step(s, e), k)
  {
    assert EntryOk(s, k) && CallOk(s, s.m[k]);
    if !e.Invoke? {
      assert DoOk(s, e.t);
    }
    hide CallsOk, MapOk, DosOk;
  }

  /** The Do that takes the step. */
  lemma StepOwnDo(s: State, e: Event)
    requires Inv(s) && Enabled(s, e) && !e.Invoke?
    ensures DoOk(Step(s, e), e.t)
  {
    var t := e.t;
    assert DoOk(s, t);
    if e.LookUp? {
      if s.dos[t].key in s.m {
        assert CallOk(s, s.m[s.dos[t].key]);
        assert DoOk(s, s.calls[s.m[s.dos[t].key]].owner);
      }
    } else {
      assert CallOk(s, s.dos[t].pc.call);
      assert DoOk(s, s.calls[s.dos[t].pc.call].owner);
    }
  }

  /** No other Do moves, and a call object changes only at its owner's hands. */
  lemma {:induction false} StepOthers(s: State, e: Event, t: nat)
    requires Inv(s) && Enabled(s, e) && t < |s.dos| && (e.Invoke? || t != e.t)
    ensures var s' := Step(s, e);
      && t < |s'.dos| && s'.dos[t] == s.dos[t] && s'.clock == s.clock + 1
      && (Holding(s.dos[t].pc) ==> s.dos[t].key in s'.m && s'.m[s.dos[t].key] == s.dos[t].pc.call)
  {
    assert DoOk(s, t);
    if !e.Invoke? {
      assert DoOk(s, e.t);
    }
  }

  /** A finished call stays as it is, and no Do's own interval shrinks below another's start. */
  lemma StepCall(s: State, e: Event, c: nat)
    requires Inv(s) && Enabled(s, e) && c < |s.calls|
    ensures var s' := Step(s, e);
      && c < |s'.calls| && s'.calls[c].key == s.calls[c].key && s'.calls[c].owner == s.calls[c].owner
      && (s.calls[c].val.Some? ==> s'.calls[c].val == s.calls[c].val)
      && (s.calls[c].done ==> s'.calls[c].done)
      && s.calls[c].owner < |s.dos| <= |s'.dos|
      && var o, o' := s.dos[s.calls[c].owner], s'.dos[s.calls[c].owner];
      && o'.start == o.start && (o' == o || o'.end == o.end || o'.end == Some(s.clock))
  {
    assert CallOk(s, c);
    if !e.Invoke? {
      assert DoOk(s, e.t);
    }
  }

  lemma StepDo(s: State, e: Event, t: nat)
    requires Inv(s) && Enabled(s, e) && t < |Step(s, e).dos|
    ensures DoOk(Step(s, e), t)
  {
    if t == |s.dos| {
    } else if !e.Invoke? && t == e.t {
      StepOwnDo(s, e);
    } else {
      assert DoOk(s, t);
      StepOthers(s, e, t);
      if !s.dos[t].pc.Begin? {
        StepCall(s, e, s.dos[t].pc.call);
      }
      hide Step;
    }
  }

  lemma StepInv(s: State, e: Event)
    requires Inv(s) && Enabled(s, e)
    ensures Inv(Step(s, e))
  {
    StepCalls(s, e);
    StepMap(s, e);
    forall t: nat | t < |Step(s, e).dos| ensures DoOk(Step(s, e), t) {
      StepDo(s, e, t);
    }
  }

  // ----- every run -----

  /** The state after a run; an event that is not enabled does not happen. */
  ghost function After(evs: seq<Event>): (s: State)
    ensures Inv(s)
  {
    if evs == [] then INIT
    else
      var s := After(evs[..|evs| - 1]);
      var e := evs[|evs| - 1];
      if Enabled(s, e) then
        StepInv(s, e);
        Step(s, e)
      else s
  }

  /** At most one execution per key is running, whoever asked for it. */
  lemma {:induction false} OneExecutionPerKey(evs: seq<Event>, a: nat, b: nat)
    requires a < |After(evs).dos| && b < |After(evs).dos|
    requires var s := After(evs); s.dos[a].pc.Running? && s.dos[b].pc.Running? && s.dos[a].key == s.dos[b].key
    ensures a == b
  {
    hide After;
    var s := After(evs);
    assert DoOk(s, a) && DoOk(s, b);
  }

  /** The entry an owner deletes is its own, with the result in it. */
  lemma DeletesItsOwn(evs: seq<Event>, t: nat)
    requires Enabled(After(evs), Delete(t))
    ensures var s := After(evs); var key := s.dos[t].key;
      && key in s.m && s.m[key] == s.dos[t].pc.call < |s.calls|
      && s.calls[s.m[key]].owner == t && s.calls[s.m[key]].val.Some? && s.calls[s.m[key]].done
      && Step(s, Delete(t)).m == s.m - {key}
  {
    hide After;
    var s := After(evs);
    assert DoOk(s, t);
    assert CallOk(s, s.dos[t].pc.call);
  }

  /** A Do returns what one execution for its key produced, and the Do that ran that
      execution overlapped it; if that one has returned too, it returned the same. */
  lemma ReturnsAnOverlappingExecution(evs: seq<Event>, t: nat)
    requires t < |After(evs).dos| && After(evs).dos[t].pc.Returned?
    ensures var s := After(evs); var d := s.dos[t];
      && d.pc.call < |s.calls| && d.pc.val.Some?
      && var call := s.calls[d.pc.call];
      && call.key == d.key && call.val == d.pc.val
      && call.owner < |s.dos| && Overlap(s.dos[call.owner], d)
      && (s.dos[call.owner].pc.Returned? ==> s.dos[call.owner].pc.val == d.pc.val)
  {
    hide After;
    var s := After(evs);
    assert DoOk(s, t);
    assert CallOk(s, s.dos[t].pc.call);
    assert DoOk(s, s.calls[s.dos[t].pc.call].owner);
  }

  /** fn's result is assigned to a call object once, by its owner, and stays. */
  lemma {:induction false} ResultsNeverChange(evs: seq<Event>, more: seq<Event>, c: nat)
    requires c < |After(evs).calls| && After(evs).calls[c].val.Some?
    ensures c < |After(evs + more).calls| && After(evs + more).calls[c].val == After(evs).calls[c].val
  {
    hide Step, Enabled, Inv;
    if more == [] {
      assert evs + more == evs;
    } else {
      var less := more[..|more| - 1];
      ResultsNeverChange(evs, less, c);
      assert (evs + more)[..|evs + more| - 1] == evs + less;
      var s := After(evs + less);
      if Enabled(s, more[|more| - 1]) {
        StepCall(s, more[|more| - 1], c);
      }
    }
  }

  /** A result in a call object is the value fn returned to its owner, at step j of the run. */
  lemma {:induction false} ResultIsFns(evs: seq<Event>, c: nat) returns (j: nat)
    requires c < |After(evs).calls| && After(evs).calls[c].val.Some?
    ensures j < |evs|
    ensures var call, s := After(evs).calls[c], After(evs[..j]);
      && evs[j] == Finish(call.owner, call.val.value) && Enabled(s, evs[j])
      && s.dos[call.owner].pc == Running(c)
  {
    hide Inv, Step, Enabled;
    if evs != [] {
      var n := |evs| - 1;
      var s, e := After(evs[..n]), evs[n];
      if c < |s.calls| && s.calls[c].val.Some? {
        j := ResultIsFns(evs[..n], c);
        assert evs[..n][..j] == evs[..j];
        if Enabled(s, e) {
          StepCall(s, e, c);
        }
      } else {
        j := n;
        NewResult(s, e, c);
      }
    }
  }

  /** Only the end of fn puts a result into a call object. */
  lemma NewResult(s: State, e: Event, c: nat)
    requires Inv(s) && Enabled(s, e) && c < |Step(s, e).calls| && Step(s, e).calls[c].val.Some?
    requires c >= |s.calls| || s.calls[c].val.None?
    ensures var call := Step(s, e).calls[c];
      e == Finish(call.owner, call.val.value) && call.owner < |s.dos| && s.dos[call.owner].pc == Running(c)
  {
    if !e.Invoke? {
      assert DoOk(s, e.t);
    }
  }

  /** So what a Do returns is what fn returned, at step j of the run, to a Do of the same key
      whose call overlapped its own. */
  lemma ReturnsWhatFnReturned(evs: seq<Event>, t: nat) returns (o: nat, j: nat)
    requires t < |After(evs).dos| && After(evs).dos[t].pc.Returned?
    ensures var s := After(evs);
      && o < |s.dos| && s.dos[o].key == s.dos[t].key && Overlap(s.dos[o], s.dos[t])
      && j < |evs| && s.dos[t].pc.val.Some? && evs[j] == Finish(o, s.dos[t].pc.val.value)
      && Enabled(After(evs[..j]), evs[j])
  {
    hide After, Overlap, Enabled;
    var s := After(evs);
    ReturnsAnOverlappingExecution(evs, t);
    var c := s.dos[t].pc.call;
    o := s.calls[c].owner;
    assert CallOk(s, c);
    hide Inv;
    j := ResultIsFns(evs, c);
  }

  lemma FinishesOnce(evs: seq<Event>, t: nat, val: Value)
    requires Enabled(After(evs), Finish(t, val))
    ensures var s := After(evs);
      s.calls[s.dos[t].pc.call].val.None? && s.calls[s.dos[t].pc.call].owner == t
  {
    hide After;
    var s := After(evs);
    assert DoOk(s, t);
    assert CallOk(s, s.dos[t].pc.call);
  }

  /** The next step of a Do. */
  function Next(s: State, t: nat, val: Value): (e: Event)
    requires t < |s.dos|
  {
    match s.dos[t].pc
    case Begin => LookUp(t)
    case Running(_) => Finish(t, val)
    case Computed(_) => Signal(t)
    case Signalled(_) => Delete(t)
    case _ => Return(t)
  }

  /** No Do is stuck: it can go on, or it waits for a Do of the same key that can. */
  lemma NeverStuck(evs: seq<Event>, t: nat, val: Value)
    requires t < |After(evs).dos| && !After(evs).dos[t].pc.Returned?
    ensures var s := After(evs);
      || Enabled(s, Next(s, t, val))
      || (exists o: nat :: o < |s.dos| && s.dos[o].key == s.dos[t].key && Owning(s.dos[o].pc)
                           && Enabled(s, Next(s, o, val)))
  {
    hide After;
    var s := After(evs);
    assert DoOk(s, t);
    if !s.dos[t].pc.Begin? {
      assert CallOk(s, s.dos[t].pc.call);
      assert DoOk(s, s.calls[s.dos[t].pc.call].owner);
    }
  }
}
