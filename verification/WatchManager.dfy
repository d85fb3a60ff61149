/** The watch manager of plugin/pkg/watch/watcher.go: client streams, change
    notifications and shutdown around one mutex, in every interleaving. */
module WatchManager {

  /** Which watch ids are registered for which name, and by which stream. */
  type Watches = map<string, map<nat, nat>>

  datatype Canceler = ByStream(s: nat) | ByStop

  /** A message sent for a watch id; ok: the send succeeded. */
  datatype Msg = Created(ok: bool) | Changed(ok: bool) | Canceled(who: Canceler)

  /** What has happened to a watch id: who asked for it and for which name, what was sent for
      it, how many plugins were asked to watch the name for it, which of them refused, and
      which accepted when it was no longer registered. */
  datatype Watch = Watch(creator: nat, qname: string, msgs: seq<Msg>, asked: nat, refused: set<nat>, late: set<nat>)

  /** Where a client stream's goroutine stands. */
  datatype StreamPC =
    | Receiving                              // in stream.Recv
    | Numbering(q: string)                   // create: lock, take the next id, unlock
    | Announcing(q: string, id: nat)         // create: send Created
    | Registering(q: string, id: nat)        // create: lock, add to watches, unlock
    | Telling(q: string, id: nat, k: nat)    // create: call Watch on plugin k
    | Canceling(id: nat)                     // cancel: lock and remove
    | Untelling(id: nat, q: string, k: nat)  // cancel, locked: StopWatching on plugin k
    | Confirming(id: nat)                    // cancel, locked: send Canceled, unlock

  datatype ProcessPC =
    | Selecting | Locking(matched: set<string>) | Notifying(todo: set<nat>) | Exited

  datatype StopPC = NotCalled | StopLocking | StopSending(todo: set<nat>) | Returned

  datatype Lock = Free | HeldByStream(s: nat) | HeldByProcess | HeldByStop

  /** The manager with its counter and table, everything that happened to the ids given out,
      and the ids registered when Stop took the mutex. */
  datatype State = State(
    counter: nat, ids: map<nat, Watch>, stopped: set<nat>, watches: Watches, lock: Lock, streams: seq<StreamPC>,
    process: ProcessPC, stop: StopPC, watching: seq<set<string>>)

  datatype Event =
    | NewStream
    | RecvCreate(s: nat, q: string) | RecvCancel(s: nat, id: nat)
    | Run(s: nat, ok: bool)                  // a stream's next step; ok: the send or the plugin succeeds
    | Change(matched: set<string>)           // a notification, and the watched names it matches
    | RunProcess(id: nat, ok: bool)
    | StopCall | RunStop(id: nat)

  // ----- the table of watches -----

  predicate In(w: Watches, q: string, id: nat) {
    q in w && id in w[q]
  }

  /** The stream an id is registered with. */
  function Owner(w: Watches, q: string, id: nat): (s: nat) {
    if In(w, q, id) then w[q][id] else 0
  }

  function Add(w: Watches, q: string, id: nat, s: nat): (r: Watches)
    ensures forall q', id': nat :: In(r, q', id') <==> In(w, q', id') || (q' == q && id' == id)
    ensures forall q', id': nat :: In(w, q', id') && id' != id ==> Owner(r, q', id') == Owner(w, q', id')
    ensures Owner(r, q, id) == s
    ensures r.Keys == w.Keys + {q}
    ensures forall q' :: q' in w && q' != q ==> r[q'] == w[q']
  {
    w[q := (if q in w then w[q] else map[])[id := s]]
  }

  function Remove(w: Watches, q: string, id: nat): (r: Watches)
    requires q in w
    ensures forall q', id': nat :: In(r, q', id') <==> In(w, q', id') && !(q' == q && id' == id)
    ensures forall q', id': nat :: In(r, q', id') ==> Owner(r, q', id') == Owner(w, q', id')
    ensures r.Keys == w.Keys
    ensures forall q' :: q' in w && q' != q ==> r[q'] == w[q']
  {
    w[q := w[q] - {id}]
  }

  /** An id is live while it is registered under its name. */
  predicate Live(st: State, id: nat) {
    id in st.ids && In(st.watches, st.ids[id].qname, id)
  }

  function LiveIn(st: State, names: set<string>): (r: set<nat>) {
    set id | id in st.ids && Live(st, id) && st.ids[id].qname in names
  }

  function AllLive(st: State): (r: set<nat>) {
    set id | id in st.ids && Live(st, id)
  }

  // ----- steps -----

  predicate Enabled(st: State, ev: Event) {
    match ev
    case NewStream => true
    case RecvCreate(s, _) => s < |st.streams| && st.streams[s].Receiving?
    case RecvCancel(s, _) => s < |st.streams| && st.streams[s].Receiving?
    case Run(s, _) =>
      && s < |st.streams| && !st.streams[s].Receiving?
      && (st.streams[s].Numbering? || st.streams[s].Registering? || st.streams[s].Canceling? ==> st.lock.Free?)
    case Change(_) => st.process.Selecting?
    case RunProcess(id, _) =>
      || (st.process.Locking? && st.lock.Free?)
      || (st.process.Notifying? && (st.process.todo == {} || id in st.process.todo))
    case StopCall => st.process.Selecting? && st.stop.NotCalled?
    case RunStop(id) =>
      || (st.stop.StopLocking? && st.lock.Free?)
      || (st.stop.StopSending? && (st.stop.todo == {} || id in st.stop.todo))
  }

  /** The indices a stream works with exist, and its ids are its own. */
  predicate PCOk(st: State, s: nat, pc: StreamPC) {
    match pc
    case Announcing(q, id) => id in st.ids && st.ids[id].creator == s && st.ids[id].qname == q
    case Registering(q, id) => id in st.ids && st.ids[id].creator == s && st.ids[id].qname == q
    case Telling(q, id, k) =>
      id in st.ids && st.ids[id].creator == s && st.ids[id].qname == q && k < |st.watching|
    case Untelling(id, q, k) =>
      && id in st.ids && st.ids[id].creator == s && st.ids[id].qname == q && k <= |st.watching|
      && q in st.watches && st.watches[q] == map[]
    case Confirming(id) => id in st.ids && st.ids[id].creator == s
    case _ => true
  }

  /** Registered ids exist, under their name and their creator. */
  ghost predicate TableOk(st: State) {
    forall q, id: nat :: In(st.watches, q, id) ==>
      id in st.ids && st.ids[id].qname == q && st.ids[id].creator == Owner(st.watches, q, id)
  }

  ghost predicate Shaped(st: State) {
    && (forall s :: 0 <= s < |st.streams| ==> PCOk(st, s, st.streams[s]))
    && (forall id :: id in st.ids ==> id <= st.counter && st.ids[id].creator < |st.streams|)
    && TableOk(st)
    && (st.process.Notifying? ==> forall id :: id in st.process.todo ==> Live(st, id))
    && (st.stop.StopSending? ==> forall id: nat :: id in st.stop.todo <==> Live(st, id))
  }

  function Goto(st: State, s: nat, pc: StreamPC): (st': State)
    requires s < |st.streams|
  {
    st.(streams := st.streams[s := pc])
  }

  function Say(st: State, id: nat, m: Msg): (st': State)
    requires id in st.ids
  {
    st.(ids := st.ids[id := st.ids[id].(msgs := st.ids[id].msgs + [m])])
  }

  /** The record of having asked plugin k. */
  function Asked(st: State, id: nat, k: nat, ok: bool): (w: Watch)
    requires id in st.ids
  {
    var w := st.ids[id].(asked := k + 1);
    if !ok then w.(refused := w.refused + {k})
    else if !Live(st, id) then w.(late := w.late + {k})
    else w
  }

  function RunStream(st: State, s: nat, ok: bool): (st': State)
    requires Shaped(st) && s < |st.streams|
  {
    assert PCOk(st, s, st.streams[s]);
    match st.streams[s]
    case Receiving => st
    case Numbering(q) =>
      var id := st.counter + 1;
      Goto(st, s, Announcing(q, id)).(counter := id, ids := st.ids[id := Watch(s, q, [], 0, {}, {})])
    case Announcing(q, id) => Say(Goto(st, s, if ok then Registering(q, id) else Receiving), id, Created(ok))
    case Registering(q, id) =>
      Goto(st, s, if |st.watching| > 0 then Telling(q, id, 0) else Receiving)
        .(watches := Add(st.watches, q, id, s))
    case Telling(q, id, k) =>
      var st1 := Goto(st, s, if k + 1 < |st.watching| then Telling(q, id, k + 1) else Receiving);
      st1.(watching := if ok then st.watching[k := st.watching[k] + {q}] else st.watching,
           ids := st.ids[id := Asked(st, id, k, ok)])
    case Canceling(id) =>
      if Live(st, id) && Owner(st.watches, st.ids[id].qname, id) == s then
        var q := st.ids[id].qname;
        var w := Remove(st.watches, q, id);
        Goto(st, s, if w[q] == map[] then Untelling(id, q, 0) else Confirming(id))
          .(watches := w, lock := HeldByStream(s))
      else Goto(st, s, Receiving)
    case Untelling(id, q, k) =>
      if k < |st.watching| then
        Goto(st, s, Untelling(id, q, k + 1)).(watching := st.watching[k := st.watching[k] - {q}])
      else Goto(st, s, Confirming(id)).(watches := st.watches - {q})
    case Confirming(id) => Say(Goto(st, s, Receiving), id, Canceled(ByStream(s))).(lock := Free)
  }

  function RunProc(st: State, id: nat, ok: bool): (st': State)
    requires Shaped(st) && Enabled(st, RunProcess(id, ok))
  {
    if st.process.Locking? then
      st.(lock := HeldByProcess, process := Notifying(LiveIn(st, st.process.matched)))
    else if st.process.todo == {} then st.(lock := Free, process := Selecting)
    else
      assert Live(st, id);
      var st1 := Say(st, id, Changed(ok)).(process := Notifying(st.process.todo - {id}));
      if ok then st1 else st1.(watches := Remove(st.watches, st.ids[id].qname, id))
  }

  function RunStopper(st: State, id: nat): (st': State)
    requires Shaped(st) && Enabled(st, RunStop(id))
  {
    if st.stop.StopLocking? then st.(lock := HeldByStop, stop := StopSending(AllLive(st)), stopped := AllLive(st))
    else if st.stop.todo == {} then st.(lock := Free, stop := Returned, watches := map[])
    else
      assert Live(st, id);
      Say(st, id, Canceled(ByStop))
        .(stop := StopSending(st.stop.todo - {id}), watches := Remove(st.watches, st.ids[id].qname, id))
  }

  function Step(st: State, ev: Event): (st': State)
    requires Shaped(st) && Enabled(st, ev)
  {
    match ev
    case NewStream => st.(streams := st.streams + [Receiving])
    case RecvCreate(s, q) => Goto(st, s, Numbering(q))
    case RecvCancel(s, id) => Goto(st, s, Canceling(id))
    case Run(s, ok) => RunStream(st, s, ok)
    case Change(matched) => st.(process := Locking(matched))
    case RunProcess(id, ok) => RunProc(st, id, ok)
    case StopCall => st.(process := Exited, stop := StopLocking)
    case RunStop(id) => RunStopper(st, id)
  }

  // ----- the invariant -----

  /** Created, then only change notices, and every send succeeded. */
  predicate Open(msgs: seq<Msg>) {
    msgs != [] && msgs[0] == Created(true) && forall i :: 0 < i < |msgs| ==> msgs[i] == Changed(true)
  }

  /** Nothing, or Created first, then change notices, and Canceled at most once, last; nothing
      after a send that failed. */
  predicate Proper(msgs: seq<Msg>) {
    && (msgs != [] ==> msgs[0].Created?)
    && (|msgs| > 1 ==> msgs[0].ok && !msgs[|msgs| - 1].Created?)
    && (forall i :: 0 < i < |msgs| - 1 ==> msgs[i] == Changed(true))
  }

  /** Nobody but its creator or Stop has canceled a watch. */
  predicate CanceledByOwner(creator: nat, msgs: seq<Msg>) {
    forall i :: 0 <= i < |msgs| && msgs[i].Canceled? ==>
      msgs[i].who == ByStop || msgs[i].who == ByStream(creator)
  }

  predicate Announces(pc: StreamPC, id: nat) {
    pc.Announcing? && pc.id == id
  }

  predicate Registers(pc: StreamPC, id: nat) {
    pc.Registering? && pc.id == id
  }

  predicate Tells(pc: StreamPC, id: nat) {
    pc.Telling? && pc.id == id
  }

  predicate Cancels(pc: StreamPC, id: nat) {
    (pc.Untelling? || pc.Confirming?) && pc.id == id
  }

  /** What has been said about an id, and when it is registered, given where its creator stands. */
  predicate Said(st: State, id: nat)
    requires id in st.ids && st.ids[id].creator < |st.streams|
  {
    var msgs, pc := st.ids[id].msgs, st.streams[st.ids[id].creator];
    && Proper(msgs) && CanceledByOwner(st.ids[id].creator, msgs)
    && (Announces(pc, id) <==> msgs == [])
    && (Registers(pc, id) ==> msgs == [Created(true)])
    && (Cancels(pc, id) ==> Open(msgs))
    && (Live(st, id) <==> Open(msgs) && !Registers(pc, id) && !Cancels(pc, id))
  }

  /** How many plugins have been asked for an id, given where its creator stands. */
  predicate AskedOk(st: State, id: nat)
    requires id in st.ids && st.ids[id].creator < |st.streams|
  {
    var w, pc := st.ids[id], st.streams[st.ids[id].creator];
    && (Announces(pc, id) || Registers(pc, id) ==> w.asked == 0)
    && (Tells(pc, id) ==> w.asked == pc.k)
    && (!Announces(pc, id) && !Registers(pc, id) && !Tells(pc, id) && w.msgs != [] && w.msgs[0] == Created(true) ==>
          w.asked == |st.watching|)
  }

  /** Every plugin that was asked for a live id and did not refuse is still watching its name. */
  predicate Watched(st: State, id: nat)
    requires id in st.ids
  {
    Live(st, id) ==>
      && st.ids[id].asked <= |st.watching|
      && forall k :: 0 <= k < st.ids[id].asked ==> k in st.ids[id].refused || st.ids[id].qname in st.watching[k]
  }

  /** A name that plugin k has been told to watch for an id already gone. */
  predicate LateFor(st: State, q: string, k: nat) {
    exists id :: id in st.ids && st.ids[id].qname == q && k in st.ids[id].late
  }

  /** A stream is telling the plugins to stop watching q, and has told plugin k. */
  predicate Untold(st: State, q: string, k: nat) {
    exists s :: 0 <= s < |st.streams| && st.streams[s].Untelling? && st.streams[s].q == q && k < st.streams[s].k
  }

  /** Until Stop returns, a plugin watches only names that have a list of watches, apart from
      late ones. */
  predicate NamesWanted(st: State) {
    !st.stop.Returned? ==>
      forall k, q :: 0 <= k < |st.watching| && q in st.watching[k] ==>
        (q in st.watches && !Untold(st, q, k)) || LateFor(st, q, k)
  }

  /** A change could not be sent to an id of name q, which was then taken out of the table. */
  predicate FailedFor(st: State, q: string) {
    exists id :: id in st.ids && st.ids[id].qname == q && LastFailed(st.ids[id].msgs)
  }

  predicate LastFailed(msgs: seq<Msg>) {
    msgs != [] && msgs[|msgs| - 1] == Changed(false)
  }

  /** A stream is telling the plugins to stop watching q. */
  predicate BeingUntold(st: State, q: string) {
    exists s :: 0 <= s < |st.streams| && st.streams[s].Untelling? && st.streams[s].q == q
  }

  /** A list of watches is empty only while its plugins are being told, or where the last of it
      went because a send failed. */
  predicate ListsWanted(st: State) {
    !st.stop.StopSending? ==>
      forall q :: q in st.watches && st.watches[q] == map[] ==> BeingUntold(st, q) || FailedFor(st, q)
  }

  /** Inside the mutex for longer than one step. */
  predicate InSection(pc: StreamPC) {
    pc.Untelling? || pc.Confirming?
  }

  /** The mutex is held by exactly those inside it. */
  predicate Locked(st: State) {
    && (forall s :: 0 <= s < |st.streams| ==>
          (InSection(st.streams[s]) <==> st.lock == HeldByStream(s)))
    && (st.lock.HeldByStream? ==> st.lock.s < |st.streams|)
    && (st.process.Notifying? <==> st.lock.HeldByProcess?)
    && (st.stop.StopSending? <==> st.lock.HeldByStop?)
  }

  /** An id registered when Stop took the mutex: it is still to be told, or the last it was
      told is that Stop canceled it. */
  predicate Ended(st: State, id: nat) {
    && id in st.ids
    && ((st.stop.StopSending? && id in st.stop.todo) || LastIsStop(st.ids[id].msgs))
  }

  predicate LastIsStop(msgs: seq<Msg>) {
    msgs != [] && msgs[|msgs| - 1] == Canceled(ByStop)
  }

  ghost predicate Inv(st: State) {
    && Shaped(st) && Locked(st)
    && (forall id :: id in st.ids ==> Said(st, id) && Watched(st, id) && AskedOk(st, id))
    && NamesWanted(st) && ListsWanted(st)
    && (forall id :: id in st.stopped ==> Ended(st, id))
    && (st.stop.NotCalled? || st.stop.StopLocking? ==> st.stopped == {})
  }

  // ----- every step keeps the invariant -----

  /** Ids keep their creator and name; streams, plugins and ids are only added. */
  predicate Extends(st: State, st': State) {
    && st.ids.Keys <= st'.ids.Keys && st.counter <= st'.counter
    && |st.streams| <= |st'.streams| && |st'.watching| == |st.watching|
    && forall id :: id in st.ids ==>
         st'.ids[id].creator == st.ids[id].creator && st'.ids[id].qname == st.ids[id].qname
  }

  lemma RunStreamExtends(st: State, s: nat, ok: bool)
    requires Shaped(st) && s < |st.streams|
    ensures Extends(st, RunStream(st, s, ok))
    ensures var st' := RunStream(st, s, ok); |st'.streams| == |st.streams| && st'.streams == st.streams[s := st'.streams[s]]
  {
    hide TableOk, Add, Remove, Live, Owner, In;
    assert PCOk(st, s, st.streams[s]);
    assert st.counter + 1 !in st.ids;
    hide Shaped, PCOk;
    var pc := st.streams[s];
    if pc.Announcing? || pc.Confirming? || pc.Telling? {
      SayExtends(st, s, ok);
    }
  }

  lemma SayExtends(st: State, s: nat, ok: bool)
    requires Shaped(st) && s < |st.streams|
    requires st.streams[s].Announcing? || st.streams[s].Confirming? || st.streams[s].Telling?
    ensures Extends(st, RunStream(st, s, ok))
    ensures var st' := RunStream(st, s, ok); |st'.streams| == |st.streams| && st'.streams == st.streams[s := st'.streams[s]]
  {
    assert PCOk(st, s, st.streams[s]);
    hide Shaped, Add, Remove, Live, Owner, In;
  }

  /** A stream holds the mutex from canceling to confirming. */
  lemma RunStreamLock(st: State, s: nat, ok: bool)
    requires Shaped(st) && s < |st.streams|
    ensures var st' := RunStream(st, s, ok);
      && st'.process == st.process && st'.stop == st.stop && s < |st'.streams|
      && var pc, pc' := st.streams[s], st'.streams[s];
      || (pc.Canceling? && st'.lock == HeldByStream(s) && InSection(pc'))
      || (pc.Untelling? && st'.lock == st.lock && InSection(pc'))
      || (pc.Confirming? && st'.lock.Free? && !InSection(pc'))
      || (!InSection(pc) && st'.lock == st.lock && !InSection(pc'))
  {
    assert PCOk(st, s, st.streams[s]);
    hide Shaped, PCOk, Add, Remove, Live, Owner, In;
  }

  lemma StepLocked(st: State, ev: Event)
    requires Shaped(st) && Locked(st) && Enabled(st, ev)
    ensures Locked(Step(st, ev))
  {
    hide Shaped, Add, Remove, Live, LiveIn, AllLive, RunStream;
    if ev.Run? {
      RunStreamLock(st, ev.s, ev.ok);
      RunStreamExtends(st, ev.s, ev.ok);
    }
  }

  lemma StepExtends(st: State, ev: Event)
    requires Shaped(st) && Enabled(st, ev)
    ensures Extends(st, Step(st, ev))
    ensures forall s :: 0 <= s < |st.streams| && !((ev.Run? || ev.RecvCreate? || ev.RecvCancel?) && ev.s == s) ==>
              Step(st, ev).streams[s] == st.streams[s]
  {
    hide TableOk, Add, Remove, LiveIn, AllLive, RunStream;
    if ev.Run? {
      RunStreamExtends(st, ev.s, ev.ok);
    }
  }

  /** Whose turn an event is. */
  predicate Turn(ev: Event, l: Lock) {
    match l
    case Free => true
    case HeldByStream(s) => ev.Run? && ev.s == s
    case HeldByProcess => ev.RunProcess?
    case HeldByStop => ev.RunStop?
  }

  /** While somebody holds the mutex nobody else touches the table. */
  lemma TableFrozen(st: State, ev: Event)
    requires Shaped(st) && Locked(st) && Enabled(st, ev) && !Turn(ev, st.lock)
    ensures Step(st, ev).watches == st.watches
  {}

  lemma StepPC(st: State, ev: Event, s: nat)
    requires Shaped(st) && Locked(st) && Enabled(st, ev) && s < |Step(st, ev).streams|
    ensures PCOk(Step(st, ev), s, Step(st, ev).streams[s])
  {
    hide TableOk, RunStream;
    if ev.Run? {
      RunStreamExtends(st, ev.s, ev.ok);
    }
    if s < |st.streams| && !((ev.Run? || ev.RecvCreate? || ev.RecvCancel?) && ev.s == s) {
      OtherPC(st, ev, s);
    } else if ev.Run? {
      OwnPC(st, s, ev.ok);
    }
  }

  lemma {:induction false} OtherPC(st: State, ev: Event, s: nat)
    requires Shaped(st) && Locked(st) && Enabled(st, ev)
    requires s < |st.streams| && !((ev.Run? || ev.RecvCreate? || ev.RecvCancel?) && ev.s == s)
    ensures |st.streams| <= |Step(st, ev).streams| && PCOk(Step(st, ev), s, Step(st, ev).streams[s])
  {
    hide Step, Enabled, TableOk, Live;
    StepExtends(st, ev);
    assert PCOk(st, s, st.streams[s]);
    if st.streams[s].Untelling? {
      assert !Turn(ev, st.lock);
      TableFrozen(st, ev);
    }
    hide Shaped, Locked;
  }

  lemma OwnPC(st: State, s: nat, ok: bool)
    requires Shaped(st) && s < |st.streams|
    ensures |RunStream(st, s, ok).streams| == |st.streams|
    ensures PCOk(RunStream(st, s, ok), s, RunStream(st, s, ok).streams[s])
  {
    assert PCOk(st, s, st.streams[s]);
    if st.streams[s].Canceling? {
      var id := st.streams[s].id;
      assert Live(st, id) ==> st.ids[id].creator == Owner(st.watches, st.ids[id].qname, id);
    }
    hide TableOk, Add, Remove, LiveIn, AllLive;
  }

  lemma RunStreamTable(st: State, s: nat, ok: bool)
    requires Shaped(st) && s < |st.streams|
    ensures TableOk(RunStream(st, s, ok))
  {
    hide Add, Remove, LiveIn, AllLive;
    var st', pc := RunStream(st, s, ok), st.streams[s];
    assert PCOk(st, s, pc);
    RunStreamExtends(st, s, ok);
    forall q, id: nat | In(st'.watches, q, id)
      ensures id in st'.ids && st'.ids[id].qname == q && st'.ids[id].creator == Owner(st'.watches, q, id)
    {
      if !(pc.Registering? && pc.q == q && pc.id == id) {
        assert In(st.watches, q, id);
        assert Owner(st'.watches, q, id) == Owner(st.watches, q, id);
      }
    }
  }

  lemma StepTable(st: State, ev: Event)
    requires Shaped(st) && Enabled(st, ev)
    ensures TableOk(Step(st, ev))
  {
    hide Add, Remove, LiveIn, AllLive, RunStream;
    if ev.Run? {
      RunStreamTable(st, ev.s, ev.ok);
    } else {
      StepExtends(st, ev);
    }
  }

  lemma StepCreators(st: State, ev: Event)
    requires Shaped(st) && Enabled(st, ev)
    ensures var st' := Step(st, ev);
      forall id :: id in st'.ids ==> id <= st'.counter && st'.ids[id].creator < |st'.streams|
  {
    StepExtends(st, ev);
    hide TableOk, Add, Remove, LiveIn, AllLive;
    if ev.Run? {
      assert PCOk(st, ev.s, st.streams[ev.s]);
    }
  }

  /** What the process and Stop still have to send is live. */
  lemma StepTodo(st: State, ev: Event)
    requires Shaped(st) && Locked(st) && Enabled(st, ev)
    ensures var st' := Step(st, ev);
      && (st'.process.Notifying? ==> forall id :: id in st'.process.todo ==> Live(st', id))
      && (st'.stop.StopSending? ==> forall id: nat :: id in st'.stop.todo <==> Live(st', id))
  {
    StepExtends(st, ev);
    if !Turn(ev, st.lock) {
      TableFrozen(st, ev);
    }
    hide TableOk, Add, Remove;
  }

  lemma StepShaped(st: State, ev: Event)
    requires Shaped(st) && Locked(st) && Enabled(st, ev)
    ensures Shaped(Step(st, ev))
  {
    StepTable(st, ev);
    StepCreators(st, ev);
    StepTodo(st, ev);
    hide Step, TableOk, PCOk, Live, Locked;
    var st' := Step(st, ev);
    forall s | 0 <= s < |st'.streams|
      ensures PCOk(st', s, st'.streams[s])
    {
      StepPC(st, ev, s);
    }
  }

  lemma OwnerExtended(creator: nat, msgs: seq<Msg>)
    requires CanceledByOwner(creator, msgs)
    ensures forall ok :: CanceledByOwner(creator, msgs + [Created(ok)]) && CanceledByOwner(creator, msgs + [Changed(ok)])
    ensures CanceledByOwner(creator, msgs + [Canceled(ByStop)])
    ensures CanceledByOwner(creator, msgs + [Canceled(ByStream(creator))])
  {}

  lemma OpenExtended(msgs: seq<Msg>, who: Canceler)
    requires Open(msgs)
    ensures Proper(msgs) && Open(msgs + [Changed(true)]) && !Open(msgs + [Changed(false)]) && !Open(msgs + [Canceled(who)])
    ensures Proper(msgs + [Changed(true)]) && Proper(msgs + [Changed(false)]) && Proper(msgs + [Canceled(who)])
  {
    assert forall m :: (msgs + [m])[|msgs|] == m && (msgs + [m])[..|msgs|] == msgs;
  }

  /** How a stream's step changes which ids are live. */
  lemma RunStreamLive(st: State, s: nat, ok: bool, id: nat)
    requires Shaped(st) && s < |st.streams|
    ensures Live(RunStream(st, s, ok), id) <==>
      var pc := st.streams[s];
      || (pc.Registering? && pc.id == id)
      || (Live(st, id) && !(pc.Canceling? && pc.id == id && Owner(st.watches, st.ids[id].qname, id) == s))
  {
    hide Add, Remove, LiveIn, AllLive;
    assert PCOk(st, s, st.streams[s]);
    RunStreamExtends(st, s, ok);
  }

  /** What a stream's step says, and about which id. */
  lemma RunStreamMsgs(st: State, s: nat, ok: bool, id: nat)
    requires Shaped(st) && s < |st.streams| && id in st.ids
    ensures var st' := RunStream(st, s, ok);
      var pc := st.streams[s];
      && id in st'.ids
      && st'.ids[id].msgs ==
           (if pc.Announcing? && pc.id == id then st.ids[id].msgs + [Created(ok)]
            else if pc.Confirming? && pc.id == id then st.ids[id].msgs + [Canceled(ByStream(s))]
            else st.ids[id].msgs)
      && (if Tells(pc, id) then st'.ids[id] == Asked(st, id, pc.k, ok)
          else && st'.ids[id].asked == st.ids[id].asked && st'.ids[id].refused == st.ids[id].refused
               && st'.ids[id].late == st.ids[id].late)
  {
    hide Add, Remove, LiveIn, AllLive, Live, TableOk;
    assert PCOk(st, s, st.streams[s]);
  }

  /** Where a stream's step leads. */
  lemma RunStreamPC(st: State, s: nat, ok: bool)
    requires Shaped(st) && s < |st.streams|
    ensures |RunStream(st, s, ok).streams| == |st.streams|
    ensures var pc, pc' := st.streams[s], RunStream(st, s, ok).streams[s];
      && (pc'.Announcing? ==> pc'.id == st.counter + 1)
      && (pc'.Registering? <==> pc.Announcing? && ok) && (pc'.Registering? ==> pc.id == pc'.id)
      && (pc'.Untelling? || pc'.Confirming? <==>
            || pc.Untelling?
            || (pc.Canceling? && Live(st, pc.id) && Owner(st.watches, st.ids[pc.id].qname, pc.id) == s))
      && (pc'.Untelling? || pc'.Confirming? ==> pc.id == pc'.id)
  {
    hide Add, Remove, LiveIn, AllLive, TableOk;
    assert PCOk(st, s, st.streams[s]);
  }

  lemma SaidRun(st: State, s: nat, ok: bool, id: nat)
    requires Shaped(st) && s < |st.streams| && id in st.ids && Said(st, id)
    ensures var st' := RunStream(st, s, ok);
      id in st'.ids && st'.ids[id].creator < |st'.streams| && Said(st', id)
  {
    hide Live, Open, Proper, Owner, TableOk, RunStream, CanceledByOwner, Asked;
    RunStreamLive(st, s, ok, id);
    RunStreamMsgs(st, s, ok, id);
    RunStreamPC(st, s, ok);
    RunStreamExtends(st, s, ok);
    assert PCOk(st, s, st.streams[s]);
    if Live(st, id) {
      OwnerIsCreator(st, id);
    }
    assert id <= st.counter;
    hide Shaped;
    var st', msgs := RunStream(st, s, ok), st.ids[id].msgs;
    if st.ids[id].creator != s {
      assert st'.ids[id].msgs == msgs && (Live(st', id) <==> Live(st, id));
    } else {
      if Open(msgs) {
        OpenExtended(msgs, ByStream(s));
      }
      JustCreated();
      OwnerExtended(s, msgs);
    }
  }

  lemma OwnerIsCreator(st: State, id: nat)
    requires Shaped(st) && Live(st, id)
    ensures st.ids[id].creator == Owner(st.watches, st.ids[id].qname, id)
  {}

  lemma JustCreated()
    ensures Open([Created(true)]) && !Open([Created(false)])
    ensures forall ok :: Proper([Created(ok)]) && [] + [Created(ok)] == [Created(ok)]
  {}

  lemma SaidProcess(st: State, i: nat, ok: bool, id: nat)
    requires Shaped(st) && Enabled(st, RunProcess(i, ok)) && id in st.ids && Said(st, id)
    requires st.ids[id].creator < |st.streams|
    ensures var st' := RunProc(st, i, ok);
      id in st'.ids && st'.ids[id].creator < |st'.streams| && Said(st', id)
  {
    if Live(st, id) {
      OpenExtended(st.ids[id].msgs, ByStop);
    }
    OwnerExtended(st.ids[id].creator, st.ids[id].msgs);
    hide Remove, LiveIn, AllLive, Open, Proper, TableOk, Owner, CanceledByOwner;
  }

  lemma SaidStop(st: State, i: nat, id: nat)
    requires Shaped(st) && Enabled(st, RunStop(i)) && id in st.ids && Said(st, id)
    requires st.ids[id].creator < |st.streams|
    ensures var st' := RunStopper(st, i);
      id in st'.ids && st'.ids[id].creator < |st'.streams| && Said(st', id)
  {
    if Live(st, id) {
      OpenExtended(st.ids[id].msgs, ByStop);
    }
    OwnerExtended(st.ids[id].creator, st.ids[id].msgs);
    hide Remove, LiveIn, AllLive, Open, Proper, TableOk, Owner, CanceledByOwner;
  }

  /** Only taking the next id makes an id. */
  lemma NewOnly(st: State, ev: Event, id: nat)
    requires Shaped(st) && Enabled(st, ev) && id in Step(st, ev).ids && id !in st.ids
    ensures ev.Run? && st.streams[ev.s].Numbering? && id == st.counter + 1
  {
    if ev.Run? {
      assert PCOk(st, ev.s, st.streams[ev.s]);
    }
    hide TableOk, PCOk, Add, Remove, LiveIn, AllLive, Owner;
  }

  lemma SaidNew(st: State, ev: Event, id: nat)
    requires Shaped(st) && Enabled(st, ev) && id in Step(st, ev).ids && id !in st.ids
    ensures var st' := Step(st, ev);
      st'.ids[id].creator < |st'.streams| && Said(st', id) && Watched(st', id) && AskedOk(st', id)
  {
    NewOnly(st, ev, id);
    hide PCOk, Add, Remove, LiveIn, AllLive, Owner;
    var q := st.streams[ev.s].q;
    assert !In(st.watches, q, id);
    hide Shaped;
    var st' := Step(st, ev);
    assert st'.ids[id] == Watch(ev.s, q, [], 0, {}, {}) && st'.watches == st.watches;
  }

  lemma SaidStep(st: State, ev: Event, id: nat)
    requires Shaped(st) && Locked(st) && Enabled(st, ev) && id in st.ids && Said(st, id)
    ensures var st' := Step(st, ev);
      id in st'.ids && st'.ids[id].creator < |st'.streams| && Said(st', id)
  {
    hide RunStream, RunProc, RunStopper, Open, Proper, TableOk;
    match ev
    case Run(s, ok) => SaidRun(st, s, ok, id);
    case RunProcess(i, ok) => SaidProcess(st, i, ok, id);
    case RunStop(i) => SaidStop(st, i, id);
    case _ =>
  }

  // ----- plugins -----

  lemma WatchedRun(st: State, s: nat, ok: bool, id: nat)
    requires Shaped(st) && s < |st.streams| && id in st.ids && Watched(st, id) && Said(st, id) && AskedOk(st, id)
    ensures var st' := RunStream(st, s, ok);
      id in st'.ids && Watched(st', id)
  {
    hide RunStream, TableOk, Open, Proper, CanceledByOwner;
    RunStreamLive(st, s, ok, id);
    RunStreamMsgs(st, s, ok, id);
    RunStreamExtends(st, s, ok);
    RunStreamWatching(st, s, ok);
    assert PCOk(st, s, st.streams[s]);
    hide Shaped;
  }

  /** A name stays with a plugin until a stream tells it to stop. */
  lemma RunStreamWatching(st: State, s: nat, ok: bool)
    requires Shaped(st) && s < |st.streams|
    ensures |RunStream(st, s, ok).watching| == |st.watching|
    ensures var st', pc := RunStream(st, s, ok), st.streams[s];
      && (forall q, k :: 0 <= k < |st.watching| && q in st.watching[k] && !(pc.Untelling? && pc.q == q) ==>
            q in st'.watching[k])
      && (pc.Telling? && ok ==> pc.k < |st.watching| && pc.q in st'.watching[pc.k])
  {
    hide Add, Remove, LiveIn, AllLive, TableOk, Live;
    assert PCOk(st, s, st.streams[s]);
  }

  lemma WatchedStep(st: State, ev: Event, id: nat)
    requires Shaped(st) && Enabled(st, ev) && id in st.ids && Watched(st, id) && Said(st, id) && AskedOk(st, id)
    ensures var st' := Step(st, ev); id in st'.ids && Watched(st', id)
  {
    hide RunStream, Open, Proper, TableOk, Remove;
    if ev.Run? {
      WatchedRun(st, ev.s, ev.ok, id);
    }
  }

  lemma AskedStep(st: State, ev: Event, id: nat)
    requires Shaped(st) && Enabled(st, ev) && id in st.ids && Said(st, id) && AskedOk(st, id)
    ensures var st' := Step(st, ev);
      id in st'.ids && st'.ids[id].creator < |st'.streams| && AskedOk(st', id)
  {
    hide RunStream, Open, CanceledByOwner, TableOk, Remove, Add, LiveIn, AllLive, Live;
    StepExtends(st, ev);
    if ev.Run? {
      AskedRun(st, ev.s, ev.ok, id);
    }
  }

  lemma AskedRun(st: State, s: nat, ok: bool, id: nat)
    requires Shaped(st) && s < |st.streams| && id in st.ids && Said(st, id) && AskedOk(st, id)
    ensures var st' := RunStream(st, s, ok);
      id in st'.ids && st'.ids[id].creator < |st'.streams| && AskedOk(st', id)
  {
    hide RunStream, Open, CanceledByOwner, TableOk, Live;
    RunStreamMsgs(st, s, ok, id);
    RunStreamTells(st, s, ok);
    RunStreamExtends(st, s, ok);
    assert PCOk(st, s, st.streams[s]);
    hide Shaped;
  }

  /** How a stream comes to ask the plugins, and when it is done. */
  lemma RunStreamTells(st: State, s: nat, ok: bool)
    requires Shaped(st) && s < |st.streams|
    ensures |RunStream(st, s, ok).streams| == |st.streams| && |RunStream(st, s, ok).watching| == |st.watching|
    ensures var pc, pc' := st.streams[s], RunStream(st, s, ok).streams[s];
      && (pc'.Announcing? ==> pc'.id == st.counter + 1)
      && (pc'.Registering? <==> pc.Announcing? && ok) && (pc'.Registering? ==> pc'.id == pc.id)
      && (pc'.Telling? ==> || (pc.Registering? && pc'.id == pc.id && pc'.k == 0)
                           || (pc.Telling? && pc'.id == pc.id && pc'.k == pc.k + 1))
      && (pc.Registering? && !pc'.Telling? ==> |st.watching| == 0)
      && (pc.Telling? && !pc'.Telling? ==> |st.watching| == pc.k + 1)
  {
    hide Add, Remove, LiveIn, AllLive, TableOk, Live;
    assert PCOk(st, s, st.streams[s]);
  }

  /** Late ones stay late. */
  lemma LateStays(st: State, ev: Event, q: string, k: nat)
    requires Shaped(st) && Enabled(st, ev) && LateFor(st, q, k)
    ensures LateFor(Step(st, ev), q, k)
  {
    hide RunStream, TableOk, Remove, Add, LiveIn, AllLive, Live;
    var id :| id in st.ids && st.ids[id].qname == q && k in st.ids[id].late;
    StepExtends(st, ev);
    if ev.Run? {
      RunStreamMsgs(st, ev.s, ev.ok, id);
    }
    assert k in Step(st, ev).ids[id].late;
  }

  /** How a stream's step changes what plugin k watches, and which names have a list. */
  lemma RunStreamNames(st: State, s: nat, ok: bool, q: string, k: nat)
    requires Shaped(st) && s < |st.streams| && k < |st.watching|
    ensures |RunStream(st, s, ok).watching| == |st.watching|
    ensures var st', pc := RunStream(st, s, ok), st.streams[s];
      && (q in st'.watching[k] ==>
            && (q in st.watching[k] || (pc.Telling? && pc.q == q && pc.k == k && ok))
            && !(pc.Untelling? && pc.q == q && pc.k == k))
      && (q in st.watches ==> q in st'.watches || (pc.Untelling? && pc.q == q && pc.k == |st.watching|))
  {
    hide LiveIn, AllLive, TableOk, Live;
    assert PCOk(st, s, st.streams[s]);
  }

  /** Which plugins a stream has told to stop watching. */
  lemma RunStreamUntold(st: State, s: nat, ok: bool)
    requires Shaped(st) && s < |st.streams|
    ensures |RunStream(st, s, ok).streams| == |st.streams|
    ensures var pc, pc' := st.streams[s], RunStream(st, s, ok).streams[s];
      pc'.Untelling? ==> pc'.k == 0 || (pc.Untelling? && pc.q == pc'.q && pc'.k == pc.k + 1)
  {
    hide LiveIn, AllLive, TableOk, Live, Add, Remove;
    assert PCOk(st, s, st.streams[s]);
  }

  lemma {:induction false} WantedRun(st: State, s: nat, ok: bool, q: string, k: nat)
    requires Shaped(st) && Enabled(st, Run(s, ok)) && k < |st.watching| && NamesWanted(st) && !st.stop.Returned?
    requires |RunStream(st, s, ok).watching| == |st.watching| && q in RunStream(st, s, ok).watching[k]
    ensures var st' := RunStream(st, s, ok); (q in st'.watches && !Untold(st', q, k)) || LateFor(st', q, k)
  {
    hide RunStream, TableOk, Live, LateFor;
    RunStreamNames(st, s, ok, q, k);
    RunStreamUntold(st, s, ok);
    RunStreamExtends(st, s, ok);
    assert PCOk(st, s, st.streams[s]);
    if st.streams[s].Telling? && st.streams[s].q == q && st.streams[s].k == k && ok {
      ToldNow(st, s, q, k);
    } else if LateFor(st, q, k) {
      LateStays(st, Run(s, ok), q, k);
    }
  }

  /** Plugin k accepts: the id is still registered, and so is its name, or it is late. */
  lemma {:induction false} ToldNow(st: State, s: nat, q: string, k: nat)
    requires Shaped(st) && s < |st.streams| && st.streams[s].Telling? && st.streams[s].q == q && st.streams[s].k == k
    ensures var st' := RunStream(st, s, true); (q in st'.watches && !Untold(st', q, k)) || LateFor(st', q, k)
  {
    var st', id := RunStream(st, s, true), st.streams[s].id;
    assert PCOk(st, s, st.streams[s]);
    if Live(st, id) {
      forall r | 0 <= r < |st.streams| && st.streams[r].Untelling?
        ensures st.streams[r].q != q
      {
        assert PCOk(st, r, st.streams[r]);
      }
    } else {
      assert k in st'.ids[id].late;
    }
    hide TableOk;
  }

  lemma WantedStep(st: State, ev: Event)
    requires Shaped(st) && Enabled(st, ev) && NamesWanted(st)
    ensures NamesWanted(Step(st, ev))
  {
    hide RunStream, TableOk, Remove, LiveIn, AllLive, Live, LateFor, PCOk;
    var st' := Step(st, ev);
    StepExtends(st, ev);
    if ev.Run? {
      RunStreamStop(st, ev.s, ev.ok);
    }
    if !st'.stop.Returned? {
      forall k, q | 0 <= k < |st'.watching| && q in st'.watching[k]
        ensures (q in st'.watches && !Untold(st', q, k)) || LateFor(st', q, k)
      {
        if ev.Run? {
          WantedRun(st, ev.s, ev.ok, q, k);
        } else {
          OtherWanted(st, ev, q, k);
        }
      }
    }
  }

  lemma {:induction false} OtherWanted(st: State, ev: Event, q: string, k: nat)
    requires Shaped(st) && Enabled(st, ev) && NamesWanted(st) && !ev.Run? && !Step(st, ev).stop.Returned?
    requires k < |st.watching| == |Step(st, ev).watching| && q in Step(st, ev).watching[k]
    ensures var st' := Step(st, ev); (q in st'.watches && !Untold(st', q, k)) || LateFor(st', q, k)
  {
    if LateFor(st, q, k) {
      LateStays(st, ev, q, k);
    } else {
      hide TableOk, LiveIn, AllLive, LateFor, PCOk;
    }
  }

  /** Nothing more is said about an id that has been announced and is not open. */
  lemma ClosedStays(st: State, ev: Event, id: nat)
    requires Shaped(st) && Enabled(st, ev) && id in st.ids && Said(st, id)
    requires st.ids[id].msgs != [] && !Open(st.ids[id].msgs)
    ensures id in Step(st, ev).ids && Step(st, ev).ids[id].msgs == st.ids[id].msgs
  {
    hide RunStream, TableOk, Remove, Add, LiveIn, AllLive, Proper, Open, CanceledByOwner;
    if ev.Run? {
      hide Live;
      RunStreamMsgs(st, ev.s, ev.ok, id);
      assert PCOk(st, ev.s, st.streams[ev.s]);
      hide Shaped;
    }
  }

  /** Nothing is said about an id after a change could not be sent to it. */
  lemma FailedStays(st: State, ev: Event, q: string)
    requires Shaped(st) && Enabled(st, ev) && FailedFor(st, q)
    requires forall id :: id in st.ids ==> Said(st, id)
    ensures FailedFor(Step(st, ev), q)
  {
    hide Step, Said, Enabled, PCOk, TableOk, Live;
    var id :| id in st.ids && st.ids[id].qname == q && LastFailed(st.ids[id].msgs);
    assert Said(st, id);
    ClosedStays(st, ev, id);
    StepExtends(st, ev);
    assert LastFailed(Step(st, ev).ids[id].msgs);
  }

  /** How a stream's step empties a list. */
  lemma RunStreamEmpties(st: State, s: nat, ok: bool, q: string)
    requires Shaped(st) && s < |st.streams|
    requires var st' := RunStream(st, s, ok); q in st'.watches && st'.watches[q] == map[]
    ensures var st' := RunStream(st, s, ok);
      && |st'.streams| == |st.streams|
      && ((st'.streams[s].Untelling? && st'.streams[s].q == q)
          || (q in st.watches && st.watches[q] == map[] && !(st.streams[s].Untelling? && st.streams[s].q == q)))
  {
    hide LiveIn, AllLive, TableOk, Add;
    assert PCOk(st, s, st.streams[s]);
    if st.streams[s].Registering? {
      var id := st.streams[s].id;
      assert In(RunStream(st, s, ok).watches, st.streams[s].q, id);
    }
  }

  lemma ListsRun(st: State, s: nat, ok: bool, q: string)
    requires Shaped(st) && Enabled(st, Run(s, ok)) && ListsWanted(st) && !st.stop.StopSending?
    requires forall id :: id in st.ids ==> Said(st, id)
    requires var st' := RunStream(st, s, ok); q in st'.watches && st'.watches[q] == map[]
    ensures BeingUntold(RunStream(st, s, ok), q) || FailedFor(RunStream(st, s, ok), q)
  {
    hide RunStream, TableOk, Said, FailedFor;
    RunStreamEmpties(st, s, ok, q);
    RunStreamExtends(st, s, ok);
    var st' := RunStream(st, s, ok);
    if !(st'.streams[s].Untelling? && st'.streams[s].q == q) {
      if FailedFor(st, q) {
        FailedStays(st, Run(s, ok), q);
      } else {
        var r :| 0 <= r < |st.streams| && st.streams[r].Untelling? && st.streams[r].q == q;
        assert st'.streams[r] == st.streams[r];
      }
    }
  }

  lemma ListsProcess(st: State, i: nat, ok: bool, q: string)
    requires Shaped(st) && Enabled(st, RunProcess(i, ok)) && ListsWanted(st) && !st.stop.StopSending?
    requires forall id :: id in st.ids ==> Said(st, id)
    requires var st' := RunProc(st, i, ok); q in st'.watches && st'.watches[q] == map[]
    ensures BeingUntold(RunProc(st, i, ok), q) || FailedFor(RunProc(st, i, ok), q)
  {
    hide TableOk, Said, LiveIn, AllLive, PCOk;
    var st' := RunProc(st, i, ok);
    if q in st.watches && st.watches[q] == map[] {
      if FailedFor(st, q) {
        FailedStays(st, RunProcess(i, ok), q);
      }
    } else {
      assert st.process.Notifying? && !ok && q == st.ids[i].qname;
      assert LastFailed(st'.ids[i].msgs);
    }
  }

  lemma ListsStep(st: State, ev: Event)
    requires Shaped(st) && Enabled(st, ev) && ListsWanted(st)
    requires forall id :: id in st.ids ==> Said(st, id)
    ensures ListsWanted(Step(st, ev))
  {
    hide RunStream, RunProc, TableOk, PCOk, Said, LiveIn, AllLive, Remove, FailedFor;
    var st' := Step(st, ev);
    if ev.Run? {
      RunStreamStop(st, ev.s, ev.ok);
    }
    if !st'.stop.StopSending? {
      ListsStill(st, ev);
      forall q | q in st'.watches && st'.watches[q] == map[]
        ensures BeingUntold(st', q) || FailedFor(st', q)
      {
        match ev {
          case Run(s, ok) => ListsRun(st, s, ok, q);
          case RunProcess(i, ok) => ListsProcess(st, i, ok, q);
          case _ =>
            ListsIdle(st, ev, q);
        }
      }
    }
  }

  lemma ListsStill(st: State, ev: Event)
    requires Shaped(st) && Enabled(st, ev) && !Step(st, ev).stop.StopSending?
    ensures st.stop.StopSending? ==> ev.RunStop? && Step(st, ev).watches == map[]
  {
    hide RunStream, TableOk, PCOk, LiveIn, AllLive, Remove;
    if ev.Run? {
      RunStreamStop(st, ev.s, ev.ok);
    }
  }

  lemma ListsIdle(st: State, ev: Event, q: string)
    requires Shaped(st) && Enabled(st, ev) && ListsWanted(st) && !ev.Run? && !ev.RunProcess?
    requires forall id :: id in st.ids ==> Said(st, id)
    requires var st' := Step(st, ev); !st'.stop.StopSending? && q in st'.watches && st'.watches[q] == map[]
    ensures BeingUntold(Step(st, ev), q) || FailedFor(Step(st, ev), q)
  {
    hide TableOk, PCOk, LiveIn, AllLive, FailedFor, Said;
    if FailedFor(st, q) {
      FailedStays(st, ev, q);
    } else if q in st.watches && st.watches[q] == map[] {
      var s :| 0 <= s < |st.streams| && st.streams[s].Untelling? && st.streams[s].q == q;
      assert Step(st, ev).streams[s] == st.streams[s];
    }
  }

  // ----- what Stop took on -----

  /** Stop takes on what is registered when it gets the mutex, and nothing else ever. */
  lemma StepStopped(st: State, ev: Event)
    requires Shaped(st) && Locked(st) && Enabled(st, ev)
    ensures var st' := Step(st, ev);
      if ev.RunStop? && st.stop.StopLocking?
      then st'.stop.StopSending? && st'.stopped == st'.stop.todo && forall id :: id in st'.stopped ==> Ended(st', id)
      else && st'.stopped == st.stopped
           && (st'.stop.NotCalled? || st'.stop.StopLocking? ==> st.stop.NotCalled? || st.stop.StopLocking?)
  {
    hide TableOk, PCOk, Add, Remove, LiveIn, RunStream, LastIsStop;
    if ev.Run? {
      RunStreamStop(st, ev.s, ev.ok);
    }
  }

  lemma RunStreamStop(st: State, s: nat, ok: bool)
    requires Shaped(st) && s < |st.streams|
    ensures var st' := RunStream(st, s, ok); st'.stopped == st.stopped && st'.stop == st.stop
  {
    hide TableOk, Add, Remove, LiveIn, AllLive;
    assert PCOk(st, s, st.streams[s]);
  }

  lemma NotOpen(msgs: seq<Msg>)
    requires LastIsStop(msgs)
    ensures !Open(msgs) && msgs != [] && LastIsStop(msgs)
  {}

  /** Nothing is said about an id after Stop has canceled it. */
  lemma StepEnded(st: State, ev: Event, id: nat)
    requires Shaped(st) && Enabled(st, ev) && id in st.ids && Said(st, id) && Ended(st, id)
    requires st.ids[id].creator < |st.streams| && !(ev.RunStop? && st.stop.StopLocking?)
    ensures Ended(Step(st, ev), id)
  {
    hide TableOk, Add, Remove, LiveIn, AllLive, RunStream, Open, Proper, CanceledByOwner;
    if LastIsStop(st.ids[id].msgs) {
      NotOpen(st.ids[id].msgs);
    }
    if ev.Run? {
      RunStreamStop(st, ev.s, ev.ok);
      RunStreamMsgs(st, ev.s, ev.ok, id);
      RunStreamExtends(st, ev.s, ev.ok);
      assert PCOk(st, ev.s, st.streams[ev.s]);
      hide LastIsStop, Live;
    }
  }

  lemma StepInv(st: State, ev: Event)
    requires Inv(st) && Enabled(st, ev)
    ensures Inv(Step(st, ev))
  {
    StepShaped(st, ev);
    StepLocked(st, ev);
    StepExtends(st, ev);
    var st' := Step(st, ev);
    hide Step, Said, Watched, Locked, TableOk, PCOk, Live;
    WantedStep(st, ev);
    ListsStep(st, ev);
    hide AskedOk, NamesWanted, ListsWanted;
    forall id | id in st'.ids
      ensures Said(st', id) && Watched(st', id) && AskedOk(st', id)
    {
      if id in st.ids {
        SaidStep(st, ev, id);
        WatchedStep(st, ev, id);
        AskedStep(st, ev, id);
      } else {
        SaidNew(st, ev, id);
      }
    }
    StepStopped(st, ev);
    forall id | id in st'.stopped
      ensures Ended(st', id)
    {
      if id in st.stopped {
        StepEnded(st, ev, id);
      }
    }
  }

  // ----- whole runs -----

  function Start(plugins: nat): (st: State) {
    State(0, map[], {}, map[], Free, [], Selecting, NotCalled, seq(plugins, _ => {}))
  }

  lemma StartInv(plugins: nat)
    ensures Inv(Start(plugins))
  {}

  /** The state after a run; an event that is not enabled does not happen. */
  ghost function After(plugins: nat, evs: seq<Event>): (st: State)
    ensures Inv(st)
  {
    if evs == [] then
      StartInv(plugins);
      Start(plugins)
    else
      var st := After(plugins, evs[..|evs| - 1]);
      var ev := evs[|evs| - 1];
      if Enabled(st, ev) then
        StepInv(st, ev);
        Step(st, ev)
      else st
  }

  /** In every run, what is sent for an id is Created, then change notices, then at
      most one Canceled with nothing after it; and it is canceled by the stream that
      created it or by Stop. */
  lemma {:induction false} MessagesInOrder(plugins: nat, evs: seq<Event>, st: State, id: nat)
    requires st == After(plugins, evs) && id in st.ids
    ensures var w := st.ids[id];
      && (w.msgs != [] ==> w.msgs[0].Created?)
      && (|w.msgs| > 1 ==> w.msgs[0].ok && !w.msgs[|w.msgs| - 1].Created?)
      && (forall i :: 0 < i < |w.msgs| - 1 ==> w.msgs[i] == Changed(true))
      && forall i :: 0 <= i < |w.msgs| && w.msgs[i].Canceled? ==>
           i == |w.msgs| - 1 && (w.msgs[i].who == ByStop || w.msgs[i].who == ByStream(w.creator))
  {
    hide After, Locked, Watched, Live, TableOk, PCOk;
    assert Said(st, id);
  }

  lemma {:induction false} AfterOne(plugins: nat, evs: seq<Event>, ev: Event, st: State)
    requires st == After(plugins, evs)
    ensures After(plugins, evs + [ev]) == if Enabled(st, ev) then Step(st, ev) else st
  {
    hide Inv, Enabled, Step;
    assert (evs + [ev])[..|evs|] == evs;
  }

  /** An id was given to a stream for a name. */
  predicate Given(st: State, id: nat, s: nat, q: string) {
    id in st.ids && st.ids[id].creator == s && st.ids[id].qname == q
  }

  /** The id a stream takes has never been given out, and from then on is never given to
      anybody else: it keeps its creator and name whatever happens. */
  lemma {:induction false} IdsNeverReused(plugins: nat, evs: seq<Event>, s: nat, q: string, ok: bool,
        more: seq<Event>, st: State, st': State)
    requires Enabled(st, Run(s, ok)) && st.streams[s] == Numbering(q)
    requires st == After(plugins, evs) && st' == After(plugins, evs + [Run(s, ok)] + more)
    ensures st.counter + 1 !in st.ids && Given(st', st.counter + 1, s, q)
  {
    hide Inv, After, Step, Enabled;
    AfterOne(plugins, evs, Run(s, ok), st);
    Taken(st, s, q, ok);
    Keeps(plugins, evs + [Run(s, ok)], more);
  }

  lemma {:induction false} Taken(st: State, s: nat, q: string, ok: bool)
    requires Inv(st) && Enabled(st, Run(s, ok)) && st.streams[s] == Numbering(q)
    ensures st.counter + 1 !in st.ids && Given(Step(st, Run(s, ok)), st.counter + 1, s, q)
  {
    hide TableOk, PCOk, Live, Said, Watched, Locked;
  }

  lemma {:induction false} Keeps(plugins: nat, evs: seq<Event>, more: seq<Event>)
    ensures Extends(After(plugins, evs), After(plugins, evs + more))
  {
    hide Inv, After, Step, Enabled;
    if more == [] {
      assert evs + more == evs;
    } else {
      var less, ev := more[..|more| - 1], more[|more| - 1];
      Keeps(plugins, evs, less);
      assert evs + more == evs + less + [ev];
      var st := After(plugins, evs + less);
      AfterOne(plugins, evs + less, ev, st);
      if Enabled(st, ev) {
        ShapedOf(st);
        StepExtends(st, ev);
      }
    }
  }

  lemma ShapedOf(st: State)
    requires Inv(st)
    ensures Shaped(st) && Locked(st)
  {}

  /** Once its creator has finished asking, the name of a live id is watched by every plugin
      that did not refuse. */
  lemma {:induction false} LiveIsWatched(plugins: nat, evs: seq<Event>, st: State, id: nat, k: nat)
    requires st == After(plugins, evs) && Live(st, id) && k < |st.watching|
    requires st.ids[id].creator < |st.streams| && !Tells(st.streams[st.ids[id].creator], id)
    ensures k in st.ids[id].refused || st.ids[id].qname in st.watching[k]
  {
    hide After, Locked, TableOk, PCOk, NamesWanted;
    assert Said(st, id) && Watched(st, id) && AskedOk(st, id);
  }

  /** An id whose creator is not just registering or canceling it is registered exactly when it
      was announced, nothing but changes was sent for it since, and every send succeeded. */
  lemma {:induction false} RegisteredExactly(plugins: nat, evs: seq<Event>, st: State, id: nat)
    requires st == After(plugins, evs) && id in st.ids && st.ids[id].creator < |st.streams|
    requires var pc := st.streams[st.ids[id].creator]; !Registers(pc, id) && !Cancels(pc, id)
    ensures Live(st, id) <==>
      var msgs := st.ids[id].msgs;
      msgs != [] && msgs[0] == Created(true) && forall i :: 0 < i < |msgs| ==> msgs[i] == Changed(true)
  {
    hide After, Locked, Live, Watched, AskedOk, Proper, TableOk, PCOk, NamesWanted;
    assert Said(st, id);
  }

  /** Until Stop gets the mutex, a plugin watches a name only while some id is registered for
      it, or a stream is just telling the plugins to stop. There are two exceptions: an id of
      that name went because a change could not be sent to it, and the plugin accepted the name
      for an id that was gone by then. */
  lemma {:induction false} WatchesWanted(plugins: nat, evs: seq<Event>, st: State, q: string, k: nat)
    requires st == After(plugins, evs) && k < |st.watching| && q in st.watching[k]
    requires st.stop.NotCalled? || st.stop.StopLocking?
    ensures || (exists id :: id in st.ids && Live(st, id) && st.ids[id].qname == q)
            || BeingUntold(st, q) || FailedFor(st, q) || LateFor(st, q, k)
  {
    hide After, Locked, Said, Watched, AskedOk, Untold, BeingUntold, FailedFor, LateFor, PCOk;
    if q in st.watches && st.watches[q] != map[] {
      var id :| id in st.watches[q];
      assert In(st.watches, q, id);
    }
  }

  /** One more event of a run. */
  lemma Happens(plugins: nat, evs: seq<Event>, st: State, ev: Event) returns (evs': seq<Event>, st': State)
    requires Inv(st) && Enabled(st, ev) && st == After(plugins, evs)
    ensures Shaped(st) && st' == Step(st, ev) == After(plugins, evs') && Inv(st')
  {
    hide Inv, After, Step, Enabled;
    ShapedOf(st);
    AfterOne(plugins, evs, ev, st);
    evs', st' := evs + [ev], Step(st, ev);
  }

  const ASKED := "a."

  /** One stream asks for a name and announces the id it takes. */
  lemma OneAnnounced() returns (evs: seq<Event>, st: State)
    ensures Inv(st) && st == After(1, evs)
    ensures st == State(1, map[1 := Watch(0, ASKED, [Created(true)], 0, {}, {})], {}, map[], Free,
                        [Registering(ASKED, 1)], Selecting, NotCalled, [{}])
  {
    hide Inv, Shaped, PCOk, After, Add, Remove, Asked;
    evs, st := [], State(0, map[], {}, map[], Free, [], Selecting, NotCalled, [{}]);
    Nothing(st);
    evs, st := Happens(1, evs, st, NewStream);
    assert st == State(0, map[], {}, map[], Free, [Receiving], Selecting, NotCalled, [{}]);
    evs, st := Happens(1, evs, st, RecvCreate(0, ASKED));
    assert st == State(0, map[], {}, map[], Free, [Numbering(ASKED)], Selecting, NotCalled, [{}]);
    evs, st := Happens(1, evs, st, Run(0, true));
    assert st == State(1, map[1 := Watch(0, ASKED, [], 0, {}, {})], {}, map[], Free,
                       [Announcing(ASKED, 1)], Selecting, NotCalled, [{}]);
    evs, st := Happens(1, evs, st, Run(0, true));
    assert [] + [Created(true)] == [Created(true)];
  }

  /** It registers the id, and the one plugin there is accepts the name. */
  lemma OneWatch() returns (evs: seq<Event>, st: State)
    ensures Inv(st) && st == After(1, evs)
    ensures st == State(1, map[1 := Watch(0, ASKED, [Created(true)], 1, {}, {})], {}, map[ASKED := map[1 := 0]], Free,
                        [Receiving], Selecting, NotCalled, [{ASKED}])
  {
    hide Inv, Shaped, PCOk, After, Remove;
    evs, st := OneAnnounced();
    evs, st := Happens(1, evs, st, Run(0, true));
    assert st == State(1, map[1 := Watch(0, ASKED, [Created(true)], 0, {}, {})], {}, map[ASKED := map[1 := 0]], Free,
                       [Telling(ASKED, 1, 0)], Selecting, NotCalled, [{}]);
    assert Live(st, 1);
    evs, st := Happens(1, evs, st, Run(0, true));
    assert {} + {ASKED} == {ASKED};
  }

  lemma {:induction false} Nothing(st: State)
    requires st == State(0, map[], {}, map[], Free, [], Selecting, NotCalled, [{}])
    ensures Inv(st) && st == After(1, [])
  {
    hide Inv;
    assert After(1, []) == Start(1);
    assert Start(1).watching == [{}];
  }

  /** The first exception happens: a change that cannot be sent takes the only id of a name out
      of the table, and the plugin goes on watching the name. */
  lemma FailedSendKeepsWatching() returns (evs: seq<Event>, st: State)
    ensures st == After(1, evs) && st.stop.NotCalled? && st.process.Selecting? && st.streams == [Receiving]
    ensures (forall id :: id in st.ids ==> !Live(st, id)) && st.watching == [{ASKED}]
  {
    hide Inv, Shaped, PCOk;
    evs, st := OneWatch();
    hide After;
    evs, st := Happens(1, evs, st, Change({ASKED}));
    evs, st := Happens(1, evs, st, RunProcess(1, true));
    assert st.process == Notifying({1}) by { assert LiveIn(st, {ASKED}) == {1}; }
    evs, st := Happens(1, evs, st, RunProcess(1, false));
    assert st.watches == map[ASKED := map[]] && st.process == Notifying({});
    evs, st := Happens(1, evs, st, RunProcess(1, true));
  }

  // ----- who is told of a change -----

  /** The ids process has yet to tell. */
  function Todo(st: State): (r: set<nat>) {
    if st.process.Notifying? then st.process.todo else {}
  }

  /** What was sent since, at most: the announcement of an id that had not been announced. */
  predicate OnlyAnnounced(msgs: seq<Msg>, msgs': seq<Msg>) {
    msgs' == msgs || (msgs == [] && |msgs'| == 1 && msgs'[0].Created?)
  }

  /** What has become of an id since process got the mutex in state st with the names that
      match: one that was live under such a name gets one change, and stays registered exactly
      when that send succeeds; process has nothing to do with the others. */
  predicate Told(st: State, cur: State, names: set<string>, id: nat)
    requires id in st.ids && id in cur.ids
  {
    var msgs, msgs' := st.ids[id].msgs, cur.ids[id].msgs;
    if Live(st, id) && st.ids[id].qname in names then
      if id in Todo(cur) then Live(cur, id) && msgs' == msgs
      else exists ok :: msgs' == msgs + [Changed(ok)] && (Live(cur, id) <==> ok)
    else
      id !in Todo(cur) && OnlyAnnounced(msgs, msgs') && (Live(cur, id) <==> Live(st, id))
  }

  predicate AllTold(st: State, cur: State, names: set<string>) {
    cur.ids.Keys == st.ids.Keys && forall id :: id in st.ids ==> Told(st, cur, names, id)
  }

  /** While somebody else holds the mutex a stream makes, cancels or registers no id. */
  lemma RunOutside(cur: State, s: nat, ok: bool, id: nat)
    requires Shaped(cur) && !cur.lock.Free? && Enabled(cur, Run(s, ok)) && !InSection(cur.streams[s])
    requires id in cur.ids && Said(cur, id)
    ensures var cur' := RunStream(cur, s, ok);
      && cur'.process == cur.process && cur'.ids.Keys == cur.ids.Keys
      && OnlyAnnounced(cur.ids[id].msgs, cur'.ids[id].msgs) && (Live(cur', id) <==> Live(cur, id))
      && (cur.ids[id].msgs != [] ==> cur'.ids[id].msgs == cur.ids[id].msgs)
  {
    hide RunStream, Proper, Open, CanceledByOwner, TableOk, Live, Asked;
    RunStreamLive(cur, s, ok, id);
    RunStreamMsgs(cur, s, ok, id);
    RunStreamExtends(cur, s, ok);
    RunStreamLock(cur, s, ok);
    assert PCOk(cur, s, cur.streams[s]);
    forall n | n in RunStream(cur, s, ok).ids ensures n in cur.ids {
      if n !in cur.ids {
        NewOnly(cur, Run(s, ok), n);
      }
    }
    hide Shaped;
  }

  lemma ToldRun(st: State, cur: State, names: set<string>, s: nat, ok: bool, id: nat)
    requires Shaped(cur) && Locked(cur) && cur.lock.HeldByProcess? && Enabled(cur, Run(s, ok))
    requires id in st.ids && id in cur.ids && Said(cur, id) && Told(st, cur, names, id)
    ensures var cur' := RunStream(cur, s, ok); id in cur'.ids && Told(st, cur', names, id)
  {
    hide RunStream, Proper, CanceledByOwner, TableOk, Live, Shaped, Locked;
    assert !InSection(cur.streams[s]) by { OutsideOf(cur, s); }
    RunOutside(cur, s, ok, id);
  }

  lemma {:induction false} OutsideOf(cur: State, s: nat)
    requires Locked(cur) && s < |cur.streams| && cur.lock != HeldByStream(s)
    ensures !InSection(cur.streams[s])
  {}

  lemma ToldProcess(st: State, cur: State, names: set<string>, i: nat, ok: bool, id: nat)
    requires Shaped(cur) && cur.process.Notifying? && Enabled(cur, RunProcess(i, ok))
    requires id in st.ids && id in cur.ids && Told(st, cur, names, id)
    ensures var cur' := RunProc(cur, i, ok);
      id in cur'.ids && cur'.ids.Keys == cur.ids.Keys && Told(st, cur', names, id)
  {
    hide TableOk, PCOk, LiveIn, AllLive;
    var cur' := RunProc(cur, i, ok);
    if cur.process.todo != {} && id == i {
      assert cur'.ids[id].msgs == st.ids[id].msgs + [Changed(ok)] && (Live(cur', id) <==> ok);
    }
  }

  lemma ToldStep(st: State, cur: State, names: set<string>, ev: Event)
    requires Inv(cur) && cur.process.Notifying? && Enabled(cur, ev) && AllTold(st, cur, names)
    ensures AllTold(st, Step(cur, ev), names)
  {
    hide Said, Watched, AskedOk, NamesWanted, TableOk, PCOk, Ended, RunStream, RunProc, Told, LiveIn, AllLive;
    var cur' := Step(cur, ev);
    assert cur.lock.HeldByProcess?;
    forall id | id in st.ids ensures id in cur'.ids && cur'.ids.Keys == cur.ids.Keys && Told(st, cur', names, id) {
      assert Said(cur, id) && Told(st, cur, names, id);
      match ev {
        case Run(s, ok) => RunOutside(cur, s, ok, id); ToldRun(st, cur, names, s, ok, id);
        case RunProcess(i, ok) => ToldProcess(st, cur, names, i, ok, id);
        case _ => ToldIdle(st, cur, cur', names, id);
      }
    }
    if st.ids.Keys == {} {
      NoNewIds(cur, ev);
    }
  }

  lemma {:induction false} ToldIdle(st: State, cur: State, cur': State, names: set<string>, id: nat)
    requires id in st.ids && id in cur.ids && Told(st, cur, names, id)
    requires cur'.ids == cur.ids && cur'.watches == cur.watches && cur'.process == cur.process
    ensures Told(st, cur', names, id)
  {}

  lemma NoNewIds(cur: State, ev: Event)
    requires Shaped(cur) && Locked(cur) && cur.lock.HeldByProcess? && Enabled(cur, ev)
    ensures Step(cur, ev).ids.Keys == cur.ids.Keys
  {
    StepExtends(cur, ev);
    forall n | n in Step(cur, ev).ids ensures n in cur.ids {
      if n !in cur.ids {
        NewOnly(cur, ev, n);
      }
    }
    hide Shaped, Step;
  }

  lemma {:induction false} ChangeTaken(st: State, names: set<string>, ev: Event)
    requires Shaped(st) && Enabled(st, ev) && !ev.RunProcess?
    requires st.process == Locking(names) || ev == Change(names)
    ensures Step(st, ev).process == Locking(names)
  {
    hide RunStream, TableOk, PCOk, AllLive, Remove;
    if ev.Run? {
      RunStreamLock(st, ev.s, ev.ok);
    }
  }

  /** Until process gets the mutex it waits with the names the change matches. */
  lemma {:induction false} ChangeWaits(plugins: nat, evs: seq<Event>, names: set<string>, more: seq<Event>)
    requires Enabled(After(plugins, evs), Change(names)) && forall j :: 0 <= j < |more| ==> !more[j].RunProcess?
    ensures After(plugins, evs + [Change(names)] + more).process == Locking(names)
    decreases |more|
  {
    hide Inv, After, Step, Enabled;
    var evs1 := evs + [Change(names)];
    if more == [] {
      assert evs1 + more == evs1;
      var st := After(plugins, evs);
      AfterOne(plugins, evs, Change(names), st);
      ShapedOf(st);
      ChangeTaken(st, names, Change(names));
    } else {
      var less, ev := more[..|more| - 1], more[|more| - 1];
      ChangeWaits(plugins, evs, names, less);
      assert evs1 + more == evs1 + less + [ev];
      var st := After(plugins, evs1 + less);
      AfterOne(plugins, evs1 + less, ev, st);
      if Enabled(st, ev) {
        ShapedOf(st);
        ChangeTaken(st, names, ev);
      }
    }
  }

  lemma FirstTold(st: State, i: nat, ok: bool)
    requires Inv(st) && st.process.Locking? && st.lock.Free?
    ensures Enabled(st, RunProcess(i, ok))
    ensures var st1 := Step(st, RunProcess(i, ok));
      st1.process.Notifying? && AllTold(st, st1, st.process.matched)
  {
    hide Said, Watched, AskedOk, NamesWanted, TableOk, PCOk, Ended;
    var st1 := Step(st, RunProcess(i, ok));
    forall id | id in st.ids ensures Told(st, st1, st.process.matched, id) {
      assert Live(st1, id) <==> Live(st, id);
    }
  }

  /** In one round of process, from getting the mutex to the next select, every id that was
      live under a matching name gets exactly one change, and is taken out of the table exactly
      when that send fails. No other id is told anything by process or changes its
      registration, and none is made. */
  lemma {:induction false} ChangeTellsMatching(plugins: nat, evs: seq<Event>, i: nat, ok: bool, more: seq<Event>,
        st: State, st': State)
    requires st.process.Locking? && st.lock.Free? && st'.process.Selecting?
    requires forall j :: 0 <= j < |more| ==> After(plugins, evs + [RunProcess(i, ok)] + more[..j]).process.Notifying?
    requires st == After(plugins, evs) && st' == After(plugins, evs + [RunProcess(i, ok)] + more)
    ensures st'.ids.Keys == st.ids.Keys
    ensures forall id :: id in st.ids ==>
      if Live(st, id) && st.ids[id].qname in st.process.matched
      then exists sent :: st'.ids[id].msgs == st.ids[id].msgs + [Changed(sent)] && (Live(st', id) <==> sent)
      else OnlyAnnounced(st.ids[id].msgs, st'.ids[id].msgs) && (Live(st', id) <==> Live(st, id))
  {
    hide Inv, After, Step, Enabled, Live, OnlyAnnounced;
    Round(plugins, evs, i, ok, more, st);
    forall id | id in st.ids
      ensures if Live(st, id) && st.ids[id].qname in st.process.matched
              then exists sent :: st'.ids[id].msgs == st.ids[id].msgs + [Changed(sent)] && (Live(st', id) <==> sent)
              else OnlyAnnounced(st.ids[id].msgs, st'.ids[id].msgs) && (Live(st', id) <==> Live(st, id))
    {
      assert Told(st, st', st.process.matched, id);
    }
  }

  lemma {:induction false} Round(plugins: nat, evs: seq<Event>, i: nat, ok: bool, more: seq<Event>, st: State)
    requires st.process.Locking? && st.lock.Free?
    requires forall j :: 0 <= j < |more| ==> After(plugins, evs + [RunProcess(i, ok)] + more[..j]).process.Notifying?
    requires st == After(plugins, evs)
    ensures AllTold(st, After(plugins, evs + [RunProcess(i, ok)] + more), st.process.matched)
    decreases |more|
  {
    hide Inv, After, Step, Enabled, AllTold;
    var evs1 := evs + [RunProcess(i, ok)];
    if more == [] {
      assert evs1 + more == evs1;
      AfterOne(plugins, evs, RunProcess(i, ok), st);
      FirstTold(st, i, ok);
    } else {
      var n := |more| - 1;
      var less, ev := more[..n], more[n];
      assert forall j :: 0 <= j < n ==> less[..j] == more[..j];
      Round(plugins, evs, i, ok, less, st);
      assert evs1 + more == evs1 + less + [ev];
      var cur := After(plugins, evs1 + less);
      AfterOne(plugins, evs1 + less, ev, cur);
      if Enabled(cur, ev) {
        ToldStep(st, cur, st.process.matched, ev);
      }
    }
  }

  // ----- requests -----

  /** What a request makes a stream do. */
  function RequestPC(ev: Event): (pc: StreamPC)
    requires ev.RecvCreate? || ev.RecvCancel?
  {
    if ev.RecvCreate? then Numbering(ev.q) else Canceling(ev.id)
  }

  lemma RequestTaken(st: State, s: nat, pc: StreamPC, ev: Event)
    requires Shaped(st) && Enabled(st, ev) && !(ev.Run? && ev.s == s) && !pc.Receiving?
    requires s < |st.streams|
    requires st.streams[s] == pc || ((ev.RecvCreate? || ev.RecvCancel?) && ev.s == s && RequestPC(ev) == pc)
    ensures s < |Step(st, ev).streams| && Step(st, ev).streams[s] == pc
  {
    hide RunStream, TableOk, PCOk, LiveIn, AllLive, Remove;
    if ev.Run? {
      RunStreamExtends(st, ev.s, ev.ok);
    }
  }

  /** A stream that has received a request stays at it, whatever others do, until it runs. */
  lemma {:induction false} RequestWaits(plugins: nat, evs: seq<Event>, req: Event, more: seq<Event>)
    requires (req.RecvCreate? || req.RecvCancel?) && Enabled(After(plugins, evs), req)
    requires forall j :: 0 <= j < |more| ==> !(more[j].Run? && more[j].s == req.s)
    ensures var st := After(plugins, evs + [req] + more);
      req.s < |st.streams| && st.streams[req.s] == RequestPC(req)
    decreases |more|
  {
    hide Inv, After, Step, Enabled;
    var evs1 := evs + [req];
    if more == [] {
      assert evs1 + more == evs1;
      var st := After(plugins, evs);
      AfterOne(plugins, evs, req, st);
      ShapedOf(st);
      Receives(st, req);
      RequestTaken(st, req.s, RequestPC(req), req);
    } else {
      var less, ev := more[..|more| - 1], more[|more| - 1];
      RequestWaits(plugins, evs, req, less);
      assert evs1 + more == evs1 + less + [ev];
      var st := After(plugins, evs1 + less);
      AfterOne(plugins, evs1 + less, ev, st);
      if Enabled(st, ev) {
        ShapedOf(st);
        RequestTaken(st, req.s, RequestPC(req), ev);
      }
    }
  }

  lemma Receives(st: State, req: Event)
    requires (req.RecvCreate? || req.RecvCancel?) && Enabled(st, req)
    ensures req.s < |st.streams|
  {}

  // ----- canceling -----

  /** How far stream s has come, since state st, in canceling its id. */
  predicate CancelsOnly(st: State, cur: State, s: nat, id: nat)
    requires id in st.ids && s < |cur.streams|
  {
    && cur.ids.Keys == st.ids.Keys && !Live(cur, id)
    && (if InSection(cur.streams[s]) then cur.streams[s].id == id && cur.ids[id].msgs == st.ids[id].msgs
        else cur.ids[id].msgs == st.ids[id].msgs + [Canceled(ByStream(s))])
    && forall n :: n in st.ids && n != id ==>
         OnlyAnnounced(st.ids[n].msgs, cur.ids[n].msgs) && (Live(cur, n) <==> Live(st, n))
  }

  /** The steps of s inside the mutex. */
  lemma CancelRuns(st: State, cur: State, s: nat, ok: bool, id: nat)
    requires Shaped(cur) && s < |cur.streams| && InSection(cur.streams[s]) && Enabled(cur, Run(s, ok))
    requires id in st.ids && CancelsOnly(st, cur, s, id)
    ensures s < |RunStream(cur, s, ok).streams| && CancelsOnly(st, RunStream(cur, s, ok), s, id)
  {
    hide RunStream, Live, TableOk, Asked, OnlyAnnounced;
    var cur' := RunStream(cur, s, ok);
    RunStreamExtends(cur, s, ok);
    RunStreamPC(cur, s, ok);
    forall n | n in cur'.ids ensures n in cur.ids {
      if n !in cur.ids {
        NewOnly(cur, Run(s, ok), n);
      }
    }
    RunStreamMsgs(cur, s, ok, id);
    RunStreamLive(cur, s, ok, id);
    forall n | n in st.ids && n != id
      ensures cur'.ids[n].msgs == cur.ids[n].msgs && (Live(cur', n) <==> Live(cur, n))
    {
      RunStreamMsgs(cur, s, ok, n);
      RunStreamLive(cur, s, ok, n);
    }
    hide Shaped;
  }

  /** Steps of others while s is inside the mutex. */
  lemma {:induction false} CancelWaits(st: State, cur: State, s: nat, ev: Event, id: nat)
    requires Inv(cur) && s < |cur.streams| && InSection(cur.streams[s]) && Enabled(cur, ev)
    requires !(ev.Run? && ev.s == s) && id in st.ids && CancelsOnly(st, cur, s, id)
    ensures s < |Step(cur, ev).streams| && CancelsOnly(st, Step(cur, ev), s, id)
  {
    hide Said, Watched, AskedOk, NamesWanted, ListsWanted, TableOk, PCOk, Ended, RunStream, Live, LiveIn, AllLive;
    var cur' := Step(cur, ev);
    assert cur.lock == HeldByStream(s);
    StepExtends(cur, ev);
    if ev.Run? {
      OutsideOf(cur, ev.s);
      forall n | n in cur.ids
        ensures OnlyAnnounced(cur.ids[n].msgs, cur'.ids[n].msgs) && (Live(cur', n) <==> Live(cur, n))
        ensures cur'.ids.Keys == cur.ids.Keys && (cur.ids[n].msgs != [] ==> cur'.ids[n].msgs == cur.ids[n].msgs)
      {
        RunOutside(cur, ev.s, ev.ok, n);
      }
      assert Open(cur.ids[id].msgs) by { InsideIsOpen(cur, s, id); }
      hide Step, Shaped, Locked, OnlyAnnounced;
      forall n | n in st.ids && n != id ensures OnlyAnnounced(st.ids[n].msgs, cur'.ids[n].msgs) {
        AnnouncedOnce(st.ids[n].msgs, cur.ids[n].msgs, cur'.ids[n].msgs);
      }
    } else {
      assert cur'.ids == cur.ids && cur'.watches == cur.watches;
      hide Step, Shaped, Locked, OnlyAnnounced;
      assert forall n :: Live(cur', n) <==> Live(cur, n) by { SameTable(cur, cur'); }
    }
  }

  lemma {:induction false} SameTable(st: State, st': State)
    requires st'.ids == st.ids && st'.watches == st.watches
    ensures forall n :: Live(st', n) <==> Live(st, n)
  {}

  lemma AnnouncedOnce(a: seq<Msg>, b: seq<Msg>, c: seq<Msg>)
    requires OnlyAnnounced(a, b) && OnlyAnnounced(b, c)
    ensures OnlyAnnounced(a, c)
  {}

  lemma {:induction false} InsideIsOpen(cur: State, s: nat, id: nat)
    requires Inv(cur) && s < |cur.streams| && InSection(cur.streams[s]) && cur.streams[s].id == id
    ensures id in cur.ids && Open(cur.ids[id].msgs)
  {
    assert PCOk(cur, s, cur.streams[s]);
    assert Said(cur, id);
  }

  lemma {:induction false} CancelStarts(st: State, s: nat, ok: bool, id: nat)
    requires Inv(st) && Enabled(st, Run(s, ok)) && st.streams[s] == Canceling(id)
    ensures var st1 := Step(st, Run(s, ok));
      && s < |st1.streams|
      && if Live(st, id) && st.ids[id].creator == s then InSection(st1.streams[s]) && CancelsOnly(st, st1, s, id)
         else st1 == st.(streams := st.streams[s := Receiving])
  {
    hide Said, Watched, AskedOk, NamesWanted, ListsWanted, PCOk, Ended, Add, Open, Proper;
    if Live(st, id) {
      OwnerIsCreator(st, id);
    }
    RunStreamExtends(st, s, ok);
  }

  /** A stream that cancels a live id of its own has, when it leaves the mutex, sent Canceled for
      it and taken it out of the table; meanwhile nothing else happened to any id but
      announcements. */
  lemma {:induction false} CancelHonoured(plugins: nat, evs: seq<Event>, s: nat, ok: bool, more: seq<Event>,
        st: State, st': State, id: nat)
    requires Enabled(st, Run(s, ok)) && st.streams[s] == Canceling(id)
    requires id in st.ids && Live(st, id) && st.ids[id].creator == s
    requires forall j :: 0 <= j < |more| ==> Inside(After(plugins, evs + [Run(s, ok)] + more[..j]), s)
    requires !Inside(st', s)
    requires st == After(plugins, evs) && st' == After(plugins, evs + [Run(s, ok)] + more)
    ensures st'.ids.Keys == st.ids.Keys && !Live(st', id)
    ensures st'.ids[id].msgs == st.ids[id].msgs + [Canceled(ByStream(s))]
    ensures forall n :: n in st.ids && n != id ==>
      OnlyAnnounced(st.ids[n].msgs, st'.ids[n].msgs) && (Live(st', n) <==> Live(st, n))
  {
    hide Inv, After, Step, Enabled, OnlyAnnounced, Live;
    CancelRound(plugins, evs, s, ok, more, st, id);
  }

  /** An id that is not live, or not its own, it leaves alone. */
  lemma {:induction false} CancelIgnored(plugins: nat, evs: seq<Event>, s: nat, ok: bool, st: State, id: nat)
    requires Enabled(st, Run(s, ok)) && st.streams[s] == Canceling(id)
    requires st == After(plugins, evs) && (!Live(st, id) || st.ids[id].creator != s)
    ensures After(plugins, evs + [Run(s, ok)]) == st.(streams := st.streams[s := Receiving])
  {
    AfterOne(plugins, evs, Run(s, ok), st);
    hide Inv, After, Step, Enabled;
    CancelStarts(st, s, ok, id);
  }

  lemma {:induction false} CancelRound(plugins: nat, evs: seq<Event>, s: nat, ok: bool, more: seq<Event>,
        st: State, id: nat)
    requires Enabled(st, Run(s, ok)) && st.streams[s] == Canceling(id)
    requires id in st.ids && Live(st, id) && st.ids[id].creator == s
    requires forall j :: 0 <= j < |more| ==> Inside(After(plugins, evs + [Run(s, ok)] + more[..j]), s)
    requires st == After(plugins, evs)
    ensures var cur := After(plugins, evs + [Run(s, ok)] + more);
      s < |cur.streams| && CancelsOnly(st, cur, s, id)
    decreases |more|
  {
    hide Inv, After, Step, Enabled, CancelsOnly, Live;
    var evs1 := evs + [Run(s, ok)];
    if more == [] {
      assert evs1 + more == evs1;
      AfterOne(plugins, evs, Run(s, ok), st);
      CancelStarts(st, s, ok, id);
    } else {
      var n := |more| - 1;
      var less, ev := more[..n], more[n];
      assert forall j :: 0 <= j < n ==> less[..j] == more[..j];
      CancelRound(plugins, evs, s, ok, less, st, id);
      assert evs1 + more == evs1 + less + [ev];
      var cur := After(plugins, evs1 + less);
      assert Inside(cur, s);
      AfterOne(plugins, evs1 + less, ev, cur);
      if Enabled(cur, ev) {
        CancelStep(st, cur, s, ev, id);
      }
    }
  }

  lemma CancelStep(st: State, cur: State, s: nat, ev: Event, id: nat)
    requires Inv(cur) && Inside(cur, s) && Enabled(cur, ev) && id in st.ids && CancelsOnly(st, cur, s, id)
    ensures s < |Step(cur, ev).streams| && CancelsOnly(st, Step(cur, ev), s, id)
  {
    ShapedOf(cur);
    hide Inv, CancelsOnly, RunStream;
    if ev.Run? && ev.s == s {
      CancelRuns(st, cur, s, ev.ok, id);
    } else {
      CancelWaits(st, cur, s, ev, id);
    }
  }

  /** Stream s is inside the mutex. */
  predicate Inside(st: State, s: nat) {
    s < |st.streams| && InSection(st.streams[s])
  }

  // ----- shutdown -----

  /** Every id that is live when Stop gets the mutex has been told so, as the last it is told,
      once Stop has returned, whatever else happens meanwhile and afterwards. */
  lemma {:induction false} StopCancelsAll(plugins: nat, evs: seq<Event>, i: nat, more: seq<Event>, st: State,
        st': State, id: nat)
    requires st == After(plugins, evs) && st.stop.StopLocking? && st.lock.Free? && Live(st, id)
    requires st' == After(plugins, evs + [RunStop(i)] + more) && st'.stop.Returned?
    ensures id in st'.ids && LastIsStop(st'.ids[id].msgs)
  {
    hide Inv, After;
    AfterOne(plugins, evs, RunStop(i), st);
    ShapedOf(st);
    hide Shaped, Locked;
    var st1 := After(plugins, evs + [RunStop(i)]);
    assert st1 == RunStopper(st, i) && id in st1.stopped;
    StoppedStays(plugins, evs + [RunStop(i)], more);
    EndedOf(st', id);
  }

  lemma EndedOf(st: State, id: nat)
    requires Inv(st) && id in st.stopped
    ensures Ended(st, id)
  {}

  lemma {:induction false} StoppedStays(plugins: nat, evs: seq<Event>, more: seq<Event>)
    requires After(plugins, evs).stop.StopSending? || After(plugins, evs).stop.Returned?
    ensures After(plugins, evs + more).stopped == After(plugins, evs).stopped
    ensures After(plugins, evs + more).stop.StopSending? || After(plugins, evs + more).stop.Returned?
  {
    hide Inv, After, Step, Enabled;
    if more == [] {
      assert evs + more == evs;
    } else {
      var less, ev := more[..|more| - 1], more[|more| - 1];
      StoppedStays(plugins, evs, less);
      assert evs + more == evs + less + [ev];
      var st := After(plugins, evs + less);
      AfterOne(plugins, evs + less, ev, st);
      if Enabled(st, ev) {
        ShapedOf(st);
        StepStopped(st, ev);
      }
    }
  }
}
