/** The protocol between one connection manager and any number of dialers
    (plugin/forward/persistent.go and the client half in plugin/forward/connect.go),
    in every interleaving. */
module ConnProtocol {
  import opened Wrappers
  import opened ConnPool

  /** What a goroutine that uses the transport is doing. */
  datatype Dialer =
    | Asking(proto: Proto)                 // blocked in t.dial <- proto
    | Waiting(proto: Proto)                // blocked in <-t.ret
    | Missed(proto: Proto)                 // got nil, about to open a new connection
    | Holding(c: Conn, proto: Proto)       // using a connection
    | Yielding(c: Conn, proto: Proto)      // blocked in t.yield <- c
    | Finished

  datatype Manager =
    | Selecting                            // in the select statement
    | Replying(d: nat, proto: Proto, reply: Option<Conn>)   // blocked in t.ret <- reply
    | Stopped

  datatype State = State(
    now: int, expire: int, tls: bool, pool: Pool,
    manager: Manager, dialers: seq<Dialer>, closed: seq<Conn>, nextId: nat)

  datatype Event =
    | NewDial(proto: Proto) | AcceptDial(d: nat) | Receive(d: nat)
    | Connect(d: nat) | ConnectFails(d: nat) | GiveUp(d: nat)
    | Offer(d: nat) | AcceptYield(d: nat)
    | Ticker | StopManager | Pass(dt: nat)

  predicate At(st: State, d: nat) {
    d < |st.dialers|
  }

  /** A channel operation happens when both ends are ready; Receive names any dialer
      that is ready to take what the manager offers. */
  predicate Enabled(st: State, ev: Event) {
    match ev
    case NewDial(p) => p != TcpTls
    case AcceptDial(d) => st.manager.Selecting? && At(st, d) && st.dialers[d].Asking?
    case Receive(d) => st.manager.Replying? && At(st, d) && st.dialers[d].Waiting?
    case Connect(d) => At(st, d) && st.dialers[d].Missed?
    case ConnectFails(d) => At(st, d) && st.dialers[d].Missed?
    case GiveUp(d) => At(st, d) && st.dialers[d].Holding?
    case Offer(d) => At(st, d) && st.dialers[d].Holding?
    case AcceptYield(d) => st.manager.Selecting? && At(st, d) && st.dialers[d].Yielding?
    case Ticker => st.manager.Selecting?
    case StopManager => st.manager.Selecting?
    case Pass(_) => true
  }

  // ----- where connections are -----

  function Plain(s: Stack): (r: seq<Conn>)
    ensures |r| == |s|
  {
    seq(|s|, i requires 0 <= i < |s| => s[i].c)
  }

  /** How often a connection occurs. */
  function Count(s: seq<Conn>, c: Conn): (n: nat) {
    if s == [] then 0 else Count(s[..|s| - 1], c) + if s[|s| - 1] == c then 1 else 0
  }

  function InStack(s: Stack, c: Conn): (n: nat) {
    if s == [] then 0 else InStack(s[..|s| - 1], c) + if s[|s| - 1].c == c then 1 else 0
  }

  function InPool(pool: Pool, c: Conn): (n: nat) {
    InStack(Bucket(pool, Udp), c) + InStack(Bucket(pool, Tcp), c) + InStack(Bucket(pool, TcpTls), c)
  }

  function HeldBy(d: Dialer, c: Conn): (n: nat) {
    if (d.Holding? || d.Yielding?) && d.c == c then 1 else 0
  }

  function Held(ds: seq<Dialer>, c: Conn): (n: nat) {
    if ds == [] then 0 else Held(ds[..|ds| - 1], c) + HeldBy(ds[|ds| - 1], c)
  }

  function InHand(m: Manager, c: Conn): (n: nat) {
    if m.Replying? && m.reply == Some(c) then 1 else 0
  }

  /** In how many places a connection is: in the pool, in the manager's hand, with a
      dialer, closed or being closed. */
  function Places(st: State, c: Conn): (n: nat) {
    InPool(st.pool, c) + InHand(st.manager, c) + Held(st.dialers, c) + Count(st.closed, c)
  }

  // ----- steps -----

  function Move(st: State, d: nat, s: Dialer): (st': State)
    requires d < |st.dialers|
  {
    st.(dialers := st.dialers[d := s])
  }

  /** What cleanup closes. */
  function Swept(pool: Pool, all: bool, now: int, expire: int): (r: seq<Conn>) {
    Plain(Discarded(Bucket(pool, Udp), all, now, expire))
    + Plain(Discarded(Bucket(pool, Tcp), all, now, expire))
    + Plain(Discarded(Bucket(pool, TcpTls), all, now, expire))
  }

  function Step(st: State, ev: Event): (st': State)
    requires Enabled(st, ev)
  {
    match ev
    case NewDial(p) => st.(dialers := st.dialers + [Asking(if st.tls then TcpTls else p)])
    case AcceptDial(d) =>
      var p := st.dialers[d].proto;
      var r := OnDial(st.pool, p, st.now, st.expire);
      Move(st, d, Waiting(p)).(pool := r.pool, manager := Replying(d, p, r.reply), closed := st.closed + Plain(r.closing))
    case Receive(d) =>
      var p := st.dialers[d].proto;
      var r := st.manager.reply;
      Move(st, d, if r.Some? then Holding(r.value, p) else Missed(p)).(manager := Selecting)
    case Connect(d) =>
      var p := st.dialers[d].proto;
      Move(st, d, Holding(Conn(st.nextId, p.Udp?), p)).(nextId := st.nextId + 1)
    case ConnectFails(d) => Move(st, d, Finished)
    case GiveUp(d) => Move(st, d, Finished).(closed := st.closed + [st.dialers[d].c])
    case Offer(d) => Move(st, d, Yielding(st.dialers[d].c, st.dialers[d].proto))
    case AcceptYield(d) =>
      Move(st, d, Finished).(pool := OnYield(st.pool, st.dialers[d].c, st.tls, st.now))
    case Ticker =>
      st.(pool := OnCleanup(st.pool, false, st.now, st.expire),
          closed := st.closed + Swept(st.pool, false, st.now, st.expire))
    case StopManager =>
      st.(pool := OnCleanup(st.pool, true, st.now, st.expire),
          closed := st.closed + Swept(st.pool, true, st.now, st.expire), manager := Stopped)
    case Pass(dt) => st.(now := st.now + dt)
  }

  // ----- conservation -----

  lemma {:induction false} HeldUpdate(ds: seq<Dialer>, d: nat, s: Dialer, c: Conn)
    requires d < |ds|
    ensures Held(ds[d := s], c) + HeldBy(ds[d], c) == Held(ds, c) + HeldBy(s, c)
  {
    var m := |ds| - 1;
    if d < m {
      HeldUpdate(ds[..m], d, s, c);
      assert ds[d := s][..m] == ds[..m][d := s];
    } else {
      assert ds[d := s][..m] == ds[..m];
    }
  }

  lemma HeldAppend(ds: seq<Dialer>, s: Dialer, c: Conn)
    ensures Held(ds + [s], c) == Held(ds, c) + HeldBy(s, c)
  {}

  lemma {:induction false} CountConcat(a: seq<Conn>, b: seq<Conn>, c: Conn)
    ensures Count(a + b, c) == Count(a, c) + Count(b, c)
  {
    if b == [] {
      assert a + b == a;
    } else {
      assert (a + b)[..|a + b| - 1] == a + b[..|b| - 1];
      CountConcat(a, b[..|b| - 1], c);
    }
  }

  lemma {:induction false} CountPlain(s: Stack, c: Conn)
    ensures Count(Plain(s), c) == InStack(s, c)
  {
    if s != [] {
      CountPlain(s[..|s| - 1], c);
      assert Plain(s)[..|s| - 1] == Plain(s[..|s| - 1]);
    }
  }

  lemma InStackAppend(s: Stack, e: Cached, c: Conn)
    ensures InStack(s + [e], c) == InStack(s, c) + if e.c == c then 1 else 0
  {}

  lemma {:induction false} FilterSplits(s: Stack, now: int, expire: int, c: Conn)
    ensures InStack(KeepFresh(s, now, expire), c) + InStack(KeepStale(s, now, expire), c) == InStack(s, c)
  {
    if s != [] {
      var n := |s| - 1;
      FilterSplits(s[..n], now, expire, c);
      var f, o := KeepFresh(s[..n], now, expire), KeepStale(s[..n], now, expire);
      assert KeepFresh(s, now, expire) == if Fresh(s[n], now, expire) then f + [s[n]] else f;
      assert KeepStale(s, now, expire) == if Fresh(s[n], now, expire) then o else o + [s[n]];
      hide KeepFresh, KeepStale, InStack;
      assert s == s[..n] + [s[n]];
      InStackAppend(s[..n], s[n], c);
      InStackAppend(f, s[n], c);
      InStackAppend(o, s[n], c);
    }
  }

  lemma CleanupConserves(pool: Pool, all: bool, now: int, expire: int, c: Conn)
    ensures InPool(OnCleanup(pool, all, now, expire), c) + Count(Swept(pool, all, now, expire), c) == InPool(pool, c)
  {
    var u, t, s := Bucket(pool, Udp), Bucket(pool, Tcp), Bucket(pool, TcpTls);
    SweptCount(pool, all, now, expire, c);
    FilterSplits(u, now, expire, c);
    FilterSplits(t, now, expire, c);
    FilterSplits(s, now, expire, c);
    var r := OnCleanup(pool, all, now, expire);
    assert KeepFresh([], now, expire) == [];
    assert forall p :: Bucket(r, p) == if all then [] else KeepFresh(Bucket(pool, p), now, expire);
    hide KeepFresh, KeepStale, OnCleanup, Bucket;
  }

  lemma SweptCount(pool: Pool, all: bool, now: int, expire: int, c: Conn)
    ensures Count(Swept(pool, all, now, expire), c) ==
      InStack(Discarded(Bucket(pool, Udp), all, now, expire), c)
      + InStack(Discarded(Bucket(pool, Tcp), all, now, expire), c)
      + InStack(Discarded(Bucket(pool, TcpTls), all, now, expire), c)
  {
    hide Discarded, Count, InStack, Plain;
    var u, t, s := Discarded(Bucket(pool, Udp), all, now, expire), Discarded(Bucket(pool, Tcp), all, now, expire),
      Discarded(Bucket(pool, TcpTls), all, now, expire);
    CountConcat(Plain(u) + Plain(t), Plain(s), c);
    CountConcat(Plain(u), Plain(t), c);
    CountPlain(u, c);
    CountPlain(t, c);
    CountPlain(s, c);
  }

  lemma DialConserves(pool: Pool, p: Proto, now: int, expire: int, c: Conn)
    ensures var r := OnDial(pool, p, now, expire);
      InPool(r.pool, c) + InStack(r.closing, c) + (if r.reply == Some(c) then 1 else 0) == InPool(pool, c)
  {
    hide InPool, Fresh;
    var s := Bucket(pool, p);
    var r := OnDial(pool, p, now, expire);
    assert forall o :: o != p ==> Bucket(r.pool, o) == Bucket(pool, o);
    assert InStack(Bucket(r.pool, p), c) + InStack(r.closing, c) + (if r.reply == Some(c) then 1 else 0) == InStack(s, c);
    hide OnDial, InStack, Bucket;
    var gone: int := InStack(r.closing, c) + if r.reply == Some(c) then 1 else 0;
    OneBucket(pool, r.pool, p, c, -gone);
  }

  lemma YieldConserves(pool: Pool, y: Conn, tls: bool, now: int, c: Conn)
    ensures InPool(OnYield(pool, y, tls, now), c) == InPool(pool, c) + if y == c then 1 else 0
  {
    hide InStack, InPool;
    var p := BucketOf(y, tls);
    var r := OnYield(pool, y, tls, now);
    InStackAppend(Bucket(pool, p), Cached(y, now), c);
    assert Bucket(r, p) == Bucket(pool, p) + [Cached(y, now)];
    assert forall o :: o != p ==> Bucket(r, o) == Bucket(pool, o);
    hide OnYield, Bucket;
    OneBucket(pool, r, p, c, if y == c then 1 else 0);
  }

  /** When one bucket changes, the pool changes by as much. */
  lemma {:induction false} OneBucket(pool: Pool, r: Pool, p: Proto, c: Conn, d: int)
    requires forall o :: o != p ==> Bucket(r, o) == Bucket(pool, o)
    requires InStack(Bucket(r, p), c) == InStack(Bucket(pool, p), c) + d
    ensures InPool(r, c) == InPool(pool, c) + d
  {
    hide InStack, Bucket;
    match p
    case Udp =>
    case Tcp =>
    case TcpTls =>
  }

  /** A dialer waits on ret exactly while the manager has a reply for it. */
  predicate Rendezvous(st: State) {
    && (st.manager.Replying? ==>
          && st.manager.d < |st.dialers|
          && st.dialers[st.manager.d] == Waiting(st.manager.proto)
          && forall d :: 0 <= d < |st.dialers| && st.dialers[d].Waiting? ==> d == st.manager.d)
    && (!st.manager.Replying? ==> forall d :: 0 <= d < |st.dialers| ==> !st.dialers[d].Waiting?)
  }

  /** Which connection an event brings into being, if any. */
  function Opened(st: State, ev: Event, c: Conn): (n: nat)
    requires Enabled(st, ev)
  {
    if ev.Connect? && c == Conn(st.nextId, st.dialers[ev.d].proto.Udp?) then 1 else 0
  }

  /** Answering a dial moves what it hands out and what it closes. */
  lemma AcceptConserves(st: State, d: nat, c: Conn)
    requires Enabled(st, AcceptDial(d))
    ensures Places(Step(st, AcceptDial(d)), c) == Places(st, c)
  {
    hide InPool, OnDial, Held, Count, Plain, InStack;
    var p := st.dialers[d].proto;
    var r := OnDial(st.pool, p, st.now, st.expire);
    HeldUpdate(st.dialers, d, Waiting(p), c);
    DialConserves(st.pool, p, st.now, st.expire, c);
    CountConcat(st.closed, Plain(r.closing), c);
    CountPlain(r.closing, c);
  }

  /** Events move connections from one place to another; only Connect makes one. */
  lemma StepConserves(st: State, ev: Event, c: Conn)
    requires Enabled(st, ev)
    ensures Places(Step(st, ev), c) == Places(st, c) + Opened(st, ev, c)
  {
    hide InPool, OnDial, OnYield, OnCleanup, Swept, Held, Count, Plain, InStack;
    var st' := Step(st, ev);
    match ev
    case NewDial(p) => HeldAppend(st.dialers, st'.dialers[|st.dialers|], c);
    case AcceptDial(d) => AcceptConserves(st, d, c);
    case GiveUp(d) =>
      HeldUpdate(st.dialers, d, st'.dialers[d], c);
      CountConcat(st.closed, [st.dialers[d].c], c);
      CountOne(st.dialers[d].c, c);
    case AcceptYield(d) =>
      HeldUpdate(st.dialers, d, st'.dialers[d], c);
      YieldConserves(st.pool, st.dialers[d].c, st.tls, st.now, c);
    case Ticker =>
      CleanupConserves(st.pool, false, st.now, st.expire, c);
      CountConcat(st.closed, Swept(st.pool, false, st.now, st.expire), c);
    case StopManager =>
      CleanupConserves(st.pool, true, st.now, st.expire, c);
      CountConcat(st.closed, Swept(st.pool, true, st.now, st.expire), c);
    case Pass(_) =>
    case _ => HeldUpdate(st.dialers, ev.d, st'.dialers[ev.d], c);
  }

  lemma CountOne(x: Conn, c: Conn)
    ensures Count([x], c) == if x == c then 1 else 0
  {}

  // ----- the invariant -----

  /** A dialer asks for the protocol the configuration dictates, and what it holds
      goes back to that bucket. */
  predicate DialerKind(tls: bool, d: Dialer) {
    match d
    case Asking(p) => p.TcpTls? == tls
    case Waiting(p) => p.TcpTls? == tls
    case Missed(p) => p.TcpTls? == tls
    case Holding(c, p) => p.TcpTls? == tls && BucketOf(c, tls) == p
    case Yielding(c, p) => p.TcpTls? == tls && BucketOf(c, tls) == p
    case Finished => true
  }

  /** Every cached connection is of the kind of its bucket. */
  predicate PoolKinds(pool: Pool, tls: bool) {
    forall p :: p in pool ==> forall i :: 0 <= i < |pool[p]| ==> BucketOf(pool[p][i].c, tls) == p
  }

  predicate Kinds(st: State) {
    && (forall d :: 0 <= d < |st.dialers| ==> DialerKind(st.tls, st.dialers[d]))
    && PoolKinds(st.pool, st.tls)
    && (st.manager.Replying? && st.manager.reply.Some? ==>
          BucketOf(st.manager.reply.value, st.tls) == st.manager.proto)
  }

  /** The places of the connection with a given number, of whichever kind it is. */
  function PlacesOf(st: State, id: nat): (n: nat) {
    Places(st, Conn(id, true)) + Places(st, Conn(id, false))
  }

  /** Every connection opened so far is in exactly one place. */
  ghost predicate Single(st: State) {
    forall id: nat :: PlacesOf(st, id) == if id < st.nextId then 1 else 0
  }

  ghost predicate Inv(st: State) {
    && PoolSorted(st.pool) && UsedBefore(st.pool, st.now)
    && Rendezvous(st) && Kinds(st) && Single(st)
  }

  lemma StepRendezvous(st: State, ev: Event)
    requires Enabled(st, ev) && Rendezvous(st)
    ensures Rendezvous(Step(st, ev))
  {
    hide OnDial, OnYield, OnCleanup, Swept, Plain;
  }

  lemma StepSorted(st: State, ev: Event)
    requires Enabled(st, ev) && PoolSorted(st.pool) && UsedBefore(st.pool, st.now)
    ensures PoolSorted(Step(st, ev).pool) && UsedBefore(Step(st, ev).pool, Step(st, ev).now)
  {
    hide OnDial, OnYield, OnCleanup, PoolSorted;
    match ev
    case AcceptDial(d) => DialKeepsSorted(st.pool, st.dialers[d].proto, st.now, st.expire);
    case AcceptYield(d) => YieldKeepsSorted(st.pool, st.dialers[d].c, st.tls, st.now);
    case Ticker => CleanupKeepsSorted(st.pool, false, st.now, st.expire);
    case StopManager => CleanupKeepsSorted(st.pool, true, st.now, st.expire);
    case _ =>
  }

  lemma {:induction false} FilterSubset(s: Stack, now: int, expire: int, i: nat)
    requires i < |KeepFresh(s, now, expire)|
    ensures KeepFresh(s, now, expire)[i] in s
  {
    var n := |s| - 1;
    if i < |KeepFresh(s[..n], now, expire)| {
      FilterSubset(s[..n], now, expire, i);
    }
  }

  lemma CleanupKinds(pool: Pool, tls: bool, all: bool, now: int, expire: int)
    requires PoolKinds(pool, tls)
    ensures PoolKinds(OnCleanup(pool, all, now, expire), tls)
  {
    var r: Pool := OnCleanup(pool, all, now, expire);
    forall p: Proto, i: int | p in r && 0 <= i < |r[p]|
      ensures BucketOf(r[p][i].c, tls) == p
    {
      FilterSubset(pool[p], now, expire, i);
    }
  }

  lemma StepKinds(st: State, ev: Event)
    requires Enabled(st, ev) && Kinds(st) && Rendezvous(st)
    ensures Kinds(Step(st, ev))
  {
    hide OnCleanup, Swept, Plain;
    match ev
    case Ticker => CleanupKinds(st.pool, st.tls, false, st.now, st.expire);
    case StopManager => CleanupKinds(st.pool, st.tls, true, st.now, st.expire);
    case AcceptYield(d) => assert DialerKind(st.tls, st.dialers[d]);
    case _ =>
  }

  lemma NextId(st: State, ev: Event)
    requires Enabled(st, ev)
    ensures Step(st, ev).nextId == st.nextId + if ev.Connect? then 1 else 0
  {
    hide OnDial, OnYield, OnCleanup, Swept, Plain;
  }

  lemma StepSingle(st: State, ev: Event)
    requires Single(st) && Enabled(st, ev)
    ensures Single(Step(st, ev))
  {
    hide Step, Places;
    NextId(st, ev);
    forall id: nat
      ensures PlacesOf(Step(st, ev), id) == if id < Step(st, ev).nextId then 1 else 0
    {
      assert PlacesOf(st, id) == if id < st.nextId then 1 else 0;
      StepConserves(st, ev, Conn(id, true));
      StepConserves(st, ev, Conn(id, false));
    }
  }

  lemma StepInv(st: State, ev: Event)
    requires Inv(st) && Enabled(st, ev)
    ensures Inv(Step(st, ev))
  {
    hide PoolSorted, UsedBefore, Rendezvous, Kinds, Single, Step, Enabled;
    StepRendezvous(st, ev);
    StepSorted(st, ev);
    StepKinds(st, ev);
    StepSingle(st, ev);
  }

  function Start(expire: int, tls: bool, now: int): (st: State) {
    State(now, expire, tls, map[], Selecting, [], [], 0)
  }

  /** The state after a run; an event that is not enabled does not happen. */
  function After(start: State, evs: seq<Event>): (st: State) {
    if evs == [] then start
    else
      var st := After(start, evs[..|evs| - 1]);
      if Enabled(st, evs[|evs| - 1]) then Step(st, evs[|evs| - 1]) else st
  }

  lemma {:induction false} RunInv(expire: int, tls: bool, now: int, evs: seq<Event>)
    ensures Inv(After(Start(expire, tls, now), evs))
  {
    if evs == [] {
      assert forall id: nat :: PlacesOf(Start(expire, tls, now), id) == 0;
    } else {
      RunInv(expire, tls, now, evs[..|evs| - 1]);
      hide Inv, Step, Enabled;
      var st := After(Start(expire, tls, now), evs[..|evs| - 1]);
      if Enabled(st, evs[|evs| - 1]) {
        StepInv(st, evs[|evs| - 1]);
      }
    }
  }

  /** In every run each connection ever opened is in exactly one place: in the pool,
      in the manager's hand, with one dialer, or closed.  So none is both closed and
      handed out, none is lost, and none is with two dialers. */
  lemma RunSingle(expire: int, tls: bool, now: int, evs: seq<Event>, id: nat)
    ensures var st := After(Start(expire, tls, now), evs);
      && Places(st, Conn(id, true)) + Places(st, Conn(id, false)) == (if id < st.nextId then 1 else 0)
      && PoolSorted(st.pool)
  {
    RunInv(expire, tls, now, evs);
    hide After, Places;
    var st := After(Start(expire, tls, now), evs);
    assert PlacesOf(st, id) == if id < st.nextId then 1 else 0;
  }

  /** Whoever takes a reply off ret is the dialer whose request was just accepted, and
      a connection it gets is of the kind it asked for. */
  lemma ReplyReachesItsDialer(expire: int, tls: bool, now: int, evs: seq<Event>, d: nat)
    requires Enabled(After(Start(expire, tls, now), evs), Receive(d))
    ensures var st := After(Start(expire, tls, now), evs);
      && d == st.manager.d && st.dialers[d] == Waiting(st.manager.proto)
      && (st.manager.reply.Some? ==> BucketOf(st.manager.reply.value, st.tls) == st.dialers[d].proto)
  {
    RunInv(expire, tls, now, evs);
    hide After;
  }

  lemma AfterOne(start: State, evs: seq<Event>, ev: Event)
    ensures var st := After(start, evs);
            After(start, evs + [ev]) == if Enabled(st, ev) then Step(st, ev) else st
  {
    assert (evs + [ev])[..|evs|] == evs;
  }

  /** A dialer keeps the protocol it asks for, and the configuration stays. */
  lemma StepKeepsProto(st: State, ev: Event, d: nat)
    requires Enabled(st, ev)
    ensures Step(st, ev).tls == st.tls && |st.dialers| <= |Step(st, ev).dialers|
    ensures d < |st.dialers| ==>
      var s, s' := st.dialers[d], Step(st, ev).dialers[d];
      s'.Finished? || (!s.Finished? && s'.proto == s.proto)
  {
    hide OnDial, OnYield, OnCleanup, Swept, Plain;
  }

  lemma {:induction false} ConfigStays(start: State, evs: seq<Event>)
    ensures After(start, evs).tls == start.tls
  {
    hide OnDial, OnYield, OnCleanup, Swept, Plain;
    if evs != [] {
      ConfigStays(start, evs[..|evs| - 1]);
    }
  }

  /** With or without TLS, a dialer asks for, waits for and uses connections of the protocol it
      was called with, or of TLS where that is configured, for the rest of every run. */
  lemma {:induction false} AsksForItsProto(start: State, evs: seq<Event>, p: Proto, more: seq<Event>, d: nat)
    requires p != TcpTls && d == |After(start, evs).dialers|
    ensures var st := After(start, evs + [NewDial(p)] + more);
      && d < |st.dialers|
      && (st.dialers[d].Finished? || st.dialers[d].proto == if start.tls then TcpTls else p)
    decreases |more|
  {
    hide After;
    var first := evs + [NewDial(p)];
    if more == [] {
      assert first + more == first;
      AfterOne(start, evs, NewDial(p));
      ConfigStays(start, evs);
    } else {
      var less, ev := more[..|more| - 1], more[|more| - 1];
      AsksForItsProto(start, evs, p, less, d);
      assert first + more == first + less + [ev];
      AfterOne(start, first + less, ev);
      hide Step, Enabled;
      var st := After(start, first + less);
      if Enabled(st, ev) {
        StepKeepsProto(st, ev, d);
      }
    }
  }

  lemma {:induction false} FreshFiltered(s: Stack, now: int, expire: int, e: Cached)
    ensures e in KeepFresh(s, now, expire) <==> e in s && Fresh(e, now, expire)
  {
    if s != [] {
      FreshFiltered(s[..|s| - 1], now, expire, e);
      assert s == s[..|s| - 1] + [s[|s| - 1]];
    }
  }

  /** What leaves the pool, and why: a connection that is still fresh stays cached through
      every event, unless a dial hands it out or the manager stops. */
  lemma FreshStays(st: State, ev: Event, p: Proto, e: Cached)
    requires Enabled(st, ev) && PoolSorted(st.pool) && !ev.StopManager?
    requires e in Bucket(st.pool, p) && Fresh(e, st.now, st.expire)
    ensures var st' := Step(st, ev);
      e in Bucket(st'.pool, p) || (ev.AcceptDial? && st'.manager.reply == Some(e.c))
  {
    hide Swept, Plain;
    if ev.Ticker? {
      FreshFiltered(st.pool[p], st.now, st.expire, e);
    }
  }

  /** The ticker leaves nothing but fresh connections, and all of them; stopping leaves none. */
  lemma CleanupExactly(st: State, p: Proto, e: Cached)
    requires st.manager.Selecting?
    ensures e in Bucket(Step(st, Ticker).pool, p) <==> e in Bucket(st.pool, p) && Fresh(e, st.now, st.expire)
    ensures Bucket(Step(st, StopManager).pool, p) == []
  {
    hide Swept;
    if p in st.pool {
      FreshFiltered(st.pool[p], st.now, st.expire, e);
    }
  }

  /** A stopped manager stays stopped, with an empty pool: it takes no connection and gives
      none away for the rest of every run. */
  lemma {:induction false} StopIsFinal(start: State, evs: seq<Event>, more: seq<Event>)
    requires Enabled(After(start, evs), StopManager)
    ensures var st := After(start, evs + [StopManager] + more);
      st.manager.Stopped? && forall p :: Bucket(st.pool, p) == []
    decreases |more|
  {
    hide After;
    var first := evs + [StopManager];
    if more == [] {
      assert first + more == first;
      AfterOne(start, evs, StopManager);
      hide Swept;
    } else {
      var less, ev := more[..|more| - 1], more[|more| - 1];
      StopIsFinal(start, evs, less);
      assert first + more == first + less + [ev];
      AfterOne(start, first + less, ev);
      hide OnDial, OnYield, OnCleanup, Swept, Plain, Bucket;
    }
  }

  /** A connection given back is cached as used now, in the bucket of its dialer's protocol. */
  lemma YieldedIsCached(expire: int, tls: bool, now: int, evs: seq<Event>, d: nat)
    requires Enabled(After(Start(expire, tls, now), evs), AcceptYield(d))
    ensures var st := After(Start(expire, tls, now), evs);
      var p := st.dialers[d].proto;
      && Bucket(Step(st, AcceptYield(d)).pool, p) == Bucket(st.pool, p) + [Cached(st.dialers[d].c, st.now)]
      && forall o :: o != p ==> Bucket(Step(st, AcceptYield(d)).pool, o) == Bucket(st.pool, o)
  {
    RunInv(expire, tls, now, evs);
    hide After;
    var st := After(Start(expire, tls, now), evs);
    assert DialerKind(st.tls, st.dialers[d]);
  }

  /** What the manager hands out was in that bucket, and had been used less than the
      expiry time ago. */
  lemma AcceptedIsFresh(expire: int, tls: bool, now: int, evs: seq<Event>, d: nat)
    requires Enabled(After(Start(expire, tls, now), evs), AcceptDial(d))
    ensures var st := After(Start(expire, tls, now), evs);
      var st' := Step(st, AcceptDial(d));
      && st'.manager.Replying? && st'.manager.d == d
      && (st'.manager.reply.Some? ==>
            exists e :: e in Bucket(st.pool, st.dialers[d].proto) && e.c == st'.manager.reply.value
                        && Fresh(e, st.now, st.expire))
      && (st'.manager.reply.None? ==>
            forall i :: 0 <= i < |Bucket(st.pool, st.dialers[d].proto)| ==>
              !Fresh(Bucket(st.pool, st.dialers[d].proto)[i], st.now, st.expire))
  {
    RunInv(expire, tls, now, evs);
    var st := After(Start(expire, tls, now), evs);
    hide After;
    DialDropsOnlyStale(st.pool, st.dialers[d].proto, st.now, st.expire);
  }
}
