/** The connection cache of plugin/forward/persistent.go: what the manager does to
    its buckets on each event. */
module ConnPool {
  import opened Wrappers

  datatype Proto = Udp | Tcp | TcpTls

  /** A connection and whether it is a UDP socket. */
  datatype Conn = Conn(id: nat, udp: bool)

  /** persistConn: a cached connection and when it was last used. */
  datatype Cached = Cached(c: Conn, used: int)

  type Stack = seq<Cached>
  type Pool = map<Proto, Stack>

  /** A missing bucket reads as an empty one. */
  function Bucket(pool: Pool, p: Proto): (s: Stack) {
    if p in pool then pool[p] else []
  }

  // ----- order by last use -----

  predicate SortedByUse(s: Stack) {
    forall i, j :: 0 <= i < j < |s| ==> s[i].used <= s[j].used
  }

  predicate PoolSorted(pool: Pool) {
    forall p :: p in pool ==> SortedByUse(pool[p])
  }

  /** No entry was used after now. */
  predicate UsedBefore(pool: Pool, now: int) {
    forall p :: p in pool ==> forall i :: 0 <= i < |pool[p]| ==> pool[p][i].used <= now
  }

  /** time.Since(used) < expire */
  predicate Fresh(e: Cached, now: int, expire: int) {
    now - e.used < expire
  }

  /** The plain filters cleanup is compared with. */
  function KeepFresh(s: Stack, now: int, expire: int): (r: Stack) {
    if s == [] then []
    else KeepFresh(s[..|s| - 1], now, expire) + if Fresh(s[|s| - 1], now, expire) then [s[|s| - 1]] else []
  }

  function KeepStale(s: Stack, now: int, expire: int): (r: Stack) {
    if s == [] then []
    else KeepStale(s[..|s| - 1], now, expire) + if Fresh(s[|s| - 1], now, expire) then [] else [s[|s| - 1]]
  }

  /** Where everything before k is stale and everything from k on fresh, cutting at k
      is filtering. */
  lemma {:induction false} CutIsFilter(s: Stack, k: nat, now: int, expire: int)
    requires k <= |s|
    requires forall i :: 0 <= i < k ==> !Fresh(s[i], now, expire)
    requires forall i :: k <= i < |s| ==> Fresh(s[i], now, expire)
    ensures KeepFresh(s, now, expire) == s[k..] && KeepStale(s, now, expire) == s[..k]
  {
    if s != [] {
      var n := |s| - 1;
      if k == |s| {
        CutIsFilter(s[..n], n, now, expire);
        assert s == s[..n] + [s[n]];
      } else {
        CutIsFilter(s[..n], k, now, expire);
        assert s[k..] == s[..n][k..] + [s[n]];
        assert s[..n][..k] == s[..k];
      }
    }
  }

  /** sort.Search for the first entry that is still fresh. */
  method SearchFresh(s: Stack, now: int, expire: int) returns (k: nat)
    requires SortedByUse(s)
    ensures k <= |s|
    ensures forall i :: 0 <= i < k ==> !Fresh(s[i], now, expire)
    ensures forall i :: k <= i < |s| ==> Fresh(s[i], now, expire)
  {
    var i, j := 0, |s|;
    while i < j
      invariant 0 <= i <= j <= |s|
      invariant forall a :: 0 <= a < i ==> !Fresh(s[a], now, expire)
      invariant forall a :: j <= a < |s| ==> Fresh(s[a], now, expire)
    {
      var h := (i + j) / 2;
      if Fresh(s[h], now, expire) {
        j := h;
      } else {
        i := h + 1;
      }
    }
    return i;
  }

  // ----- the events, on values -----

  datatype DialOutcome = DialOutcome(pool: Pool, reply: Option<Conn>, closing: Stack)

  /** A dial request: the most recently used connection if it is fresh, and otherwise
      the whole bucket is given up. */
  function OnDial(pool: Pool, p: Proto, now: int, expire: int): (r: DialOutcome) {
    var s := Bucket(pool, p);
    if s == [] then DialOutcome(pool, None, [])
    else
      var last := s[|s| - 1];
      if Fresh(last, now, expire) then DialOutcome(pool[p := s[..|s| - 1]], Some(last.c), [])
      else DialOutcome(pool[p := []], None, s)
  }

  /** The bucket a connection goes back to. */
  function BucketOf(c: Conn, tls: bool): (p: Proto) {
    if c.udp then Udp else if tls then TcpTls else Tcp
  }

  function OnYield(pool: Pool, c: Conn, tls: bool, now: int): (r: Pool) {
    var p := BucketOf(c, tls);
    pool[p := Bucket(pool, p) + [Cached(c, now)]]
  }

  function OnCleanup(pool: Pool, all: bool, now: int, expire: int): (r: Pool) {
    map p | p in pool :: if all then [] else KeepFresh(pool[p], now, expire)
  }

  /** What cleanup closes of one bucket. */
  function Discarded(s: Stack, all: bool, now: int, expire: int): (r: Stack) {
    if all then s else KeepStale(s, now, expire)
  }

  /** Giving up a whole bucket on a dial gives up no fresh connection. */
  lemma DialDropsOnlyStale(pool: Pool, p: Proto, now: int, expire: int)
    requires PoolSorted(pool)
    ensures var r := OnDial(pool, p, now, expire);
      && (forall i :: 0 <= i < |r.closing| ==> !Fresh(r.closing[i], now, expire))
      && (r.reply.Some? ==> exists e :: e in Bucket(pool, p) && e.c == r.reply.value && Fresh(e, now, expire))
      && (r.reply.None? ==> forall i :: 0 <= i < |Bucket(pool, p)| ==> !Fresh(Bucket(pool, p)[i], now, expire))
  {}

  /** Every event keeps the buckets sorted, as long as time does not run backwards. */
  lemma DialKeepsSorted(pool: Pool, p: Proto, now: int, expire: int)
    requires PoolSorted(pool) && UsedBefore(pool, now)
    ensures PoolSorted(OnDial(pool, p, now, expire).pool) && UsedBefore(OnDial(pool, p, now, expire).pool, now)
  {}

  lemma YieldKeepsSorted(pool: Pool, c: Conn, tls: bool, now: int)
    requires PoolSorted(pool) && UsedBefore(pool, now)
    ensures PoolSorted(OnYield(pool, c, tls, now)) && UsedBefore(OnYield(pool, c, tls, now), now)
  {}

  lemma {:induction false} FilterSorted(s: Stack, now: int, expire: int, bound: int)
    requires SortedByUse(s) && forall i :: 0 <= i < |s| ==> s[i].used <= bound
    ensures SortedByUse(KeepFresh(s, now, expire))
    ensures forall i :: 0 <= i < |KeepFresh(s, now, expire)| ==> KeepFresh(s, now, expire)[i].used <= bound
  {
    if s != [] {
      FilterSorted(s[..|s| - 1], now, expire, s[|s| - 1].used);
    }
  }

  lemma CleanupKeepsSorted(pool: Pool, all: bool, now: int, expire: int)
    requires PoolSorted(pool) && UsedBefore(pool, now)
    ensures PoolSorted(OnCleanup(pool, all, now, expire)) && UsedBefore(OnCleanup(pool, all, now, expire), now)
  {
    forall p | p in pool
      ensures SortedByUse(KeepFresh(pool[p], now, expire))
      ensures forall i :: 0 <= i < |KeepFresh(pool[p], now, expire)| ==> KeepFresh(pool[p], now, expire)[i].used <= now
    {
      FilterSorted(pool[p], now, expire, now);
    }
  }

  // ----- the manager's state in memory -----

  /** The body of cleanup's loop: the shortcut for a bucket that is fresh throughout,
      and the binary search for any other. */
  method CleanStack(stack: Stack, all: bool, now: int, expire: int) returns (keep: Stack, drop: Stack)
    requires SortedByUse(stack)
    ensures keep == if all then [] else KeepFresh(stack, now, expire)
    ensures drop == Discarded(stack, all, now, expire)
  {
    if |stack| == 0 {
      return stack, [];
    }
    if all {
      return [], stack;
    }
    if Fresh(stack[0], now, expire) {
      CutIsFilter(stack, 0, now, expire);
      return stack, [];
    }
    var good := SearchFresh(stack, now, expire);
    CutIsFilter(stack, good, now, expire);
    return stack[good..], stack[..good];
  }

  class Transport {
    var conns: Pool
    const expire: int
    const tls: bool

    constructor (expire: int, tls: bool)
      ensures conns == map[] && this.expire == expire && this.tls == tls
    {
      conns := map[];
      this.expire := expire;
      this.tls := tls;
    }

    /** case proto := <-t.dial */
    method Dial(p: Proto, now: int) returns (reply: Option<Conn>, closing: Stack)
      modifies this
      ensures DialOutcome(conns, reply, closing) == OnDial(old(conns), p, now, expire)
    {
      reply, closing := None, [];
      var stack := Bucket(conns, p);
      if |stack| > 0 {
        var pc := stack[|stack| - 1];
        if now - pc.used < expire {
          conns := conns[p := stack[..|stack| - 1]];
          return Some(pc.c), [];
        }
        conns := conns[p := []];
        closing := stack;
      }
    }

    /** case conn := <-t.yield */
    method Yield(c: Conn, now: int)
      modifies this
      ensures conns == OnYield(old(conns), c, tls, now)
    {
      if c.udp {
        conns := conns[Udp := Bucket(conns, Udp) + [Cached(c, now)]];
        return;
      }
      if !tls {
        conns := conns[Tcp := Bucket(conns, Tcp) + [Cached(c, now)]];
        return;
      }
      conns := conns[TcpTls := Bucket(conns, TcpTls) + [Cached(c, now)]];
    }

    /** cleanup: bucket by bucket, in the order a Go map is walked; closed collects
        what each bucket gives up. */
    method Cleanup(all: bool, now: int) returns (closed: map<Proto, Stack>)
      requires PoolSorted(conns)
      modifies this
      ensures conns == OnCleanup(old(conns), all, now, expire)
      ensures closed.Keys == old(conns).Keys
      ensures forall p :: p in closed ==> closed[p] == Discarded(old(conns)[p], all, now, expire)
    {
      hide KeepFresh, KeepStale, Discarded, SortedByUse;
      var start := conns;
      var todo := start.Keys;
      closed := map[];
      while todo != {}
        invariant todo <= start.Keys && start == old(conns) && conns.Keys == start.Keys
        invariant closed.Keys == start.Keys - todo
        invariant forall p :: p in todo ==> conns[p] == start[p]
        invariant forall p :: p in closed ==>
                    && closed[p] == Discarded(start[p], all, now, expire)
                    && conns[p] == if all then [] else KeepFresh(start[p], now, expire)
        decreases todo
      {
        var p :| p in todo;
        var keep, drop := CleanStack(conns[p], all, now, expire);
        conns := conns[p := keep];
        closed := closed[p := drop];
        todo := todo - {p};
      }
    }
  }
}
