/** The response cache (WriteMsg and set of plugin/cache/cache.go, get and the hit path of
    ServeDNS of plugin/cache/handler.go), over whole runs. */
module ResponseCache {
  import opened Wrappers
  import opened CacheItem
  import opened ShardStore
  import Names

  /** The configured bounds on TTLs, the capacity of the two stores, and FNV-64. */
  datatype Config = Config(minnttl: int, nttl: int, minpttl: int, pttl: int,
                           ncap: int, pcap: int, fnv: seq<int> -> nat)

  /** What setup accepts: the upper bounds are positive, and fit 32 bits of seconds. */
  predicate ValidConfig(cfg: Config) {
    0 < cfg.nttl < 0x1_0000_0000 * SECOND && 0 < cfg.pttl < 0x1_0000_0000 * SECOND
  }

  function HashOf(cfg: Config, k: Key): (h: nat) {
    cfg.fnv(KeyBytes(k))
  }

  // ----- one response -----

  /** Request.Name, lower-cased; without a question, the root. */
  function NameOf(req: Msg): (n: string) {
    if req.question == [] then "." else Names.LowerLabel(req.question[0].name)
  }

  /** Request.QType */
  function QTypeOf(req: Msg): (t: nat) {
    if req.question == [] then 0 else req.question[0].qtype
  }

  /** The key a request is looked up with. */
  function AskKey(req: Msg): (k: Key) {
    Key(NameOf(req), QTypeOf(req), Do(req))
  }

  /** Request.Match */
  predicate Match(req: Msg, res: Msg) {
    && |res.question| == 1 && res.response
    && Names.LowerLabel(res.question[0].name) == NameOf(req)
    && res.question[0].qtype == QTypeOf(req)
  }

  predicate Denial(mt: Class) {
    mt.NameError? || mt.NoData?
  }

  /** How long a response is kept. */
  function Life(cfg: Config, res: Msg, mt: Class): (d: int) {
    if Denial(mt) then ComputeTTL(MinTtl(res, mt), cfg.minnttl, cfg.nttl)
    else ComputeTTL(MinTtl(res, mt), cfg.minpttl, cfg.pttl)
  }

  /** A denial is kept within the bounds for denials, anything else within those for positive
      responses; where the bounds allow it, for as long as the lowest TTL says. */
  lemma LifeClamped(cfg: Config, res: Msg, mt: Class)
    ensures var low, high := if Denial(mt) then cfg.minnttl else cfg.minpttl, if Denial(mt) then cfg.nttl else cfg.pttl;
      Life(cfg, res, mt) ==
        if low > high || MinTtl(res, mt) > high then high
        else if MinTtl(res, mt) < low then low
        else MinTtl(res, mt)
  {}

  /** Whether a response gets a key, for which its question is read. */
  predicate Keyed(res: Msg, mt: Class) {
    !res.truncated && !mt.OtherError? && !mt.Meta? && !mt.Updating?
  }

  /** Whether a response to a request is cached. */
  predicate Caches(cfg: Config, req: Msg, res: Msg, mt: Class) {
    Keyed(res, mt) && Life(cfg, res, mt) > 0 && Match(req, res)
  }

  /** A cached response: the key, the message, its class, when it was stored and for how long. */
  datatype Entry = Entry(key: Key, res: Msg, mt: Class, at: int, life: int)

  function EntryOf(cfg: Config, req: Msg, res: Msg, mt: Class, at: int): (e: Entry) {
    Entry(Key(NameOf(req), QTypeOf(req), Do(res)), res, mt, at, Life(cfg, res, mt))
  }

  function Kept(e: Entry): (i: Item) {
    ItemOf(e.res, e.at, e.life)
  }

  // ----- runs -----

  /** The two stores, everything ever cached in order, and the time of the last operation. */
  datatype State = State(ncache: map<nat, Item>, pcache: map<nat, Item>, log: seq<Entry>, now: int)

  function Start(now: int): (s: State) {
    State(map[], map[], [], now)
  }

  /** A response passes through, classified at one moment and stored at another, and pushes
      out an item of a full shard; or a request comes in. */
  datatype Event =
    | Write(req: Msg, res: Msg, mt: Class, typed: int, at: int, evicted: Option<nat>)
    | Ask(req: Msg, at: int)

  /** The store a class of responses goes to. */
  function StoreOf(s: State, denial: bool): (m: map<nat, Item>) {
    if denial then s.ncache else s.pcache
  }

  function RoomOf(cfg: Config, denial: bool): (n: nat) {
    if denial then ShardRoom(cfg.ncap) else ShardRoom(cfg.pcap)
  }

  ghost predicate Enabled(cfg: Config, s: State, e: Event) {
    && s.now <= e.at
    && (e.Write? ==>
          && s.now <= e.typed <= e.at && Classified(e.res, e.typed, e.mt)
          && (Keyed(e.res, e.mt) ==> e.res.question != [])
          && (Caches(cfg, e.req, e.res, e.mt) ==>
                var entry := EntryOf(cfg, e.req, e.res, e.mt, e.at);
                Evicts(StoreOf(s, Denial(e.mt)), RoomOf(cfg, Denial(e.mt)), HashOf(cfg, entry.key), e.evicted)))
  }

  function Stored(cfg: Config, s: State, entry: Entry, evicted: Option<nat>): (s': State) {
    var m := OnAdd(StoreOf(s, Denial(entry.mt)), evicted, HashOf(cfg, entry.key), Kept(entry));
    if Denial(entry.mt) then State(m, s.pcache, s.log + [entry], entry.at)
    else State(s.ncache, m, s.log + [entry], entry.at)
  }

  function Step(cfg: Config, s: State, e: Event): (s': State) {
    if e.Write? && Caches(cfg, e.req, e.res, e.mt)
    then Stored(cfg, s, EntryOf(cfg, e.req, e.res, e.mt, e.at), e.evicted)
    else s.(now := e.at)
  }

  /** Cache.get: the denial if it is still good, else the positive response. */
  function Found(cfg: Config, s: State, req: Msg, now: int): (i: Option<Item>) {
    var h := HashOf(cfg, AskKey(req));
    if h in s.ncache && TtlAt(s.ncache[h], now) > 0 then Some(s.ncache[h])
    else if h in s.pcache && TtlAt(s.pcache[h], now) > 0 then Some(s.pcache[h])
    else None
  }

  // ----- invariant -----

  /** The last response of a kind that was cached under a hash. */
  function Latest(cfg: Config, log: seq<Entry>, h: nat, denial: bool): (i: Option<nat>)
    ensures i.Some? ==> i.value < |log| && IsFor(cfg, log[i.value], h, denial)
  {
    if log == [] then None
    else if IsFor(cfg, log[|log| - 1], h, denial) then Some(|log| - 1)
    else Latest(cfg, log[..|log| - 1], h, denial)
  }

  lemma {:induction false} LatestIsLast(cfg: Config, log: seq<Entry>, h: nat, denial: bool)
    ensures var i := Latest(cfg, log, h, denial);
            forall j :: (if i.Some? then i.value + 1 else 0) <= j < |log| ==> !IsFor(cfg, log[j], h, denial)
  {
    hide IsFor;
    if log != [] && !IsFor(cfg, log[|log| - 1], h, denial) {
      LatestIsLast(cfg, log[..|log| - 1], h, denial);
    }
  }

  predicate IsFor(cfg: Config, e: Entry, h: nat, denial: bool) {
    HashOf(cfg, e.key) == h && Denial(e.mt) == denial
  }

  /** What a store holds under a hash was made from the last response of its kind. */
  ghost predicate Holding(cfg: Config, s: State, denial: bool) {
    forall h :: h in StoreOf(s, denial) ==>
      var i := Latest(cfg, s.log, h, denial);
      i.Some? && StoreOf(s, denial)[h] == Kept(s.log[i.value])
  }

  /** A cached response was fit for it: a match for its key, of a class that is kept,
      stored before now for a time above zero. */
  ghost predicate EntryOk(cfg: Config, s: State, e: Entry) {
    && |e.res.question| == 1 && e.res.response && !e.res.truncated
    && e.key == Key(Names.LowerLabel(e.res.question[0].name), e.res.question[0].qtype, Do(e.res))
    && (exists typed :: typed <= e.at && Classified(e.res, typed, e.mt))
    && (e.mt.NoError? || e.mt.Delegation? || Denial(e.mt))
    && e.at <= s.now && e.life == Life(cfg, e.res, e.mt) > 0
  }

  ghost predicate LogOk(cfg: Config, s: State) {
    forall i :: 0 <= i < |s.log| ==> EntryOk(cfg, s, s.log[i])
  }

  ghost predicate Inv(cfg: Config, s: State) {
    && LogOk(cfg, s)
    && Holding(cfg, s, true) && Holding(cfg, s, false)
    && Bounded(s.ncache, RoomOf(cfg, true)) && Bounded(s.pcache, RoomOf(cfg, false))
  }

  lemma LatestAppend(cfg: Config, log: seq<Entry>, e: Entry, h: nat, denial: bool)
    ensures Latest(cfg, log + [e], h, denial) ==
            if IsFor(cfg, e, h, denial) then Some(|log|) else Latest(cfg, log, h, denial)
  {}

  lemma StepHolding(cfg: Config, s: State, entry: Entry, evicted: Option<nat>, denial: bool)
    requires Holding(cfg, s, denial)
    ensures Holding(cfg, Stored(cfg, s, entry, evicted), denial)
  {
    var s' := Stored(cfg, s, entry, evicted);
    forall h | h in StoreOf(s', denial)
      ensures var i := Latest(cfg, s'.log, h, denial);
              i.Some? && StoreOf(s', denial)[h] == Kept(s'.log[i.value])
    {
      LatestAppend(cfg, s.log, entry, h, denial);
      if !IsFor(cfg, entry, h, denial) {
        assert h in StoreOf(s, denial);
      }
    }
  }

  lemma StepLog(cfg: Config, s: State, e: Event)
    requires LogOk(cfg, s) && Enabled(cfg, s, e)
    ensures LogOk(cfg, Step(cfg, s, e))
  {}

  lemma StepBounds(cfg: Config, s: State, entry: Entry, evicted: Option<nat>)
    requires Inv(cfg, s)
    requires Evicts(StoreOf(s, Denial(entry.mt)), RoomOf(cfg, Denial(entry.mt)), HashOf(cfg, entry.key), evicted)
    ensures var s' := Stored(cfg, s, entry, evicted);
            Bounded(s'.ncache, RoomOf(cfg, true)) && Bounded(s'.pcache, RoomOf(cfg, false))
  {
    hide HashOf, LogOk, Holding, Bounded, Evicts, OnAdd, ItemOf;
    AddKeepsBound(StoreOf(s, Denial(entry.mt)), RoomOf(cfg, Denial(entry.mt)), evicted,
                  HashOf(cfg, entry.key), Kept(entry));
  }

  lemma StepInv(cfg: Config, s: State, e: Event)
    requires Inv(cfg, s) && Enabled(cfg, s, e)
    ensures Inv(cfg, Step(cfg, s, e))
  {
    StepLog(cfg, s, e);
    if e.Write? && Caches(cfg, e.req, e.res, e.mt) {
      var entry := EntryOf(cfg, e.req, e.res, e.mt, e.at);
      hide LogOk, Holding, Bounded, EntryOf, Evicts, Stored, Denial, RoomOf, Caches, HashOf, StoreOf, Classified;
      StepHolding(cfg, s, entry, e.evicted, true);
      StepHolding(cfg, s, entry, e.evicted, false);
      assert entry.mt == e.mt by { EntryClass(cfg, e.req, e.res, e.mt, e.at); }
      StepBounds(cfg, s, entry, e.evicted);
    } else {
      hide LogOk, Bounded, Latest, ItemOf, HashOf;
    }
  }

  lemma EntryClass(cfg: Config, req: Msg, res: Msg, mt: Class, at: int)
    ensures EntryOf(cfg, req, res, mt, at).mt == mt
  {}

  /** The state after a run; an event that is not enabled does not happen. */
  ghost function After(cfg: Config, start: int, evs: seq<Event>): (s: State)
    ensures Inv(cfg, s)
  {
    if evs == [] then
      assert forall i: nat :: KeysIn<Item>(map[], i) == {};
      Start(start)
    else
      var s := After(cfg, start, evs[..|evs| - 1]);
      if Enabled(cfg, s, evs[|evs| - 1]) then
        StepInv(cfg, s, evs[|evs| - 1]);
        Step(cfg, s, evs[|evs| - 1])
      else s
  }

  // ----- what a client gets -----

  /** No response of the run was cached under the hash of another question. */
  predicate NoCollision(cfg: Config, s: State, req: Msg) {
    forall i :: 0 <= i < |s.log| && HashOf(cfg, s.log[i].key) == HashOf(cfg, AskKey(req)) ==>
      s.log[i].key == AskKey(req)
  }

  /** A hit comes from the i-th cached response: one for the same lower-cased name, type and
      DO flag, the last one of its kind, and its clamped TTL has not elapsed. What is left of
      the TTL is the stored TTL less the whole seconds gone by, and not zero. */
  ghost predicate Source(cfg: Config, s: State, req: Msg, now: int, i: nat) {
    && i < |s.log| && EntryOk(cfg, s, s.log[i])
    && var e := s.log[i];
    && e.key == AskKey(req)
    && (forall j :: i < j < |s.log| ==> !(s.log[j].key == e.key && Denial(s.log[j].mt) == Denial(e.mt)))
    && Found(cfg, s, req, now) == Some(Kept(e))
    && 0 <= now - e.at < e.life
    && TtlAt(Kept(e), now) == e.life / SECOND - (now - e.at) / SECOND >= 1
  }

  lemma TtlOfKept(cfg: Config, s: State, e: Entry, now: int)
    requires ValidConfig(cfg) && EntryOk(cfg, s, e) && s.now <= now && TtlAt(Kept(e), now) > 0
    ensures 0 <= now - e.at < e.life
    ensures TtlAt(Kept(e), now) == e.life / SECOND - (now - e.at) / SECOND < 0x1_0000_0000
  {}

  lemma HitIsGood(cfg: Config, start: int, evs: seq<Event>, req: Msg, now: int) returns (i: nat)
    requires ValidConfig(cfg) && After(cfg, start, evs).now <= now
    requires NoCollision(cfg, After(cfg, start, evs), req)
    requires Found(cfg, After(cfg, start, evs), req, now).Some?
    ensures Source(cfg, After(cfg, start, evs), req, now, i)
    ensures var res := After(cfg, start, evs).log[i].res;
      && |res.question| == 1 && Do(res) == Do(req)
      && Names.LowerLabel(res.question[0].name) ==
           (if req.question == [] then "." else Names.LowerLabel(req.question[0].name))
      && res.question[0].qtype == if req.question == [] then 0 else req.question[0].qtype
  {
    hide After, EntryOk, Bounded, KeyBytes, ItemOf, HashOf;
    var s := After(cfg, start, evs);
    var h := HashOf(cfg, AskKey(req));
    var denial := h in s.ncache && TtlAt(s.ncache[h], now) > 0;
    assert h in StoreOf(s, denial);
    assert Holding(cfg, s, denial);
    i := Latest(cfg, s.log, h, denial).value;
    assert EntryOk(cfg, s, s.log[i]);
    LatestIsLast(cfg, s.log, h, denial);
    TtlOfKept(cfg, s, s.log[i], now);
    KeyIs(cfg, s, s.log[i]);
  }

  lemma KeyIs(cfg: Config, s: State, e: Entry)
    requires EntryOk(cfg, s, e)
    ensures |e.res.question| == 1
    ensures e.key == Key(Names.LowerLabel(e.res.question[0].name), e.res.question[0].qtype, Do(e.res))
  {}

  /** The reply to a hit answers the request's question with the code, the AD and RA bits and
      the sections of the cached response, without OPT records, and every record carries what
      is left of the TTL. */
  lemma HitReply(cfg: Config, start: int, evs: seq<Event>, req: Msg, now: int, i: nat)
    requires ValidConfig(cfg) && After(cfg, start, evs).now <= now
    requires Source(cfg, After(cfg, start, evs), req, now, i)
    ensures var e := After(cfg, start, evs).log[i];
      var m := Reply(Kept(e), req, now);
      var ttl := e.life / SECOND - (now - e.at) / SECOND;
      && 1 <= ttl <= Seconds(e.life)
      && m.response && m.opcode == req.opcode && m.question == req.question[..if req.question == [] then 0 else 1]
      && m.rcode == e.res.rcode && !m.authoritative && !m.truncated
      && m.authenticated == e.res.authenticated && m.recursion == e.res.recursion
      && m.answer == WithTtl(e.res.answer, ttl) && m.ns == WithTtl(e.res.ns, ttl)
      && m.extra == WithTtl(NoOpt(e.res.extra), ttl)
  {
    hide After, EntryOk, Found;
    var s := After(cfg, start, evs);
    TtlOfKept(cfg, s, s.log[i], now);
  }

  /** A response is cached exactly when it is a complete answer of a class that is kept, to the
      question that was asked in any case of letters, with time to live; and then under the
      lower-cased name, the type and the DO flag of the response. */
  lemma CachedExactly(cfg: Config, s: State, e: Event)
    requires e.Write? && Enabled(cfg, s, e)
    ensures var s' := Step(cfg, s, e);
      && (s'.log != s.log <==>
            && !e.res.truncated && e.mt in {NoError, Delegation, NameError, NoData}
            && e.res.response && |e.res.question| == 1 && Life(cfg, e.res, e.mt) > 0
            && Names.LowerLabel(e.res.question[0].name) ==
                 (if e.req.question == [] then "." else Names.LowerLabel(e.req.question[0].name))
            && e.res.question[0].qtype == if e.req.question == [] then 0 else e.req.question[0].qtype)
      && (s'.log != s.log ==>
            && |s'.log| == |s.log| + 1
            && s'.log[|s.log|].key == Key(Names.LowerLabel(e.res.question[0].name), e.res.question[0].qtype, Do(e.res))
            && s'.log[|s.log|].res == e.res && s'.log[|s.log|].at == e.at)
      && (s'.log == s.log ==> s'.ncache == s.ncache && s'.pcache == s.pcache)
  {
    hide OnAdd, Life, Evicts, Classified, HashOf, ItemOf, Do;
  }

  /** A response that was just cached is what the same question gets until its TTL elapses,
      except that a positive response yields to a denial exactly while that is still good. */
  lemma {:induction false} CachedIsServed(cfg: Config, s: State, e: Event, req: Msg, now: int)
    requires ValidConfig(cfg) && e.Write? && Enabled(cfg, s, e) && Caches(cfg, e.req, e.res, e.mt)
    requires var entry := EntryOf(cfg, e.req, e.res, e.mt, e.at);
             AskKey(req) == entry.key && 0 <= now - e.at < Seconds(entry.life) * SECOND
    ensures var h := HashOf(cfg, AskKey(req));
      Found(cfg, Step(cfg, s, e), req, now) ==
        if !Denial(e.mt) && h in s.ncache && TtlAt(s.ncache[h], now) > 0 then Some(s.ncache[h])
        else Some(Kept(EntryOf(cfg, e.req, e.res, e.mt, e.at)))
  {}

  lemma AfterOne(cfg: Config, start: int, evs: seq<Event>, e: Event)
    ensures var s := After(cfg, start, evs);
            After(cfg, start, evs + [e]) == if Enabled(cfg, s, e) then Step(cfg, s, e) else s
  {
    assert (evs + [e])[..|evs|] == evs;
  }

  /** The default bounds on TTLs, and the default capacity. */
  function Defaults(fnv: seq<int> -> nat): (cfg: Config)
    ensures ValidConfig(cfg)
  {
    Config(5 * SECOND, 1800 * SECOND, 5 * SECOND, 3600 * SECOND, 10000, 10000, fnv)
  }

  const ASKED := Msg(Query, false, RCODE_SUCCESS, false, false, false, false, [Question("a.", 1)], [], [], [])
  const ANSWERED := ASKED.(response := true, answer := [Record(Other(1), 60, 7, 0, 0)])
  const DENIED := ASKED.(response := true, rcode := RCODE_NAME_ERROR, ns := [Record(SOA, 60, 0, 0, 0)])

  lemma {:induction false} WitnessTtls(cfg: Config)
    requires cfg == Defaults(cfg.fnv)
    ensures Classified(DENIED, 0, NameError) && Classified(ANSWERED, SECOND, NoError)
    ensures Life(cfg, DENIED, NameError) == Life(cfg, ANSWERED, NoError) == 60 * SECOND
    ensures !Do(ASKED) && !Do(DENIED) && !Do(ANSWERED)
  {
    assert HasType(DENIED.ns, SOA) by { assert DENIED.ns[0].rtype == SOA; }
    var r := Record(SOA, 60, 0, 0, 0);
    var q := Record(Other(1), 60, 7, 0, 0);
    assert NoOpt([]) == [];
    assert [] + [r] + [] == [r] && [q] + [] + [] == [q];
    assert Lowest([r]) == 60 && Lowest([q]) == 60;
  }

  const DENIAL := Write(ASKED, DENIED, NameError, 0, 0, None)
  const POSITIVE := Write(ASKED, ANSWERED, NoError, SECOND, SECOND, None)
  const QUESTION := Ask(ASKED, 2 * SECOND)

  lemma {:induction false} WitnessSteps(cfg: Config, s1: State, s2: State)
    requires cfg == Defaults(cfg.fnv) && s1 == Step(cfg, Start(0), DENIAL) && s2 == Step(cfg, s1, POSITIVE)
    ensures Enabled(cfg, Start(0), DENIAL) && Enabled(cfg, s1, POSITIVE) && Enabled(cfg, s2, QUESTION)
    ensures |s2.log| == 2 && s2.log[0].res == DENIED && s2.log[1].res == ANSWERED
    ensures s2.log[0].key == s2.log[1].key == AskKey(ASKED) && HashOf(cfg, AskKey(ASKED)) in s2.pcache
    ensures Found(cfg, s2, ASKED, 2 * SECOND) == Some(Kept(s2.log[0]))
  {
    WitnessTtls(cfg);
    hide Life, Classified, Do, Names.LowerLabel, NoOpt, KeyBytes;
    assert forall i: nat :: KeysIn<Item>(map[], i) == {};
    assert TtlAt(s1.ncache[HashOf(cfg, AskKey(ASKED))], 2 * SECOND) == 58;
  }

  /** A name is denied, then answered a second later, both for a minute. A second after that the
      question still gets the denial, although the answer was cached. */
  lemma DenialHidesAnswer(fnv: seq<int> -> nat)
    ensures var cfg := Defaults(fnv);
      var s := After(cfg, 0, [DENIAL, POSITIVE, QUESTION]);
      && |s.log| == 2 && s.log[0].res == DENIED && s.log[1].res == ANSWERED
      && s.log[0].key == s.log[1].key == AskKey(ASKED)
      && HashOf(cfg, AskKey(ASKED)) in s.pcache
      && s.now == 2 * SECOND && Found(cfg, s, ASKED, s.now) == Some(Kept(s.log[0]))
  {
    var cfg := Defaults(fnv);
    var s1 := Step(cfg, Start(0), DENIAL);
    var s2 := Step(cfg, s1, POSITIVE);
    assert After(cfg, 0, []) == Start(0);
    assert Step(cfg, s2, QUESTION) == s2.(now := 2 * SECOND);
    hide After, Step, Enabled, HashOf, Kept, AskKey;
    WitnessSteps(cfg, s1, s2);
    AfterOne(cfg, 0, [], DENIAL);
    assert [] + [DENIAL] == [DENIAL];
    AfterOne(cfg, 0, [DENIAL], POSITIVE);
    assert [DENIAL] + [POSITIVE] == [DENIAL, POSITIVE];
    AfterOne(cfg, 0, [DENIAL, POSITIVE], QUESTION);
    assert [DENIAL, POSITIVE] + [QUESTION] == [DENIAL, POSITIVE, QUESTION];
  }

  /** Neither store is ever over 256 shards of the configured room. */
  lemma StoresAreBounded(cfg: Config, start: int, evs: seq<Event>)
    ensures |After(cfg, start, evs).ncache| <= 256 * (if cfg.ncap / 256 < 4 then 4 else cfg.ncap / 256)
    ensures |After(cfg, start, evs).pcache| <= 256 * (if cfg.pcap / 256 < 4 then 4 else cfg.pcap / 256)
  {
    hide After, Bounded;
    var s := After(cfg, start, evs);
    StoreBound(s.ncache, ShardRoom(cfg.ncap));
    StoreBound(s.pcache, ShardRoom(cfg.pcap));
  }

  // ----- in memory -----

  /** The additional section with the TTL of everything but OPT records overwritten. */
  function CapExtra(rs: seq<Record>, ttl: nat): (s: seq<Record>)
    ensures |s| == |rs|
    ensures forall j :: 0 <= j < |rs| ==> s[j] == if rs[j].rtype == OPT then rs[j] else rs[j].(ttl := ttl)
  {
    seq(|rs|, j requires 0 <= j < |rs| => if rs[j].rtype == OPT then rs[j] else rs[j].(ttl := ttl))
  }

  function Capped(res: Msg, ttl: nat): (m: Msg) {
    res.(answer := WithTtl(res.answer, ttl), ns := WithTtl(res.ns, ttl), extra := CapExtra(res.extra, ttl))
  }

  method CapTtls(res: Msg, ttl: nat) returns (m: Msg)
    ensures m == Capped(res, ttl)
  {
    var answer := Stamp(res.answer, ttl);
    var ns := Stamp(res.ns, ttl);
    var extra := res.extra;
    for i := 0 to |res.extra|
      invariant |extra| == |res.extra|
      invariant forall j :: 0 <= j < i ==> extra[j] == CapExtra(res.extra, ttl)[j]
      invariant forall j :: i <= j < |res.extra| ==> extra[j] == res.extra[j]
    {
      if extra[i].rtype != OPT {
        extra := extra[i := extra[i].(ttl := ttl)];
      }
    }
    assert extra == CapExtra(res.extra, ttl);
    m := res.(answer := answer, ns := ns, extra := extra);
  }

  class Plugin {
    const cfg: Config
    const ncache: Cache<Item>
    const pcache: Cache<Item>
    ghost var log: seq<Entry>
    ghost var now: int

    ghost function Value(): (s: State)
      reads this, ncache, pcache
    {
      State(ncache.contents, pcache.contents, log, now)
    }

    ghost predicate Valid()
      reads this, ncache, ncache.shards, pcache, pcache.shards
    {
      StoresValid() && Inv(cfg, Value())
    }

    ghost predicate StoresValid()
      reads this, ncache, ncache.shards, pcache, pcache.shards
    {
      && ncache.Valid() && pcache.Valid()
      && ncache.room == RoomOf(cfg, true) && pcache.room == RoomOf(cfg, false)
      && ncache != pcache && (forall s :: s in ncache.shards ==> s !in pcache.shards)
    }

    constructor (cfg: Config, ghost now: int)
      ensures Valid() && this.cfg == cfg && Value() == Start(now)
      ensures fresh(ncache) && fresh(pcache)
    {
      var n := new Cache<Item>(cfg.ncap);
      var p := new Cache<Item>(cfg.pcap);
      this.cfg := cfg;
      ncache := n;
      pcache := p;
      log := [];
      this.now := now;
    }

    method AddDenial(key: nat, i: Item, ghost entry: Entry) returns (ghost evicted: Option<nat>)
      requires StoresValid() && Denial(entry.mt) && key == HashOf(cfg, entry.key) && i == Kept(entry)
      modifies this, ncache, ncache.shards
      ensures StoresValid() && Value() == Stored(cfg, old(Value()), entry, evicted)
      ensures Evicts(old(ncache.contents), RoomOf(cfg, true), key, evicted)
    {
      hide Evicts, OnAdd, HashOf, Kept;
      assert ncache.shards[key % SHARDS] in ncache.shards;
      evicted := ncache.Add(key, i);
      assert pcache.Valid();
      log, now := log + [entry], entry.at;
    }

    method AddPositive(key: nat, i: Item, ghost entry: Entry) returns (ghost evicted: Option<nat>)
      requires StoresValid() && !Denial(entry.mt) && key == HashOf(cfg, entry.key) && i == Kept(entry)
      modifies this, pcache, pcache.shards
      ensures StoresValid() && Value() == Stored(cfg, old(Value()), entry, evicted)
      ensures Evicts(old(pcache.contents), RoomOf(cfg, false), key, evicted)
    {
      hide Evicts, OnAdd, HashOf, Kept;
      assert pcache.shards[key % SHARDS] in pcache.shards;
      evicted := pcache.Add(key, i);
      assert ncache.Valid();
      log, now := log + [entry], entry.at;
    }

    /** Adds an item to the store for its class. */
    method Set(req: Msg, res: Msg, mt: Class, ghost typed: int, at: int, key: nat, duration: int)
      returns (ghost evicted: Option<nat>)
      requires Valid() && Caches(cfg, req, res, mt) && duration == Life(cfg, res, mt)
      requires key == HashOf(cfg, EntryOf(cfg, req, res, mt, at).key)
      requires now <= typed <= at && Classified(res, typed, mt)
      modifies this, ncache, ncache.shards, pcache, pcache.shards
      ensures Valid()
      ensures var e := Write(req, res, mt, typed, at, evicted);
              Enabled(cfg, old(Value()), e) && Value() == Step(cfg, old(Value()), e)
    {
      ghost var entry := EntryOf(cfg, req, res, mt, at);
      assert !mt.OtherError? && !mt.Meta? && !mt.Updating?;
      var i := NewItem(res, at, duration);
      assert i == Kept(entry);
      hide StoresValid, Inv, Classified, Life, Caches, Kept, HashOf, Evicts, Stored, EntryOf;
      assert entry.mt == mt by { EntryClass(cfg, req, res, mt, at); }
      match mt {
        case NoError | Delegation =>
          evicted := AddPositive(key, i, entry);
        case NameError | NoData =>
          evicted := AddDenial(key, i, entry);
      }
      StepInv(cfg, old(Value()), Write(req, res, mt, typed, at, evicted));
    }

    /** ResponseWriter.WriteMsg: the response is cached if it may be, and goes on to the client
        with its TTLs capped, unless it was only prefetched. */
    method WriteMsg(req: Msg, res: Msg, typed: int, at: int, prefetch: bool)
      returns (sent: Option<Msg>, ghost e: Event)
      requires Valid() && now <= typed <= at
      requires forall mt :: Classified(res, typed, mt) && Keyed(res, mt) ==> res.question != []
      modifies this, ncache, ncache.shards, pcache, pcache.shards
      ensures Valid()
      ensures e.Write? && e.req == req && e.res == res && e.typed == typed && e.at == at
      ensures Enabled(cfg, old(Value()), e) && Value() == Step(cfg, old(Value()), e)
      ensures sent == if prefetch then None else Some(Capped(res, U32(Seconds(Life(cfg, res, e.mt)))))
    {
      hide Inv, Classified, MinTtl, ItemOf, OnAdd, Evicts, Bounded, Names.LowerLabel, KeyBytes, NoOpt;
      var mt, do := Typify(res, typed);
      var hasKey := !res.truncated && !mt.OtherError? && !mt.Meta? && !mt.Updating?;
      var key := if hasKey then HashOf(cfg, Key(NameOf(req), res.question[0].qtype, do)) else 0;
      var msgTTL := MinimalTTL(res, mt);
      var duration;
      if mt.NameError? || mt.NoData? {
        duration := ComputeTTL(msgTTL, cfg.minnttl, cfg.nttl);
      } else {
        duration := ComputeTTL(msgTTL, cfg.minpttl, cfg.pttl);
      }
      ghost var evicted := None;
      if hasKey && duration > 0 && Match(req, res) {
        evicted := Set(req, res, mt, typed, at, key, duration);
      } else {
        now := at;
        StepInv(cfg, old(Value()), Write(req, res, mt, typed, at, None));
      }
      e := Write(req, res, mt, typed, at, evicted);
      sent := None;
      if !prefetch {
        var m := CapTtls(res, U32(Seconds(duration)));
        sent := Some(m);
      }
    }

    /** Cache.get */
    method Get(req: Msg, at: int) returns (i: Option<Item>)
      requires Valid()
      ensures i == Found(cfg, Value(), req, at)
    {
      var k := HashOf(cfg, AskKey(req));
      var n := ncache.Get(k);
      if n.Some? && TtlAt(n.value, at) > 0 {
        return n;
      }
      var p := pcache.Get(k);
      if p.Some? && TtlAt(p.value, at) > 0 {
        return p;
      }
      return None;
    }

    /** The hit path of ServeDNS; without a hit the request goes on to the next plugin. */
    method ServeDNS(req: Msg, at: int) returns (reply: Option<Msg>)
      requires Valid() && now <= at
      modifies this`now
      ensures Valid() && Enabled(cfg, old(Value()), Ask(req, at)) && Value() == Step(cfg, old(Value()), Ask(req, at))
      ensures var i := Found(cfg, Value(), req, at);
              reply == if i.Some? then Some(Reply(i.value, req, at)) else None
    {
      var i := Get(req, at);
      reply := None;
      if i.Some? {
        var m := ToMsg(i.value, req, at);
        reply := Some(m);
      }
      StepInv(cfg, Value(), Ask(req, at));
      now := at;
    }
  }
}
