/** What the response cache makes of one message: its class (plugin/pkg/response/typify.go),
    its lowest TTL (plugin/pkg/dnsutil/ttl.go), the key it goes under and the clamped TTL
    (plugin/cache/cache.go), and the item kept for it (plugin/cache/item.go).

    Times and durations are nanoseconds. */
module CacheItem {
  import opened Wrappers

  const SECOND := 1_000_000_000
  const MINIMAL_DEFAULT_TTL := 5 * SECOND
  const MAXIMUM_DEFAULT_TTL := 3600 * SECOND

  /** Duration.Seconds, cut to a whole number toward zero. */
  function Seconds(d: int): (s: int)
    ensures d >= 0 ==> s * SECOND <= d < (s + 1) * SECOND
    ensures d <= 0 ==> (s - 1) * SECOND < d <= s * SECOND
  {
    if d >= 0 then d / SECOND else -(-d / SECOND)
  }

  /** Conversion to uint32. */
  function U32(x: int): (u: nat)
    ensures 0 <= x < 0x1_0000_0000 ==> u == x
  {
    x % 0x1_0000_0000
  }

  // ----- messages -----

  datatype RType = SOA | NS | RRSIG | OPT | Other(code: nat)

  /** A record; notBefore and notAfter are the validity period of an RRSIG. */
  datatype Record = Record(rtype: RType, ttl: nat, data: nat, notBefore: int, notAfter: int)

  datatype Question = Question(name: string, qtype: nat)

  datatype Opcode = Query | Notify | Update | OtherOpcode

  datatype Msg = Msg(opcode: Opcode, response: bool, rcode: nat, truncated: bool,
                     authoritative: bool, authenticated: bool, recursion: bool,
                     question: seq<Question>,
                     answer: seq<Record>, ns: seq<Record>, extra: seq<Record>)

  const RCODE_SUCCESS := 0
  const RCODE_NAME_ERROR := 3
  const TYPE_IXFR := 251
  const TYPE_AXFR := 252

  /** dns.Msg.IsEdns0: the last OPT record. */
  function Opt(extra: seq<Record>): (o: Option<Record>)
    ensures o.Some? ==> o.value in extra && o.value.rtype == OPT
    ensures o.None? ==> forall r :: r in extra ==> r.rtype != OPT
  {
    if extra == [] then None
    else if extra[|extra| - 1].rtype == OPT then Some(extra[|extra| - 1])
    else Opt(extra[..|extra| - 1])
  }

  /** The DO bit of a message: bit 15 of its OPT record's TTL field. */
  function Do(m: Msg): (b: bool) {
    var o := Opt(m.extra);
    o.Some? && o.value.ttl / 0x8000 % 2 == 1
  }

  // ----- response.Typify -----

  datatype Class = NoError | NameError | NoData | Delegation | Meta | Updating | OtherError

  predicate Expired(r: Record, now: int) {
    r.rtype == RRSIG && !(r.notBefore <= now <= r.notAfter)
  }

  predicate AnyExpired(rs: seq<Record>, now: int) {
    exists i :: 0 <= i < |rs| && Expired(rs[i], now)
  }

  predicate HasType(rs: seq<Record>, t: RType) {
    exists i :: 0 <= i < |rs| && rs[i].rtype == t
  }

  predicate IsTransfer(m: Msg) {
    m.question != [] && (m.question[0].qtype == TYPE_AXFR || m.question[0].qtype == TYPE_IXFR)
  }

  /** How a message is classified, one class at a time. */
  predicate Classified(m: Msg, now: int, mt: Class) {
    var soa, ns := HasType(m.ns, SOA), HasType(m.ns, NS);
    var meta := m.opcode.Notify? || IsTransfer(m);
    var expired := Do(m) && (AnyExpired(m.answer, now) || AnyExpired(m.ns, now) || AnyExpired(m.extra, now));
    var plain := !m.opcode.Update? && !meta && !expired;
    var ok := m.rcode == RCODE_SUCCESS;
    match mt
    case Updating => m.opcode.Update?
    case Meta => !m.opcode.Update? && meta
    case NoData => plain && ok && m.answer == [] && soa
    case NameError => plain && m.rcode == RCODE_NAME_ERROR && soa
    case Delegation => plain && ok && m.answer == [] && !soa && ns
    case NoError => plain && ok && (m.answer != [] || (!soa && !ns))
    case OtherError =>
      || (!m.opcode.Update? && !meta && expired)
      || (plain && !ok && !(m.rcode == RCODE_NAME_ERROR && soa))
  }

  method ExpiredRRSIG(rs: seq<Record>, now: int) returns (b: bool)
    ensures b == AnyExpired(rs, now)
  {
    for i := 0 to |rs|
      invariant forall j :: 0 <= j < i ==> !Expired(rs[j], now)
    {
      if rs[i].rtype != RRSIG {
        continue;
      }
      if !(rs[i].notBefore <= now <= rs[i].notAfter) {
        return true;
      }
    }
    return false;
  }

  method Typify(m: Msg, now: int) returns (mt: Class, do: bool)
    ensures do == Do(m) && Classified(m, now, mt)
  {
    do := Do(m);
    if m.opcode.Update? {
      return Updating, do;
    }
    if m.opcode.Notify? {
      return Meta, do;
    }
    if |m.question| > 0 {
      if m.question[0].qtype == TYPE_AXFR || m.question[0].qtype == TYPE_IXFR {
        return Meta, do;
      }
    }
    if do {
      var a := ExpiredRRSIG(m.answer, now);
      var n := ExpiredRRSIG(m.ns, now);
      var e := ExpiredRRSIG(m.extra, now);
      if a || n || e {
        return OtherError, do;
      }
    }
    if |m.answer| > 0 && m.rcode == RCODE_SUCCESS {
      return NoError, do;
    }
    var soa, ns := false, 0;
    for i := 0 to |m.ns|
      invariant soa <==> HasType(m.ns[..i], SOA)
      invariant 0 <= ns && (ns > 0 <==> HasType(m.ns[..i], NS))
    {
      assert m.ns[..i + 1] == m.ns[..i] + [m.ns[i]];
      AppendType(m.ns[..i], m.ns[i], SOA);
      AppendType(m.ns[..i], m.ns[i], NS);
      if m.ns[i].rtype == SOA {
        soa := true;
        continue;
      }
      if m.ns[i].rtype == NS {
        ns := ns + 1;
      }
    }
    assert m.ns[..|m.ns|] == m.ns;
    if soa && m.rcode == RCODE_SUCCESS {
      mt := NoData;
    } else if soa && m.rcode == RCODE_NAME_ERROR {
      mt := NameError;
    } else if ns > 0 && m.rcode == RCODE_SUCCESS {
      mt := Delegation;
    } else if m.rcode == RCODE_SUCCESS {
      mt := NoError;
    } else {
      mt := OtherError;
    }
  }

  lemma AppendType(rs: seq<Record>, r: Record, t: RType)
    ensures HasType(rs + [r], t) <==> HasType(rs, t) || r.rtype == t
  {
    if HasType(rs, t) {
      var i :| 0 <= i < |rs| && rs[i].rtype == t;
      assert (rs + [r])[i].rtype == t;
    }
    if r.rtype == t {
      assert (rs + [r])[|rs|].rtype == t;
    }
  }

  /** The classes exclude one another and leave nothing out. */
  lemma ClassUnique(m: Msg, now: int, a: Class, b: Class)
    requires Classified(m, now, a) && Classified(m, now, b)
    ensures a == b
  {}

  // ----- dnsutil.MinimalTTL -----

  /** The records of a section without its OPT records. */
  function NoOpt(rs: seq<Record>): (s: seq<Record>)
    ensures |s| <= |rs|
  {
    if rs == [] then []
    else NoOpt(rs[..|rs| - 1]) + if rs[|rs| - 1].rtype == OPT then [] else [rs[|rs| - 1]]
  }

  /** The lowest TTL, in seconds, of a list of records, and no more than an hour. */
  function Lowest(rs: seq<Record>): (n: nat)
    ensures n <= 3600
  {
    if rs == [] then 3600
    else
      var rest := Lowest(rs[..|rs| - 1]);
      if rs[|rs| - 1].ttl < rest then rs[|rs| - 1].ttl else rest
  }

  lemma {:induction false} NoOptExactly(rs: seq<Record>, r: Record)
    ensures r in NoOpt(rs) <==> r in rs && r.rtype != OPT
  {
    if rs != [] {
      var last := |rs| - 1;
      NoOptExactly(rs[..last], r);
      assert rs == rs[..last] + [rs[last]];
    }
  }

  lemma {:induction false} LowestIsMinimum(rs: seq<Record>)
    ensures forall r :: r in rs ==> Lowest(rs) <= r.ttl
    ensures Lowest(rs) == 3600 || exists r :: r in rs && Lowest(rs) == r.ttl
  {
    if rs != [] {
      var last := |rs| - 1;
      LowestIsMinimum(rs[..last]);
      assert rs == rs[..last] + [rs[last]];
    }
  }

  /** Whether the records of a message are looked at. */
  predicate Scanned(m: Msg, mt: Class) {
    && (mt.NoError? || mt.NameError? || mt.NoData?)
    && !(m.answer == [] && m.ns == [] && (m.extra == [] || (|m.extra| == 1 && m.extra[0].rtype == OPT)))
  }

  function MinTtl(m: Msg, mt: Class): (d: int)
    ensures 0 <= d <= MAXIMUM_DEFAULT_TTL
  {
    if Scanned(m, mt) then Lowest(m.answer + m.ns + NoOpt(m.extra)) * SECOND else MINIMAL_DEFAULT_TTL
  }

  /** The lowest TTL is what every record of the answer and authority sections, and every
      record of the additional section that is not an OPT record, allows; it is the TTL of
      one of them, or an hour. */
  lemma MinTtlExactly(m: Msg, mt: Class)
    requires Scanned(m, mt)
    ensures forall r :: Counts(m, r) ==> MinTtl(m, mt) <= r.ttl * SECOND
    ensures MinTtl(m, mt) == MAXIMUM_DEFAULT_TTL
            || exists r :: Counts(m, r) && MinTtl(m, mt) == r.ttl * SECOND
  {
    LowestIsMinimum(m.answer + m.ns + NoOpt(m.extra));
    forall r ensures Counts(m, r) <==> r in m.answer + m.ns + NoOpt(m.extra) {
      NoOptExactly(m.extra, r);
    }
  }

  predicate Counts(m: Msg, r: Record) {
    r in m.answer || r in m.ns || (r in m.extra && r.rtype != OPT)
  }

  lemma WholeSeconds(n: nat)
    requires n <= 3600
    ensures U32(Seconds(n * SECOND)) == n
  {}

  method LowerTtl(rs: seq<Record>, ghost before: seq<Record>, start: int) returns (minTTL: int)
    requires start == Lowest(before) * SECOND
    ensures minTTL == Lowest(before + rs) * SECOND
  {
    minTTL := start;
    assert before + rs[..0] == before;
    for i := 0 to |rs|
      invariant minTTL == Lowest(before + rs[..i]) * SECOND
    {
      hide Lowest, U32, Seconds;
      assert rs[..i + 1] == rs[..i] + [rs[i]];
      LowestLast(before, rs[..i], rs[i]);
      WholeSeconds(Lowest(before + rs[..i]));
      if rs[i].ttl < U32(Seconds(minTTL)) {
        minTTL := rs[i].ttl * SECOND;
      }
    }
    assert before + rs[..|rs|] == before + rs;
  }

  /** The same over the additional section: OPT records keep flags in the TTL field. */
  method LowerTtlExtra(rs: seq<Record>, ghost before: seq<Record>, start: int) returns (minTTL: int)
    requires start == Lowest(before) * SECOND
    ensures minTTL == Lowest(before + NoOpt(rs)) * SECOND
  {
    minTTL := start;
    assert before + NoOpt(rs[..0]) == before;
    for i := 0 to |rs|
      invariant minTTL == Lowest(before + NoOpt(rs[..i])) * SECOND
    {
      hide NoOpt, Lowest, U32, Seconds;
      NoOptMore(rs, i);
      if rs[i].rtype == OPT {
        continue;
      }
      LowestLast(before, NoOpt(rs[..i]), rs[i]);
      WholeSeconds(Lowest(before + NoOpt(rs[..i])));
      if rs[i].ttl < U32(Seconds(minTTL)) {
        minTTL := rs[i].ttl * SECOND;
      }
    }
    assert rs[..|rs|] == rs;
  }

  lemma NoOptMore(rs: seq<Record>, i: nat)
    requires i < |rs|
    ensures NoOpt(rs[..i + 1]) == if rs[i].rtype == OPT then NoOpt(rs[..i]) else NoOpt(rs[..i]) + [rs[i]]
  {
    var seen := rs[..i + 1];
    assert seen[..|seen| - 1] == rs[..i] && seen[|seen| - 1] == rs[i];
  }

  lemma LowestLast(before: seq<Record>, rs: seq<Record>, r: Record)
    ensures Lowest(before + (rs + [r])) ==
            if r.ttl < Lowest(before + rs) then r.ttl else Lowest(before + rs)
  {
    var s := before + (rs + [r]);
    assert s[..|s| - 1] == before + rs && s[|s| - 1] == r;
  }

  method MinimalTTL(m: Msg, mt: Class) returns (d: int)
    ensures d == MinTtl(m, mt)
  {
    if !mt.NoError? && !mt.NameError? && !mt.NoData? {
      return MINIMAL_DEFAULT_TTL;
    }
    if |m.answer| + |m.ns| == 0 && (|m.extra| == 0 || (|m.extra| == 1 && m.extra[0].rtype == OPT)) {
      return MINIMAL_DEFAULT_TTL;
    }
    d := LowerTtl(m.answer, [], MAXIMUM_DEFAULT_TTL);
    assert [] + m.answer == m.answer;
    d := LowerTtl(m.ns, m.answer, d);
    d := LowerTtlExtra(m.extra, m.answer + m.ns, d);
  }

  function ComputeTTL(msgTTL: int, minTTL: int, maxTTL: int): (d: int)
    ensures d <= maxTTL && (minTTL <= maxTTL ==> minTTL <= d)
    ensures minTTL <= msgTTL <= maxTTL ==> d == msgTTL
    ensures msgTTL < minTTL <= maxTTL ==> d == minTTL
    ensures msgTTL > maxTTL || minTTL > maxTTL ==> d == maxTTL
  {
    var ttl := if msgTTL < minTTL then minTTL else msgTTL;
    if ttl > maxTTL then maxTTL else ttl
  }

  // ----- items -----

  datatype Item = Item(rcode: nat, authenticated: bool, recursion: bool,
                       answer: seq<Record>, ns: seq<Record>, extra: seq<Record>,
                       origTTL: nat, stored: int)

  function ItemOf(m: Msg, now: int, d: int): (i: Item) {
    Item(m.rcode, m.authenticated, m.recursion, m.answer, m.ns, NoOpt(m.extra), U32(Seconds(d)), now)
  }

  method NewItem(m: Msg, now: int, d: int) returns (i: Item)
    ensures i == ItemOf(m, now, d)
  {
    var extra: seq<Record> := [];
    for j := 0 to |m.extra|
      invariant extra == NoOpt(m.extra[..j])
    {
      hide NoOpt;
      NoOptMore(m.extra, j);
      if m.extra[j].rtype == OPT {
        continue;
      }
      extra := extra + [m.extra[j]];
    }
    assert m.extra[..|m.extra|] == m.extra;
    i := Item(m.rcode, m.authenticated, m.recursion, m.answer, m.ns, extra, U32(Seconds(d)), now);
  }

  /** What is left of an item's TTL, in seconds. */
  function TtlAt(i: Item, now: int): (ttl: int) {
    i.origTTL - Seconds(now - i.stored)
  }

  /** The same records with another TTL. */
  function WithTtl(rs: seq<Record>, ttl: nat): (s: seq<Record>)
    ensures |s| == |rs| && forall j :: 0 <= j < |rs| ==> s[j] == rs[j].(ttl := ttl)
  {
    seq(|rs|, j requires 0 <= j < |rs| => rs[j].(ttl := ttl))
  }

  method Stamp(rs: seq<Record>, ttl: nat) returns (s: seq<Record>)
    ensures s == WithTtl(rs, ttl)
  {
    s := [];
    for j := 0 to |rs|
      invariant |s| == j && forall k :: 0 <= k < j ==> s[k] == rs[k].(ttl := ttl)
    {
      s := s + [rs[j].(ttl := ttl)];
    }
  }

  /** item.toMsg: the reply made from an item. */
  function Reply(i: Item, req: Msg, now: int): (m: Msg) {
    var ttl := U32(TtlAt(i, now));
    Msg(req.opcode, true, i.rcode, false, false, i.authenticated, i.recursion,
        if req.question == [] then [] else [req.question[0]],
        WithTtl(i.answer, ttl), WithTtl(i.ns, ttl), WithTtl(i.extra, ttl))
  }

  method ToMsg(i: Item, req: Msg, now: int) returns (m: Msg)
    ensures m == Reply(i, req, now)
  {
    var ttl := U32(TtlAt(i, now));
    var answer := Stamp(i.answer, ttl);
    var ns := Stamp(i.ns, ttl);
    var extra := Stamp(i.extra, ttl);
    var question := if |req.question| > 0 then [req.question[0]] else [];
    m := Msg(req.opcode, true, i.rcode, false, false, i.authenticated, i.recursion,
             question, answer, ns, extra);
  }

  /** An item shares its records with the message it was made from, whose TTLs are then
      overwritten; no reply made from the item shows it. */
  lemma SharingIsInvisible(i: Item, ttl: nat, req: Msg, now: int)
    ensures var shared := i.(answer := WithTtl(i.answer, ttl), ns := WithTtl(i.ns, ttl), extra := WithTtl(i.extra, ttl));
            Reply(shared, req, now) == Reply(i, req, now)
  {}

  // ----- keys -----

  /** What a cached response is found by. */
  datatype Key = Key(name: string, qtype: nat, do: bool)

  /** The bytes that are hashed: the DO flag as a digit, the type, the name. */
  function KeyBytes(k: Key): (b: seq<int>) {
    [if k.do then '1' as int else '0' as int, k.qtype / 256 % 256, k.qtype % 256]
    + seq(|k.name|, i requires 0 <= i < |k.name| => k.name[i] as int)
  }

  /** Different keys are hashed from different bytes. */
  lemma {:induction false} KeyBytesInjective(a: Key, b: Key)
    requires a.qtype < 65536 && b.qtype < 65536 && KeyBytes(a) == KeyBytes(b)
    ensures a == b
  {
    assert KeyBytes(a)[0] == KeyBytes(b)[0];
    assert KeyBytes(a)[1] == KeyBytes(b)[1] && KeyBytes(a)[2] == KeyBytes(b)[2];
    assert |a.name| == |b.name|;
    forall i | 0 <= i < |a.name| ensures a.name[i] == b.name[i] {
      assert KeyBytes(a)[i + 3] == KeyBytes(b)[i + 3];
    }
  }
}
