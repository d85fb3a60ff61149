/** Fitting a reply into the client's buffer (Size, SizeAndDo and Scrub of
    request/request.go). */
module Scrub {
  import opened Wrappers

  /** A record; all that matters here is whether it is an OPT record. */
  datatype Record = Record(isOpt: bool, id: nat)

  /** The parts of a reply Scrub works on; header, question and authority stay. */
  datatype Reply = Reply(answer: seq<Record>, extra: seq<Record>, compress: bool, truncated: bool)

  datatype Proto = Udp | Tcp

  /** The request: its transport and, with EDNS0, its OPT record and advertised size. */
  datatype Request = Request(proto: Proto, opt: Option<Record>, udpSize: nat)

  const MIN_MSG_SIZE := 512
  const MAX_MSG_SIZE := 65535
  const OPT_LEN := 12

  /** Request.Size with edns.Size. */
  function Size(req: Request): (s: nat)
    ensures s >= MIN_MSG_SIZE
    ensures req.proto.Tcp? ==> s == MAX_MSG_SIZE
    ensures req.proto.Udp? && req.opt.Some? ==> s >= req.udpSize && (s == req.udpSize || s == MIN_MSG_SIZE)
    ensures req.proto.Udp? && req.opt.None? ==> s == MIN_MSG_SIZE
  {
    var size := if req.opt.Some? then req.udpSize else 0;
    if req.proto.Tcp? then MAX_MSG_SIZE
    else if size < MIN_MSG_SIZE then MIN_MSG_SIZE
    else size
  }

  /** How messages are packed: the length of a reply, and the bytes an OPT record takes. */
  datatype Packing = Packing(length: Reply -> nat, optSize: Record -> nat, normalize: Record -> Record)

  function FirstExtra(r: Reply, i: nat): (r': Reply)
    requires i <= |r.extra|
  {
    r.(extra := r.extra[..i])
  }

  function FirstAnswers(r: Reply, i: nat): (r': Reply)
    requires i <= |r.answer|
  {
    r.(answer := r.answer[..i])
  }

  /** Every record takes room, an OPT record at the end takes its own size, and
      neither the TC bit nor normalising an OPT record in place changes the length. */
  ghost predicate Sane(p: Packing) {
    && (forall r: Reply, i: nat, j: nat :: i < j <= |r.extra| ==>
          p.length(FirstExtra(r, i)) < p.length(FirstExtra(r, j)))
    && (forall r: Reply, i: nat, j: nat :: i < j <= |r.answer| ==>
          p.length(FirstAnswers(r, i)) < p.length(FirstAnswers(r, j)))
    && (forall r: Reply, o: Record :: o.isOpt ==>
          p.length(AppendExtra(r, o)) == p.length(r) + p.optSize(o))
    && (forall r: Reply, i: nat :: i < |r.extra| && r.extra[i].isOpt ==>
          p.length(NormalizeAt(p, r, i)) == p.length(r))
    && (forall r: Reply, t: bool :: p.length(r.(truncated := t)) == p.length(r))
    && (forall o: Record :: o.isOpt ==> p.normalize(o).isOpt)
  }

  /** Such a packing exists: twelve bytes of header and eleven for each record. */
  lemma SaneExample()
    ensures Sane(Packing((r: Reply) => 12 + 11 * (|r.answer| + |r.extra|), o => 11, o => o))
  {}

  function AppendExtra(r: Reply, o: Record): (r': Reply) {
    r.(extra := r.extra + [o])
  }

  function NormalizeAt(p: Packing, r: Reply, i: nat): (r': Reply)
    requires i < |r.extra|
  {
    r.(extra := r.extra[i := p.normalize(r.extra[i])])
  }

  /** dns.Msg.IsEdns0: the last OPT record. */
  function FindOpt(s: seq<Record>): (r: Option<nat>)
    ensures r.Some? ==> r.value < |s| && s[r.value].isOpt
    ensures r.None? ==> forall i :: 0 <= i < |s| ==> !s[i].isOpt
  {
    if s == [] then None
    else if s[|s| - 1].isOpt then Some(|s| - 1)
    else FindOpt(s[..|s| - 1])
  }

  /** Request.SizeAndDo: normalise the reply's OPT record, or append the request's. */
  function SizeAndDo(p: Packing, req: Request, r: Reply): (r': Reply) {
    if req.opt.None? then r
    else
      var f := FindOpt(r.extra);
      if f.Some? then NormalizeAt(p, r, f.value) else AppendExtra(r, p.normalize(req.opt.value))
  }

  /** The room left for a reply once an OPT record has been accounted for. */
  function Room(req: Request): (s: int) {
    Size(req) - if req.opt.Some? then OPT_LEN else 0
  }

  /** The length with only the first i additional records. */
  function ExtraLen(p: Packing, r: Reply, i: nat): (n: nat) {
    if i <= |r.extra| then p.length(FirstExtra(r, i)) else 0
  }

  /** The length with only the first i answers. */
  function AnswerLen(p: Packing, r: Reply, i: nat): (n: nat) {
    if i <= |r.answer| then p.length(FirstAnswers(r, i)) else 0
  }

  lemma ExtraLenIncreases(p: Packing, r: Reply)
    requires Sane(p)
    ensures forall i: nat, j: nat :: i < j <= |r.extra| ==> ExtraLen(p, r, i) < ExtraLen(p, r, j)
  {}

  lemma AnswerLenIncreases(p: Packing, r: Reply)
    requires Sane(p)
    ensures forall i: nat, j: nat :: i < j <= |r.answer| ==> AnswerLen(p, r, i) < AnswerLen(p, r, j)
  {}

  /** A binary search of Scrub and its step back: the longest prefix, of at most n records,
      that fits, where len gives the length with the first i records; rl is the length that
      goes with it. Without records to try, the length passed in stays. */
  method LongestFit(len: nat -> nat, n: int, size: int, rl0: nat) returns (k: nat, rl: nat)
    requires -1 <= n && rl0 > size && forall i: nat, j: nat :: i < j <= n ==> len(i) < len(j)
    ensures n >= 0 ==> k <= n && rl == len(k)
    ensures n < 0 ==> k == 0 && rl == rl0
    ensures rl <= size ==> forall i: nat :: k < i <= n ==> len(i) > size
    ensures rl > size ==> k == 0 && forall i: nat :: i <= n ==> len(i) > size
  {
    var l, m, re := 0, 0, n;
    rl := rl0;
    while l <= re
      invariant 0 <= l && -1 <= re <= n && l <= re + 1
      invariant forall i: nat :: i < l ==> len(i) < size
      invariant forall i: nat :: re < i <= n ==> len(i) > size
      invariant 0 <= m
      invariant l == 0 && re == n ==> rl == rl0 && m == 0
      invariant !(l == 0 && re == n) ==> m <= n && rl == len(m)
      invariant !(l == 0 && re == n) ==> (rl < size && m == l - 1) || (rl > size && m == re + 1)
      decreases re - l
    {
      m := (l + re) / 2;
      rl := len(m);
      if rl < size {
        l := m + 1;
      } else if rl > size {
        re := m - 1;
      } else {
        return m, rl;
      }
    }
    if rl > size && m > 0 {
      m := m - 1;
      rl := len(m);
    }
    k := m;
  }

  // ----- what Scrub does -----

  function Full(reply: Reply): (r: Reply) {
    reply.(compress := true)
  }

  /** How many additional records the first search tries to keep: one less with EDNS0,
      for the OPT record that is taken to be among them. */
  function Tried(req: Request, reply: Reply): (n: int)
    ensures -1 <= n <= |reply.extra|
  {
    |reply.extra| - if req.opt.Some? then 1 else 0
  }

  /** The reply without additional records. */
  function Bare(reply: Reply): (r: Reply) {
    Full(reply).(extra := [])
  }

  /** Keeping k additional records fits, and keeping more of those tried does not. */
  predicate LongestExtra(p: Packing, req: Request, reply: Reply, k: nat)
    requires k <= |reply.extra|
  {
    && k <= Tried(req, reply) && ExtraLen(p, Full(reply), k) <= Room(req)
    && forall i: nat :: k < i <= Tried(req, reply) ==> ExtraLen(p, Full(reply), i) > Room(req)
  }

  predicate NoExtraFits(p: Packing, req: Request, reply: Reply) {
    forall i: nat :: i <= Tried(req, reply) ==> ExtraLen(p, Full(reply), i) > Room(req)
  }

  /** Keeping a answers and no additional records fits, or a is 0 and nothing does. */
  predicate LongestAnswers(p: Packing, req: Request, reply: Reply, a: nat)
    requires a <= |reply.answer|
  {
    && (AnswerLen(p, Bare(reply), a) <= Room(req) || a == 0)
    && forall i: nat :: a < i <= |reply.answer| ==> AnswerLen(p, Bare(reply), i) > Room(req)
  }

  ghost predicate Outcome(p: Packing, req: Request, reply: Reply, r: Reply) {
    if p.length(reply.(compress := false)) <= Size(req) then r == reply.(compress := false)
    else if p.length(Full(reply)) <= Size(req) then r == Full(reply)
    else
      || (exists k: nat :: k <= |reply.extra| && LongestExtra(p, req, reply, k)
                           && r == SizeAndDo(p, req, FirstExtra(Full(reply), k)))
      || (NoExtraFits(p, req, reply) &&
          exists a: nat :: a <= |reply.answer| && LongestAnswers(p, req, reply, a)
                           && r == SizeAndDo(p, req, FirstAnswers(Bare(reply), a)).(truncated := true))
  }

  /** Request.Scrub */
  method ScrubReply(p: Packing, req: Request, reply: Reply) returns (r: Reply)
    requires Sane(p)
    ensures Outcome(p, req, reply, r)
  {
    var size: int := Size(req);
    r := reply.(compress := false);
    var rl := p.length(r);
    if size >= rl {
      return;
    }
    r := reply.(compress := true);
    rl := p.length(r);
    if size >= rl {
      return;
    }
    var full := r;
    var re := |full.extra|;
    if req.opt.Some? {
      size := size - OPT_LEN;
      re := re - 1;
    }
    ExtraLenIncreases(p, full);
    AnswerLenIncreases(p, Bare(reply));
    hide Sane, ExtraLen, AnswerLen, SizeAndDo;
    var len := (i: nat) => ExtraLen(p, full, i);
    assert forall i: nat :: len(i) == ExtraLen(p, full, i);
    var k;
    k, rl := LongestFit(len, re, size, rl);
    r := FirstExtra(full, k);
    if rl <= size {
      assert LongestExtra(p, req, reply, k);
      r := SizeAndDo(p, req, r);
      return;
    }
    assert NoExtraFits(p, req, reply);
    assert r == Bare(reply);
    len := (i: nat) => AnswerLen(p, Bare(reply), i);
    assert forall i: nat :: len(i) == AnswerLen(p, Bare(reply), i);
    var a;
    a, rl := LongestFit(len, |reply.answer|, size, rl);
    assert LongestAnswers(p, req, reply, a);
    r := SizeAndDo(p, req, FirstAnswers(r, a)).(truncated := true);
  }

  // ----- what that means for the client -----

  /** What the request carries as its OPT record is one. */
  predicate WellFormed(req: Request) {
    req.opt.Some? ==> req.opt.value.isOpt
  }

  /** Header, question and authority, without answers or additional records. */
  function Base(reply: Reply): (r: Reply) {
    FirstAnswers(Bare(reply), 0)
  }

  /** The bytes of the OPT record that goes back to the client. */
  function OptRoom(p: Packing, req: Request): (n: nat) {
    if req.opt.Some? then p.optSize(p.normalize(req.opt.value)) else 0
  }

  /** Scrub gives the reply back whole, compressed or not. */
  predicate FitsWhole(p: Packing, req: Request, reply: Reply) {
    || p.length(reply.(compress := false)) <= Size(req)
    || p.length(Full(reply)) <= Size(req)
  }

  lemma SizeAndDoLength(p: Packing, req: Request, r: Reply)
    requires Sane(p) && WellFormed(req)
    ensures p.length(SizeAndDo(p, req, r)) <= p.length(r) + OptRoom(p, req)
    ensures r.extra == [] ==> p.length(SizeAndDo(p, req, r)) == p.length(r) + OptRoom(p, req)
  {}

  lemma BaseIsLeast(p: Packing, reply: Reply, k: nat, a: nat)
    requires Sane(p) && k <= |reply.extra| && a <= |reply.answer|
    ensures p.length(Base(reply)) <= AnswerLen(p, Bare(reply), a) <= p.length(Bare(reply))
    ensures p.length(Bare(reply)) == ExtraLen(p, Full(reply), 0) <= ExtraLen(p, Full(reply), k)
  {
    AnswerLenIncreases(p, Bare(reply));
    ExtraLenIncreases(p, Full(reply));
    assert FirstAnswers(Bare(reply), |reply.answer|) == Bare(reply);
    assert FirstExtra(Full(reply), 0) == Bare(reply);
    assert AnswerLen(p, Bare(reply), 0) == p.length(Base(reply));
  }

  /** A reply that is cut fits the client's buffer exactly when header, question,
      authority and the OPT record on their own do. */
  lemma FitsExactly(p: Packing, req: Request, reply: Reply, r: Reply)
    requires Sane(p) && WellFormed(req) && OptRoom(p, req) <= OPT_LEN
    requires Outcome(p, req, reply, r)
    ensures FitsWhole(p, req, reply) ==> p.length(r) <= Size(req)
    ensures !FitsWhole(p, req, reply) ==>
      (p.length(r) <= Size(req) <==> p.length(Base(reply)) + OptRoom(p, req) <= Size(req))
  {
    if !FitsWhole(p, req, reply) {
      hide Sane, SizeAndDo, ExtraLen, AnswerLen;
      if k: nat :| k <= |reply.extra| && LongestExtra(p, req, reply, k)
                   && r == SizeAndDo(p, req, FirstExtra(Full(reply), k)) {
        CutExtraFits(p, req, reply, k);
      } else {
        var a: nat :| a <= |reply.answer| && LongestAnswers(p, req, reply, a)
                      && r == SizeAndDo(p, req, FirstAnswers(Bare(reply), a)).(truncated := true);
        CutAnswersFit(p, req, reply, a);
      }
    }
  }

  lemma CutExtraFits(p: Packing, req: Request, reply: Reply, k: nat)
    requires Sane(p) && WellFormed(req) && OptRoom(p, req) <= OPT_LEN
    requires k <= |reply.extra| && LongestExtra(p, req, reply, k)
    ensures p.length(SizeAndDo(p, req, FirstExtra(Full(reply), k))) <= Size(req)
    ensures p.length(Base(reply)) + OptRoom(p, req) <= Size(req)
  {
    SizeAndDoLength(p, req, FirstExtra(Full(reply), k));
    BaseIsLeast(p, reply, k, 0);
  }

  lemma CutAnswersFit(p: Packing, req: Request, reply: Reply, a: nat)
    requires Sane(p) && WellFormed(req) && OptRoom(p, req) <= OPT_LEN
    requires a <= |reply.answer| && LongestAnswers(p, req, reply, a)
    ensures var r := SizeAndDo(p, req, FirstAnswers(Bare(reply), a)).(truncated := true);
            p.length(r) <= Size(req) <==> p.length(Base(reply)) + OptRoom(p, req) <= Size(req)
  {}

  lemma TcIsFree(p: Packing, r: Reply)
    requires Sane(p)
    ensures p.length(r.(truncated := true)) == p.length(r)
  {}

  /** A reply without TC keeps every answer. TC that was not set already means that
      answers were lost, or that there were none to lose, and that no additional
      record is left besides the OPT record. */
  lemma TcExactly(p: Packing, req: Request, reply: Reply, r: Reply)
    requires Sane(p) && Outcome(p, req, reply, r)
    ensures !r.truncated ==> r.answer == reply.answer
    ensures r.truncated && !reply.truncated ==>
      r.answer < reply.answer || r.answer == reply.answer == []
    ensures r.truncated && !reply.truncated ==>
      r.extra == if req.opt.Some? then [p.normalize(req.opt.value)] else []
  {
    if !FitsWhole(p, req, reply) && NoExtraFits(p, req, reply) && r.truncated && !reply.truncated {
      var a: nat :| a <= |reply.answer| && LongestAnswers(p, req, reply, a)
                    && r == SizeAndDo(p, req, FirstAnswers(Bare(reply), a)).(truncated := true);
      BaseIsLeast(p, reply, 0, a);
      BareTooLong(p, req, reply);
    }
  }

  /** What SizeAndDo makes of the additional records kept: without an OPT record in the request
      they stay; otherwise the last OPT record among them is normalised, or, when there is none,
      the request's follows them. */
  predicate WithOpt(p: Packing, req: Request, kept: seq<Record>, extra: seq<Record>) {
    if req.opt.None? then extra == kept
    else if forall i :: 0 <= i < |kept| ==> !kept[i].isOpt then extra == kept + [p.normalize(req.opt.value)]
    else
      && |extra| == |kept|
      && exists j :: 0 <= j < |kept| && LastOpt(kept, j) && extra[j] == p.normalize(kept[j])
                     && forall i :: 0 <= i < |kept| && i != j ==> extra[i] == kept[i]
  }

  predicate LastOpt(s: seq<Record>, j: nat)
    requires j < |s|
  {
    s[j].isOpt && forall i :: j < i < |s| ==> !s[i].isOpt
  }

  lemma {:induction false} FindsLast(s: seq<Record>)
    requires FindOpt(s).Some?
    ensures LastOpt(s, FindOpt(s).value)
  {
    if !s[|s| - 1].isOpt {
      FindsLast(s[..|s| - 1]);
      assert forall i :: 0 <= i < |s| - 1 ==> s[..|s| - 1][i] == s[i];
    }
  }

  lemma SizeAndDoExactly(p: Packing, req: Request, r: Reply)
    ensures WithOpt(p, req, r.extra, SizeAndDo(p, req, r).extra)
    ensures SizeAndDo(p, req, r) == r.(extra := SizeAndDo(p, req, r).extra)
  {
    var f := FindOpt(r.extra);
    if req.opt.Some? && f.Some? {
      FindsLast(r.extra);
      assert SizeAndDo(p, req, r).extra[f.value] == p.normalize(r.extra[f.value]);
    }
  }

  /** A reply that is cut keeps its answers and its TC bit exactly when some prefix of the
      additional records fits, and then the longest such prefix, with the OPT record; otherwise
      it keeps the longest prefix of its answers that fits and no additional record but the
      request's OPT record, and has TC set. */
  lemma CutExactly(p: Packing, req: Request, reply: Reply, r: Reply) returns (k: nat)
    requires Outcome(p, req, reply, r) && !FitsWhole(p, req, reply)
    ensures r.compress
    ensures if NoExtraFits(p, req, reply) then
        && k <= |reply.answer| && LongestAnswers(p, req, reply, k)
        && r.answer == reply.answer[..k] && r.truncated
        && r.extra == if req.opt.Some? then [p.normalize(req.opt.value)] else []
      else
        && k <= |reply.extra| && LongestExtra(p, req, reply, k)
        && r.answer == reply.answer && r.truncated == reply.truncated
        && WithOpt(p, req, reply.extra[..k], r.extra)
  {
    hide ExtraLen, AnswerLen, SizeAndDo, WithOpt, Size;
    if NoExtraFits(p, req, reply) {
      k :| k <= |reply.answer| && LongestAnswers(p, req, reply, k)
           && r == SizeAndDo(p, req, FirstAnswers(Bare(reply), k)).(truncated := true);
      SizeAndDoExactly(p, req, FirstAnswers(Bare(reply), k));
      NoneKept(p, req, r.extra);
    } else {
      k :| k <= |reply.extra| && LongestExtra(p, req, reply, k)
           && r == SizeAndDo(p, req, FirstExtra(Full(reply), k));
      SizeAndDoExactly(p, req, FirstExtra(Full(reply), k));
    }
  }

  lemma NoneKept(p: Packing, req: Request, extra: seq<Record>)
    requires WithOpt(p, req, [], extra)
    ensures extra == if req.opt.Some? then [p.normalize(req.opt.value)] else []
  {}

  lemma BareTooLong(p: Packing, req: Request, reply: Reply)
    requires Sane(p) && !FitsWhole(p, req, reply) && NoExtraFits(p, req, reply)
    ensures AnswerLen(p, Bare(reply), |reply.answer|) > Room(req)
  {
    assert FirstAnswers(Bare(reply), |reply.answer|) == Bare(reply);
    if Tried(req, reply) < 0 {
      assert Bare(reply) == Full(reply);
    } else {
      assert FirstExtra(Full(reply), 0) == Bare(reply);
      assert ExtraLen(p, Full(reply), 0) > Room(req);
    }
  }

  /** A reply that still does not fit has nothing left that could go: no answer, and
      no additional record but the OPT record. */
  lemma TooLongIsBare(p: Packing, req: Request, reply: Reply, r: Reply)
    requires Sane(p) && WellFormed(req) && OptRoom(p, req) <= OPT_LEN
    requires Outcome(p, req, reply, r) && p.length(r) > Size(req)
    ensures r.truncated && r == SizeAndDo(p, req, Base(reply)).(truncated := true)
  {
    if k: nat :| k <= |reply.extra| && LongestExtra(p, req, reply, k)
                 && r == SizeAndDo(p, req, FirstExtra(Full(reply), k)) {
      CutExtraFits(p, req, reply, k);
      assert false;
    } else {
      var a: nat :| a <= |reply.answer| && LongestAnswers(p, req, reply, a)
                    && r == SizeAndDo(p, req, FirstAnswers(Bare(reply), a)).(truncated := true);
      SizeAndDoLength(p, req, FirstAnswers(Bare(reply), a));
      TcIsFree(p, SizeAndDo(p, req, FirstAnswers(Bare(reply), a)));
      assert a == 0;
    }
  }
}
