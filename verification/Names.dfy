/** Domain names and the order the zone tree keeps them in (plugin/file/tree/less.go).

    A fully qualified, escape-free name is the sequence of its labels, leftmost
    label first: "www.example.org." is ["www", "example", "org"].  The empty
    sequence stands for the empty string; it is never an owner name.
 */
module Names {

  type Label = string
  type Name = seq<Label>

  /** A label of an escape-free name: not empty, no dot and no backslash. */
  predicate ValidLabel(l: Label) {
    l != [] && '.' !in l && '\\' !in l
  }

  predicate ValidName(n: Name) {
    n != [] && forall i :: 0 <= i < |n| ==> ValidLabel(n[i])
  }

  /** What can be searched for: a name, or the empty string. */
  predicate NameOrEmpty(n: Name) {
    n == [] || ValidName(n)
  }

  function LowerChar(c: char): (r: char)
    ensures !('A' <= r <= 'Z')
    ensures c == r || ('A' <= c <= 'Z')
  {
    if 'A' <= c <= 'Z' then c - 'A' + 'a' else c
  }

  const CAPITALS := "ABCDEFGHIJKLMNOPQRSTUVWXYZ"
  const SMALL := "abcdefghijklmnopqrstuvwxyz"

  /** Each capital becomes the small letter in its place, and nothing else changes. */
  lemma LowerLetters(c: char, k: nat)
    requires k < 26
    ensures LowerChar(CAPITALS[k]) == SMALL[k]
    ensures c !in CAPITALS ==> LowerChar(c) == c
  {
    if 'A' <= c <= 'Z' {
      assert CAPITALS[c as int - 'A' as int] == c;
    }
  }

  function LowerLabel(l: Label): (r: Label)
    ensures |r| == |l|
    ensures forall i :: 0 <= i < |l| ==> r[i] == LowerChar(l[i])
  {
    seq(|l|, i requires 0 <= i < |l| => LowerChar(l[i]))
  }

  /** strings.ToLower on a name. */
  function ToLower(n: Name): (r: Name)
    ensures |r| == |n|
    ensures forall i :: 0 <= i < |n| ==> r[i] == LowerLabel(n[i])
  {
    seq(|n|, i requires 0 <= i < |n| => LowerLabel(n[i]))
  }

  lemma ToLowerIdempotent(n: Name)
    ensures ToLower(ToLower(n)) == ToLower(n)
  {
    forall i | 0 <= i < |n|
      ensures ToLower(ToLower(n))[i] == ToLower(n)[i]
    {
      assert LowerLabel(LowerLabel(n[i])) == LowerLabel(n[i]);
    }
  }

  // ----- helpers of the DNS library, on label sequences -----

  /** dns.IsSubDomain(parent, child): child is parent or lies below it. */
  predicate IsSubDomain(parent: Name, child: Name) {
    |parent| <= |child| && child[|child| - |parent|..] == parent
  }

  /** The part of a name between its i-th and (i-1)-th cut from the right, with
      the trailing dot; empty once the labels have run out (dns.PrevLabel reports
      an overshoot and offset 0). */
  function Region(a: Name, i: nat): (r: string)
    requires i > 0
  {
    if i <= |a| then a[|a| - i] + "." else ""
  }

  // ----- byte order -----

  /** bytes.Compare: lexicographic order of byte strings. */
  function CompareBytes(a: string, b: string): (r: int)
    ensures -1 <= r <= 1
    ensures r == 0 <==> a == b
  {
    if a == [] && b == [] then 0
    else if a == [] then -1
    else if b == [] then 1
    else if a[0] < b[0] then -1
    else if a[0] > b[0] then 1
    else
      assert a == [a[0]] + a[1..] && b == [b[0]] + b[1..];
      CompareBytes(a[1..], b[1..])
  }

  lemma {:induction false} CompareBytesAntisymmetric(a: string, b: string)
    ensures CompareBytes(a, b) == -CompareBytes(b, a)
  {
    if a != [] && b != [] && a[0] == b[0] {
      CompareBytesAntisymmetric(a[1..], b[1..]);
    }
  }

  lemma {:induction false} CompareBytesTransitive(a: string, b: string, c: string)
    requires CompareBytes(a, b) <= 0 && CompareBytes(b, c) <= 0
    ensures CompareBytes(a, c) <= 0
    ensures CompareBytes(a, b) < 0 || CompareBytes(b, c) < 0 ==> CompareBytes(a, c) < 0
  {
    if a != [] && b != [] && c != [] && a[0] == b[0] == c[0] {
      CompareBytesTransitive(a[1..], b[1..], c[1..]);
    }
  }

  /** A common prefix does not influence the order. */
  lemma {:induction false} CompareBytesCommonPrefix(p: string, a: string, b: string)
    ensures CompareBytes(p + a, p + b) == CompareBytes(a, b)
  {
    if p == [] {
      assert p + a == a && p + b == b;
    } else {
      assert (p + a)[1..] == p[1..] + a && (p + b)[1..] == p[1..] + b;
      CompareBytesCommonPrefix(p[1..], a, b);
    }
  }

  /** Two different dot-terminated labels are ordered before anything that follows
      them comes into play. */
  lemma {:induction false} CompareBytesDotTerminated(a: string, b: string, x: string, y: string)
    requires '.' !in a && '.' !in b && a != b
    ensures CompareBytes(a + "." + x, b + "." + y) == CompareBytes(a + ".", b + ".")
  {
    if a == [] || b == [] || a[0] != b[0] {
    } else {
      assert (a + "." + x)[1..] == a[1..] + "." + x && (a + ".")[1..] == a[1..] + ".";
      assert (b + "." + y)[1..] == b[1..] + "." + y && (b + ".")[1..] == b[1..] + ".";
      assert a == [a[0]] + a[1..] && b == [b[0]] + b[1..];
      CompareBytesDotTerminated(a[1..], b[1..], x, y);
    }
  }

  /** The strings that start with p form an interval that starts at p. */
  lemma {:induction false} PrefixInterval(p: string, x: string, y: string)
    requires p <= x
    requires CompareBytes(p, y) <= 0 && CompareBytes(y, x) <= 0
    ensures p <= y
  {
    if p != [] {
      PrefixInterval(p[1..], x[1..], y[1..]);
      assert y == [y[0]] + y[1..] && p == [p[0]] + p[1..];
    }
  }

  lemma {:induction false} PrefixNotAfter(p: string, x: string)
    requires p <= x
    ensures CompareBytes(p, x) <= 0
  {
    if p != [] {
      PrefixNotAfter(p[1..], x[1..]);
    }
  }

  // ----- the order of the tree -----

  /** The result of less: compare region by region, from the right. */
  function Compare(a: Name, b: Name): (r: int)
    ensures -1 <= r <= 1
    decreases |a| + |b|
  {
    if a == [] && b == [] then 0
    else
      var c := CompareBytes(Region(a, 1), Region(b, 1));
      if c != 0 then c else Compare(Init(a), Init(b))
  }

  function Init(a: Name): (r: Name)
    ensures |r| == if a == [] then 0 else |a| - 1
    ensures r <= a
  {
    if a == [] then [] else a[..|a| - 1]
  }

  /** less: the loop over label positions. */
  method Less(a: Name, b: Name) returns (res: int)
    ensures res == Compare(a, b)
  {
    var i := 1;
    var x, y := a, b;
    while true
      invariant i >= 1
      invariant x == if i - 1 <= |a| then a[..|a| - (i - 1)] else []
      invariant y == if i - 1 <= |b| then b[..|b| - (i - 1)] else []
      invariant Compare(a, b) == Compare(x, y)
      decreases |x| + |y|
    {
      var oka, okb := i > |a|, i > |b|;
      if oka && okb {
        return 0;
      }
      var ab, bb := Region(a, i), Region(b, i);
      assert ab == Region(x, 1) && bb == Region(y, 1);
      var c := CompareBytes(ab, bb);
      if c != 0 {
        return c;
      }
      x, y := Init(x), Init(y);
      i := i + 1;
    }
  }

  /** The name written with its labels reversed, each followed by a dot. */
  function Flat(a: Name): (r: string)
    ensures r == "" <==> a == []
  {
    if a == [] then "" else a[|a| - 1] + "." + Flat(Init(a))
  }

  /** less is the plain byte order of the reversed names. */
  lemma {:induction false} CompareIsFlatOrder(a: Name, b: Name)
    requires NameOrEmpty(a)
    requires NameOrEmpty(b)
    ensures Compare(a, b) == CompareBytes(Flat(a), Flat(b))
    decreases |a| + |b|
  {
    if a != [] && b != [] {
      var la, lb := a[|a| - 1], b[|b| - 1];
      assert ValidLabel(la) && ValidLabel(lb);
      assert Flat(a) == la + "." + Flat(Init(a)) && Flat(b) == lb + "." + Flat(Init(b));
      if la == lb {
        CompareIsFlatOrder(Init(a), Init(b));
        CompareBytesCommonPrefix(la + ".", Flat(Init(a)), Flat(Init(b)));
      } else {
        assert (la + ".")[..|la|] == la && (lb + ".")[..|lb|] == lb;
        CompareBytesDotTerminated(la, lb, Flat(Init(a)), Flat(Init(b)));
      }
    }
  }

  /** Dot-terminated labels that start alike are the same label. */
  lemma DottedPrefix(a: Label, b: Label, x: string, y: string)
    requires '.' !in a && '.' !in b
    requires a + "." + x <= b + "." + y
    ensures a == b && x <= y
  {
    var s, t := a + "." + x, b + "." + y;
    assert s[|a|] == '.' && t[|b|] == '.';
    assert forall i :: 0 <= i < |s| ==> s[i] == t[i];
    assert s[..|a|] == a && t[..|a|] == b;
    assert s[|a| + 1..] == x && t[|a| + 1..] == y;
  }

  /** Lying below a name is having its reversed form as a prefix. */
  lemma {:induction false} SubDomainIsFlatPrefix(q: Name, x: Name)
    requires NameOrEmpty(q)
    requires NameOrEmpty(x)
    ensures IsSubDomain(q, x) <==> Flat(q) <= Flat(x)
    decreases |x|
  {
    if q != [] && x != [] {
      var lq, lx := q[|q| - 1], x[|x| - 1];
      assert ValidLabel(lq) && ValidLabel(lx);
      SubDomainIsFlatPrefix(Init(q), Init(x));
      if IsSubDomain(q, x) {
        assert x[|x| - |q|..][|q| - 1] == q[|q| - 1];
        SubDomainSplit(q, x);
        assert lq + "." + Flat(Init(q)) <= lx + "." + Flat(Init(x));
      }
      if Flat(q) <= Flat(x) {
        DottedPrefix(lq, lx, Flat(Init(q)), Flat(Init(x)));
        SubDomainSplit(q, x);
      }
    }
  }

  lemma {:induction false} SubDomainSplit(q: Name, x: Name)
    requires q != [] && x != [] && q[|q| - 1] == x[|x| - 1]
    ensures IsSubDomain(q, x) <==> IsSubDomain(Init(q), Init(x))
  {}

  lemma FlatInjective(a: Name, b: Name)
    requires NameOrEmpty(a)
    requires NameOrEmpty(b)
    ensures Flat(a) == Flat(b) <==> a == b
  {
    SubDomainIsFlatPrefix(a, b);
    SubDomainIsFlatPrefix(b, a);
  }

  /** The promise less makes: a strict total order on names. */
  lemma CompareTotalOrder(a: Name, b: Name, c: Name)
    requires NameOrEmpty(a)
    requires NameOrEmpty(b)
    requires NameOrEmpty(c)
    ensures Compare(a, b) == 0 <==> a == b
    ensures Compare(a, b) == -Compare(b, a)
    ensures Compare(a, b) <= 0 && Compare(b, c) <= 0 ==> Compare(a, c) <= 0
    ensures Compare(a, b) < 0 && Compare(b, c) <= 0 ==> Compare(a, c) < 0
    ensures Compare(a, b) <= 0 && Compare(b, c) < 0 ==> Compare(a, c) < 0
  {
    CompareIsFlatOrder(a, b);
    CompareIsFlatOrder(b, a);
    CompareIsFlatOrder(b, c);
    CompareIsFlatOrder(a, c);
    FlatInjective(a, b);
    CompareBytesAntisymmetric(Flat(a), Flat(b));
    if Compare(a, b) <= 0 && Compare(b, c) <= 0 {
      CompareBytesTransitive(Flat(a), Flat(b), Flat(c));
    }
  }

  /** The names at or below q are one interval of the order, and it starts at q:
      what the resolver's probe for names below a missing name relies on. */
  lemma SubDomainsContiguous(q: Name, x: Name, y: Name)
    requires ValidName(q) && ValidName(x) && ValidName(y)
    requires IsSubDomain(q, x)
    ensures Compare(q, x) <= 0
    ensures Compare(q, y) <= 0 && Compare(y, x) <= 0 ==> IsSubDomain(q, y)
  {
    SubDomainIsFlatPrefix(q, x);
    SubDomainIsFlatPrefix(q, y);
    CompareIsFlatOrder(q, x);
    CompareIsFlatOrder(q, y);
    CompareIsFlatOrder(y, x);
    PrefixNotAfter(Flat(q), Flat(x));
    if Compare(q, y) <= 0 && Compare(y, x) <= 0 {
      PrefixInterval(Flat(q), Flat(x), Flat(y));
    }
  }

  // ----- the canonical order of section 6.1 of RFC 4034 -----

  /** Labels compared from the right as plain byte strings, a missing label first. */
  function CanonicalCompare(a: Name, b: Name): (r: int)
    ensures -1 <= r <= 1
    decreases |a| + |b|
  {
    if a == [] && b == [] then 0
    else if a == [] then -1
    else if b == [] then 1
    else
      var c := CompareBytes(a[|a| - 1], b[|b| - 1]);
      if c != 0 then c else CanonicalCompare(Init(a), Init(b))
  }

  /** One label continues the other with a byte that sorts before the dot. */
  predicate DotClash(a: Label, b: Label) {
    || (|a| < |b| && a <= b && b[|a|] < '.')
    || (|b| < |a| && b <= a && a[|b|] < '.')
  }

  /** The rightmost labels in which two names differ clash. */
  predicate FirstDifferenceClashes(a: Name, b: Name)
    decreases |a| + |b|
  {
    a != [] && b != [] &&
    if a[|a| - 1] == b[|b| - 1] then FirstDifferenceClashes(Init(a), Init(b))
    else DotClash(a[|a| - 1], b[|b| - 1])
  }

  lemma {:induction false} DotOrder(a: Label, b: Label)
    requires '.' !in a && '.' !in b
    ensures CompareBytes(a + ".", b + ".") == CompareBytes(a, b) <==> !DotClash(a, b)
  {
    if a != [] && b != [] && a[0] == b[0] {
      DotOrder(a[1..], b[1..]);
      assert (a + ".")[1..] == a[1..] + "." && (b + ".")[1..] == b[1..] + ".";
      assert a == [a[0]] + a[1..] && b == [b[0]] + b[1..];
      assert a <= b <==> a[1..] <= b[1..];
      assert b <= a <==> b[1..] <= a[1..];
      assert |a| < |b| ==> b[|a|] == b[1..][|a[1..]|];
      assert |b| < |a| ==> a[|b|] == a[1..][|b[1..]|];
    }
  }

  /** less agrees with the canonical order it is documented to implement exactly
      on the pairs whose first difference is not such a clash. */
  lemma {:induction false} CanonicalExactly(a: Name, b: Name)
    requires NameOrEmpty(a)
    requires NameOrEmpty(b)
    ensures Compare(a, b) == CanonicalCompare(a, b) <==> !FirstDifferenceClashes(a, b)
    decreases |a| + |b|
  {
    if a != [] && b != [] {
      var la, lb := a[|a| - 1], b[|b| - 1];
      assert ValidLabel(la) && ValidLabel(lb);
      if la == lb {
        CanonicalExactly(Init(a), Init(b));
      } else {
        DotOrder(la, lb);
      }
    }
  }

  /** A hyphen is enough: "a-.org." sorts before "a.org.", canonically after it. */
  lemma CanonicalOrderMissed()
    ensures ValidName(["a-", "org"]) && ValidName(["a", "org"])
    ensures Compare(["a-", "org"], ["a", "org"]) < 0 < CanonicalCompare(["a-", "org"], ["a", "org"])
  {}
}
