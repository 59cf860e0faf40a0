/** Shared vocabulary: options, powers of two, substrings, Python's `sorted` on a set of integers, and first-occurrence
    dedupe. */
module Common {

  datatype Option<+T> = None | Some(value: T)

  function Pow2(n: nat): (r: nat)
    ensures r > 0
  {
    if n == 0 then 1 else 2 * Pow2(n - 1)
  }

  lemma MulAtLeast(d: int, m: int)
    requires d >= 1 && m > 0
    ensures d * m >= m
  {
  }

  lemma ModOfMultiple(q: int, r: int, m: int)
    requires m > 0 && 0 <= r < m
    ensures (q * m + r) % m == r
  {
    var x := q * m + r;
    var d := x / m - q;
    assert d * m == r - x % m;
    if d >= 1 { MulAtLeast(d, m); }
    if d <= -1 { MulAtLeast(-d, m); }
  }

  lemma ConcatAssoc<T>(a: seq<T>, b: seq<T>, c: seq<T>)
    ensures a + (b + c) == (a + b) + c
  {
  }

  /** `evidence.get(key)`, with an absent entry and a falsy one alike. */
  function Get(evidence: map<string, string>, key: string): string {
    if key in evidence then evidence[key] else ""
  }

  /** `part in s` on strings. */
  predicate Contains(s: string, part: string) {
    part <= s || (s != "" && Contains(s[1..], part))
  }

  lemma {:induction false} ContainsIff(s: string, part: string)
    ensures Contains(s, part) <==> exists i :: 0 <= i <= |s| && part <= s[i..]
  {
    if s == "" {
      assert s[0..] == s;
    } else {
      ContainsIff(s[1..], part);
      assert s[0..] == s;
      assert forall i :: 0 <= i <= |s[1..]| ==> s[1..][i..] == s[i + 1..];
      if i :| 0 <= i <= |s| && part <= s[i..] {
        if i > 0 { assert part <= s[1..][i - 1..]; }
      }
    }
  }

  lemma {:induction false} NotContained(s: string, part: string, c: char)
    requires c in part && c !in s
    ensures !Contains(s, part)
  {
    if s != "" { NotContained(s[1..], part, c); }
  }

  lemma AllAbsent(s: set<int>)
    requires forall x :: x !in s
    ensures |s| == 0
  {
    assert forall x :: x !in s;
  }

  lemma {:induction false} HasMin(s: set<int>)
    requires s != {}
    ensures exists m :: m in s && forall x :: x in s ==> m <= x
  {
    if forall x :: x !in s { AllAbsent(s); }
    var m :| m in s;
    var rest := s - {m};
    if rest == {} {
      assert forall x :: x in s ==> x == m || x in rest;
    } else {
      HasMin(rest);
      var r :| r in rest && forall x :: x in rest ==> r <= x;
      var least := if r < m then r else m;
      forall x | x in s ensures least <= x { assert x == m || x in rest; }
    }
  }

  function MinOf(s: set<int>): (m: int)
    requires s != {}
    ensures m in s && forall x :: x in s ==> m <= x
  {
    HasMin(s);
    var m :| m in s && forall x :: x in s ==> m <= x;
    m
  }

  /** `sorted(s)`: every element once, ascending. */
  function Listing(s: set<int>): (r: seq<int>)
    ensures forall x :: x in r <==> x in s
    ensures forall i, j :: 0 <= i < j < |r| ==> r[i] < r[j]
  {
    if s == {} then [] else var m := MinOf(s); [m] + Listing(s - {m})
  }

  /** Keep each value's first occurrence: `_dedupe` of probes/_krb_asn1.py and `dict.fromkeys` elsewhere. */
  function Dedupe(items: seq<int>): seq<int> {
    if items == [] then [] else
      var front, last := items[..|items| - 1], items[|items| - 1];
      if last in front then Dedupe(front) else Dedupe(front) + [last]
  }

  /** `_dedupe`. */
  method DedupeLoop(items: seq<int>) returns (out: seq<int>)
    ensures out == Dedupe(items)
  {
    var seen: set<int> := {};
    out := [];
    for i := 0 to |items|
      invariant forall x :: x in seen <==> x in items[..i]
      invariant out == Dedupe(items[..i])
    {
      assert items[..i + 1][..i] == items[..i] && items[..i + 1][i] == items[i];
      if items[i] !in seen {
        seen := seen + {items[i]};
        out := out + [items[i]];
      }
    }
    assert items[..|items|] == items;
  }

  function FirstIndex(items: seq<int>, x: int): (i: nat)
    requires x in items
    ensures i < |items| && items[i] == x && x !in items[..i]
  {
    if items[0] == x then 0 else
      assert items == [items[0]] + items[1..];
      var i := 1 + FirstIndex(items[1..], x);
      assert items[..i] == [items[0]] + items[1..][..i - 1];
      i
  }

  /** The result holds the same values, each once, in the order of their first occurrences. */
  lemma {:induction false} DedupeMeaning(items: seq<int>)
    ensures forall x :: x in Dedupe(items) <==> x in items
    ensures forall i, j :: 0 <= i < j < |Dedupe(items)| ==> Dedupe(items)[i] != Dedupe(items)[j]
    ensures forall i, j :: 0 <= i < j < |Dedupe(items)| ==>
      Dedupe(items)[i] in items && Dedupe(items)[j] in items
      && FirstIndex(items, Dedupe(items)[i]) < FirstIndex(items, Dedupe(items)[j])
  {
    if items != [] {
      var front, last := items[..|items| - 1], items[|items| - 1];
      assert items == front + [last];
      DedupeMeaning(front);
      forall x | x in front ensures FirstIndex(items, x) == FirstIndex(front, x) {
        FirstIndexStable(front, last, x);
      }
      if last !in front { assert FirstIndex(items, last) == |front|; }
    }
  }

  lemma FirstIndexStable(front: seq<int>, last: int, x: int)
    requires x in front
    ensures FirstIndex(front + [last], x) == FirstIndex(front, x)
  {
    var i, j := FirstIndex(front, x), FirstIndex(front + [last], x);
    assert (front + [last])[i] == x && (front + [last])[..i] == front[..i];
  }
}
