/** Python's tuple-of-strings order and `sorted` with it: what a sort by key determines. */
module Sorting {

  // ---- Lexicographic order ------------------------------------------------------------------

  predicate StrLe(a: string, b: string) {
    if a == "" then true
    else if b == "" then false
    else if a[0] != b[0] then a[0] < b[0]
    else StrLe(a[1..], b[1..])
  }

  lemma {:induction false} StrTotal(a: string, b: string)
    ensures StrLe(a, b) || StrLe(b, a)
  {
    if a != "" && b != "" && a[0] == b[0] { StrTotal(a[1..], b[1..]); }
  }

  lemma {:induction false} StrAntisymmetric(a: string, b: string)
    requires StrLe(a, b) && StrLe(b, a)
    ensures a == b
  {
    if a != "" && b != "" {
      StrAntisymmetric(a[1..], b[1..]);
      assert a == [a[0]] + a[1..] && b == [b[0]] + b[1..];
    }
  }

  lemma {:induction false} StrTransitive(a: string, b: string, c: string)
    requires StrLe(a, b) && StrLe(b, c)
    ensures StrLe(a, c)
  {
    if a != "" && b != "" && c != "" && a[0] == b[0] && b[0] == c[0] { StrTransitive(a[1..], b[1..], c[1..]); }
  }

  predicate LexLe(a: seq<string>, b: seq<string>) {
    if a == [] then true
    else if b == [] then false
    else if a[0] != b[0] then StrLe(a[0], b[0])
    else LexLe(a[1..], b[1..])
  }

  lemma {:induction false} LexTotal(a: seq<string>, b: seq<string>)
    ensures LexLe(a, b) || LexLe(b, a)
  {
    if a != [] && b != [] {
      if a[0] == b[0] { LexTotal(a[1..], b[1..]); } else { StrTotal(a[0], b[0]); }
    }
  }

  lemma {:induction false} LexAntisymmetric(a: seq<string>, b: seq<string>)
    requires LexLe(a, b) && LexLe(b, a)
    ensures a == b
  {
    if a != [] && b != [] {
      if a[0] != b[0] { StrAntisymmetric(a[0], b[0]); }
      LexAntisymmetric(a[1..], b[1..]);
      assert a == [a[0]] + a[1..] && b == [b[0]] + b[1..];
    }
  }

  lemma {:induction false} LexTransitive(a: seq<string>, b: seq<string>, c: seq<string>)
    requires LexLe(a, b) && LexLe(b, c)
    ensures LexLe(a, c)
  {
    if a != [] && b != [] && c != [] {
      if a[0] == b[0] && b[0] == c[0] {
        LexTransitive(a[1..], b[1..], c[1..]);
      } else {
        StrTotal(a[0], a[0]);
        StrTotal(b[0], b[0]);
        StrTransitive(a[0], b[0], c[0]);
        if a[0] == c[0] { StrAntisymmetric(a[0], b[0]); }
      }
    }
  }

  /** a and b agree before i and differ there. */
  predicate DifferAt<T(==)>(a: seq<T>, b: seq<T>, i: nat) {
    i < |a| && i < |b| && a[..i] == b[..i] && a[i] != b[i]
  }

  lemma DifferLater<T>(a: seq<T>, b: seq<T>, i: nat)
    requires a != [] && b != [] && a[0] == b[0]
    ensures DifferAt(a, b, i) <==> i > 0 && DifferAt(a[1..], b[1..], i - 1)
  {
    if 0 < i <= |a| && i <= |b| {
      assert a[..i] == [a[0]] + a[1..][..i - 1] && b[..i] == [b[0]] + b[1..][..i - 1];
      Heads(a[0], a[1..][..i - 1], b[1..][..i - 1]);
    }
  }

  lemma Heads<T>(x: T, a: seq<T>, b: seq<T>)
    ensures [x] + a == [x] + b <==> a == b
  {
    assert ([x] + a)[1..] == a && ([x] + b)[1..] == b;
  }

  lemma PrefixCons<T>(a: seq<T>, b: seq<T>)
    requires a != [] && b != [] && a[0] == b[0]
    ensures a <= b <==> a[1..] <= b[1..]
  {
    assert a == [a[0]] + a[1..] && b == [b[0]] + b[1..];
    if a[1..] <= b[1..] { assert b == a + b[1..][|a| - 1..]; }
  }

  /** Strings compare by their first difference, a prefix coming first. */
  lemma {:induction false} StrLeIff(a: string, b: string)
    ensures StrLe(a, b) <==> a <= b || exists i: nat :: DifferAt(a, b, i) && a[i] < b[i]
  {
    if a != "" && b != "" {
      if a[0] == b[0] {
        var a', b' := a[1..], b[1..];
        StrLeIff(a', b');
        PrefixCons(a, b);
        forall i: nat ensures DifferAt(a, b, i) <==> i > 0 && DifferAt(a', b', i - 1) { DifferLater(a, b, i); }
        if i: nat :| DifferAt(a', b', i) && a'[i] < b'[i] { assert DifferAt(a, b, i + 1); }
      } else {
        assert DifferAt(a, b, 0);
      }
    }
  }

  /** ... and so do sequences of strings. */
  lemma {:induction false} LexLeIff(a: seq<string>, b: seq<string>)
    ensures LexLe(a, b) <==> a <= b || exists i: nat :: DifferAt(a, b, i) && StrLe(a[i], b[i])
  {
    hide StrLe;
    if a != [] && b != [] {
      if a[0] == b[0] {
        var a', b' := a[1..], b[1..];
        LexLeIff(a', b');
        PrefixCons(a, b);
        forall i: nat ensures DifferAt(a, b, i) <==> i > 0 && DifferAt(a', b', i - 1) { DifferLater(a, b, i); }
        if i: nat :| DifferAt(a', b', i) && StrLe(a'[i], b'[i]) { assert DifferAt(a, b, i + 1); }
      } else {
        assert DifferAt(a, b, 0);
      }
    }
  }

  /** A sort key: a number, then strings. */
  datatype Key = Key(rank: int, names: seq<string>)

  predicate KeyLe(a: Key, b: Key) {
    a.rank < b.rank || (a.rank == b.rank && LexLe(a.names, b.names))
  }

  lemma KeyTotal(a: Key, b: Key)
    ensures KeyLe(a, b) || KeyLe(b, a)
  {
    LexTotal(a.names, b.names);
  }

  lemma KeyAntisymmetric(a: Key, b: Key)
    requires KeyLe(a, b) && KeyLe(b, a)
    ensures a == b
  {
    LexAntisymmetric(a.names, b.names);
  }

  lemma KeyTransitive(a: Key, b: Key, c: Key)
    requires KeyLe(a, b) && KeyLe(b, c)
    ensures KeyLe(a, c)
  {
    if a.rank == b.rank == c.rank { LexTransitive(a.names, b.names, c.names); }
  }

  // ---- Sorting by key ---------------------------------------------------------------------------

  ghost predicate Sorted<T>(s: seq<T>, key: T -> Key) {
    forall i, j :: 0 <= i < j < |s| ==> KeyLe(key(s[i]), key(s[j]))
  }

  /** Insert after every element whose key is not greater: the sort is stable. */
  function Insert<T>(s: seq<T>, x: T, key: T -> Key): seq<T> {
    if s == [] then [x]
    else if KeyLe(key(s[|s| - 1]), key(x)) then s + [x]
    else Insert(s[..|s| - 1], x, key) + [s[|s| - 1]]
  }

  function SortBy<T>(s: seq<T>, key: T -> Key): seq<T> {
    if s == [] then [] else Insert(SortBy(s[..|s| - 1], key), s[|s| - 1], key)
  }

  lemma {:induction false} InsertKeeps<T>(s: seq<T>, x: T, key: T -> Key)
    ensures multiset(Insert(s, x, key)) == multiset(s) + multiset{x}
  {
    if s != [] && !KeyLe(key(s[|s| - 1]), key(x)) {
      InsertKeeps(s[..|s| - 1], x, key);
      assert s == s[..|s| - 1] + [s[|s| - 1]];
    }
  }

  lemma {:induction false} InsertSorted<T>(s: seq<T>, x: T, key: T -> Key)
    requires Sorted(s, key)
    ensures Sorted(Insert(s, x, key), key)
  {
    if s != [] {
      var front, last := s[..|s| - 1], s[|s| - 1];
      KeyTotal(key(last), key(x));
      if KeyLe(key(last), key(x)) {
        forall i | 0 <= i < |s| ensures KeyLe(key(s[i]), key(x)) {
          if i < |s| - 1 { KeyTransitive(key(s[i]), key(last), key(x)); }
        }
      } else {
        InsertSorted(front, x, key);
        InsertKeeps(front, x, key);
        var r := Insert(front, x, key);
        forall i | 0 <= i < |r| ensures KeyLe(key(r[i]), key(last)) {
          assert r[i] in multiset(r);
          assert r[i] == x || r[i] in multiset(front);
        }
      }
    }
  }

  lemma {:induction false} SortKeeps<T>(s: seq<T>, key: T -> Key)
    ensures multiset(SortBy(s, key)) == multiset(s)
  {
    if s != [] {
      var front, last := s[..|s| - 1], s[|s| - 1];
      SortKeeps(front, key);
      InsertKeeps(SortBy(front, key), last, key);
      assert s == front + [last];
    }
  }

  lemma {:induction false} SortIsSorted<T>(s: seq<T>, key: T -> Key)
    ensures Sorted(SortBy(s, key), key)
  {
    if s != [] {
      SortIsSorted(s[..|s| - 1], key);
      InsertSorted(SortBy(s[..|s| - 1], key), s[|s| - 1], key);
    }
  }

  lemma {:induction false} SameSize<T>(a: seq<T>, b: seq<T>)
    requires multiset(a) == multiset(b)
    ensures |a| == |b|
  {
    assert |multiset(a)| == |a| && |multiset(b)| == |b|;
  }

  lemma {:induction false} PlaceOf<T>(a: seq<T>, b: seq<T>, i: nat) returns (j: nat)
    requires multiset(a) == multiset(b) && i < |a|
    ensures j < |b| && b[j] == a[i]
  {
    assert a[i] in multiset(b);
    j :| j < |b| && b[j] == a[i];
  }

  lemma {:induction false} TailsMatch<T>(a: seq<T>, b: seq<T>)
    requires multiset(a) == multiset(b) && a != [] && b != [] && a[0] == b[0]
    ensures multiset(a[1..]) == multiset(b[1..])
  {
    assert a == [a[0]] + a[1..] && b == [b[0]] + b[1..];
    assert multiset(a[1..]) == multiset(a) - multiset{a[0]};
    assert multiset(b[1..]) == multiset(b) - multiset{b[0]};
  }

  ghost predicate Determines<T>(s: seq<T>, key: T -> Key) {
    forall i, j :: 0 <= i < |s| && 0 <= j < |s| && key(s[i]) == key(s[j]) ==> s[i] == s[j]
  }

  lemma {:induction false} HeadsMatch<T>(a: seq<T>, b: seq<T>, key: T -> Key)
    requires Sorted(a, key) && Sorted(b, key) && multiset(a) == multiset(b) && Determines(a, key)
    requires a != [] && b != []
    ensures a[0] == b[0]
  {
    var j := PlaceOf(a, b, 0);
    var i := PlaceOf(b, a, 0);
    HeadLeast(a, i, key);
    HeadLeast(b, j, key);
    KeyAntisymmetric(key(a[0]), key(b[0]));
  }

  /** Two sorted arrangements of the same elements are equal when the key determines the element. */
  lemma {:induction false} SortedUnique<T>(a: seq<T>, b: seq<T>, key: T -> Key)
    requires Sorted(a, key) && Sorted(b, key) && multiset(a) == multiset(b) && Determines(a, key)
    ensures a == b
  {
    SameSize(a, b);
    if a != [] {
      HeadsMatch(a, b, key);
      TailsMatch(a, b);
      SortedUnique(a[1..], b[1..], key);
      assert a == [a[0]] + a[1..] && b == [b[0]] + b[1..];
    }
  }

  lemma HeadLeast<T>(s: seq<T>, i: nat, key: T -> Key)
    requires Sorted(s, key) && i < |s|
    ensures KeyLe(key(s[0]), key(s[i]))
  {
    KeyTotal(key(s[0]), key(s[0]));
  }

  /** So the sort does not depend on the order of its input. */
  lemma SortDependsOnMultiset<T>(a: seq<T>, b: seq<T>, key: T -> Key)
    requires multiset(a) == multiset(b)
    requires forall x, y :: x in multiset(a) && y in multiset(a) && key(x) == key(y) ==> x == y
    ensures SortBy(a, key) == SortBy(b, key)
  {
    SortIsSorted(a, key);
    SortIsSorted(b, key);
    SortKeeps(a, key);
    SortKeeps(b, key);
    var s := SortBy(a, key);
    forall i, j | 0 <= i < |s| && 0 <= j < |s| && key(s[i]) == key(s[j]) ensures s[i] == s[j] {
      assert s[i] in multiset(s) && s[j] in multiset(s);
    }
    SortedUnique(s, SortBy(b, key), key);
  }

  // ---- Permutations ---------------------------------------------------------------------------

  /** The head of `a`, wherever it stands in `b`. */
  lemma {:induction false} Extract<T>(a: seq<T>, b: seq<T>) returns (front: seq<T>, back: seq<T>)
    requires multiset(a) == multiset(b) && a != []
    ensures b == front + [a[0]] + back
    ensures multiset(front + back) == multiset(a[1..])
  {
    var j := PlaceOf(a, b, 0);
    front, back := b[..j], b[j + 1..];
    assert b == front + [a[0]] + back;
    assert multiset([a[0]] + (front + back)) == multiset(b);
    TailsMatch(a, [a[0]] + (front + back));
    assert ([a[0]] + (front + back))[1..] == front + back;
  }

  function Mapped<T, U>(s: seq<T>, f: T -> U): (r: seq<U>)
    ensures |r| == |s| && forall i :: 0 <= i < |s| ==> r[i] == f(s[i])
  {
    seq(|s|, i requires 0 <= i < |s| => f(s[i]))
  }

  lemma {:induction false} MappedPull<T, U>(front: seq<T>, x: T, back: seq<T>, f: T -> U)
    ensures multiset(Mapped(front + [x] + back, f)) == multiset{f(x)} + multiset(Mapped(front + back, f))
  {
    assert Mapped(front + [x] + back, f) == Mapped(front, f) + [f(x)] + Mapped(back, f);
    assert Mapped(front + back, f) == Mapped(front, f) + Mapped(back, f);
  }

  lemma {:induction false} MappedPermuted<T, U>(a: seq<T>, b: seq<T>, f: T -> U)
    requires multiset(a) == multiset(b)
    ensures multiset(Mapped(a, f)) == multiset(Mapped(b, f))
  {
    hide Mapped;
    SameSize(a, b);
    if a != [] {
      var front, back := Extract(a, b);
      MappedPermuted(a[1..], front + back, f);
      MappedPull(front, a[0], back, f);
      assert [] + [a[0]] + a[1..] == a && [] + a[1..] == a[1..];
      MappedPull([], a[0], a[1..], f);
    }
  }

  /** However the ties are broken, the same key stands at each place. */
  lemma {:induction false} SortedKeysAgree<T>(a: seq<T>, b: seq<T>, key: T -> Key, i: nat)
    requires Sorted(a, key) && Sorted(b, key) && multiset(a) == multiset(b) && i < |a|
    ensures |b| == |a| && key(a[i]) == key(b[i])
  {
    hide KeyLe;
    SameSize(a, b);
    var id := (k: Key) => k;
    MappedPermuted(a, b, key);
    SortedUnique(Mapped(a, key), Mapped(b, key), id);
    assert Mapped(a, key)[i] == key(a[i]) && Mapped(b, key)[i] == key(b[i]);
  }

  // ---- Where a key begins -----------------------------------------------------------------------

  predicate Below(k: Key, bound: Key) {
    KeyLe(k, bound) && k != bound
  }

  /** How many elements have a strictly smaller key. */
  function CountBelow<T>(s: seq<T>, key: T -> Key, bound: Key): (n: nat)
    ensures n <= |s|
  {
    if s == [] then 0 else
      CountBelow(s[..|s| - 1], key, bound) + (if Below(key(s[|s| - 1]), bound) then 1 else 0)
  }

  lemma {:induction false} CountBelowConcat<T>(a: seq<T>, b: seq<T>, key: T -> Key, bound: Key)
    ensures CountBelow(a + b, key, bound) == CountBelow(a, key, bound) + CountBelow(b, key, bound)
  {
    hide Below;
    if b == [] {
      assert a + b == a;
    } else {
      var n := |b| - 1;
      CountBelowConcat(a, b[..n], key, bound);
      assert (a + b)[..|a + b| - 1] == a + b[..n] && (a + b)[|a + b| - 1] == b[n];
    }
  }

  lemma {:induction false} CountBelowPull<T>(front: seq<T>, x: T, back: seq<T>, key: T -> Key, bound: Key)
    ensures CountBelow(front + [x] + back, key, bound) == CountBelow([x] + (front + back), key, bound)
  {
    hide CountBelow;
    CountBelowConcat(front + [x], back, key, bound);
    CountBelowConcat(front, [x], key, bound);
    CountBelowConcat([x], front + back, key, bound);
    CountBelowConcat(front, back, key, bound);
  }

  lemma {:induction false} CountBelowPermuted<T>(a: seq<T>, b: seq<T>, key: T -> Key, bound: Key)
    requires multiset(a) == multiset(b)
    ensures CountBelow(a, key, bound) == CountBelow(b, key, bound)
  {
    SameSize(a, b);
    if a != [] {
      var front, back := Extract(a, b);
      CountBelowPermuted(a[1..], front + back, key, bound);
      CountBelowPull(front, a[0], back, key, bound);
      CountBelowConcat([a[0]], front + back, key, bound);
      CountBelowConcat([a[0]], a[1..], key, bound);
      assert a == [a[0]] + a[1..];
    }
  }

  lemma {:induction false} NoneBelow<T>(s: seq<T>, key: T -> Key, bound: Key)
    requires forall i :: 0 <= i < |s| ==> KeyLe(bound, key(s[i]))
    ensures CountBelow(s, key, bound) == 0
  {
    if s != [] {
      NoneBelow(s[..|s| - 1], key, bound);
      if KeyLe(key(s[|s| - 1]), bound) { KeyAntisymmetric(key(s[|s| - 1]), bound); }
    }
  }

  /** In a sorted sequence, at most i elements are below the one at i. */
  lemma {:induction false} FewBelow<T>(s: seq<T>, key: T -> Key, i: nat)
    requires Sorted(s, key) && i < |s|
    ensures CountBelow(s, key, key(s[i])) <= i
  {
    hide CountBelow;
    assert s == s[..i] + s[i..];
    CountBelowConcat(s[..i], s[i..], key, key(s[i]));
    KeyTotal(key(s[i]), key(s[i]));
    NoneBelow(s[i..], key, key(s[i]));
  }

  /** Insertion splits a sequence at the last element that is not greater. */
  lemma {:induction false} InsertSplits<T>(s: seq<T>, x: T, key: T -> Key) returns (q: nat)
    ensures q <= |s| && Insert(s, x, key) == s[..q] + [x] + s[q..]
    ensures q > 0 ==> KeyLe(key(s[q - 1]), key(x))
    ensures forall i :: q <= i < |s| ==> !KeyLe(key(s[i]), key(x))
  {
    hide KeyLe;
    if s == [] || KeyLe(key(s[|s| - 1]), key(x)) {
      q := |s|;
      assert s[..q] == s && s[q..] == [];
    } else {
      var n := |s| - 1;
      q := InsertSplits(s[..n], x, key);
      assert s[..n][..q] == s[..q] && s[..n][q..] + [s[n]] == s[q..];
    }
  }

  lemma {:induction false} InsertedPlace<T>(s: seq<T>, x: T, key: T -> Key, c: nat)
    requires Sorted(s, key) && c < |s|
    ensures !KeyLe(key(s[c]), key(x)) ==> |Insert(s, x, key)| > c + 1 && Insert(s, x, key)[c + 1] == s[c]
    ensures KeyLe(key(s[c]), key(x)) ==> |Insert(s, x, key)| > c && Insert(s, x, key)[c] == s[c]
  {
    hide KeyLe, Insert;
    var q := InsertSplits(s, x, key);
    if !KeyLe(key(s[c]), key(x)) && c < q {
      if c < q - 1 { KeyTransitive(key(s[c]), key(s[q - 1]), key(x)); }
    }
    assert |s[..q]| == q && |s[q..]| == |s| - q;
  }

  /** The sort is stable: of the elements with one key, the first of the input comes first, right after those with
      smaller keys. */
  lemma {:induction false} FirstOfTies<T>(s: seq<T>, key: T -> Key)
    requires s != []
    ensures var c := CountBelow(s, key, key(s[0])); c < |SortBy(s, key)| && SortBy(s, key)[c] == s[0]
  {
    hide KeyLe;
    var n, k := |s| - 1, key(s[0]);
    if n == 0 {
      assert s[..0] == [] && SortBy(s, key) == [s[0]];
    } else {
      FirstOfTies(s[..n], key);
      SortIsSorted(s[..n], key);
      var c := CountBelow(s[..n], key, k);
      InsertedPlace(SortBy(s[..n], key), s[n], key, c);
      BelowIff(key(s[n]), k);
    }
  }

  lemma {:induction false} BelowIff(a: Key, b: Key)
    ensures Below(a, b) <==> !KeyLe(b, a)
  {
    KeyTotal(a, b);
    if KeyLe(a, b) && KeyLe(b, a) { KeyAntisymmetric(a, b); }
  }
}
