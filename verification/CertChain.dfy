/** Chain assembly of probes/fs_cert_chain.py: issuer indexes, the walk from a leaf with its cycle guard,
    and the search for the weakest key or hash on the chain. */
module CertChain {
  import opened Common

  datatype Class = SangatTinggi | Tinggi | Sederhana | Rendah | PqcReady | Info | Error

  function Rank(c: Class): nat {
    match c
    case SangatTinggi => 0
    case Tinggi => 1
    case Sederhana => 2
    case Rendah => 3
    case PqcReady => 4
    case Info => 5
    case Error => 5
  }

  /** A distinguished name and its RFC 4514 text; names are compared whole or by text, as the probe does. */
  datatype Name = Name(encoded: string, text: string)

  datatype Algorithm = Algorithm(name: string, cls: Class)

  /** A certificate file, with its classified public key and signature hash in `algorithms`. */
  datatype Cert = Cert(
    path: string, subject: Name, issuer: Name, ski: Option<string>, aki: Option<string>, ca: bool,
    algorithms: seq<Algorithm>)

  datatype Index = Index(bySki: map<string, Cert>, bySubject: map<string, Cert>)

  datatype Finding = Finding(leaf: string, chain: seq<string>, algorithm: string, cls: Class, weakest: string)

  predicate SelfIssued(c: Cert) {
    c.subject == c.issuer
  }

  // ---- Indexes ----------------------------------------------------------------------------------

  /** `m` maps each key held by some certificate to the first certificate that holds it. */
  ghost predicate FirstHolders(m: map<string, Cert>, certs: seq<Cert>, key: Cert -> Option<string>) {
    && (forall k :: k in m ==>
        exists i :: 0 <= i < |certs| && IsFirst(certs, key, i) && key(certs[i]) == Some(k) && m[k] == certs[i])
    && (forall i :: 0 <= i < |certs| && key(certs[i]).Some? ==> key(certs[i]).value in m)
  }

  ghost predicate IsFirst(certs: seq<Cert>, key: Cert -> Option<string>, i: int)
    requires 0 <= i < |certs|
  {
    forall j :: 0 <= j < i ==> key(certs[j]) != key(certs[i])
  }

  function SkiKey(c: Cert): Option<string> { c.ski }
  function SubjectKey(c: Cert): Option<string> { Some(c.subject.text) }

  function SetDefault(m: map<string, Cert>, k: Option<string>, c: Cert): map<string, Cert> {
    if k.None? || k.value in m then m else m[k.value := c]
  }

  lemma {:induction false} SetDefaultStep(m: map<string, Cert>, certs: seq<Cert>, key: Cert -> Option<string>, n: nat)
    requires n < |certs| && FirstHolders(m, certs[..n], key)
    ensures FirstHolders(SetDefault(m, key(certs[n]), certs[n]), certs[..n + 1], key)
  {
    var before, after := certs[..n], certs[..n + 1];
    var r := SetDefault(m, key(certs[n]), certs[n]);
    assert after == before + [certs[n]];
    forall k | k in r
      ensures exists i :: 0 <= i < |after| && IsFirst(after, key, i) && key(after[i]) == Some(k) && r[k] == after[i]
    {
      if k in m {
        var i :| 0 <= i < |before| && IsFirst(before, key, i) && key(before[i]) == Some(k) && m[k] == before[i];
        assert IsFirst(after, key, i) && after[i] == before[i];
      } else {
        assert IsFirst(after, key, n) && key(after[n]) == Some(k);
      }
    }
  }

  method BuildIndex(certs: seq<Cert>) returns (index: Index)
    ensures FirstHolders(index.bySki, certs, SkiKey)
    ensures FirstHolders(index.bySubject, certs, SubjectKey)
  {
    var bySki: map<string, Cert>, bySubject: map<string, Cert> := map[], map[];
    for n := 0 to |certs|
      invariant FirstHolders(bySki, certs[..n], SkiKey)
      invariant FirstHolders(bySubject, certs[..n], SubjectKey)
    {
      SetDefaultStep(bySki, certs, SkiKey, n);
      SetDefaultStep(bySubject, certs, SubjectKey, n);
      if certs[n].ski.Some? && certs[n].ski.value !in bySki {
        bySki := bySki[certs[n].ski.value := certs[n]];
      }
      if certs[n].subject.text !in bySubject {
        bySubject := bySubject[certs[n].subject.text := certs[n]];
      }
    }
    assert certs[..|certs|] == certs;
    index := Index(bySki, bySubject);
  }

  // ---- The walk ---------------------------------------------------------------------------------

  /** The key identifier wins when it is indexed; the issuer's name is the fallback. */
  function Parent(c: Cert, index: Index): Option<Cert> {
    if c.aki.Some? && c.aki.value in index.bySki then Some(index.bySki[c.aki.value])
    else if c.issuer.text in index.bySubject then Some(index.bySubject[c.issuer.text])
    else None
  }

  ghost function Subjects(chain: seq<Cert>): set<string> {
    set i | 0 <= i < |chain| :: chain[i].subject.text
  }

  /** Each certificate is followed by its parent; only the last may be self-issued; no subject repeats. */
  ghost predicate Linked(chain: seq<Cert>, leaf: Cert, index: Index) {
    && chain != [] && chain[0] == leaf
    && (forall i :: 0 <= i < |chain| - 1 ==> !SelfIssued(chain[i]) && Parent(chain[i], index) == Some(chain[i + 1]))
    && (forall i, j :: 0 <= i < j < |chain| ==> chain[i].subject.text != chain[j].subject.text)
  }

  /** Why the walk may stop: at a root, without a parent, or where the parent closes a cycle. */
  ghost predicate Ends(chain: seq<Cert>, index: Index)
    requires chain != []
  {
    var last := chain[|chain| - 1];
    SelfIssued(last) || Parent(last, index).None? || Parent(last, index).value.subject.text in Subjects(chain)
  }

  ghost predicate IsWalk(chain: seq<Cert>, leaf: Cert, index: Index) {
    Linked(chain, leaf, index) && Ends(chain, index)
  }

  ghost function Everyone(leaf: Cert, index: Index): set<string> {
    {leaf.subject.text}
    + (set k | k in index.bySki :: index.bySki[k].subject.text)
    + (set k | k in index.bySubject :: index.bySubject[k].subject.text)
  }

  lemma ParentIsIndexed(c: Cert, leaf: Cert, index: Index)
    requires Parent(c, index).Some?
    ensures Parent(c, index).value.subject.text in Everyone(leaf, index)
  {
    if c.aki.Some? && c.aki.value in index.bySki {
      assert index.bySki[c.aki.value].subject.text in (set k | k in index.bySki :: index.bySki[k].subject.text);
    } else {
      assert index.bySubject[c.issuer.text].subject.text
        in (set k | k in index.bySubject :: index.bySubject[k].subject.text);
    }
  }

  lemma SubjectsGrow(chain: seq<Cert>, c: Cert)
    ensures Subjects(chain + [c]) == Subjects(chain) + {c.subject.text}
  {
    var r := chain + [c];
    forall t | t in Subjects(chain) + {c.subject.text} ensures t in Subjects(r) {
      if t == c.subject.text {
        assert r[|chain|] == c;
      } else {
        var i :| 0 <= i < |chain| && chain[i].subject.text == t;
        assert r[i] == chain[i];
      }
    }
  }

  lemma Shrinks(all: set<string>, seen: set<string>, t: string)
    requires t in all && t !in seen
    ensures |all - (seen + {t})| < |all - seen|
  {
    assert all - (seen + {t}) == (all - seen) - {t};
  }

  ghost predicate Walking(chain: seq<Cert>, leaf: Cert, index: Index, cur: Cert, seen: set<string>) {
    Linked(chain, leaf, index) && cur == chain[|chain| - 1] && seen == Subjects(chain)
  }

  lemma WalkStep(chain: seq<Cert>, leaf: Cert, index: Index, cur: Cert, seen: set<string>, parent: Cert)
    requires Walking(chain, leaf, index, cur, seen) && !SelfIssued(cur)
    requires Parent(cur, index) == Some(parent) && parent.subject.text !in seen
    ensures Walking(chain + [parent], leaf, index, parent, seen + {parent.subject.text})
    ensures |Everyone(leaf, index) - (seen + {parent.subject.text})| < |Everyone(leaf, index) - seen|
  {
    ParentIsIndexed(cur, leaf, index);
    Shrinks(Everyone(leaf, index), seen, parent.subject.text);
    SubjectsGrow(chain, parent);
    LinkedGrows(chain, leaf, index);
  }

  lemma WalkStart(leaf: Cert, index: Index)
    ensures Walking([leaf], leaf, index, leaf, {leaf.subject.text})
  {
    assert [leaf][0] == leaf;
  }

  /** Terminates on every index, cyclic ones included. */
  method Walk(leaf: Cert, index: Index) returns (chain: seq<Cert>)
    ensures IsWalk(chain, leaf, index)
  {
    chain := [leaf];
    var seen := {leaf.subject.text};
    var cur := leaf;
    WalkStart(leaf, index);
    while !SelfIssued(cur)
      invariant Walking(chain, leaf, index, cur, seen)
      decreases |Everyone(leaf, index) - seen|
    {
      var parent := Parent(cur, index);
      if parent.None? { break; }
      if parent.value.subject.text in seen { break; }
      WalkStep(chain, leaf, index, cur, seen, parent.value);
      seen := seen + {parent.value.subject.text};
      chain := chain + [parent.value];
      cur := parent.value;
    }
  }

  lemma LinkedGrows(chain: seq<Cert>, leaf: Cert, index: Index)
    requires Linked(chain, leaf, index) && !Ends(chain, index)
    ensures Linked(chain + [Parent(chain[|chain| - 1], index).value], leaf, index)
  {
    var p := Parent(chain[|chain| - 1], index).value;
    forall i | 0 <= i < |chain| ensures chain[i].subject.text != p.subject.text {
      assert chain[i].subject.text in Subjects(chain);
    }
  }

  /** So there is one walk from a leaf: the chain is determined by the leaf and the index. */
  lemma {:induction false} WalkIsUnique(a: seq<Cert>, b: seq<Cert>, leaf: Cert, index: Index)
    requires IsWalk(a, leaf, index) && IsWalk(b, leaf, index)
    ensures a == b
  {
    var n := if |a| <= |b| then |a| else |b|;
    WalksAgree(a, b, leaf, index, n);
    if |a| < |b| { LongerContinues(a, b, leaf, index); }
    if |b| < |a| { LongerContinues(b, a, leaf, index); }
    assert a == a[..n] && b == b[..n];
  }

  lemma {:induction false} WalksAgree(a: seq<Cert>, b: seq<Cert>, leaf: Cert, index: Index, n: nat)
    requires Linked(a, leaf, index) && Linked(b, leaf, index) && n <= |a| && n <= |b|
    ensures a[..n] == b[..n]
  {
    if n > 1 {
      WalksAgree(a, b, leaf, index, n - 1);
      assert a[..n - 1][n - 2] == b[..n - 1][n - 2];
      assert a[n - 1] == b[n - 1];
      assert a[..n] == a[..n - 1] + [a[n - 1]] && b[..n] == b[..n - 1] + [b[n - 1]];
    }
  }

  lemma {:induction false} LongerContinues(a: seq<Cert>, b: seq<Cert>, leaf: Cert, index: Index)
    requires Linked(a, leaf, index) && Linked(b, leaf, index) && |a| < |b| && a == b[..|a|]
    ensures !Ends(a, index)
  {
    var n := |a|;
    assert a[n - 1] == b[n - 1] && Parent(b[n - 1], index) == Some(b[n]);
    forall i | 0 <= i < n ensures a[i].subject.text != b[n].subject.text { assert a[i] == b[i]; }
  }

  // ---- The weakest link ---------------------------------------------------------------------------

  /** A place on the chain: the `j`th algorithm of the `i`th certificate. */
  predicate Place(chain: seq<Cert>, i: int, j: int) {
    0 <= i < |chain| && 0 <= j < |chain[i].algorithms|
  }

  function RankAt(chain: seq<Cert>, i: int, j: int): nat
    requires Place(chain, i, j)
  {
    Rank(chain[i].algorithms[j].cls)
  }

  predicate Before(i: int, j: int, n: int, m: int) {
    i < n || (i == n && j < m)
  }

  /** Among the places before (n, m): (i, j) is the first of least rank, and weaker than PQC-ready. */
  ghost predicate LeastBefore(chain: seq<Cert>, i: int, j: int, n: int, m: int) {
    && Place(chain, i, j) && Before(i, j, n, m) && RankAt(chain, i, j) < Rank(PqcReady)
    && (forall p, q :: Place(chain, p, q) && Before(p, q, n, m) ==> RankAt(chain, i, j) <= RankAt(chain, p, q))
    && (forall p, q :: Place(chain, p, q) && Before(p, q, i, j) ==> RankAt(chain, i, j) < RankAt(chain, p, q))
  }

  ghost predicate StrongBefore(chain: seq<Cert>, n: int, m: int) {
    forall p, q :: Place(chain, p, q) && Before(p, q, n, m) ==> RankAt(chain, p, q) >= Rank(PqcReady)
  }

  /** That place holds this algorithm, on the certificate of this path. */
  ghost predicate FoundAt(chain: seq<Cert>, i: int, j: int, n: int, m: int, alg: string, cls: Class, path: string) {
    LeastBefore(chain, i, j, n, m) && chain[i].algorithms[j] == Algorithm(alg, cls) && path == chain[i].path
  }

  /** The loop's three variables after the places before (n, m). */
  ghost predicate Tracks(chain: seq<Cert>, n: int, m: int, alg: string, cls: Class, path: string) {
    || (cls == PqcReady && alg == "" && chain != [] && path == chain[0].path && StrongBefore(chain, n, m))
    || (exists i, j :: FoundAt(chain, i, j, n, m, alg, cls, path))
  }

  lemma TracksNext(chain: seq<Cert>, n: nat, m: nat, alg: string, cls: Class, path: string)
    requires Place(chain, n, m) && Tracks(chain, n, m, alg, cls, path)
    ensures
      if RankAt(chain, n, m) < Rank(cls)
      then Tracks(chain, n, m + 1, chain[n].algorithms[m].name, chain[n].algorithms[m].cls, chain[n].path)
      else Tracks(chain, n, m + 1, alg, cls, path)
  {
    assert forall p, q :: Place(chain, p, q) && Before(p, q, n, m + 1) ==> Before(p, q, n, m) || (p == n && q == m);
    if RankAt(chain, n, m) < Rank(cls) {
      var a := chain[n].algorithms[m];
      assert FoundAt(chain, n, m, n, m + 1, a.name, a.cls, chain[n].path);
    } else if exists i, j :: FoundAt(chain, i, j, n, m, alg, cls, path) {
      var i, j :| FoundAt(chain, i, j, n, m, alg, cls, path);
      assert FoundAt(chain, i, j, n, m + 1, alg, cls, path);
    }
  }

  lemma TracksRow(chain: seq<Cert>, n: nat, alg: string, cls: Class, path: string)
    requires n < |chain| && Tracks(chain, n, |chain[n].algorithms|, alg, cls, path)
    ensures Tracks(chain, n + 1, 0, alg, cls, path)
  {
    var m := |chain[n].algorithms|;
    assert forall p, q :: Place(chain, p, q) ==> (Before(p, q, n, m) <==> Before(p, q, n + 1, 0));
    if exists i, j :: FoundAt(chain, i, j, n, m, alg, cls, path) {
      var i, j :| FoundAt(chain, i, j, n, m, alg, cls, path);
      assert FoundAt(chain, i, j, n + 1, 0, alg, cls, path);
    }
  }

  method WeakestLink(chain: seq<Cert>) returns (alg: string, cls: Class, path: string)
    requires chain != []
    ensures Tracks(chain, |chain|, 0, alg, cls, path)
  {
    alg, cls, path := "", PqcReady, chain[0].path;
    for n := 0 to |chain|
      invariant Tracks(chain, n, 0, alg, cls, path)
    {
      for m := 0 to |chain[n].algorithms|
        invariant Tracks(chain, n, m, alg, cls, path)
      {
        TracksNext(chain, n, m, alg, cls, path);
        if Rank(chain[n].algorithms[m].cls) < Rank(cls) {
          cls := chain[n].algorithms[m].cls;
          alg := chain[n].algorithms[m].name;
          path := chain[n].path;
        }
      }
      TracksRow(chain, n, alg, cls, path);
    }
  }

  // ---- Findings -----------------------------------------------------------------------------------

  function Paths(chain: seq<Cert>): seq<string> {
    seq(|chain|, i requires 0 <= i < |chain| => chain[i].path)
  }

  /** The finding names the first algorithm of least rank on the chain and the certificate that has it; that rank is
      below PQC-ready, and no algorithm of the chain ranks lower. */
  ghost predicate NamesWeakest(f: Finding, leaf: Cert, chain: seq<Cert>) {
    && f.leaf == leaf.path && f.chain == Paths(chain) && f.algorithm != ""
    && Rank(f.cls) < Rank(PqcReady)
    && (exists i, j :: FoundAt(chain, i, j, |chain|, 0, f.algorithm, f.cls, f.weakest))
    && (forall i, j :: Place(chain, i, j) ==> Rank(f.cls) <= RankAt(chain, i, j))
  }

  /** Nothing on the chain ranks below PQC-ready, or the first of least rank has no name. */
  ghost predicate NothingWeak(chain: seq<Cert>) {
    || StrongBefore(chain, |chain|, 0)
    || (exists i, j :: LeastBefore(chain, i, j, |chain|, 0) && chain[i].algorithms[j].name == "")
  }

  lemma TracksAll(chain: seq<Cert>, i: int, j: int)
    requires Place(chain, i, j)
    ensures Before(i, j, |chain|, 0)
  {
  }

  /** There is only one first place of least rank. */
  lemma LeastIsUnique(chain: seq<Cert>, i: int, j: int, p: int, q: int)
    requires LeastBefore(chain, i, j, |chain|, 0) && LeastBefore(chain, p, q, |chain|, 0)
    ensures i == p && j == q
  {
  }

  lemma WeakNamed(chain: seq<Cert>, i: int, j: int)
    requires LeastBefore(chain, i, j, |chain|, 0) && chain[i].algorithms[j].name != ""
    ensures !NothingWeak(chain)
    ensures forall p, q :: Place(chain, p, q) ==> RankAt(chain, i, j) <= RankAt(chain, p, q)
  {
    forall p, q | Place(chain, p, q) ensures RankAt(chain, i, j) <= RankAt(chain, p, q) { TracksAll(chain, p, q); }
    forall p, q | LeastBefore(chain, p, q, |chain|, 0) ensures p == i && q == j { LeastIsUnique(chain, i, j, p, q); }
  }

  lemma WeakestIsNamed(chain: seq<Cert>, leaf: Cert, alg: string, cls: Class, path: string)
    requires Tracks(chain, |chain|, 0, alg, cls, path)
    ensures alg == "" <==> NothingWeak(chain)
    ensures alg != "" ==> NamesWeakest(Finding(leaf.path, Paths(chain), alg, cls, path), leaf, chain)
  {
    if alg != "" {
      var i, j :| FoundAt(chain, i, j, |chain|, 0, alg, cls, path);
      WeakNamed(chain, i, j);
    } else if !StrongBefore(chain, |chain|, 0) {
      var i, j :| FoundAt(chain, i, j, |chain|, 0, alg, cls, path);
      assert chain[i].algorithms[j].name == "";
    }
  }

  method WalkAndEmit(leaf: Cert, index: Index) returns (finding: Option<Finding>, chain: seq<Cert>)
    ensures IsWalk(chain, leaf, index)
    ensures finding.None? <==> NothingWeak(chain)
    ensures finding.Some? ==> NamesWeakest(finding.value, leaf, chain)
  {
    chain := Walk(leaf, index);
    var alg, cls, path := WeakestLink(chain);
    WeakestIsNamed(chain, leaf, alg, cls, path);
    if alg == "" {
      finding := None;
    } else {
      finding := Some(Finding(leaf.path, Paths(chain), alg, cls, path));
    }
  }

  ghost predicate AllNamed(chain: seq<Cert>) {
    forall i, j :: Place(chain, i, j) ==> chain[i].algorithms[j].name != ""
  }

  lemma StrongIff(chain: seq<Cert>)
    requires AllNamed(chain)
    ensures NothingWeak(chain) <==> forall i, j :: Place(chain, i, j) ==> RankAt(chain, i, j) >= Rank(PqcReady)
  {
    if NothingWeak(chain) {
      forall i, j | Place(chain, i, j) ensures RankAt(chain, i, j) >= Rank(PqcReady) { TracksAll(chain, i, j); }
    }
  }

  /** Some certificate, not issued by its own subject, names `t` as its issuer. */
  ghost predicate Issues(certs: seq<Cert>, t: string) {
    exists i :: 0 <= i < |certs| && certs[i].issuer.text != certs[i].subject.text && certs[i].issuer.text == t
  }

  /** A certificate is walked from unless it is a CA that issues another certificate. */
  ghost predicate IsLeaf(certs: seq<Cert>, c: Cert) {
    !(Issues(certs, c.subject.text) && c.ca)
  }

  ghost predicate IsNamed(c: Cert, chain: seq<Cert>, findings: seq<Finding>) {
    exists f :: f in findings && NamesWeakest(f, c, chain)
  }

  /** What the probe owes one leaf: a finding for the weakest link of its chain if there is a weak one, else none. */
  ghost predicate Settled(c: Cert, index: Index, findings: seq<Finding>) {
    exists chain :: IsWalk(chain, c, index) && (NothingWeak(chain) || IsNamed(c, chain, findings))
  }

  /** A finding is owed to a leaf whose chain has a weak link. */
  ghost predicate Justified(f: Finding, certs: seq<Cert>, index: Index) {
    exists c, chain :: c in certs && IsLeaf(certs, c) && IsWalk(chain, c, index)
                       && !NothingWeak(chain) && NamesWeakest(f, c, chain)
  }

  method IssuedSubjects(certs: seq<Cert>) returns (issued: set<string>)
    ensures forall t :: t in issued <==> Issues(certs, t)
  {
    issued := {};
    for n := 0 to |certs|
      invariant forall t :: t in issued <==>
        exists i :: 0 <= i < n && certs[i].issuer.text != certs[i].subject.text && certs[i].issuer.text == t
    {
      if certs[n].issuer.text != certs[n].subject.text { issued := issued + {certs[n].issuer.text}; }
    }
  }

  ghost predicate Progress(certs: seq<Cert>, n: int, index: Index, findings: seq<Finding>)
    requires 0 <= n <= |certs|
  {
    && |findings| <= n
    && (forall i :: 0 <= i < n && IsLeaf(certs, certs[i]) ==> Settled(certs[i], index, findings))
    && (forall k :: 0 <= k < |findings| ==> Justified(findings[k], certs, index))
  }

  lemma SettledGrows(c: Cert, index: Index, findings: seq<Finding>, f: Finding)
    requires Settled(c, index, findings)
    ensures Settled(c, index, findings + [f])
  {
    var chain :| IsWalk(chain, c, index) && (NothingWeak(chain) || IsNamed(c, chain, findings));
    if !NothingWeak(chain) {
      var g :| g in findings && NamesWeakest(g, c, chain);
      assert g in findings + [f];
    }
  }

  lemma ProgressSilent(certs: seq<Cert>, n: nat, index: Index, findings: seq<Finding>, chain: seq<Cert>)
    requires n < |certs| && Progress(certs, n, index, findings)
    requires IsWalk(chain, certs[n], index) && NothingWeak(chain)
    ensures Progress(certs, n + 1, index, findings)
  {
    assert Settled(certs[n], index, findings);
  }

  lemma ProgressSkips(certs: seq<Cert>, n: nat, index: Index, findings: seq<Finding>)
    requires n < |certs| && Progress(certs, n, index, findings) && !IsLeaf(certs, certs[n])
    ensures Progress(certs, n + 1, index, findings)
  {
  }

  lemma SettledBy(c: Cert, index: Index, findings: seq<Finding>, chain: seq<Cert>, f: Finding)
    requires IsWalk(chain, c, index) && NamesWeakest(f, c, chain) && f in findings
    ensures Settled(c, index, findings)
  {
  }

  lemma JustifiedBy(f: Finding, certs: seq<Cert>, index: Index, c: Cert, chain: seq<Cert>)
    requires c in certs && IsLeaf(certs, c) && IsWalk(chain, c, index)
    requires !NothingWeak(chain) && NamesWeakest(f, c, chain)
    ensures Justified(f, certs, index)
  {
  }

  lemma ProgressEmits(certs: seq<Cert>, n: nat, index: Index, findings: seq<Finding>, chain: seq<Cert>, f: Finding)
    requires n < |certs| && Progress(certs, n, index, findings) && IsLeaf(certs, certs[n])
    requires IsWalk(chain, certs[n], index) && !NothingWeak(chain) && NamesWeakest(f, certs[n], chain)
    ensures Progress(certs, n + 1, index, findings + [f])
  {
    hide IsLeaf, IsWalk, NothingWeak, NamesWeakest, Settled, Justified;
    var all := findings + [f];
    assert all[|findings|] == f;
    SettledBy(certs[n], index, all, chain, f);
    JustifiedBy(f, certs, index, certs[n], chain);
    forall i | 0 <= i < n && IsLeaf(certs, certs[i]) ensures Settled(certs[i], index, all) {
      SettledGrows(certs[i], index, findings, f);
    }
    forall k | 0 <= k < |all| ensures Justified(all[k], certs, index) {
      if k < |findings| { assert all[k] == findings[k]; }
    }
  }

  /** Every leaf is settled, and every finding is owed to one. */
  method EmitChains(certs: seq<Cert>) returns (findings: seq<Finding>, index: Index)
    ensures FirstHolders(index.bySki, certs, SkiKey) && FirstHolders(index.bySubject, certs, SubjectKey)
    ensures Progress(certs, |certs|, index, findings)
  {
    index := BuildIndex(certs);
    var issued := IssuedSubjects(certs);
    findings := [];
    for n := 0 to |certs|
      invariant Progress(certs, n, index, findings)
    {
      if !(certs[n].subject.text in issued && certs[n].ca) {
        var finding, chain := WalkAndEmit(certs[n], index);
        if finding.Some? {
          ProgressEmits(certs, n, index, findings, chain, finding.value);
          findings := findings + [finding.value];
        } else {
          ProgressSilent(certs, n, index, findings, chain);
        }
      } else {
        ProgressSkips(certs, n, index, findings);
      }
    }
  }

  /** So, with every algorithm named, the probe says nothing about a leaf if and only if every key and hash on its chain
      is at least PQC-ready; and a finding with the leaf's path and chain is there whenever one is not. */
  lemma SilentIffStrong(certs: seq<Cert>, index: Index, findings: seq<Finding>, c: Cert, chain: seq<Cert>)
    requires Progress(certs, |certs|, index, findings) && c in certs && IsLeaf(certs, c)
    requires IsWalk(chain, c, index) && AllNamed(chain)
    ensures IsNamed(c, chain, findings)
       <==> !(forall i, j :: Place(chain, i, j) ==> RankAt(chain, i, j) >= Rank(PqcReady))
  {
    hide IsLeaf, IsWalk, Justified;
    StrongIff(chain);
    var k :| 0 <= k < |certs| && certs[k] == c;
    assert Settled(certs[k], index, findings);
    var walked :| IsWalk(walked, c, index) && (NothingWeak(walked) || IsNamed(c, walked, findings));
    WalkIsUnique(walked, chain, c, index);
    if f :| f in findings && NamesWeakest(f, c, chain) { NamedIsWeak(f, c, chain); }
  }

  lemma NamedIsWeak(f: Finding, leaf: Cert, chain: seq<Cert>)
    requires NamesWeakest(f, leaf, chain)
    ensures !(forall i, j :: Place(chain, i, j) ==> RankAt(chain, i, j) >= Rank(PqcReady))
  {
    var i, j :| FoundAt(chain, i, j, |chain|, 0, f.algorithm, f.cls, f.weakest);
    assert Place(chain, i, j) && RankAt(chain, i, j) < Rank(PqcReady);
  }

  // ---- The same without indexes and ranks ------------------------------------------------------------

  /** p is the first certificate whose key identifier is the authority key identifier of c, or, when c has none or no
      certificate has it, the first whose subject is c's issuer. */
  ghost predicate ParentIn(certs: seq<Cert>, c: Cert, p: Cert) {
    if c.aki.Some? && HasSki(certs, c.aki)
    then exists i :: 0 <= i < |certs| && certs[i] == p && p.ski == c.aki
                     && forall j :: 0 <= j < i ==> certs[j].ski != c.aki
    else exists i :: 0 <= i < |certs| && certs[i] == p && p.subject.text == c.issuer.text
                     && forall j :: 0 <= j < i ==> certs[j].subject.text != c.issuer.text
  }

  ghost predicate HasSki(certs: seq<Cert>, key: Option<string>) {
    exists i :: 0 <= i < |certs| && certs[i].ski == key
  }

  lemma HolderIff(m: map<string, Cert>, certs: seq<Cert>, key: Cert -> Option<string>, k: string, p: Cert)
    requires FirstHolders(m, certs, key)
    ensures k in m <==> exists i :: 0 <= i < |certs| && key(certs[i]) == Some(k)
    ensures k in m && m[k] == p <==>
      exists i :: 0 <= i < |certs| && certs[i] == p && key(p) == Some(k)
                  && forall j :: 0 <= j < i ==> key(certs[j]) != Some(k)
  {
    if k in m {
      var i :| 0 <= i < |certs| && IsFirst(certs, key, i) && key(certs[i]) == Some(k) && m[k] == certs[i];
      assert forall j :: 0 <= j < i ==> key(certs[j]) != Some(k);
    }
  }

  /** The indexes find the parent the certificates themselves determine: the key identifier comes first. */
  lemma ParentIff(certs: seq<Cert>, index: Index, c: Cert, p: Cert)
    requires FirstHolders(index.bySki, certs, SkiKey) && FirstHolders(index.bySubject, certs, SubjectKey)
    ensures Parent(c, index) == Some(p) <==> ParentIn(certs, c, p)
  {
    hide FirstHolders;
    if c.aki.Some? { HolderIff(index.bySki, certs, SkiKey, c.aki.value, p); }
    HolderIff(index.bySubject, certs, SubjectKey, c.issuer.text, p);
  }

  /** The chain of a leaf among the certificates: parent after parent, with distinct subjects, as long as there is a
      next one and the last is not self-issued. */
  ghost predicate ChainOf(certs: seq<Cert>, leaf: Cert, chain: seq<Cert>) {
    && chain != [] && chain[0] == leaf
    && (forall i :: 0 <= i < |chain| - 1 ==>
        chain[i].subject != chain[i].issuer && ParentIn(certs, chain[i], chain[i + 1]))
    && (forall i, j :: 0 <= i < j < |chain| ==> chain[i].subject.text != chain[j].subject.text)
    && var last := chain[|chain| - 1];
       last.subject == last.issuer
       || forall p :: ParentIn(certs, last, p) ==>
            exists i :: 0 <= i < |chain| && chain[i].subject.text == p.subject.text
  }

  lemma ChainIff(certs: seq<Cert>, index: Index, leaf: Cert, chain: seq<Cert>)
    requires FirstHolders(index.bySki, certs, SkiKey) && FirstHolders(index.bySubject, certs, SubjectKey)
    ensures IsWalk(chain, leaf, index) <==> ChainOf(certs, leaf, chain)
  {
    hide FirstHolders, Parent, ParentIn;
    forall c, p ensures Parent(c, index) == Some(p) <==> ParentIn(certs, c, p) { ParentIff(certs, index, c, p); }
  }

  lemma WeakIff(c: Class)
    ensures Rank(c) < Rank(PqcReady) <==> c in {SangatTinggi, Tinggi, Sederhana, Rendah}
  {
  }

  /** From the weakest class to the strongest. */
  lemma RanksAscend(i: nat, j: nat)
    requires i < j < 6
    ensures var order := [SangatTinggi, Tinggi, Sederhana, Rendah, PqcReady, Info]; Rank(order[i]) < Rank(order[j])
    ensures Rank(Error) == Rank(Info)
  {
  }

  /** The probe, from certificates to findings: a leaf whose chain is `chain` has a finding exactly when some key or
      hash on it is of one of the four weak classes. */
  lemma FindingIff(certs: seq<Cert>, index: Index, findings: seq<Finding>, c: Cert, chain: seq<Cert>)
    requires FirstHolders(index.bySki, certs, SkiKey) && FirstHolders(index.bySubject, certs, SubjectKey)
    requires Progress(certs, |certs|, index, findings) && c in certs && IsLeaf(certs, c)
    requires ChainOf(certs, c, chain) && AllNamed(chain)
    ensures IsNamed(c, chain, findings) <==>
      exists i, j :: Place(chain, i, j) && chain[i].algorithms[j].cls in {SangatTinggi, Tinggi, Sederhana, Rendah}
  {
    hide FirstHolders, Progress, IsLeaf, ChainOf, AllNamed, IsNamed, IsWalk, Rank;
    ChainIff(certs, index, c, chain);
    SilentIffStrong(certs, index, findings, c, chain);
    forall i, j | Place(chain, i, j)
      ensures RankAt(chain, i, j) >= Rank(PqcReady) <==>
        chain[i].algorithms[j].cls !in {SangatTinggi, Tinggi, Sederhana, Rendah}
    {
      WeakIff(chain[i].algorithms[j].cls);
    }
  }
}
