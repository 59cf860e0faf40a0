/** The exposure register of core/exposure.py: which rows it keeps, and that it depends only on the
    multiset of findings when no probe id holds an '@'. */
module Exposure {
  import opened Common
  import opened Sorting

  const MAX_ROWS: nat := 200

  /** One finding; `evidence` holds the text of each truthy entry. */
  datatype Finding = Finding(
    probeId: string, algorithm: string, classification: string, severity: string, evidence: map<string, string>)

  datatype Tier = Critical | High | Medium | Low

  datatype Row = Row(
    ref: string, algorithm: string, criticality: int, longevity: int, feasibility: int, exposure: int, tier: Tier)

  /** What the register takes from elsewhere: `str.lower` and `migration_score._is_hybrid`. */
  datatype Text = Text(lower: string -> string, hybrid: string -> bool)

  // ---- Axes -----------------------------------------------------------------------------------

  predicate Vulnerable(text: Text, f: Finding) {
    !text.hybrid(f.algorithm) && (f.classification == "sangat-tinggi" || f.classification == "tinggi")
  }

  function Criticality(f: Finding): (c: int)
    ensures 1 <= c <= 3
  {
    if f.severity == "crit" then 3 else if f.severity == "high" then 2 else 1
  }

  function Longevity(pid: string): (l: int)
    ensures 1 <= l <= 3
  {
    if "fs.cert" <= pid || "fs.keystore" <= pid || "fs.db" <= pid || "secrets." <= pid || "sign." <= pid
       || Contains(pid, ".kms") then 3
    else if "net." <= pid || "fs.conf" <= pid || "vpn." <= pid || Contains(pid, "tls") then 2
    else 1
  }

  function Feasibility(pid: string): (l: int)
    ensures 1 <= l <= 3
  {
    if "fs.conf" <= pid || "net." <= pid || Contains(pid, "config") then 1
    else if "code." <= pid || "sbom." <= pid || "fs.db" <= pid || "host." <= pid || "container." <= pid || "ot." <= pid
            || Contains(pid, "binary") || Contains(pid, "appliance") || Contains(pid, "firmware") then 3
    else 2
  }

  function TierOf(exposure: int): Tier {
    if exposure >= 18 then Critical else if exposure >= 9 then High else if exposure >= 4 then Medium else Low
  }

  // ---- Rows -----------------------------------------------------------------------------------

  function LocatorFrom(evidence: map<string, string>, keys: seq<string>): string {
    if keys == [] then "" else
      var val := Get(evidence, keys[0]);
      if val == "" then LocatorFrom(evidence, keys[1..]) else
        var text := if keys[0] == "host" && Get(evidence, "port") != "" then val + ":" + evidence["port"] else val;
        if |text| <= 60 then text else text[..60]
  }

  function Locator(f: Finding): string {
    LocatorFrom(f.evidence, ["endpoint", "host", "target", "path", "file", "location"])
  }

  function Ref(f: Finding): string {
    if Locator(f) == "" then f.probeId else f.probeId + "@" + Locator(f)
  }

  function RowFor(text: Text, f: Finding): Row {
    var pid := text.lower(f.probeId);
    var exposure := Criticality(f) * Longevity(pid) * Feasibility(pid);
    Row(Ref(f), f.algorithm, Criticality(f), Longevity(pid), Feasibility(pid), exposure, TierOf(exposure))
  }

  function Kept(text: Text, f: Finding): seq<Row> {
    if Vulnerable(text, f) then [RowFor(text, f)] else []
  }

  function Rows(text: Text, findings: seq<Finding>): seq<Row> {
    if findings == [] then [] else Kept(text, findings[0]) + Rows(text, findings[1..])
  }

  /** Worst exposure first, ties by reference and then by algorithm. */
  function RowKey(r: Row): Key {
    Key(-r.exposure, [r.ref, r.algorithm])
  }

  function Register(text: Text, findings: seq<Finding>): seq<Row> {
    var sorted := SortBy(Rows(text, findings), RowKey);
    if |sorted| <= MAX_ROWS then sorted else sorted[..MAX_ROWS]
  }

  // ---- What a row says ---------------------------------------------------------------------------

  /** Some word of the list begins s, or some word of the other stands in it. */
  ghost predicate Mentions(s: string, starts: set<string>, parts: set<string>) {
    (exists w :: w in starts && w <= s) || (exists w :: w in parts && StandsIn(w, s))
  }

  ghost predicate StandsIn(w: string, s: string) {
    exists i :: 0 <= i <= |s| && w <= s[i..]
  }

  ghost predicate LongLived(pid: string) {
    Mentions(pid, {"fs.cert", "fs.keystore", "fs.db", "secrets.", "sign."}, {".kms"})
  }

  ghost predicate InTransit(pid: string) {
    Mentions(pid, {"net.", "fs.conf", "vpn."}, {"tls"})
  }

  ghost predicate ConfigFlip(pid: string) {
    Mentions(pid, {"fs.conf", "net."}, {"config"})
  }

  ghost predicate BakedIn(pid: string) {
    Mentions(pid, {"code.", "sbom.", "fs.db", "host.", "container.", "ot."}, {"binary", "appliance", "firmware"})
  }

  lemma StandsIff(w: string, s: string)
    ensures StandsIn(w, s) <==> Contains(s, w)
  {
    hide Contains;
    ContainsIff(s, w);
  }

  lemma MentionsOnce(pid: string, starts: set<string>, part: string)
    ensures Mentions(pid, starts, {part}) <==> (exists w :: w in starts && w <= pid) || Contains(pid, part)
  {
    hide Contains, StandsIn;
    StandsIff(part, pid);
  }

  lemma LongLivedIff(pid: string)
    ensures LongLived(pid) <==>
      || "fs.cert" <= pid || "fs.keystore" <= pid || "fs.db" <= pid || "secrets." <= pid || "sign." <= pid
      || Contains(pid, ".kms")
  {
    hide Contains, Mentions;
    MentionsOnce(pid, {"fs.cert", "fs.keystore", "fs.db", "secrets.", "sign."}, ".kms");
  }

  lemma InTransitIff(pid: string)
    ensures InTransit(pid) <==> "net." <= pid || "fs.conf" <= pid || "vpn." <= pid || Contains(pid, "tls")
  {
    hide Contains, Mentions;
    MentionsOnce(pid, {"net.", "fs.conf", "vpn."}, "tls");
  }

  lemma ConfigFlipIff(pid: string)
    ensures ConfigFlip(pid) <==> "fs.conf" <= pid || "net." <= pid || Contains(pid, "config")
  {
    hide Contains, Mentions;
    MentionsOnce(pid, {"fs.conf", "net."}, "config");
  }

  lemma BakedInIff(pid: string)
    ensures BakedIn(pid) <==>
      || "code." <= pid || "sbom." <= pid || "fs.db" <= pid || "host." <= pid || "container." <= pid || "ot." <= pid
      || Contains(pid, "binary") || Contains(pid, "appliance") || Contains(pid, "firmware")
  {
    hide Contains, StandsIn;
    StandsIff("binary", pid);
    StandsIff("appliance", pid);
    StandsIff("firmware", pid);
  }

  /** How long the secret lives: long-lived key material, transport and configuration, anything else. */
  lemma LongevityIff(pid: string)
    ensures Longevity(pid) == 3 <==> LongLived(pid)
    ensures Longevity(pid) == 2 <==> InTransit(pid) && !LongLived(pid)
  {
    hide Contains, LongLived, InTransit;
    LongLivedIff(pid);
    InTransitIff(pid);
  }

  /** How hard the fix is: a configuration flip first, then what is baked in, anything else between. */
  lemma FeasibilityIff(pid: string)
    ensures Feasibility(pid) == 1 <==> ConfigFlip(pid)
    ensures Feasibility(pid) == 3 <==> BakedIn(pid) && !ConfigFlip(pid)
  {
    hide Contains, ConfigFlip, BakedIn;
    ConfigFlipIff(pid);
    BakedInIff(pid);
  }

  /** The thresholds on the product, and that a tier never falls as it grows. */
  lemma TierIff(exposure: int, more: int)
    ensures TierOf(exposure) == Critical <==> exposure >= 18
    ensures TierOf(exposure) == High <==> 9 <= exposure < 18
    ensures TierOf(exposure) == Medium <==> 4 <= exposure < 9
  {
  }

  lemma ProductBound(c: int, l: int, f: int)
    requires 1 <= c <= 3 && 1 <= l <= 3 && 1 <= f <= 3
    ensures 1 <= c * l * f <= 27
  {
    assert c * l == l || c * l == l + l || c * l == l + l + l;
    var p := c * l;
    assert p * f == p || p * f == p + p || p * f == p + p + p;
  }

  /** A row is the product of its three axes, the first from the severity, the others from the lower-cased probe id. */
  lemma RowMeans(text: Text, f: Finding)
    ensures var r, pid := RowFor(text, f), text.lower(f.probeId);
      && r.exposure == r.criticality * r.longevity * r.feasibility && 1 <= r.exposure <= 27
      && r.tier == TierOf(r.exposure) && r.algorithm == f.algorithm && r.ref == Ref(f)
      && (r.criticality == 3 <==> f.severity == "crit") && (r.criticality == 2 <==> f.severity == "high")
      && (r.longevity == 3 <==> LongLived(pid)) && (r.longevity == 2 <==> InTransit(pid) && !LongLived(pid))
      && (r.feasibility == 1 <==> ConfigFlip(pid)) && (r.feasibility == 3 <==> BakedIn(pid) && !ConfigFlip(pid))
  {
    hide Longevity, Feasibility, Ref, LongLived, InTransit, ConfigFlip, BakedIn;
    var r, pid := RowFor(text, f), text.lower(f.probeId);
    LongevityIff(pid);
    FeasibilityIff(pid);
    ProductBound(r.criticality, r.longevity, r.feasibility);
  }

  /** The text of one evidence entry, a host with its port. */
  function EntryText(evidence: map<string, string>, key: string): string {
    if key == "host" && Get(evidence, "port") != "" then Get(evidence, key) + ":" + Get(evidence, "port")
    else Get(evidence, key)
  }

  const LOCATOR_KEYS := ["endpoint", "host", "target", "path", "file", "location"]

  lemma {:induction false} LocatorFromIff(evidence: map<string, string>, keys: seq<string>, i: nat)
    requires i < |keys| && Get(evidence, keys[i]) != "" && forall j :: 0 <= j < i ==> Get(evidence, keys[j]) == ""
    ensures var text := EntryText(evidence, keys[i]);
      LocatorFrom(evidence, keys) == if |text| <= 60 then text else text[..60]
    decreases i
  {
    if i > 0 { LocatorFromIff(evidence, keys[1..], i - 1); }
  }

  lemma {:induction false} NoEntry(evidence: map<string, string>, keys: seq<string>)
    requires forall j :: 0 <= j < |keys| ==> Get(evidence, keys[j]) == ""
    ensures LocatorFrom(evidence, keys) == ""
  {
    if keys != [] { NoEntry(evidence, keys[1..]); }
  }

  /** The locator is the first 60 characters of the first entry there is, in the order of the six keys; without one the
      reference is the probe id alone. */
  lemma RefIff(f: Finding, i: nat)
    requires i <= 6 && forall j :: 0 <= j < i ==> Get(f.evidence, LOCATOR_KEYS[j]) == ""
    requires i < 6 ==> Get(f.evidence, LOCATOR_KEYS[i]) != ""
    ensures i == 6 ==> Ref(f) == f.probeId
    ensures i < 6 ==> var text := EntryText(f.evidence, LOCATOR_KEYS[i]);
      Ref(f) == f.probeId + "@" + if |text| <= 60 then text else text[..60]
  {
    if i < 6 { LocatorFromIff(f.evidence, LOCATOR_KEYS, i); } else { NoEntry(f.evidence, LOCATOR_KEYS); }
  }

  lemma {:induction false} RowsIff(text: Text, findings: seq<Finding>, r: Row)
    ensures r in Rows(text, findings) <==>
      exists f :: && f in findings && !text.hybrid(f.algorithm) && f.classification in {"sangat-tinggi", "tinggi"}
                  && r == RowFor(text, f)
  {
    hide RowFor;
    if findings != [] {
      RowsIff(text, findings[1..], r);
      assert findings == [findings[0]] + findings[1..];
    }
  }

  /** Worst first: exposure falls along the register, equal exposures come by reference and then by algorithm. */
  lemma WorstFirst(text: Text, findings: seq<Finding>, i: nat, j: nat)
    requires i < j < |Register(text, findings)|
    ensures var a, b := Register(text, findings)[i], Register(text, findings)[j];
      && a.exposure >= b.exposure
      && (a.exposure == b.exposure ==> if a.ref == b.ref then StrLe(a.algorithm, b.algorithm) else StrLe(a.ref, b.ref))
  {
    hide Rows, SortBy;
    var rest := RegisterKeepsTheLeast(text, findings);
    var a, b := Register(text, findings)[i], Register(text, findings)[j];
    KeyOrder(a, b);
  }

  lemma KeyOrder(a: Row, b: Row)
    requires KeyLe(RowKey(a), RowKey(b))
    ensures a.exposure >= b.exposure
    ensures a.exposure == b.exposure ==> if a.ref == b.ref then StrLe(a.algorithm, b.algorithm) else StrLe(a.ref, b.ref)
  {
    PairLe(a.ref, a.algorithm, b.ref, b.algorithm);
    assert RowKey(a).names == [a.ref, a.algorithm] && RowKey(b).names == [b.ref, b.algorithm];
    StrTotal(a.algorithm, a.algorithm);
  }

  lemma PairLe(a: string, b: string, c: string, d: string)
    ensures LexLe([a, b], [c, d]) <==> if a == c then (b == d || StrLe(b, d)) else StrLe(a, c)
  {
    assert [b][1..] == [] && [d][1..] == [] && LexLe([], []);
    assert LexLe([b], [d]) <==> b == d || StrLe(b, d);
    assert [a, b][1..] == [b] && [c, d][1..] == [d];
  }

  // ---- The register keeps the least rows --------------------------------------------------------

  /** The kept rows and some rest are all the rows; at most 200 are kept and every one that fits; no row
      left out is ahead of a kept one; the kept rows are in order. */
  lemma RegisterKeepsTheLeast(text: Text, findings: seq<Finding>) returns (rest: seq<Row>)
    ensures multiset(Register(text, findings) + rest) == multiset(Rows(text, findings))
    ensures Sorted(Register(text, findings), RowKey)
    ensures |Register(text, findings)| <= 200
    ensures |Register(text, findings)| < 200 ==> rest == []
    ensures forall i, j :: 0 <= i < |Register(text, findings)| && 0 <= j < |rest| ==>
      KeyLe(RowKey(Register(text, findings)[i]), RowKey(rest[j]))
  {
    var rows := Rows(text, findings);
    var sorted := SortBy(rows, RowKey);
    SortIsSorted(rows, RowKey);
    SortKeeps(rows, RowKey);
    var n := if |sorted| <= MAX_ROWS then |sorted| else MAX_ROWS;
    rest := sorted[n..];
    assert sorted == sorted[..n] + rest;
    assert Register(text, findings) == sorted[..n];
  }

  // ---- The key determines the row -----------------------------------------------------------------

  ghost predicate NoAt(findings: seq<Finding>) {
    forall i :: 0 <= i < |findings| ==> '@' !in findings[i].probeId
  }

  /** What stands before the first '@'. */
  function ProbeOf(ref: string): string {
    if ref == "" || ref[0] == '@' then "" else [ref[0]] + ProbeOf(ref[1..])
  }

  lemma {:induction false} ProbeOfConcat(pid: string, tail: string)
    requires '@' !in pid && (tail == "" || tail[0] == '@')
    ensures ProbeOf(pid + tail) == pid
  {
    if pid == "" {
      assert pid + tail == tail;
    } else {
      ProbeOfConcat(pid[1..], tail);
      assert (pid + tail)[1..] == pid[1..] + tail;
      assert pid == [pid[0]] + pid[1..];
    }
  }

  lemma {:induction false} ProbeOfRef(f: Finding)
    requires '@' !in f.probeId
    ensures ProbeOf(Ref(f)) == f.probeId
  {
    var loc := Locator(f);
    if loc == "" {
      ProbeOfConcat(f.probeId, "");
      assert f.probeId + "" == f.probeId;
    } else {
      ProbeOfConcat(f.probeId, "@" + loc);
      assert f.probeId + ("@" + loc) == f.probeId + "@" + loc;
    }
  }

  lemma {:induction false} Cancel(a: int, b: int, k: int)
    requires k >= 1 && a * k == b * k
    ensures a == b
  {
    assert (a - b) * k == 0;
  }

  lemma {:induction false} CancelProduct(a: int, b: int, l: int, f: int)
    requires l >= 1 && f >= 1 && a * l * f == b * l * f
    ensures a == b
  {
    Cancel(a * l, b * l, f);
    Cancel(a, b, l);
  }

  /** Equal keys, equal rows: the reference gives the probe id, and that two of the three factors. */
  lemma {:induction false} KeyDeterminesRow(text: Text, f: Finding, g: Finding)
    requires '@' !in f.probeId && '@' !in g.probeId
    requires RowKey(RowFor(text, f)) == RowKey(RowFor(text, g))
    ensures RowFor(text, f) == RowFor(text, g)
  {
    var a, b := RowFor(text, f), RowFor(text, g);
    assert RowKey(a).names[0] == a.ref && RowKey(b).names[0] == b.ref;
    assert RowKey(a).names[1] == a.algorithm && RowKey(b).names[1] == b.algorithm;
    assert RowKey(a).rank == -a.exposure && RowKey(b).rank == -b.exposure;
    ProbeOfRef(f);
    ProbeOfRef(g);
    var pid := text.lower(f.probeId);
    CancelProduct(Criticality(f), Criticality(g), Longevity(pid), Feasibility(pid));
  }

  // ---- Rows of a permutation ----------------------------------------------------------------------

  lemma {:induction false} RowsConcat(text: Text, a: seq<Finding>, b: seq<Finding>)
    ensures Rows(text, a + b) == Rows(text, a) + Rows(text, b)
  {
    hide Kept;
    if a == [] {
      assert a + b == b;
    } else {
      RowsConcat(text, a[1..], b);
      assert (a + b)[1..] == a[1..] + b && (a + b)[0] == a[0];
      ConcatAssoc(Kept(text, a[0]), Rows(text, a[1..]), Rows(text, b));
    }
  }

  lemma {:induction false} RowsPull(text: Text, a: seq<Finding>, x: Finding, b: seq<Finding>)
    ensures multiset(Rows(text, a + [x] + b)) == multiset(Rows(text, [x] + (a + b)))
  {
    RowsConcat(text, a + [x], b);
    RowsConcat(text, a, [x]);
    RowsConcat(text, [x], a + b);
    RowsConcat(text, a, b);
  }

  lemma {:induction false} RowsOfPermutation(text: Text, a: seq<Finding>, b: seq<Finding>)
    requires multiset(a) == multiset(b)
    ensures multiset(Rows(text, a)) == multiset(Rows(text, b))
  {
    SameSize(a, b);
    if a != [] {
      var front, back := Extract(a, b);
      RowsOfPermutation(text, a[1..], front + back);
      RowsPull(text, front, a[0], back);
      RowsConcat(text, [a[0]], a[1..]);
      RowsConcat(text, [a[0]], front + back);
      assert a == [a[0]] + a[1..];
    }
  }

  lemma {:induction false} RowComesFrom(text: Text, findings: seq<Finding>, r: Row) returns (i: nat)
    requires r in Rows(text, findings)
    ensures i < |findings| && Vulnerable(text, findings[i]) && RowFor(text, findings[i]) == r
  {
    if Vulnerable(text, findings[0]) && RowFor(text, findings[0]) == r {
      i := 0;
    } else {
      var j := RowComesFrom(text, findings[1..], r);
      i := j + 1;
    }
  }

  // ---- When the order of the findings matters ---------------------------------------------------

  /** Two vulnerable findings with one sort key, for which there is still room in the register, have equal rows. */
  ghost predicate NoVisibleTie(text: Text, findings: seq<Finding>) {
    forall i, j :: 0 <= i < |findings| && 0 <= j < |findings| ==>
      Vulnerable(text, findings[i]) && Vulnerable(text, findings[j]) ==>
        Agree(text, Rows(text, findings), findings[i], findings[j])
  }

  ghost predicate Agree(text: Text, rows: seq<Row>, f: Finding, g: Finding) {
    var x, y := RowFor(text, f), RowFor(text, g);
    RowKey(x) == RowKey(y) && CountBelow(rows, RowKey, RowKey(x)) < MAX_ROWS ==> x == y
  }

  /** Every arrangement of the findings gives the same register. */
  ghost predicate OrderFree(text: Text, findings: seq<Finding>) {
    forall other :: multiset(other) == multiset(findings) ==> Register(text, other) == Register(text, findings)
  }

  lemma {:induction false} RegisterAt(text: Text, findings: seq<Finding>, i: nat)
    requires i < MAX_ROWS && i < |SortBy(Rows(text, findings), RowKey)|
    ensures i < |Register(text, findings)| && Register(text, findings)[i] == SortBy(Rows(text, findings), RowKey)[i]
  {
  }

  lemma {:induction false} TiesAgree(text: Text, findings: seq<Finding>, x: Row, y: Row)
    requires NoVisibleTie(text, findings)
    requires x in Rows(text, findings) && y in Rows(text, findings) && RowKey(x) == RowKey(y)
    requires CountBelow(Rows(text, findings), RowKey, RowKey(x)) < MAX_ROWS
    ensures x == y
  {
    hide RowFor, Rows, RowKey;
    var i := RowComesFrom(text, findings, x);
    var j := RowComesFrom(text, findings, y);
    assert Agree(text, Rows(text, findings), findings[i], findings[j]);
  }

  lemma {:induction false} SamePlace(text: Text, a: seq<Finding>, b: seq<Finding>, i: nat)
    requires multiset(a) == multiset(b) && NoVisibleTie(text, a)
    requires i < MAX_ROWS && i < |SortBy(Rows(text, a), RowKey)|
    ensures i < |SortBy(Rows(text, b), RowKey)|
    ensures SortBy(Rows(text, a), RowKey)[i] == SortBy(Rows(text, b), RowKey)[i]
  {
    hide NoVisibleTie, Rows, SortBy, CountBelow, RowKey, KeyLe;
    var rows, rows' := Rows(text, a), Rows(text, b);
    var s, s' := SortBy(rows, RowKey), SortBy(rows', RowKey);
    RowsOfPermutation(text, a, b);
    SortIsSorted(rows, RowKey);
    SortIsSorted(rows', RowKey);
    SortKeeps(rows, RowKey);
    SortKeeps(rows', RowKey);
    SortedKeysAgree(s, s', RowKey, i);
    FewBelow(s, RowKey, i);
    CountBelowPermuted(s, rows, RowKey, RowKey(s[i]));
    var p := PlaceOf(s, rows, i);
    var q := PlaceOf(s', rows, i);
    TiesAgree(text, a, s[i], s'[i]);
  }

  lemma {:induction false} NoTieOrderFree(text: Text, a: seq<Finding>, b: seq<Finding>)
    requires multiset(a) == multiset(b) && NoVisibleTie(text, a)
    ensures Register(text, a) == Register(text, b)
  {
    hide NoVisibleTie, Rows, SortBy;
    var s, s' := SortBy(Rows(text, a), RowKey), SortBy(Rows(text, b), RowKey);
    RowsOfPermutation(text, a, b);
    SortKeeps(Rows(text, a), RowKey);
    SortKeeps(Rows(text, b), RowKey);
    SameSize(s, s');
    forall i | 0 <= i < |s| && i < MAX_ROWS ensures s[i] == s'[i] { SamePlace(text, a, b, i); }
  }

  function Except(a: seq<Finding>, i: nat): seq<Finding>
    requires i < |a|
  {
    a[..i] + a[i + 1..]
  }

  lemma {:induction false} PullFront(a: seq<Finding>, i: nat)
    requires i < |a|
    ensures multiset([a[i]] + Except(a, i)) == multiset(a)
  {
    assert a == a[..i] + [a[i]] + a[i + 1..];
  }

  /** Two findings of a list, moved to its front. */
  lemma {:induction false} ToFront(a: seq<Finding>, i: nat, j: nat) returns (rest: seq<Finding>)
    requires i < |a| && j < |a| && i != j
    ensures multiset([a[i], a[j]] + rest) == multiset(a) && multiset([a[j], a[i]] + rest) == multiset(a)
  {
    hide Except;
    PullFront(a, i);
    var others, k := Except(a, i), if j < i then j else j - 1;
    ExceptAt(a, i, j);
    PullFront(others, k);
    rest := Except(others, k);
    assert [a[i], a[j]] + rest == [a[i]] + ([a[j]] + rest);
  }

  lemma {:induction false} ExceptAt(a: seq<Finding>, i: nat, j: nat)
    requires i < |a| && j < |a| && i != j
    ensures var k := if j < i then j else j - 1; k < |Except(a, i)| && Except(a, i)[k] == a[j]
  {
  }

  lemma {:induction false} FirstShows(text: Text, f: Finding, rest: seq<Finding>)
    requires Vulnerable(text, f) && CountBelow(Rows(text, [f] + rest), RowKey, RowKey(RowFor(text, f))) < MAX_ROWS
    ensures var c := CountBelow(Rows(text, [f] + rest), RowKey, RowKey(RowFor(text, f)));
      c < |Register(text, [f] + rest)| && Register(text, [f] + rest)[c] == RowFor(text, f)
  {
    hide Register, SortBy, CountBelow, RowFor, RowKey;
    var rows := Rows(text, [f] + rest);
    assert ([f] + rest)[0] == f && rows[0] == RowFor(text, f);
    FirstOfTies(rows, RowKey);
    RegisterAt(text, [f] + rest, CountBelow(rows, RowKey, RowKey(RowFor(text, f))));
  }

  lemma {:induction false} OrderFreeAgrees(text: Text, a: seq<Finding>, i: nat, j: nat)
    requires OrderFree(text, a) && i < |a| && j < |a| && Vulnerable(text, a[i]) && Vulnerable(text, a[j])
    ensures Agree(text, Rows(text, a), a[i], a[j])
  {
    hide Register, Rows, CountBelow, RowFor, RowKey, Vulnerable;
    var x, y := RowFor(text, a[i]), RowFor(text, a[j]);
    if i != j && RowKey(x) == RowKey(y) && CountBelow(Rows(text, a), RowKey, RowKey(x)) < MAX_ROWS {
      var rest := ToFront(a, i, j);
      var b, b' := [a[i], a[j]] + rest, [a[j], a[i]] + rest;
      assert b == [a[i]] + ([a[j]] + rest) && b' == [a[j]] + ([a[i]] + rest);
      RowsOfPermutation(text, b, a);
      RowsOfPermutation(text, b', a);
      CountBelowPermuted(Rows(text, b), Rows(text, a), RowKey, RowKey(x));
      CountBelowPermuted(Rows(text, b'), Rows(text, a), RowKey, RowKey(x));
      assert Register(text, b) == Register(text, a) && Register(text, b') == Register(text, a);
      FirstShows(text, a[i], [a[j]] + rest);
      FirstShows(text, a[j], [a[i]] + rest);
    }
  }

  /** Exactly when the register does not depend on the order in which findings arrive. */
  lemma OrderFreeIff(text: Text, findings: seq<Finding>)
    ensures OrderFree(text, findings) <==> NoVisibleTie(text, findings)
  {
    hide Register, Agree;
    if NoVisibleTie(text, findings) {
      forall other | multiset(other) == multiset(findings) ensures Register(text, other) == Register(text, findings) {
        NoTieOrderFree(text, findings, other);
      }
    }
    if OrderFree(text, findings) {
      forall i, j | 0 <= i < |findings| && 0 <= j < |findings|
          && Vulnerable(text, findings[i]) && Vulnerable(text, findings[j])
        ensures Agree(text, Rows(text, findings), findings[i], findings[j])
      {
        OrderFreeAgrees(text, findings, i, j);
      }
    }
  }

  /** In particular it does not when no probe id holds an '@': then the key determines the row. */
  lemma RegisterDependsOnMultiset(text: Text, a: seq<Finding>, b: seq<Finding>)
    requires multiset(a) == multiset(b)
    requires NoAt(a)
    ensures Register(text, a) == Register(text, b)
  {
    hide Register, RowFor, RowKey, CountBelow;
    forall i, j | 0 <= i < |a| && 0 <= j < |a| && Vulnerable(text, a[i]) && Vulnerable(text, a[j])
      ensures Agree(text, Rows(text, a), a[i], a[j])
    {
      if RowKey(RowFor(text, a[i])) == RowKey(RowFor(text, a[j])) { KeyDeterminesRow(text, a[i], a[j]); }
    }
    NoTieOrderFree(text, a, b);
  }

  // ---- With an '@' in a probe id the order can matter ---------------------------------------------

  lemma {:induction false} TailContains(head: string, part: string)
    ensures Contains(head + part, part)
  {
    if head == "" {
      assert head + part == part;
    } else {
      TailContains(head[1..], part);
      assert (head + part)[1..] == head[1..] + part;
    }
  }

  /** Ids that are of no family the two axes name. */
  predicate Plain(pid: string) {
    && |pid| >= 4 && pid[0] == 'h' && (|pid| > 4 ==> pid[4] == '@')
    && 'c' !in pid && 'b' !in pid && 'a' !in pid && 'f' !in pid && '.' !in pid
  }

  lemma {:induction false} NeitherEasyNorHard(pid: string)
    requires Plain(pid)
    ensures Feasibility(pid) == 2
  {
    NotContained(pid, "config", 'c');
    NotContained(pid, "binary", 'b');
    NotContained(pid, "appliance", 'a');
    NotContained(pid, "firmware", 'f');
    assert "host."[4] == '.';
  }

  lemma {:induction false} ShortLived(pid: string)
    requires Plain(pid)
    ensures Longevity(pid) == (if Contains(pid, "tls") then 2 else 1)
  {
    NotContained(pid, ".kms", '.');
  }

  lemma {:induction false} NoLocator(evidence: map<string, string>, keys: seq<string>)
    requires evidence == map[]
    ensures LocatorFrom(evidence, keys) == ""
  {
    if keys != [] { NoLocator(evidence, keys[1..]); }
  }

  lemma {:induction false} EndpointLocator(evidence: map<string, string>, keys: seq<string>, at: string)
    requires keys != [] && keys[0] == "endpoint" && 0 < |at| <= 60
    requires "endpoint" in evidence && evidence["endpoint"] == at
    ensures LocatorFrom(evidence, keys) == at
  {
    assert keys[0][0] == 'e' && "host"[0] == 'h';
  }

  lemma {:induction false} PlainRow(text: Text, f: Finding, tls: bool)
    requires Plain(f.probeId) && Contains(f.probeId, "tls") == tls && text.lower(f.probeId) == f.probeId
    requires Criticality(f) == (if tls then 1 else 2)
    ensures RowFor(text, f) == Row(Ref(f), f.algorithm, Criticality(f), if tls then 2 else 1, 2, 4, Medium)
  {
    ShortLived(f.probeId);
    NeitherEasyNorHard(f.probeId);
  }

  /** Two findings, swapped, give two registers: the references agree and the products too, not the factors. */
  lemma {:induction false} OrderMattersWithAt(text: Text, f: Finding, g: Finding)
    requires f == Finding("host@tls", "RSA-2048", "tinggi", "med", map[])
    requires g == Finding("host", "RSA-2048", "tinggi", "high", map["endpoint" := "tls"])
    requires text.lower("host@tls") == "host@tls" && text.lower("host") == "host" && !text.hybrid("RSA-2048")
    ensures Register(text, [f, g]) != Register(text, [g, f])
  {
    hide Register, CountBelow;
    AtExample(text, f);
    PlainExample(text, g);
    TwoFindings(text, f, g);
    TwoFindings(text, g, f);
  }

  lemma {:induction false} OneRow(text: Text, g: Finding)
    ensures Rows(text, [g]) == if Vulnerable(text, g) then [RowFor(text, g)] else []
  {
    assert [g][1..] == [] && Rows(text, []) == [];
  }

  /** Nothing can be below the second of two. */
  lemma {:induction false} TwoFindings(text: Text, f: Finding, g: Finding)
    requires Vulnerable(text, f) && RowKey(RowFor(text, f)) == RowKey(RowFor(text, g))
    ensures Register(text, [f, g]) != [] && Register(text, [f, g])[0] == RowFor(text, f)
  {
    hide Register, RowFor, RowKey, Vulnerable;
    var rows, k := Rows(text, [f, g]), RowKey(RowFor(text, f));
    assert [f] + [g] == [f, g] && [f, g][1..] == [g] && [g][1..] == [];
    var tail := Rows(text, [g]);
    OneRow(text, g);
    assert rows == [RowFor(text, f)] + tail;
    KeyTotal(k, k);
    NoneBelow(rows, RowKey, k);
    FirstShows(text, f, [g]);
  }

  lemma {:induction false} AtExample(text: Text, f: Finding)
    requires f.probeId == "host@tls" && f.severity == "med" && f.evidence == map[]
    requires text.lower(f.probeId) == f.probeId
    ensures RowFor(text, f) == Row(f.probeId, f.algorithm, 1, 2, 2, 4, Medium)
  {
    hide Contains, LocatorFrom, Longevity, Feasibility;
    var head, part := "host@", "tls";
    TailContains(head, part);
    assert head + part == f.probeId;
    NoLocator(f.evidence, ["endpoint", "host", "target", "path", "file", "location"]);
    PlainRow(text, f, true);
  }

  lemma {:induction false} PlainExample(text: Text, g: Finding)
    requires g.probeId == "host" && g.severity == "high" && g.evidence == map["endpoint" := "tls"]
    requires text.lower(g.probeId) == g.probeId
    ensures RowFor(text, g) == Row("host@tls", g.algorithm, 2, 1, 2, 4, Medium)
  {
    NotContained(g.probeId, "tls", 'l');
    EndpointLocator(g.evidence, ["endpoint", "host", "target", "path", "file", "location"], "tls");
    assert "host" + "@" + "tls" == "host@tls";
    PlainRow(text, g, false);
  }
}
