/** `drift_rows` of core/parity.py: the change markers between two scans of a fleet host. */
module Drift {
  import opened Common
  import opened Parity
  import opened Sorting

  const DRIFT_PROBE := "fleet.drift"
  const MAX_DRIFT_ROWS: nat := 500
  const MAX_DRIFT_NORMALISE: nat := 50_000

  type Id = seq<string>
  datatype Entry = Entry(id: Id, row: Row)
  datatype Change = Change(added: bool, id: Id, row: Row)

  /** What is stored: one marker per change, or the totals. */
  datatype Marker = Changed(added: bool, probeId: string, algorithm: string, title: string)
                  | Summary(gained: nat, lost: nat)

  predicate IsDrift(r: Row) {
    r.probeId == DRIFT_PROBE
  }

  function Kept(r: Row): seq<Row> {
    if IsDrift(r) then [] else [r]
  }

  function Drop(rows: seq<Row>): seq<Row> {
    if rows == [] then [] else Kept(rows[0]) + Drop(rows[1..])
  }

  /** Assigning to a dictionary: a known key keeps its place and takes the new row. */
  function Put(d: seq<Entry>, e: Entry): (r: seq<Entry>) {
    if d == [] then [e]
    else if d[0].id == e.id then [e] + d[1..]
    else [d[0]] + Put(d[1..], e)
  }

  /** The dictionary comprehension over `rows`. */
  function Dict(rows: seq<Row>, id: Row -> Id): seq<Entry> {
    if rows == [] then [] else Put(Dict(rows[..|rows| - 1], id), Entry(id(rows[|rows| - 1]), rows[|rows| - 1]))
  }

  predicate Has(d: seq<Entry>, k: Id) {
    exists i :: 0 <= i < |d| && d[i].id == k
  }

  /** The entries of `d` whose key `other` lacks. */
  function Missing(d: seq<Entry>, other: seq<Entry>, added: bool): seq<Change> {
    if d == [] then [] else
      (if Has(other, d[0].id) then [] else [Change(added, d[0].id, d[0].row)]) + Missing(d[1..], other, added)
  }

  function ChangeKey(c: Change): Key {
    Key(0, [if c.added then "added" else "removed"] + c.id)
  }

  /** The keys gained, or the keys lost. */
  function Side(previous: seq<Row>, current: seq<Row>, id: Row -> Id, added: bool): seq<Change> {
    var p, c := Dict(previous, id), Dict(current, id);
    if added then Missing(c, p, true) else Missing(p, c, false)
  }

  function Changes(previous: seq<Row>, current: seq<Row>, id: Row -> Id): seq<Change> {
    SortBy(Side(previous, current, id, true) + Side(previous, current, id, false), ChangeKey)
  }

  function Mark(c: Change): Marker {
    Changed(c.added, c.row.probeId, c.row.algorithm, Take(c.row.title, MAX_TITLE_NORMALISE))
  }

  function MarkAll(changes: seq<Change>): (r: seq<Marker>)
    ensures |r| == |changes|
    ensures forall i :: 0 <= i < |r| ==> r[i] == Mark(changes[i])
  {
    seq(|changes|, i requires 0 <= i < |changes| => Mark(changes[i]))
  }

  function CountAdded(changes: seq<Change>): (n: nat)
    ensures n <= |changes|
  {
    if changes == [] then 0 else (if changes[0].added then 1 else 0) + CountAdded(changes[1..])
  }

  function RawId(r: Row): Id {
    [r.probeId, r.algorithm, r.title]
  }

  function Ids(rows: seq<Row>, id: Row -> Id): set<Id> {
    set i | 0 <= i < |rows| :: id(rows[i])
  }

  /** Above the limit: raw triples, and the totals only. */
  function RawDrift(prev: seq<Row>, cur: seq<Row>): (seq<Marker>, nat) {
    var p, c := Ids(prev, RawId), Ids(cur, RawId);
    var added, removed := |c - p|, |p - c|;
    (if added > 0 || removed > 0 then [Summary(added, removed)] else [], added + removed)
  }

  function Store(changes: seq<Change>): seq<Marker> {
    if |changes| <= MAX_DRIFT_ROWS then MarkAll(changes)
    else MarkAll(changes[..MAX_DRIFT_ROWS]) + [Summary(CountAdded(changes), |changes| - CountAdded(changes))]
  }

  function KeyOf(text: Text): Row -> Id {
    r => ParityKey(text, r)
  }

  predicate AboveLimit(prev: seq<Row>, cur: seq<Row>) {
    |prev| + |cur| > MAX_DRIFT_NORMALISE
  }

  /** `drift_rows`. */
  function DriftRows(text: Text, previous: seq<Row>, current: seq<Row>): (seq<Marker>, nat) {
    var prev, cur := Drop(previous), Drop(current);
    if AboveLimit(prev, cur) then RawDrift(prev, cur) else
      var changes := Changes(prev, cur, KeyOf(text));
      (Store(changes), |changes|)
  }

  // ---- Dictionaries -----------------------------------------------------------------------------

  ghost predicate Distinct(d: seq<Entry>) {
    forall i, j :: 0 <= i < j < |d| ==> d[i].id != d[j].id
  }

  ghost function Keys(d: seq<Entry>): set<Id> {
    set i | 0 <= i < |d| :: d[i].id
  }

  lemma {:induction false} KeysCons(d: seq<Entry>)
    requires d != []
    ensures Keys(d) == {d[0].id} + Keys(d[1..])
    ensures Distinct(d) ==> Distinct(d[1..]) && d[0].id !in Keys(d[1..])
  {
    forall k | k in Keys(d) ensures k in {d[0].id} + Keys(d[1..]) {
      var i :| 0 <= i < |d| && d[i].id == k;
      if i > 0 { assert d[1..][i - 1].id == k; }
    }
    forall k | k in {d[0].id} + Keys(d[1..]) ensures k in Keys(d) {
      if k != d[0].id {
        var i :| 0 <= i < |d[1..]| && d[1..][i].id == k;
        assert d[i + 1].id == k;
      } else {
        assert d[0].id == k;
      }
    }
  }

  lemma {:induction false} DistinctCons(e: Entry, d: seq<Entry>)
    requires Distinct(d) && e.id !in Keys(d)
    ensures Distinct([e] + d)
  {
    var r := [e] + d;
    forall i, j | 0 <= i < j < |r| ensures r[i].id != r[j].id {
      assert r[j] == d[j - 1] && d[j - 1].id in Keys(d);
    }
  }

  lemma {:induction false} PutKeys(d: seq<Entry>, e: Entry)
    requires Distinct(d)
    ensures Distinct(Put(d, e)) && Keys(Put(d, e)) == Keys(d) + {e.id}
  {
    if d == [] {
      assert [e][0] == e;
      KeysCons([e]);
    } else {
      KeysCons(d);
      var r := Put(d, e);
      if d[0].id == e.id {
        assert r[1..] == d[1..];
        DistinctCons(e, d[1..]);
      } else {
        PutKeys(d[1..], e);
        assert r[1..] == Put(d[1..], e);
        DistinctCons(d[0], Put(d[1..], e));
      }
      KeysCons(r);
    }
  }

  lemma {:induction false} IdsGrow(rows: seq<Row>, id: Row -> Id)
    requires rows != []
    ensures Ids(rows, id) == Ids(rows[..|rows| - 1], id) + {id(rows[|rows| - 1])}
  {
    var n := |rows| - 1;
    forall k | k in Ids(rows, id) ensures k in Ids(rows[..n], id) + {id(rows[n])} {
      var i :| 0 <= i < |rows| && id(rows[i]) == k;
      if i < n { assert rows[..n][i] == rows[i]; }
    }
    forall k | k in Ids(rows[..n], id) + {id(rows[n])} ensures k in Ids(rows, id) {
      if k in Ids(rows[..n], id) {
        var i :| 0 <= i < n && id(rows[..n][i]) == k;
        assert rows[i] == rows[..n][i];
      }
    }
  }

  lemma {:induction false} DictKeys(rows: seq<Row>, id: Row -> Id)
    ensures Distinct(Dict(rows, id)) && Keys(Dict(rows, id)) == Ids(rows, id)
  {
    if rows != [] {
      var n := |rows| - 1;
      DictKeys(rows[..n], id);
      PutKeys(Dict(rows[..n], id), Entry(id(rows[n]), rows[n]));
      IdsGrow(rows, id);
    }
  }

  /** Every entry holds a scanned row under that row's own key. */
  lemma {:induction false} PutMember(d: seq<Entry>, e: Entry, i: nat)
    requires i < |Put(d, e)|
    ensures Put(d, e)[i] == e || Put(d, e)[i] in d
  {
    if d != [] && d[0].id != e.id && i > 0 { PutMember(d[1..], e, i - 1); }
  }

  lemma {:induction false} DictRows(rows: seq<Row>, id: Row -> Id, i: nat)
    requires i < |Dict(rows, id)|
    ensures var e := Dict(rows, id)[i]; e.row in rows && e.id == id(e.row)
  {
    if rows != [] {
      var n := |rows| - 1;
      var d := Dict(rows[..n], id);
      PutMember(d, Entry(id(rows[n]), rows[n]), i);
      var e := Dict(rows, id)[i];
      if e in d {
        var j :| 0 <= j < |d| && d[j] == e;
        DictRows(rows[..n], id, j);
      }
    }
  }

  // ---- Counting -----------------------------------------------------------------------------------

  lemma {:induction false} HasIsKey(d: seq<Entry>, k: Id)
    ensures Has(d, k) <==> k in Keys(d)
  {
  }

  lemma {:induction false} SizeWithout(s: set<Id>, t: set<Id>, k: Id)
    requires k !in s
    ensures |({k} + s) - t| == (if k in t then 0 else 1) + |s - t|
  {
    if k in t {
      assert ({k} + s) - t == s - t;
    } else {
      assert ({k} + s) - t == {k} + (s - t);
    }
  }

  lemma {:induction false} MissingCount(d: seq<Entry>, other: seq<Entry>, added: bool)
    requires Distinct(d)
    ensures |Missing(d, other, added)| == |Keys(d) - Keys(other)|
  {
    if d == [] {
      assert Keys(d) - Keys(other) == {};
    } else {
      KeysCons(d);
      MissingCount(d[1..], other, added);
      HasIsKey(other, d[0].id);
      SizeWithout(Keys(d[1..]), Keys(other), d[0].id);
    }
  }

  lemma {:induction false} SortSize<T>(s: seq<T>, key: T -> Key)
    ensures |SortBy(s, key)| == |s|
  {
    SortKeeps(s, key);
    SameSize(SortBy(s, key), s);
  }

  lemma {:induction false} ChangesCount(previous: seq<Row>, current: seq<Row>, id: Row -> Id)
    ensures var p, c := Ids(previous, id), Ids(current, id);
      |Changes(previous, current, id)| == |c - p| + |p - c|
  {
    var p, c := Dict(previous, id), Dict(current, id);
    DictKeys(previous, id);
    DictKeys(current, id);
    MissingCount(c, p, true);
    MissingCount(p, c, false);
    SortSize(Missing(c, p, true) + Missing(p, c, false), ChangeKey);
  }

  function IdFor(text: Text, previous: seq<Row>, current: seq<Row>): Row -> Id {
    if |Drop(previous)| + |Drop(current)| > 50_000 then RawId else KeyOf(text)
  }

  /** The count is the number of keys in exactly one of the two scans, above the limit on raw triples. */
  lemma CountIsSymmetricDifference(text: Text, previous: seq<Row>, current: seq<Row>)
    ensures var id := IdFor(text, previous, current);
      var p, c := Ids(Drop(previous), id), Ids(Drop(current), id);
      DriftRows(text, previous, current).1 == |c - p| + |p - c|
  {
    if !AboveLimit(Drop(previous), Drop(current)) {
      ChangesCount(Drop(previous), Drop(current), KeyOf(text));
    }
  }

  lemma {:induction false} DropIff(rows: seq<Row>, r: Row)
    ensures r in Drop(rows) <==> r in rows && r.probeId != "fleet.drift"
  {
    if rows != [] {
      DropIff(rows[1..], r);
      assert rows == [rows[0]] + rows[1..];
    }
  }

  lemma RawIdDecides(r: Row, q: Row)
    ensures RawId(r) == RawId(q) <==> r.probeId == q.probeId && r.algorithm == q.algorithm && r.title == q.title
  {
    assert RawId(r)[0] == r.probeId && RawId(r)[1] == r.algorithm && RawId(r)[2] == r.title;
    assert RawId(q)[0] == q.probeId && RawId(q)[1] == q.algorithm && RawId(q)[2] == q.title;
  }

  /** Every finding of the one scan, earlier drift rows aside, has one of the other with its key. */
  ghost predicate Covered(rows: seq<Row>, others: seq<Row>, id: Row -> Id) {
    forall r :: r in rows && r.probeId != "fleet.drift" ==>
      exists q :: q in others && q.probeId != "fleet.drift" && id(q) == id(r)
  }

  lemma CoveredIff(rows: seq<Row>, others: seq<Row>, id: Row -> Id)
    ensures Covered(rows, others, id) <==> Ids(Drop(rows), id) <= Ids(Drop(others), id)
  {
    hide Drop, Ids;
    IdsOf(rows, id);
    IdsOf(others, id);
    if Ids(Drop(rows), id) <= Ids(Drop(others), id) {
      forall r | r in rows && r.probeId != "fleet.drift"
        ensures exists q :: q in others && q.probeId != "fleet.drift" && id(q) == id(r)
      {
        assert id(r) in Ids(Drop(rows), id);
      }
    }
  }

  lemma IdsOf(rows: seq<Row>, id: Row -> Id)
    ensures forall k :: k in Ids(Drop(rows), id) <==>
      exists r :: r in rows && r.probeId != "fleet.drift" && id(r) == k
  {
    hide Drop;
    forall r ensures r in Drop(rows) <==> r in rows && r.probeId != "fleet.drift" { DropIff(rows, r); }
    forall k ensures k in Ids(Drop(rows), id) <==> exists r :: r in Drop(rows) && id(r) == k {
    }
  }

  /** Nothing drifted exactly when each finding of either scan has its like in the other. */
  lemma NoDriftIff(text: Text, previous: seq<Row>, current: seq<Row>)
    ensures var id := IdFor(text, previous, current);
      DriftRows(text, previous, current).1 == 0 <==> Covered(current, previous, id) && Covered(previous, current, id)
  {
    hide DriftRows, Covered, Ids, Drop;
    var id := IdFor(text, previous, current);
    CountIsSymmetricDifference(text, previous, current);
    CoveredIff(current, previous, id);
    CoveredIff(previous, current, id);
    EmptyDifference(Ids(Drop(current), id), Ids(Drop(previous), id));
    EmptyDifference(Ids(Drop(previous), id), Ids(Drop(current), id));
  }

  lemma EmptyDifference(a: set<Id>, b: set<Id>)
    ensures |a - b| == 0 <==> a <= b
  {
    assert |a - b| == 0 <==> a - b == {};
    assert forall k :: k in a - b <==> k in a && k !in b;
  }

  /** Findings of one endpoint port, without paths, that have equally many words and differ in one that is no host. */
  ghost predicate OtherWord(text: Text, row: Row, other: Row) {
    && PortOf(row) == PortOf(other) && Get(row.evidence, "path") == "" && Get(other.evidence, "path") == ""
    && var toks := Tokens(text, row.title, Get(row.evidence, "host"));
    var others := Tokens(text, other.title, Get(other.evidence, "host"));
    && |toks| == |others|
    && exists i :: 0 <= i < |toks| && toks[i] != others[i]
                   && forall lead, suffix, tail :: !HostAt(text, toks[i], AtBefore(toks, i), lead, suffix, tail)
  }

  /** A finding whose title differs in an ordinary word from all that were there before is drift. */
  lemma NewWordIsDrift(text: Text, previous: seq<Row>, current: seq<Row>, row: Row)
    requires Lawful(text) && !AboveLimit(Drop(previous), Drop(current))
    requires row in current && row.probeId != "fleet.drift"
    requires forall q :: q in previous && q.probeId == row.probeId && q.algorithm == row.algorithm ==>
      OtherWord(text, row, q)
    ensures DriftRows(text, previous, current).1 > 0
  {
    hide DriftRows, Drop, HostAt, Tokens, Lawful, PortOf, AtBefore;
    NoDriftIff(text, previous, current);
    forall q | q in previous ensures ParityKey(text, q) != ParityKey(text, row) {
      if q.probeId == row.probeId && q.algorithm == row.algorithm {
        WordsDiffer(text, row, q);
      } else {
        KeyNames(text, q);
        KeyNames(text, row);
      }
    }
  }

  lemma WordsDiffer(text: Text, row: Row, other: Row)
    requires Lawful(text) && OtherWord(text, row, other)
    ensures ParityKey(text, row) != ParityKey(text, other)
  {
    hide HostAt, Tokens, Lawful, PortOf, AtBefore, ParityKey;
    var toks := Tokens(text, row.title, Get(row.evidence, "host"));
    var others := Tokens(text, other.title, Get(other.evidence, "host"));
    var i :| 0 <= i < |toks| && toks[i] != others[i]
             && forall lead, suffix, tail :: !HostAt(text, toks[i], AtBefore(toks, i), lead, suffix, tail);
    WordDecides(text, row, other, i);
  }

  lemma KeyNames(text: Text, row: Row)
    ensures ParityKey(text, row)[0] == row.probeId && ParityKey(text, row)[1] == row.algorithm
  {
  }

  lemma CountIsSymmetric(text: Text, previous: seq<Row>, current: seq<Row>)
    ensures DriftRows(text, previous, current).1 == DriftRows(text, current, previous).1
  {
    CountIsSymmetricDifference(text, previous, current);
    CountIsSymmetricDifference(text, current, previous);
  }

  // ---- Earlier drift rows -------------------------------------------------------------------------

  lemma {:induction false} DropConcat(a: seq<Row>, b: seq<Row>)
    ensures Drop(a + b) == Drop(a) + Drop(b)
  {
    hide Kept;
    if a == [] {
      assert a + b == b;
    } else {
      DropConcat(a[1..], b);
      assert (a + b)[1..] == a[1..] + b && (a + b)[0] == a[0];
      assert Kept(a[0]) + (Drop(a[1..]) + Drop(b)) == Kept(a[0]) + Drop(a[1..]) + Drop(b);
    }
  }

  lemma {:induction false} DropAlone(marker: Row)
    requires IsDrift(marker)
    ensures Drop([marker]) == []
  {
  }

  lemma {:induction false} DropMarker(a: seq<Row>, marker: Row, b: seq<Row>)
    requires IsDrift(marker)
    ensures Drop(a + [marker] + b) == Drop(a + b)
  {
    hide Drop;
    DropConcat(a + [marker], b);
    DropConcat(a, [marker]);
    DropConcat(a, b);
    DropAlone(marker);
  }

  /** A drift row of an earlier ingest, wherever it stands in either scan, changes nothing. */
  lemma EarlierDriftIgnored(text: Text, a: seq<Row>, marker: Row, b: seq<Row>, other: seq<Row>)
    requires IsDrift(marker)
    ensures DriftRows(text, a + [marker] + b, other) == DriftRows(text, a + b, other)
    ensures DriftRows(text, other, a + [marker] + b) == DriftRows(text, other, a + b)
  {
    DropMarker(a, marker, b);
  }

  // ---- What is stored -----------------------------------------------------------------------------

  lemma {:induction false} MissingMeans(d: seq<Entry>, other: seq<Entry>, added: bool)
    ensures forall i :: 0 <= i < |Missing(d, other, added)| ==>
      var c := Missing(d, other, added)[i]; c.added == added && Entry(c.id, c.row) in d && !Has(other, c.id)
    ensures forall i :: 0 <= i < |d| && !Has(other, d[i].id) ==>
      Change(added, d[i].id, d[i].row) in Missing(d, other, added)
  {
    if d != [] {
      MissingMeans(d[1..], other, added);
      assert d == [d[0]] + d[1..];
    }
  }

  /** `c` is a key that one scan has and the other lacks, with a row that has it. */
  ghost predicate Genuine(c: Change, previous: seq<Row>, current: seq<Row>, id: Row -> Id) {
    if c.added then OnlyIn(c, current, previous, id) else OnlyIn(c, previous, current, id)
  }

  ghost predicate OnlyIn(c: Change, here: seq<Row>, there: seq<Row>, id: Row -> Id) {
    c.row in here && id(c.row) == c.id && c.id !in Ids(there, id)
  }

  lemma {:induction false} MissingGenuine(rows: seq<Row>, other: seq<Row>, id: Row -> Id, added: bool, i: nat)
    requires i < |Missing(Dict(rows, id), Dict(other, id), added)|
    ensures var c := Missing(Dict(rows, id), Dict(other, id), added)[i];
      c.added == added && OnlyIn(c, rows, other, id)
  {
    var d, e := Dict(rows, id), Dict(other, id);
    MissingMeans(d, e, added);
    var c := Missing(d, e, added)[i];
    var j :| 0 <= j < |d| && d[j] == Entry(c.id, c.row);
    DictRows(rows, id, j);
    DictKeys(other, id);
    HasIsKey(e, c.id);
  }

  lemma {:induction false} ChangePlace(previous: seq<Row>, current: seq<Row>, id: Row -> Id, i: nat)
      returns (added: bool, j: nat)
    requires i < |Changes(previous, current, id)|
    ensures j < |Side(previous, current, id, added)|
    ensures Changes(previous, current, id)[i] == Side(previous, current, id, added)[j]
  {
    hide Missing, Dict, SortBy;
    var a, b := Side(previous, current, id, true), Side(previous, current, id, false);
    SortKeeps(a + b, ChangeKey);
    j := PlaceOf(Changes(previous, current, id), a + b, i);
    EitherSide(a, b, j);
    added := j < |a|;
    j := if added then j else j - |a|;
  }

  lemma {:induction false} ChangeIsGenuine(previous: seq<Row>, current: seq<Row>, id: Row -> Id, i: nat)
    requires i < |Changes(previous, current, id)|
    ensures Genuine(Changes(previous, current, id)[i], previous, current, id)
  {
    var added, j := ChangePlace(previous, current, id, i);
    if added {
      MissingGenuine(current, previous, id, true, j);
    } else {
      MissingGenuine(previous, current, id, false, j);
    }
  }

  lemma {:induction false} EitherSide(a: seq<Change>, b: seq<Change>, j: nat)
    requires j < |a + b|
    ensures (a + b)[j] == if j < |a| then a[j] else b[j - |a|]
  {
  }

  /** Changes come sorted by kind and then by key. */
  lemma {:induction false} ChangesAreSorted(previous: seq<Row>, current: seq<Row>, id: Row -> Id)
    ensures Sorted(Changes(previous, current, id), ChangeKey)
  {
    var p, c := Dict(previous, id), Dict(current, id);
    SortIsSorted(Missing(c, p, true) + Missing(p, c, false), ChangeKey);
  }

  /** So the keys gained come first, in the order of their parts, and then the keys lost. */
  lemma ChangesInOrder(previous: seq<Row>, current: seq<Row>, id: Row -> Id, i: nat, j: nat)
    requires i < j < |Changes(previous, current, id)|
    ensures var c, d := Changes(previous, current, id)[i], Changes(previous, current, id)[j];
      && (d.added ==> c.added)
      && (c.added == d.added ==> LexLe(c.id, d.id))
  {
    hide Changes;
    ChangesAreSorted(previous, current, id);
    var c, d := Changes(previous, current, id)[i], Changes(previous, current, id)[j];
    assert KeyLe(ChangeKey(c), ChangeKey(d));
    KindFirst(if c.added then "added" else "removed", c.id, if d.added then "added" else "removed", d.id);
  }

  lemma KindFirst(kind: string, id: Id, other: string, id': Id)
    ensures LexLe([kind] + id, [other] + id') <==> if kind == other then LexLe(id, id') else StrLe(kind, other)
  {
    assert ([kind] + id)[1..] == id && ([other] + id')[1..] == id';
  }

  lemma {:induction false} CountConcat(a: seq<Change>, b: seq<Change>)
    ensures CountAdded(a + b) == CountAdded(a) + CountAdded(b)
  {
    if a == [] {
      assert a + b == b;
    } else {
      CountConcat(a[1..], b);
      assert (a + b)[1..] == a[1..] + b;
    }
  }

  lemma {:induction false} CountUniform(s: seq<Change>, added: bool)
    requires forall i :: 0 <= i < |s| ==> s[i].added == added
    ensures CountAdded(s) == if added then |s| else 0
  {
    if s != [] { CountUniform(s[1..], added); }
  }

  lemma {:induction false} CountPermuted(a: seq<Change>, b: seq<Change>)
    requires multiset(a) == multiset(b)
    ensures CountAdded(a) == CountAdded(b)
  {
    SameSize(a, b);
    if a != [] {
      var front, back := Extract(a, b);
      CountPermuted(a[1..], front + back);
      CountConcat(front + [a[0]], back);
      CountConcat(front, [a[0]]);
      CountConcat(front, back);
      assert CountAdded([a[0]]) == if a[0].added then 1 else 0;
    }
  }

  lemma {:induction false} AddedCount(previous: seq<Row>, current: seq<Row>, id: Row -> Id)
    ensures CountAdded(Changes(previous, current, id)) == |Ids(current, id) - Ids(previous, id)|
  {
    var p, c := Dict(previous, id), Dict(current, id);
    var a, b := Missing(c, p, true), Missing(p, c, false);
    SortKeeps(a + b, ChangeKey);
    CountPermuted(Changes(previous, current, id), a + b);
    CountConcat(a, b);
    MissingMeans(c, p, true);
    MissingMeans(p, c, false);
    CountUniform(a, true);
    CountUniform(b, false);
    DictKeys(previous, id);
    DictKeys(current, id);
    MissingCount(c, p, true);
  }

  lemma {:induction false} MissingFinds(rows: seq<Row>, other: seq<Row>, id: Row -> Id, added: bool, k: Id)
      returns (i: nat)
    requires k in Ids(rows, id) && k !in Ids(other, id)
    ensures i < |Missing(Dict(rows, id), Dict(other, id), added)|
    ensures var c := Missing(Dict(rows, id), Dict(other, id), added)[i]; c.added == added && c.id == k
  {
    var d, e := Dict(rows, id), Dict(other, id);
    DictKeys(rows, id);
    DictKeys(other, id);
    HasIsKey(e, k);
    MissingMeans(d, e, added);
    var j :| 0 <= j < |d| && d[j].id == k;
    var c := Change(added, k, d[j].row);
    assert c in Missing(d, e, added);
    i :| i < |Missing(d, e, added)| && Missing(d, e, added)[i] == c;
  }

  lemma {:induction false} ChangeFor(previous: seq<Row>, current: seq<Row>, id: Row -> Id, added: bool, j: nat)
      returns (i: nat)
    requires j < |Side(previous, current, id, added)|
    ensures i < |Changes(previous, current, id)|
    ensures Changes(previous, current, id)[i] == Side(previous, current, id, added)[j]
  {
    hide Missing, Dict, SortBy;
    var a, b := Side(previous, current, id, true), Side(previous, current, id, false);
    SortKeeps(a + b, ChangeKey);
    var k := if added then j else |a| + j;
    EitherSide(a, b, k);
    i := PlaceOf(a + b, Changes(previous, current, id), k);
  }

  /** Every key of exactly one scan is a change. */
  lemma {:induction false} ChangesAreComplete(previous: seq<Row>, current: seq<Row>, id: Row -> Id, added: bool, k: Id)
      returns (i: nat)
    requires var p, c := Ids(previous, id), Ids(current, id);
      if added then k in c && k !in p else k in p && k !in c
    ensures i < |Changes(previous, current, id)|
    ensures Changes(previous, current, id)[i].added == added && Changes(previous, current, id)[i].id == k
  {
    hide Missing, Dict, Ids, Changes;
    var j: nat;
    if added {
      j := MissingFinds(current, previous, id, added, k);
    } else {
      j := MissingFinds(previous, current, id, added, k);
    }
    i := ChangeFor(previous, current, id, added, j);
  }

  /** Up to the normalising limit: a stored change marker describes a key of exactly one scan. */
  lemma StoredChangeIsGenuine(text: Text, previous: seq<Row>, current: seq<Row>, i: nat) returns (c: Change)
    requires !AboveLimit(Drop(previous), Drop(current))
    requires i < |DriftRows(text, previous, current).0| && DriftRows(text, previous, current).0[i].Changed?
    ensures DriftRows(text, previous, current).0[i] == Mark(c)
    ensures Genuine(c, Drop(previous), Drop(current), KeyOf(text))
  {
    var id := KeyOf(text);
    var changes := Changes(Drop(previous), Drop(current), id);
    StoreMarks(changes, i);
    ChangeIsGenuine(Drop(previous), Drop(current), id, i);
    c := changes[i];
  }

  lemma {:induction false} StoreMarks(changes: seq<Change>, i: nat)
    requires i < |Store(changes)| && Store(changes)[i].Changed?
    ensures i < |changes| && Store(changes)[i] == Mark(changes[i])
  {
  }

  /** Up to that limit and up to 500 changes: every key of exactly one scan has its marker. */
  lemma EveryChangeIsStored(text: Text, previous: seq<Row>, current: seq<Row>, added: bool, k: Id)
      returns (i: nat, c: Change)
    requires !AboveLimit(Drop(previous), Drop(current))
    requires DriftRows(text, previous, current).1 <= 500
    requires var id := KeyOf(text);
      var p, c := Ids(Drop(previous), id), Ids(Drop(current), id);
      if added then k in c && k !in p else k in p && k !in c
    ensures i < |DriftRows(text, previous, current).0| && DriftRows(text, previous, current).0[i] == Mark(c)
    ensures c.added == added && c.id == k && Genuine(c, Drop(previous), Drop(current), KeyOf(text))
  {
    var id := KeyOf(text);
    i := ChangesAreComplete(Drop(previous), Drop(current), id, added, k);
    ChangeIsGenuine(Drop(previous), Drop(current), id, i);
    c := Changes(Drop(previous), Drop(current), id)[i];
  }

  /** At most 501 markers; a summary comes last and its two numbers add up to the count; no marker, no change;
      past 500 changes there is a summary. */
  ghost predicate WellStored(rows: seq<Marker>, count: nat) {
    && |rows| <= 501
    && (forall i :: 0 <= i < |rows| && rows[i].Summary? ==> i == |rows| - 1 && rows[i].gained + rows[i].lost == count)
    && (count == 0 <==> rows == [])
    && (count > 500 ==> rows != [] && rows[|rows| - 1].Summary?)
  }

  lemma {:induction false} StoreIsWell(changes: seq<Change>)
    ensures WellStored(Store(changes), |changes|)
  {
    if |changes| > MAX_DRIFT_ROWS {
      var rows := Store(changes);
      assert rows[..MAX_DRIFT_ROWS] == MarkAll(changes[..MAX_DRIFT_ROWS]);
    }
  }

  lemma StoredRows(text: Text, previous: seq<Row>, current: seq<Row>)
    ensures WellStored(DriftRows(text, previous, current).0, DriftRows(text, previous, current).1)
  {
    if !AboveLimit(Drop(previous), Drop(current)) {
      StoreIsWell(Changes(Drop(previous), Drop(current), KeyOf(text)));
    }
  }

  /** There is one exactly past 500 changes, or, above the limit on findings, when anything changed at all. */
  lemma SummaryIff(text: Text, previous: seq<Row>, current: seq<Row>)
    ensures var (rows, count) := DriftRows(text, previous, current);
      rows != [] && rows[|rows| - 1].Summary? <==>
        count > 500 || (count > 0 && |Drop(previous)| + |Drop(current)| > 50_000)
  {
    hide Changes, ParityKey, Drop;
    if !AboveLimit(Drop(previous), Drop(current)) {
      var changes := Changes(Drop(previous), Drop(current), KeyOf(text));
      if |changes| <= 500 { assert Store(changes) == MarkAll(changes); }
    }
  }

  /** Those numbers are the keys gained and the keys lost. */
  lemma SummaryTotals(text: Text, previous: seq<Row>, current: seq<Row>)
    ensures var (rows, count) := DriftRows(text, previous, current);
      var id := IdFor(text, previous, current);
      var p, c := Ids(Drop(previous), id), Ids(Drop(current), id);
      rows != [] && rows[|rows| - 1].Summary? ==> rows[|rows| - 1] == Summary(|c - p|, |p - c|)
  {
    hide Changes, ParityKey, Ids;
    if !AboveLimit(Drop(previous), Drop(current)) {
      var id := KeyOf(text);
      ChangesCount(Drop(previous), Drop(current), id);
      AddedCount(Drop(previous), Drop(current), id);
    }
  }
}
