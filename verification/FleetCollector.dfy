/** The collector's invariant: one row per scan_uuid, and a success answer means that the scan is stored. */
module FleetCollector {
  import opened Report
  import opened Fleet

  ghost predicate RowsUnique(c: Collector) {
    && (forall i :: 0 <= i < |c.rows| ==> c.rows[i].id < c.nextId && (c.rows[i].uuid, c.rows[i].host) in c.stored)
    && (forall i, j :: 0 <= i < j < |c.rows| ==> c.rows[i].uuid != c.rows[j].uuid && c.rows[i].id != c.rows[j].id)
  }

  predicate Success(s: Stage) {
    s.Done? && PostResult(s.answer) == Acked
  }

  /** Some other host's scan with this scan_uuid was stored. */
  ghost predicate StoredElsewhere(stored: set<(int, HostId)>, uuid: int, host: HostId) {
    exists h :: h != host && (uuid, h) in stored
  }

  /** Past the duplicate check the bundle was readable; a success was given to an authenticated host, whose scan is
      stored, unless it lost the race to another host. */
  ghost predicate RequestOk(stored: set<(int, HostId)>, r: Request) {
    && (r.stage.Checked? || r.stage.Conflict? || Success(r.stage) ==> r.bundle.content.Good?)
    && (Success(r.stage) ==> r.stage.sender.Some?)
    && (Success(r.stage) ==>
        if r.stage.other then StoredElsewhere(stored, r.bundle.uuid, r.stage.sender.value)
        else (r.bundle.uuid, r.stage.sender.value) in stored)
  }

  ghost predicate RequestsMeanStored(c: Collector) {
    forall r :: r in c.requests ==> RequestOk(c.stored, c.requests[r])
  }

  ghost predicate CollectorOk(c: Collector) {
    RowsUnique(c) && RequestsMeanStored(c)
  }

  /** Requests keep their bundle, and what was stored stays on record. */
  ghost predicate RequestsPersist(c: Collector, c': Collector) {
    && c.stored <= c'.stored
    && forall r :: r in c.requests ==> r in c'.requests && c'.requests[r].bundle == c.requests[r].bundle
  }

  lemma {:induction false} WithoutKeeps(rows: seq<Row>, ids: set<nat>)
    ensures forall r :: r in Without(rows, ids) <==> r in rows && r.id !in ids
    ensures (forall i, j :: 0 <= i < j < |rows| ==> rows[i].uuid != rows[j].uuid && rows[i].id != rows[j].id) ==>
      forall i, j :: 0 <= i < j < |Without(rows, ids)| ==>
        Without(rows, ids)[i].uuid != Without(rows, ids)[j].uuid && Without(rows, ids)[i].id != Without(rows, ids)[j].id
  {
    if rows != [] {
      WithoutKeeps(rows[1..], ids);
    }
  }

  lemma OkGrows(stored: set<(int, HostId)>, more: set<(int, HostId)>, r: Request)
    requires RequestOk(stored, r) && stored <= more
    ensures RequestOk(more, r)
  {
  }

  /** A step that leaves the rows alone and changes one request. */
  lemma OneRequest(c: Collector, c': Collector, req: ReqId, r: Request)
    requires CollectorOk(c) && req in c.requests && r.bundle == c.requests[req].bundle
    requires c' == c.(requests := c.requests[req := r]) && RequestOk(c.stored, r)
    ensures CollectorOk(c') && RequestsPersist(c, c')
  {
    hide RequestOk;
    assert RowsUnique(c');
  }

  lemma RowIsStored(c: Collector, uuid: int, host: HostId)
    requires CollectorOk(c)
    ensures HasUuidOf(c.rows, uuid, host) ==> (uuid, host) in c.stored
    ensures HasUuid(c.rows, uuid) && !HasUuidOf(c.rows, uuid, host) ==> StoredElsewhere(c.stored, uuid, host)
  {
    hide RequestsMeanStored;
    if HasUuid(c.rows, uuid) && !HasUuidOf(c.rows, uuid, host) {
      var i :| 0 <= i < |c.rows| && c.rows[i].uuid == uuid;
      assert c.rows[i].host != host && (uuid, c.rows[i].host) in c.stored;
    }
  }

  lemma VerdictMeans(c: Collector, b: Bundle, host: HostId, rateOk: bool, busy: bool)
    requires host in c.hosts
    ensures var v := Verdict(c, b, host, rateOk, busy);
      && (v.None? ==> b.content.Good?)
      && (v.Some? && v.value / 100 == 2 ==> b.content.Good? && HasUuidOf(c.rows, b.uuid, host))
  {
  }

  lemma AdmitKeeps(c: Collector, req: ReqId, host: HostId, rateOk: bool, busy: bool)
    requires CollectorOk(c) && req in c.requests
    ensures CollectorOk(AdmitStep(c, req, host, rateOk, busy))
    ensures RequestsPersist(c, AdmitStep(c, req, host, rateOk, busy))
  {
    hide CollectorOk, RequestsPersist, Verdict, StoredElsewhere;
    var c' := AdmitStep(c, req, host, rateOk, busy);
    SameRequest(c, req);
    if host in c.hosts { VerdictMeans(c, c.requests[req].bundle, host, rateOk, busy); }
    RowIsStored(c, c.requests[req].bundle.uuid, host);
    OneRequest(c, c', req, c'.requests[req]);
  }

  lemma SameRequest(c: Collector, req: ReqId)
    requires CollectorOk(c) && req in c.requests
    ensures RequestOk(c.stored, c.requests[req])
    ensures c == c.(requests := c.requests[req := c.requests[req]])
  {
    assert c.requests == c.requests[req := c.requests[req]];
  }

  lemma StoreKeeps(c: Collector, c': Collector, req: ReqId, r: Request, row: Row)
    requires CollectorOk(c) && req in c.requests && r.bundle == c.requests[req].bundle
    requires !HasUuid(c.rows, row.uuid) && row.id == c.nextId
    requires c' == c.(requests := c.requests[req := r], rows := c.rows + [row], nextId := c.nextId + 1,
                      stored := c.stored + {(row.uuid, row.host)})
    requires RequestOk(c'.stored, r)
    ensures CollectorOk(c') && RequestsPersist(c, c')
  {
    hide RequestOk;
    forall q | q in c'.requests ensures RequestOk(c'.stored, c'.requests[q]) {
      if q != req { OkGrows(c.stored, c'.stored, c.requests[q]); }
    }
  }

  lemma InsertKeeps(c: Collector, req: ReqId)
    requires CollectorOk(c) && req in c.requests
    ensures CollectorOk(InsertStep(c, req)) && RequestsPersist(c, InsertStep(c, req))
  {
    hide CollectorOk, RequestsPersist, StoredElsewhere;
    var c', r := InsertStep(c, req), c.requests[req];
    SameRequest(c, req);
    if r.stage.Checked? && !HasUuid(c.rows, r.bundle.uuid) && r.bundle.content.Good? && r.bundle.content.storable {
      StoreKeeps(c, c', req, c'.requests[req], Row(c.nextId, r.bundle.uuid, r.stage.host));
    } else {
      OneRequest(c, c', req, c'.requests[req]);
    }
  }

  lemma LookupKeeps(c: Collector, req: ReqId)
    requires CollectorOk(c) && req in c.requests
    ensures CollectorOk(LookupStep(c, req)) && RequestsPersist(c, LookupStep(c, req))
  {
    hide CollectorOk, RequestsPersist, StoredElsewhere;
    var c', r := LookupStep(c, req), c.requests[req];
    SameRequest(c, req);
    if r.stage.Conflict? { RowIsStored(c, r.bundle.uuid, r.stage.host); }
    OneRequest(c, c', req, c'.requests[req]);
  }

  lemma CollectorKeeps(c: Collector, a: Action)
    requires CollectorOk(c)
    ensures CollectorOk(CollectorStep(c, a)) && RequestsPersist(c, CollectorStep(c, a))
  {
    hide RequestOk, AdmitStep, InsertStep, LookupStep;
    match a
    case Admit(req, host, rateOk, busy) => if req in c.requests { AdmitKeeps(c, req, host, rateOk, busy); }
    case Insert(req) => if req in c.requests { InsertKeeps(c, req); }
    case Lookup(req) => if req in c.requests { LookupKeeps(c, req); }
    case Prune(ids) => WithoutKeeps(c.rows, ids);
    case Foreign(req, b, t) => NewRequest(c.stored, b, t);
    case _ =>
  }

  lemma NewRequest(stored: set<(int, HostId)>, b: Bundle, t: Token)
    ensures RequestOk(stored, Request(b, t, Arrived))
  {
  }

  lemma AddKeeps(c: Collector, req: ReqId, b: Bundle, t: Token)
    requires CollectorOk(c) && req !in c.requests
    ensures var c' := c.(requests := c.requests[req := Request(b, t, Arrived)]);
      CollectorOk(c') && RequestsPersist(c, c')
  {
    hide RequestOk;
    NewRequest(c.stored, b, t);
  }

  /** A step that answers a request with success leaves its scan_uuid in a row of its own host, unless it was a lookup
      that found the scan_uuid in a row of another host; then it does not. */
  lemma SuccessIsOwnIff(c: Collector, a: Action, req: ReqId)
    requires CollectorOk(c) && req in c.requests && !Success(c.requests[req].stage)
    requires req in CollectorStep(c, a).requests && Success(CollectorStep(c, a).requests[req].stage)
    ensures var c', r := CollectorStep(c, a), CollectorStep(c, a).requests[req];
      && r.stage.sender.Some?
      && (HasUuidOf(c'.rows, r.bundle.uuid, r.stage.sender.value)
          <==> !(a.Lookup? && HasRowElsewhere(c.rows, r.bundle.uuid, r.stage.sender.value)))
  {
    hide RequestsMeanStored;
    var c' := CollectorStep(c, a);
    match a
    case Insert(_) => assert c'.rows == c.rows || c'.rows[|c.rows|].uuid == c.requests[req].bundle.uuid;
    case Lookup(_) => RowHostUnique(c, c.requests[req].bundle.uuid, c.requests[req].stage.host);
    case _ =>
  }

  ghost predicate HasRowElsewhere(rows: seq<Row>, uuid: int, host: HostId) {
    exists i :: 0 <= i < |rows| && rows[i].uuid == uuid && rows[i].host != host
  }

  lemma RowHostUnique(c: Collector, uuid: int, host: HostId)
    requires RowsUnique(c) && HasUuid(c.rows, uuid)
    ensures HasUuidOf(c.rows, uuid, host) <==> !HasRowElsewhere(c.rows, uuid, host)
  {
    var i :| 0 <= i < |c.rows| && c.rows[i].uuid == uuid;
  }
}
