/**
  Fleet reporting as a step system: any number of agent processes over one state directory, which they
  share without a lock (cli/_report.py, cli/agent.py), a network that loses requests and answers, and the collector's
  request handlers (daemon/fleet.py, store/repo.py) working concurrently.  `Apply` gives the effect
  of one action and does nothing when the action is not enabled, so every sequence of actions
  is a run.  What every run keeps is stated in `FleetSafety`: no dumped bundle is lost, acknowledged
  means stored, and no scan_uuid is stored twice.
  */
module Fleet {
  import opened Common
  import opened Report

  type Pid = int
  type ReqId = int
  type HostId = int

  const MAX_GZIP_BYTES := 8 * 1024 * 1024

  // ---- State -------------------------------------------------------------------------

  datatype Host = Host(machine: int, token: Option<Token>, revoked: bool)
  datatype Row = Row(id: nat, uuid: int, host: HostId)

  /** The collector's side of one POST: not yet looked at, past the duplicate check, beaten to the
      insert by a racing request, or answered. `sender` is the authenticated host; `other` says that a 200 came
      from looking up a row of another host. */
  datatype Stage =
    | Arrived
    | Checked(host: HostId)
    | Conflict(host: HostId)
    | Done(answer: Http, sender: Option<HostId>, other: bool)
  datatype Request = Request(bundle: Bundle, token: Token, stage: Stage)

  /** A report (with its bundle) or a flush tick (without). */
  datatype Job = Job(bundle: Option<Bundle>, cfg: Config, second: bool)

  datatype Proc =
    | Idle
    | NeedToken(job: Job)
    | Replaying(job: Job, token: Token, todo: seq<Name>)
    | FileSent(job: Job, token: Token, todo: seq<Name>, name: Name, file: Bundle, data: Bundle, req: ReqId)
    | FileAnswered(job: Job, token: Token, todo: seq<Name>, name: Name, file: Bundle, acked: bool)
    | BundleSent(job: Job, own: Bundle, req: ReqId)
    | Spooling(own: Bundle)
    | Writing(own: Bundle, name: Name)

  datatype Collector = Collector(hosts: map<HostId, Host>, rows: seq<Row>, nextId: nat,
                                 requests: map<ReqId, Request>, stored: set<(int, HostId)>)

  /** History, for stating properties: what was dumped, how each bundle's story ended, the names ever used, and
      those whose file was read, cut short, before its write ended. */
  datatype Ledger = Ledger(dumped: set<Bundle>, acked: set<Bundle>, refused: set<Bundle>, notSpooled: set<Bundle>,
                           forged: set<Bundle>, names: set<Name>, early: set<Name>)

  /** A file maps to the bundle that is, or is being, written into it; `partial` names the files, in either
      directory, whose write has not ended or never will. */
  datatype World = World(tokenFile: Option<Token>, spool: map<Name, Bundle>, rejected: map<Name, Bundle>,
                         partial: set<Name>, procs: map<Pid, Proc>, collector: Collector, ledger: Ledger)

  /** How the write of a spool file ends: whole, cut short by an error, or whole but then not secured and unlinked. */
  datatype WriteEnd = Written | Torn | Unlinked

  datatype Action =
    | Begin(pid: Pid, job: Job)
    | TokenStep(pid: Pid, enrol: Enrol)
    | NextFile(pid: Pid, readable: bool, req: ReqId, cut: Bundle)
    | Hear(pid: Pid, answer: Http)
    | Settle(pid: Pid, ok: bool)
    | Abort(pid: Pid)
    | Spool(pid: Pid, name: Name, canWrite: bool)
    | Fill(pid: Pid, end: WriteEnd)
    | Foreign(req: ReqId, bundle: Bundle, token: Token)
    | Admit(req: ReqId, host: HostId, rateOk: bool, busy: bool)
    | Insert(req: ReqId)
    | Lookup(req: ReqId)
    | Prune(ids: set<nat>)
    | HostChange(host: HostId, value: Host)

  // ---- Agent steps -----------------------------------------------------------------------

  function SetProc(w: World, pid: Pid, p: Proc): World {
    w.(procs := w.procs[pid := p])
  }

  function AddRequest(w: World, req: ReqId, b: Bundle, t: Token): World {
    w.(collector := w.collector.(requests := w.collector.requests[req := Request(b, t, Arrived)]))
  }

  function BeginStep(w: World, pid: Pid, job: Job): World {
    if pid in w.procs && !w.procs[pid].Idle? then w else
      var dumped := if job.bundle.Some? then w.ledger.dumped + {job.bundle.value} else w.ledger.dumped;
      SetProc(w, pid, NeedToken(job.(second := false))).(ledger := w.ledger.(dumped := dumped))
  }

  /** A send failed with `status`: re-enrol once on a 401 of a stored token, else spool. */
  function SendFailed(w: World, pid: Pid, job: Job, status: nat): World {
    if job.bundle.None? then SetProc(w, pid, Idle)
    else if status == 401 && job.cfg.agentToken.None? && job.cfg.hasEnrolToken && !job.second then
      SetProc(w, pid, NeedToken(job.(second := true))).(tokenFile := None)
    else SetProc(w, pid, Spooling(job.bundle.value))
  }

  function StartReplay(w: World, pid: Pid, job: Job, token: Token, tokenFile: Option<Token>): World {
    SetProc(w, pid, Replaying(job, token, Listing(w.spool.Keys))).(tokenFile := tokenFile)
  }

  function GetToken(w: World, pid: Pid, job: Job, enrol: Enrol): World {
    if job.cfg.agentToken.Some? then StartReplay(w, pid, job, job.cfg.agentToken.value, w.tokenFile)
    else if w.tokenFile.Some? then StartReplay(w, pid, job, w.tokenFile.value, w.tokenFile)
    else if !job.cfg.hasEnrolToken || enrol.EnrolCrash? then SendFailed(w, pid, job, 0)
    else if enrol.EnrolError? then SendFailed(w, pid, job, enrol.status)
    else StartReplay(w, pid, job, enrol.token, Some(enrol.token))
  }

  /** The bytes a reader gets from file `n`. The start of a bundle loads as the bundle itself, when only the gzip
      trailer is missing, or not at all. */
  function ReadFile(w: World, n: Name, cut: Bundle): Bundle
    requires n in w.spool
  {
    if n in w.partial && !cut.content.Good? then cut else w.spool[n]
  }

  /** Post the bundle itself once the replay is over. */
  function PostStep(w: World, pid: Pid, job: Job, token: Token, req: ReqId): World {
    if job.bundle.None? then SetProc(w, pid, Idle)
    else if req in w.collector.requests then w
    else SetProc(AddRequest(w, req, job.bundle.value, token), pid, BundleSent(job, job.bundle.value, req))
  }

  /** Read the next spool file and post it. */
  function FileStep(w: World, pid: Pid, p: Proc, readable: bool, req: ReqId, cut: Bundle): World
    requires p.Replaying? && p.todo != []
  {
    var name := p.todo[0];
    if name !in w.spool || !readable then SetProc(w, pid, Replaying(p.job, p.token, p.todo[1..]))
    else if req in w.collector.requests then w
    else
      var data := ReadFile(w, name, cut);
      var early := if data == w.spool[name] then w.ledger.early else w.ledger.early + {name};
      SetProc(AddRequest(w, req, data, p.token), pid,
              FileSent(p.job, p.token, p.todo[1..], name, w.spool[name], data, req))
        .(ledger := w.ledger.(early := early))
  }

  function NextFileStep(w: World, pid: Pid, p: Proc, readable: bool, req: ReqId, cut: Bundle): World
    requires p.Replaying?
  {
    if p.todo == [] then PostStep(w, pid, p.job, p.token, req) else FileStep(w, pid, p, readable, req, cut)
  }

  /** The answer really is the collector's, not one made up on the way. */
  predicate Genuine(w: World, req: ReqId, h: Http) {
    && req in w.collector.requests
    && w.collector.requests[req].stage.Done? && w.collector.requests[req].stage.answer == h
  }

  function Acknowledge(w: World, bs: set<Bundle>, genuine: bool): World {
    w.(ledger := w.ledger.(acked := w.ledger.acked + bs,
                           forged := if genuine then w.ledger.forged else w.ledger.forged + bs))
  }

  function Refuse(w: World, b: Bundle): World {
    w.(ledger := w.ledger.(refused := w.ledger.refused + {b}))
  }

  function AbortStep(w: World, pid: Pid, job: Job): World {
    SetProc(w, pid, if job.bundle.Some? then Spooling(job.bundle.value) else Idle)
  }

  /** An acknowledgement is taken to be for the file, whatever was read of it. */
  function HearFile(w: World, pid: Pid, p: Proc, h: Http): World
    requires p.FileSent?
  {
    match PostResult(h)
    case Acked =>
      SetProc(Acknowledge(w, {p.data, p.file}, Genuine(w, p.req, h)), pid,
              FileAnswered(p.job, p.token, p.todo, p.name, p.file, true))
    case Crashed => AbortStep(w, pid, p.job)
    case Failed(status) =>
      if Permanent(status) then
        SetProc(Refuse(w, p.data), pid, FileAnswered(p.job, p.token, p.todo, p.name, p.file, false))
      else SetProc(w, pid, Replaying(p.job, p.token, if StopsFlush(status) then [] else p.todo))
  }

  function HearBundle(w: World, pid: Pid, p: Proc, h: Http): World
    requires p.BundleSent?
  {
    match PostResult(h)
    case Acked => SetProc(Acknowledge(w, {p.own}, Genuine(w, p.req, h)), pid, Idle)
    case Crashed => SetProc(w, pid, Spooling(p.own))
    case Failed(status) =>
      if Permanent(status) then SetProc(Refuse(w, p.own), pid, Idle)
      else SendFailed(w, pid, p.job, status)
  }

  /** Unlink an acknowledged file or move a refused one; either may fail and leave it in place. */
  function SettleStep(w: World, pid: Pid, p: Proc, ok: bool): World
    requires p.FileAnswered?
  {
    var w' := SetProc(w, pid, Replaying(p.job, p.token, p.todo));
    if !ok || p.name !in w.spool then w'
    else if p.acked then w'.(spool := w.spool - {p.name})
    else w'.(spool := w.spool - {p.name}, rejected := w.rejected[p.name := w.spool[p.name]])
  }

  function GiveUp(w: World, pid: Pid, b: Bundle): World {
    SetProc(w, pid, Idle).(ledger := w.ledger.(notSpooled := w.ledger.notSpooled + {b}))
  }

  /** Create a file under a name never used before (nanosecond clock and uuid4, opened exclusively). */
  function SpoolStep(w: World, pid: Pid, b: Bundle, name: Name, canWrite: bool): World {
    if !canWrite then GiveUp(w, pid, b)
    else if name in w.ledger.names then w
    else SetProc(w, pid, Writing(b, name)).(spool := w.spool[name := b], partial := w.partial + {name},
                                            ledger := w.ledger.(names := w.ledger.names + {name}))
  }

  /** End its write. A file that another process has moved or unlinked meanwhile cannot be secured by its path, so
      the spooling counts as failed although the write went through. */
  function FillStep(w: World, pid: Pid, b: Bundle, name: Name, end: WriteEnd): World {
    match end
    case Torn => GiveUp(w, pid, b)
    case Unlinked => GiveUp(w, pid, b).(spool := w.spool - {name}, partial := w.partial - {name})
    case Written =>
      if name in w.spool then SetProc(w, pid, Idle).(partial := w.partial - {name})
      else GiveUp(w, pid, b).(partial := w.partial - {name})
  }

  // ---- Collector steps ---------------------------------------------------------------------

  predicate HasUuid(rows: seq<Row>, uuid: int) {
    exists i :: 0 <= i < |rows| && rows[i].uuid == uuid
  }

  predicate HasUuidOf(rows: seq<Row>, uuid: int, host: HostId) {
    exists i :: 0 <= i < |rows| && rows[i].uuid == uuid && rows[i].host == host
  }

  function Answered(c: Collector, req: ReqId, status: nat, sender: Option<HostId>, other: bool): Collector
    requires req in c.requests
  {
    c.(requests := c.requests[req := c.requests[req].(stage := Done(Response(status, true), sender, other))])
  }

  /** The answer of `ingest` before anything is written, or None to go on to the insert. */
  function Verdict(c: Collector, b: Bundle, host: HostId, rateOk: bool, busy: bool): Option<nat>
    requires host in c.hosts
  {
    if !rateOk then Some(429)
    else if b.size > MAX_GZIP_BYTES || b.content.Oversize? then Some(413)
    else if b.content.Unreadable? then Some(400)
    else if b.machine != c.hosts[host].machine then Some(403)
    else if !b.content.terminal then Some(400)
    else if busy then Some(503)
    else if HasUuidOf(c.rows, b.uuid, host) then Some(200)
    else if HasUuid(c.rows, b.uuid) then Some(400)
    else None
  }

  /** `ingest` up to and including the duplicate check of `ingest_bundle`. */
  function AdmitStep(c: Collector, req: ReqId, host: HostId, rateOk: bool, busy: bool): Collector
    requires req in c.requests
  {
    var r := c.requests[req];
    if !r.stage.Arrived? then c
    else if host !in c.hosts || c.hosts[host].token != Some(r.token) || c.hosts[host].revoked then
      Answered(c, req, 401, None, false)
    else
      var v := Verdict(c, r.bundle, host, rateOk, busy);
      if v.Some? then Answered(c, req, v.value, Some(host), false)
      else c.(requests := c.requests[req := r.(stage := Checked(host))])
  }

  /** The insert, under the unique index on scan_uuid. */
  function InsertStep(c: Collector, req: ReqId): Collector
    requires req in c.requests
  {
    var r := c.requests[req];
    if !r.stage.Checked? then c
    else if HasUuid(c.rows, r.bundle.uuid) then c.(requests := c.requests[req := r.(stage := Conflict(r.stage.host))])
    else if !r.bundle.content.Good? || !r.bundle.content.storable then Answered(c, req, 400, Some(r.stage.host), false)
    else Answered(c, req, 200, Some(r.stage.host), false)
      .(rows := c.rows + [Row(c.nextId, r.bundle.uuid, r.stage.host)],
        nextId := c.nextId + 1, stored := c.stored + {(r.bundle.uuid, r.stage.host)})
  }

  /** The loser of the race looks the winner up, whichever host it belongs to. */
  function LookupStep(c: Collector, req: ReqId): Collector
    requires req in c.requests
  {
    var r := c.requests[req];
    if !r.stage.Conflict? then c
    else if HasUuid(c.rows, r.bundle.uuid) then
      Answered(c, req, 200, Some(r.stage.host), !HasUuidOf(c.rows, r.bundle.uuid, r.stage.host))
    else Answered(c, req, 400, Some(r.stage.host), false)
  }

  function Without(rows: seq<Row>, ids: set<nat>): seq<Row> {
    if rows == [] then [] else (if rows[0].id in ids then [] else [rows[0]]) + Without(rows[1..], ids)
  }

  function CollectorStep(c: Collector, a: Action): Collector {
    match a
    case Admit(req, host, rateOk, busy) => if req in c.requests then AdmitStep(c, req, host, rateOk, busy) else c
    case Insert(req) => if req in c.requests then InsertStep(c, req) else c
    case Lookup(req) => if req in c.requests then LookupStep(c, req) else c
    case Prune(ids) => c.(rows := Without(c.rows, ids))
    case HostChange(h, value) => c.(hosts := c.hosts[h := value])
    case Foreign(req, b, t) =>
      if req in c.requests then c else c.(requests := c.requests[req := Request(b, t, Arrived)])
    case _ => c
  }

  function AgentStep(w: World, a: Action, p: Proc): World {
    match a
    case TokenStep(pid, enrol) => if p.NeedToken? then GetToken(w, pid, p.job, enrol) else w
    case NextFile(pid, readable, req, cut) => if p.Replaying? then NextFileStep(w, pid, p, readable, req, cut) else w
    case Hear(pid, h) =>
      if p.FileSent? then HearFile(w, pid, p, h) else if p.BundleSent? then HearBundle(w, pid, p, h) else w
    case Settle(pid, ok) => if p.FileAnswered? then SettleStep(w, pid, p, ok) else w
    case Abort(pid) => if p.Idle? || p.Spooling? || p.Writing? then w else AbortStep(w, pid, p.job)
    case Spool(pid, name, canWrite) => if p.Spooling? then SpoolStep(w, pid, p.own, name, canWrite) else w
    case Fill(pid, end) => if p.Writing? then FillStep(w, pid, p.own, p.name, end) else w
    case _ => w
  }

  predicate ByAgent(a: Action) {
    a.TokenStep? || a.NextFile? || a.Hear? || a.Settle? || a.Abort? || a.Spool? || a.Fill?
  }

  function Apply(w: World, a: Action): World {
    if a.Begin? then BeginStep(w, a.pid, a.job)
    else if ByAgent(a) then (if a.pid in w.procs then AgentStep(w, a, w.procs[a.pid]) else w)
    else w.(collector := CollectorStep(w.collector, a))
  }

  function Run(w: World, run: seq<Action>): World
    decreases |run|
  {
    if run == [] then w else Run(Apply(w, run[0]), run[1..])
  }

  lemma NothingRun(w: World)
    ensures Run(w, []) == w
  {
  }

  lemma RunCons(w: World, a: Action, rest: seq<Action>)
    ensures Run(w, [a] + rest) == Run(Apply(w, a), rest)
  {
    hide Apply;
    assert ([a] + rest)[1..] == rest;
  }

  lemma {:induction false} RunConcat(w: World, a: seq<Action>, b: seq<Action>)
    ensures Run(w, a + b) == Run(Run(w, a), b)
    decreases |a|
  {
    hide Apply;
    if a == [] {
      assert a + b == b;
    } else {
      assert (a + b)[1..] == a[1..] + b;
      RunConcat(Apply(w, a[0]), a[1..], b);
    }
  }

  lemma {:induction false} RunSnoc(w: World, run: seq<Action>, a: Action)
    ensures Run(w, run + [a]) == Apply(Run(w, run), a)
  {
    hide Apply;
    RunConcat(w, run, [a]);
    RunCons(Run(w, run), a, []);
    assert [a] + [] == [a];
  }
}
