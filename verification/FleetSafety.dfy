/** Both sides together: the invariant of the whole system, and what it means for every run. */
module FleetSafety {
  import opened Common
  import opened Report
  import opened Fleet
  import opened FleetAgent
  import opened FleetCollector

  /** The request of a posted file or bundle; a file read early was not a loadable bundle. */
  ghost predicate RequestOf(w: World, p: Proc) {
    && (p.FileSent? ==> p.req in w.collector.requests && w.collector.requests[p.req].bundle == p.data)
    && (p.FileSent? ==> p.data == p.file || !p.data.content.Good?)
    && (p.BundleSent? ==> p.req in w.collector.requests && w.collector.requests[p.req].bundle == p.own)
  }

  ghost predicate RequestsOk(w: World) {
    forall pid :: pid in w.procs ==> RequestOf(w, w.procs[pid])
  }

  ghost predicate EverStored(stored: set<(int, HostId)>, uuid: int) {
    exists h :: (uuid, h) in stored
  }

  ghost predicate AckedMeansStored(w: World) {
    forall b :: b in w.ledger.acked ==> b in w.ledger.forged || EverStored(w.collector.stored, b.uuid)
  }

  ghost predicate Honest(w: World) {
    CollectorOk(w.collector) && RequestsOk(w) && AckedMeansStored(w)
  }

  lemma HonestFrame(w: World, w': World, pid: Pid, p': Proc)
    requires Honest(w)
    requires RequestsPersist(w.collector, w'.collector) && CollectorOk(w'.collector)
    requires w'.procs == w.procs[pid := p'] && RequestOf(w', p')
    requires AckedMeansStored(w')
    ensures Honest(w')
  {
    hide CollectorOk, AckedMeansStored;
    forall q | q in w'.procs ensures RequestOf(w', w'.procs[q]) {
      if q != pid { assert RequestOf(w, w.procs[q]); }
    }
  }

  lemma Same(c: Collector)
    ensures RequestsPersist(c, c)
  {
  }

  lemma NextFileHonest(w: World, pid: Pid, p: Proc, readable: bool, req: ReqId, cut: Bundle)
    requires Honest(w) && pid in w.procs && w.procs[pid] == p && p.Replaying?
    ensures Honest(NextFileStep(w, pid, p, readable, req, cut))
  {
    hide CollectorOk, RequestsPersist, RequestsOk, EverStored;
    var w' := NextFileStep(w, pid, p, readable, req, cut);
    assert w'.procs == w.procs[pid := w'.procs[pid]];
    Same(w.collector);
    if w'.collector != w.collector {
      AddKeeps(w.collector, req, w'.collector.requests[req].bundle, p.token);
    }
    HonestFrame(w, w', pid, w'.procs[pid]);
  }

  lemma StoredBy(stored: set<(int, HostId)>, uuid: int, h: HostId)
    requires (uuid, h) in stored
    ensures EverStored(stored, uuid)
  {
  }

  /** A genuine success on a request stands for a stored bundle, which was therefore loadable. */
  lemma GenuineSuccess(c: Collector, req: ReqId)
    requires CollectorOk(c) && req in c.requests && Success(c.requests[req].stage)
    ensures c.requests[req].bundle.content.Good? && EverStored(c.stored, c.requests[req].bundle.uuid)
  {
    assert RequestOk(c.stored, c.requests[req]);
    var r := c.requests[req];
    if r.stage.other {
      var h :| h != r.stage.sender.value && (r.bundle.uuid, h) in c.stored;
      StoredBy(c.stored, r.bundle.uuid, h);
    } else {
      StoredBy(c.stored, r.bundle.uuid, r.stage.sender.value);
    }
  }

  lemma HearFileHonest(w: World, pid: Pid, p: Proc, h: Http)
    requires Honest(w) && pid in w.procs && w.procs[pid] == p && p.FileSent?
    ensures Honest(HearFile(w, pid, p, h))
  {
    hide CollectorOk, RequestsPersist, EverStored;
    var w' := HearFile(w, pid, p, h);
    assert RequestOf(w, p);
    Same(w.collector);
    if PostResult(h).Acked? && Genuine(w, p.req, h) { GenuineSuccess(w.collector, p.req); }
    HonestFrame(w, w', pid, w'.procs[pid]);
  }

  lemma HearBundleHonest(w: World, pid: Pid, p: Proc, h: Http)
    requires Honest(w) && pid in w.procs && w.procs[pid] == p && p.BundleSent?
    ensures Honest(HearBundle(w, pid, p, h))
  {
    hide CollectorOk, RequestsPersist, EverStored;
    var w' := HearBundle(w, pid, p, h);
    assert RequestOf(w, p);
    Same(w.collector);
    if PostResult(h).Acked? && Genuine(w, p.req, h) { GenuineSuccess(w.collector, p.req); }
    HonestFrame(w, w', pid, w'.procs[pid]);
  }

  /** Steps that neither post nor hear anything. */
  ghost predicate Quiet(w: World, w': World, pid: Pid) {
    && w'.collector == w.collector
    && w'.ledger.acked == w.ledger.acked && w'.ledger.forged == w.ledger.forged
    && pid in w'.procs && w'.procs == w.procs[pid := w'.procs[pid]]
    && pid in w.procs
    && (w'.procs[pid] == w.procs[pid] || (!w'.procs[pid].FileSent? && !w'.procs[pid].BundleSent?))
  }

  lemma QuietTokenStep(w: World, pid: Pid, job: Job, enrol: Enrol)
    requires pid in w.procs
    ensures Quiet(w, GetToken(w, pid, job, enrol), pid)
  {
  }

  lemma QuietSpoolStep(w: World, pid: Pid, b: Bundle, name: Name, canWrite: bool)
    requires pid in w.procs
    ensures Quiet(w, SpoolStep(w, pid, b, name, canWrite), pid)
  {
    assert w.procs == w.procs[pid := w.procs[pid]];
  }

  lemma QuietFillStep(w: World, pid: Pid, b: Bundle, name: Name, end: WriteEnd)
    requires pid in w.procs
    ensures Quiet(w, FillStep(w, pid, b, name, end), pid)
  {
  }

  lemma QuietSteps(w: World, a: Action, p: Proc)
    requires ByAgent(a) && a.pid in w.procs && w.procs[a.pid] == p
    requires !a.NextFile? && !a.Hear?
    ensures Quiet(w, AgentStep(w, a, p), a.pid)
  {
    hide GetToken, SpoolStep, FillStep;
    assert w.procs == w.procs[a.pid := w.procs[a.pid]];
    if a.TokenStep? && p.NeedToken? { QuietTokenStep(w, a.pid, p.job, a.enrol); }
    if a.Spool? && p.Spooling? { QuietSpoolStep(w, a.pid, p.own, a.name, a.canWrite); }
    if a.Fill? && p.Writing? { QuietFillStep(w, a.pid, p.own, p.name, a.end); }
  }

  lemma QuietHonest(w: World, w': World, pid: Pid)
    requires Honest(w) && pid in w.procs && Quiet(w, w', pid)
    ensures Honest(w')
  {
    hide CollectorOk, RequestsPersist, EverStored;
    assert RequestOf(w, w.procs[pid]);
    Same(w.collector);
    HonestFrame(w, w', pid, w'.procs[pid]);
  }

  lemma BeginHonest(w: World, pid: Pid, job: Job)
    requires Honest(w)
    ensures Honest(BeginStep(w, pid, job))
  {
    hide CollectorOk, RequestsPersist, EverStored;
    var w' := BeginStep(w, pid, job);
    Same(w.collector);
    if w' != w { HonestFrame(w, w', pid, w'.procs[pid]); }
  }

  lemma AgentHonest(w: World, a: Action, p: Proc)
    requires Honest(w) && ByAgent(a) && a.pid in w.procs && w.procs[a.pid] == p
    ensures Honest(AgentStep(w, a, p))
  {
    hide Honest, NextFileStep, HearFile, HearBundle, GetToken, SettleStep, AbortStep, SpoolStep, FillStep;
    if a.NextFile? {
      if p.Replaying? { NextFileHonest(w, a.pid, p, a.readable, a.req, a.cut); }
    } else if a.Hear? {
      if p.FileSent? { HearFileHonest(w, a.pid, p, a.answer); }
      if p.BundleSent? { HearBundleHonest(w, a.pid, p, a.answer); }
    } else {
      QuietSteps(w, a, p);
      QuietHonest(w, AgentStep(w, a, p), a.pid);
    }
  }

  lemma CollectorHonest(w: World, a: Action)
    requires Honest(w)
    ensures Honest(w.(collector := CollectorStep(w.collector, a)))
  {
    hide CollectorOk, CollectorStep;
    var w' := w.(collector := CollectorStep(w.collector, a));
    CollectorKeeps(w.collector, a);
    forall q | q in w'.procs ensures RequestOf(w', w'.procs[q]) {
      assert RequestOf(w, w.procs[q]);
    }
    forall b | b in w'.ledger.acked ensures b in w'.ledger.forged || EverStored(w'.collector.stored, b.uuid) {
      StoredForGood(w.collector.stored, w'.collector.stored, b.uuid);
    }
  }

  lemma StoredForGood(stored: set<(int, HostId)>, more: set<(int, HostId)>, uuid: int)
    requires stored <= more
    ensures EverStored(stored, uuid) ==> EverStored(more, uuid)
  {
  }

  lemma StepHonest(w: World, a: Action)
    requires Honest(w)
    ensures Honest(Apply(w, a))
  {
    hide Honest, AgentStep, CollectorStep, BeginStep;
    if a.Begin? {
      BeginHonest(w, a.pid, a.job);
    } else if ByAgent(a) {
      if a.pid in w.procs { AgentHonest(w, a, w.procs[a.pid]); }
    } else {
      CollectorHonest(w, a);
    }
  }

  ghost predicate Invariant(w: World) {
    FilesOk(w) && Conserved(w) && Honest(w)
  }

  lemma BeginKeeps(w: World, pid: Pid, job: Job)
    requires FilesOk(w) && Conserved(w)
    ensures FilesOk(BeginStep(w, pid, job)) && Conserved(BeginStep(w, pid, job))
  {
    hide FilesOk, Conserved, Moves;
    var w' := BeginStep(w, pid, job);
    if pid in w.procs && !w.procs[pid].Idle? {
      assert w' == w;
    } else {
      BeginMoves(w, pid, job);
      MovesKeepFiles(w, w', pid, Idle);
      MovesKeepBundles(w, w', pid, Idle);
    }
  }

  lemma StepKeeps(w: World, a: Action)
    requires Invariant(w)
    ensures Invariant(Apply(w, a))
  {
    hide FilesOk, Conserved, Honest, Moves, AgentStep, CollectorStep, BeginStep;
    StepHonest(w, a);
    var w' := Apply(w, a);
    if a.Begin? {
      BeginKeeps(w, a.pid, a.job);
    } else if ByAgent(a) {
      if a.pid in w.procs {
        AgentMoves(w, a);
        MovesKeepFiles(w, w', a.pid, w.procs[a.pid]);
        MovesKeepBundles(w, w', a.pid, w.procs[a.pid]);
      }
    } else {
      CollectorOnly(w, w'.collector);
    }
  }

  lemma CollectorOnly(w: World, c: Collector)
    requires FilesOk(w) && Conserved(w)
    ensures FilesOk(w.(collector := c)) && Conserved(w.(collector := c))
  {
    var w' := w.(collector := c);
    forall q | q in w'.procs ensures FileOk(w', w'.procs[q]) {
      assert FileOk(w, w.procs[q]);
    }
    forall n, b | n in w'.partial && FileHas(w', n, b) ensures b in w'.ledger.notSpooled || BeingWritten(w', n, b) {
      assert FileHas(w, n, b);
    }
    forall b | b in w'.ledger.dumped ensures Accounted(w', b) {
      assert Accounted(w, b);
    }
  }

  lemma {:induction false} RunKeeps(w: World, run: seq<Action>)
    requires Invariant(w)
    ensures Invariant(Run(w, run))
    decreases |run|
  {
    hide Invariant, Apply;
    if run != [] {
      StepKeeps(w, run[0]);
      RunKeeps(Apply(w, run[0]), run[1..]);
    }
  }

  /** Nothing dumped, nothing stored, any hosts enrolled. */
  function Start(hosts: map<HostId, Host>, tokenFile: Option<Token>): World {
    World(tokenFile, map[], map[], {}, map[], Collector(hosts, [], 0, map[], {}), Ledger({}, {}, {}, {}, {}, {}, {}))
  }

  lemma StartInvariant(hosts: map<HostId, Host>, tokenFile: Option<Token>)
    ensures Invariant(Start(hosts, tokenFile))
  {
  }

  /** At every point of every run, each dumped bundle is acknowledged, permanently refused, in flight, or in a complete
      file of the spool or of spool/rejected, unless its own spool write failed and was reported as an error. */
  lemma NoBundleIsLost(hosts: map<HostId, Host>, tokenFile: Option<Token>, run: seq<Action>, b: Bundle)
    requires b in Run(Start(hosts, tokenFile), run).ledger.dumped
    ensures var w := Run(Start(hosts, tokenFile), run);
      || b in w.ledger.acked || b in w.ledger.refused || b in w.ledger.notSpooled
      || InFlight(w, b) || InSpool(w, b) || InRejected(w, b)
  {
    hide Run, FilesOk, Honest;
    StartInvariant(hosts, tokenFile);
    RunKeeps(Start(hosts, tokenFile), run);
    assert Accounted(Run(Start(hosts, tokenFile), run), b);
  }

  /** No run makes the collector hold two scans with one scan_uuid, retries and races included. */
  lemma NoScanIsStoredTwice(hosts: map<HostId, Host>, tokenFile: Option<Token>, run: seq<Action>, i: nat, j: nat)
    requires i < j < |Run(Start(hosts, tokenFile), run).collector.rows|
    ensures var rows := Run(Start(hosts, tokenFile), run).collector.rows; rows[i].uuid != rows[j].uuid
  {
    hide Run, FilesOk, Conserved;
    StartInvariant(hosts, tokenFile);
    RunKeeps(Start(hosts, tokenFile), run);
  }

  /** A bundle acknowledged by the collector itself has been stored; and what sits in spool/rejected was refused, or
      was read before its write ended. */
  lemma AcknowledgedMeansStored(hosts: map<HostId, Host>, tokenFile: Option<Token>, run: seq<Action>)
    ensures var w := Run(Start(hosts, tokenFile), run);
      && (forall b :: b in w.ledger.acked && b !in w.ledger.forged ==> EverStored(w.collector.stored, b.uuid))
      && (forall n :: n in w.rejected ==> w.rejected[n] in w.ledger.refused || n in w.ledger.early)
  {
    hide Run, Conserved, EverStored;
    StartInvariant(hosts, tokenFile);
    RunKeeps(Start(hosts, tokenFile), run);
  }

  /** Whose scan an answered success stands for: the sender's own, unless it lost the race to another host, and then
      that host's. */
  lemma SuccessNamesTheHost(hosts: map<HostId, Host>, tokenFile: Option<Token>, run: seq<Action>, req: ReqId)
    requires req in Run(Start(hosts, tokenFile), run).collector.requests
    requires Success(Run(Start(hosts, tokenFile), run).collector.requests[req].stage)
    ensures var c := Run(Start(hosts, tokenFile), run).collector;
      var r := c.requests[req];
      && r.stage.sender.Some?
      && if r.stage.other then StoredElsewhere(c.stored, r.bundle.uuid, r.stage.sender.value)
         else (r.bundle.uuid, r.stage.sender.value) in c.stored
  {
    hide Run, FilesOk, Conserved, RequestsOk, AckedMeansStored, StoredElsewhere;
    StartInvariant(hosts, tokenFile);
    RunKeeps(Start(hosts, tokenFile), run);
    var c := Run(Start(hosts, tokenFile), run).collector;
    assert RequestOk(c.stored, c.requests[req]);
  }

  /** Exactly when it is the sender's own: at whatever point of whatever run a request is answered with success, its
      scan_uuid is then in a row of its sender's, if and only if it was not answered by the lookup while the row
      holding its scan_uuid belonged to another host. */
  lemma StoredUnderOwnHostIff(hosts: map<HostId, Host>, tokenFile: Option<Token>, run: seq<Action>, a: Action,
                              req: ReqId)
    requires var w := Run(Start(hosts, tokenFile), run);
      req in w.collector.requests && !Success(w.collector.requests[req].stage)
    requires var w' := Apply(Run(Start(hosts, tokenFile), run), a);
      req in w'.collector.requests && Success(w'.collector.requests[req].stage)
    ensures var w, w' := Run(Start(hosts, tokenFile), run), Apply(Run(Start(hosts, tokenFile), run), a);
      var r := w'.collector.requests[req];
      && r.stage.sender.Some?
      && (HasUuidOf(w'.collector.rows, r.bundle.uuid, r.stage.sender.value)
          <==> !(a.Lookup? && HasRowElsewhere(w.collector.rows, r.bundle.uuid, r.stage.sender.value)))
  {
    hide Run, FilesOk, Conserved, RequestsOk, AckedMeansStored, CollectorStep, AgentStep, BeginStep;
    StartInvariant(hosts, tokenFile);
    RunKeeps(Start(hosts, tokenFile), run);
    var w := Run(Start(hosts, tokenFile), run);
    AgentsAnswerNothing(w, a, req);
    SuccessIsOwnIff(w.collector, a, req);
  }

  lemma AgentsAnswerNothing(w: World, a: Action, req: ReqId)
    requires req in w.collector.requests && !Success(w.collector.requests[req].stage)
    requires req in Apply(w, a).collector.requests && Success(Apply(w, a).collector.requests[req].stage)
    ensures !a.Begin? && !ByAgent(a)
  {
    if a.Begin? {
      BeginAnswersNothing(w, a.pid, a.job);
    } else if ByAgent(a) && a.pid in w.procs {
      AgentAnswersNothing(w, a, w.procs[a.pid], req);
    }
  }

  lemma BeginAnswersNothing(w: World, pid: Pid, job: Job)
    ensures BeginStep(w, pid, job).collector == w.collector
  {
  }

  lemma AgentAnswersNothing(w: World, a: Action, p: Proc, req: ReqId)
    requires ByAgent(a) && a.pid in w.procs && w.procs[a.pid] == p && req in w.collector.requests
    ensures req in AgentStep(w, a, p).collector.requests
    ensures AgentStep(w, a, p).collector.requests[req] == w.collector.requests[req]
  {
    hide HearFile, HearBundle, GetToken, SpoolStep, FillStep;
    if a.Hear? {
      if p.FileSent? { HearFileAnswersNothing(w, a.pid, p, a.answer); }
      if p.BundleSent? { HearBundleAnswersNothing(w, a.pid, p, a.answer); }
    } else if !a.NextFile? {
      QuietSteps(w, a, p);
    }
  }

  lemma HearFileAnswersNothing(w: World, pid: Pid, p: Proc, h: Http)
    requires p.FileSent?
    ensures HearFile(w, pid, p, h).collector == w.collector
  {
  }

  lemma HearBundleAnswersNothing(w: World, pid: Pid, p: Proc, h: Http)
    requires p.BundleSent?
    ensures HearBundle(w, pid, p, h).collector == w.collector
  {
  }
}
