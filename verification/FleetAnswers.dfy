/**
  What the history sets of the fleet step system record, told from the actions of a run: which answer, to which
  request, ended a bundle's story.  The statuses are those on the wire.
  */
module FleetAnswers {
  import opened Common
  import opened Report
  import opened Fleet
  import opened FleetAgent
  import opened FleetCollector
  import opened FleetSafety

  datatype Event =
    | Dump(bundle: Bundle)
    | Refusal(bundle: Bundle)
    | Acceptance(bundle: Bundle)
    | Forgery(bundle: Bundle)
    | SpoolFailure(bundle: Bundle)
    | EarlyRead(name: Name)

  /** Process `pid` waits for the answer to a request that holds b. */
  ghost predicate Awaits(w: World, pid: Pid, b: Bundle) {
    && pid in w.procs && (w.procs[pid].FileSent? || w.procs[pid].BundleSent?)
    && w.procs[pid].req in w.collector.requests && w.collector.requests[w.procs[pid].req].bundle == b
  }

  /** Process `pid` has posted what it read of a file into which b was, or is being, written. */
  ghost predicate AwaitsFileOf(w: World, pid: Pid, b: Bundle) {
    pid in w.procs && w.procs[pid].FileSent? && w.procs[pid].file == b
  }

  ghost predicate Accepts(w: World, a: Action, b: Bundle) {
    && a.Hear? && a.answer.Response? && 200 <= a.answer.status < 300 && a.answer.jsonObject
    && (Awaits(w, a.pid, b) || AwaitsFileOf(w, a.pid, b))
  }

  /** Action a, taken in w, is such an event. */
  ghost predicate Tells(w: World, a: Action, e: Event) {
    match e
    case Dump(b) => a.Begin? && a.job.bundle == Some(b) && (a.pid in w.procs ==> w.procs[a.pid] == Idle)
    case Refusal(b) =>
      a.Hear? && a.answer.Response? && a.answer.status in {400, 403, 413} && Awaits(w, a.pid, b)
    case Acceptance(b) => Accepts(w, a, b)
    case Forgery(b) => Accepts(w, a, b) && !Genuine(w, w.procs[a.pid].req, a.answer)
    case SpoolFailure(b) =>
      || (a.Spool? && !a.canWrite && a.pid in w.procs && w.procs[a.pid] == Spooling(b))
      || (a.Fill? && a.pid in w.procs && w.procs[a.pid].Writing? && w.procs[a.pid].own == b
          && !(a.end.Written? && w.procs[a.pid].name in w.spool))
    case EarlyRead(n) =>
      && a.NextFile? && a.pid in w.procs && w.procs[a.pid].Replaying? && [n] <= w.procs[a.pid].todo
      && n in w.spool && n in w.partial && a.readable && a.req !in w.collector.requests
      && a.cut != w.spool[n] && !a.cut.content.Good?
  }

  /** ... and so is some action of the run. */
  ghost predicate Happened(w: World, run: seq<Action>, e: Event) {
    exists k :: 0 <= k < |run| && Tells(Run(w, run[..k]), run[k], e)
  }

  ghost predicate Recorded(l: Ledger, e: Event) {
    match e
    case Dump(b) => b in l.dumped
    case Refusal(b) => b in l.refused
    case Acceptance(b) => b in l.acked
    case Forgery(b) => b in l.forged
    case SpoolFailure(b) => b in l.notSpooled
    case EarlyRead(n) => n in l.early
  }

  ghost predicate Records(w: World, a: Action, w': World) {
    forall e :: Recorded(w'.ledger, e) <==> Recorded(w.ledger, e) || Tells(w, a, e)
  }

  lemma BeginRecords(w: World, a: Action)
    requires a.Begin?
    ensures Records(w, a, BeginStep(w, a.pid, a.job))
  {
  }

  lemma HearFileRecords(w: World, a: Action, p: Proc)
    requires a.Hear? && a.pid in w.procs && w.procs[a.pid] == p && p.FileSent? && RequestOf(w, p)
    ensures Records(w, a, HearFile(w, a.pid, p, a.answer))
  {
  }

  lemma HearBundleRecords(w: World, a: Action, p: Proc)
    requires a.Hear? && a.pid in w.procs && w.procs[a.pid] == p && p.BundleSent? && RequestOf(w, p)
    ensures Records(w, a, HearBundle(w, a.pid, p, a.answer))
  {
  }

  lemma TokenRecords(w: World, a: Action, p: Proc)
    requires a.TokenStep? && a.pid in w.procs && w.procs[a.pid] == p && p.NeedToken?
    ensures Records(w, a, GetToken(w, a.pid, p.job, a.enrol))
  {
    assert GetToken(w, a.pid, p.job, a.enrol).ledger == w.ledger;
  }

  lemma NextFileRecords(w: World, a: Action, p: Proc)
    requires a.NextFile? && a.pid in w.procs && w.procs[a.pid] == p && p.Replaying?
    ensures Records(w, a, NextFileStep(w, a.pid, p, a.readable, a.req, a.cut))
  {
  }

  lemma SpoolRecords(w: World, a: Action, p: Proc)
    requires a.Spool? && a.pid in w.procs && w.procs[a.pid] == p && p.Spooling?
    ensures Records(w, a, SpoolStep(w, a.pid, p.own, a.name, a.canWrite))
  {
  }

  lemma FillRecords(w: World, a: Action, p: Proc)
    requires a.Fill? && a.pid in w.procs && w.procs[a.pid] == p && p.Writing?
    ensures Records(w, a, FillStep(w, a.pid, p.own, p.name, a.end))
  {
  }

  lemma AgentRecords(w: World, a: Action, p: Proc)
    requires ByAgent(a) && a.pid in w.procs && w.procs[a.pid] == p && RequestOf(w, p)
    ensures Records(w, a, AgentStep(w, a, p))
  {
    hide GetToken, NextFileStep, HearFile, HearBundle, SpoolStep, FillStep;
    match a
    case TokenStep(_, _) => if p.NeedToken? { TokenRecords(w, a, p); }
    case NextFile(_, _, _, _) => if p.Replaying? { NextFileRecords(w, a, p); }
    case Hear(_, _) =>
      if p.FileSent? { HearFileRecords(w, a, p); } else if p.BundleSent? { HearBundleRecords(w, a, p); }
    case Spool(_, _, _) => if p.Spooling? { SpoolRecords(w, a, p); }
    case Fill(_, _) => if p.Writing? { FillRecords(w, a, p); }
    case _ =>
  }

  /** One step adds to the ledger exactly what it is. */
  lemma StepRecords(w: World, a: Action)
    requires RequestsOk(w)
    ensures Records(w, a, Apply(w, a))
  {
    hide BeginStep, AgentStep, CollectorStep;
    if a.Begin? {
      BeginRecords(w, a);
    } else if ByAgent(a) && a.pid in w.procs {
      AgentRecords(w, a, w.procs[a.pid]);
    }
  }

  lemma HappenedSnoc(w: World, run: seq<Action>, a: Action, e: Event)
    ensures Happened(w, run + [a], e) <==> Happened(w, run, e) || Tells(Run(w, run), a, e)
  {
    hide Run, Tells;
    var longer := run + [a];
    assert longer[..|run|] == run;
    assert forall k :: 0 <= k < |run| ==> longer[k] == run[k] && longer[..k] == run[..k];
  }

  /** The ledger of a run holds exactly what happened in it. */
  lemma {:induction false} LedgerIsHistory(hosts: map<HostId, Host>, tokenFile: Option<Token>, run: seq<Action>,
                                           e: Event)
    ensures Recorded(Run(Start(hosts, tokenFile), run).ledger, e) <==> Happened(Start(hosts, tokenFile), run, e)
    decreases |run|
  {
    hide Run, Tells, Apply, FilesOk, Conserved, Happened;
    var s := Start(hosts, tokenFile);
    if run == [] {
      NothingHappens(s, e);
    } else {
      var before, a := run[..|run| - 1], run[|run| - 1];
      assert run == before + [a];
      LedgerIsHistory(hosts, tokenFile, before, e);
      StartInvariant(hosts, tokenFile);
      RunKeeps(s, before);
      StepRecords(Run(s, before), a);
      RunSnoc(s, before, a);
      HappenedSnoc(s, before, a, e);
    }
  }

  lemma NothingHappens(w: World, e: Event)
    ensures !Happened(w, [], e) && Run(w, []) == w
  {
  }

  /** Said outright: a bundle counts as refused exactly when, at some point of the run, an agent heard a 400, 403 or
      413 in answer to a request that held it. */
  lemma RefusedIff(hosts: map<HostId, Host>, tokenFile: Option<Token>, run: seq<Action>, b: Bundle)
    ensures b in Run(Start(hosts, tokenFile), run).ledger.refused <==>
      exists k :: && 0 <= k < |run| && run[k].Hear? && run[k].answer.Response?
                  && run[k].answer.status in {400, 403, 413}
                  && Awaits(Run(Start(hosts, tokenFile), run[..k]), run[k].pid, b)
  {
    hide Run, Awaits;
    LedgerIsHistory(hosts, tokenFile, run, Refusal(b));
    var s := Start(hosts, tokenFile);
    forall k | 0 <= k < |run|
      ensures Tells(Run(s, run[..k]), run[k], Refusal(b)) <==>
        && run[k].Hear? && run[k].answer.Response? && run[k].answer.status in {400, 403, 413}
        && Awaits(Run(s, run[..k]), run[k].pid, b)
    {
    }
  }

  /** The conservation law with its endings told by what was heard, and why a file is in spool/rejected. */
  lemma EveryEndingHappened(hosts: map<HostId, Host>, tokenFile: Option<Token>, run: seq<Action>, b: Bundle, n: Name)
    ensures var s, w := Start(hosts, tokenFile), Run(Start(hosts, tokenFile), run);
      && (Happened(s, run, Dump(b)) ==>
          || Happened(s, run, Acceptance(b)) || Happened(s, run, Refusal(b)) || Happened(s, run, SpoolFailure(b))
          || InFlight(w, b) || InSpool(w, b) || InRejected(w, b))
      && (n in w.rejected ==> Happened(s, run, Refusal(w.rejected[n])) || Happened(s, run, EarlyRead(n)))
      && (Happened(s, run, Acceptance(b)) ==>
          Happened(s, run, Forgery(b)) || EverStored(w.collector.stored, b.uuid))
  {
    hide Run, Happened, InFlight, InSpool, InRejected, EverStored, Start;
    var w := Run(Start(hosts, tokenFile), run);
    LedgerIsHistory(hosts, tokenFile, run, Dump(b));
    LedgerIsHistory(hosts, tokenFile, run, Acceptance(b));
    LedgerIsHistory(hosts, tokenFile, run, Refusal(b));
    LedgerIsHistory(hosts, tokenFile, run, SpoolFailure(b));
    LedgerIsHistory(hosts, tokenFile, run, Forgery(b));
    LedgerIsHistory(hosts, tokenFile, run, EarlyRead(n));
    if n in w.rejected { LedgerIsHistory(hosts, tokenFile, run, Refusal(w.rejected[n])); }
    if b in w.ledger.dumped { NoBundleIsLost(hosts, tokenFile, run, b); }
    AcknowledgedMeansStored(hosts, tokenFile, run);
  }

  // ---- Answers that end nothing --------------------------------------------------------------

  /** No answer, a 401, a 429 or a 5xx to a spooled file changes nothing on disk or in the ledger, and ends the pass. */
  lemma LaterKeepsTheFile(w: World, pid: Pid, h: Http)
    requires pid in w.procs && w.procs[pid].FileSent? && TryLater(h)
    ensures var p := w.procs[pid];
      Apply(w, Hear(pid, h)) == w.(procs := w.procs[pid := Replaying(p.job, p.token, [])])
  {
  }

  /** Whatever answers the post of the bundle itself, if it is no 2xx with a JSON object and not one of the three
      refusals, the bundle goes on to be spooled; a first 401 of a stored token is followed by a re-enrolment. */
  lemma LaterKeepsTheBundle(w: World, pid: Pid, h: Http)
    requires pid in w.procs && w.procs[pid].BundleSent? && FileOk(w, w.procs[pid])
    requires !(h.Response? && 200 <= h.status < 300 && h.jsonObject)
    requires !(h.Response? && h.status in {400, 403, 413})
    ensures var p := w.procs[pid];
      var again := h.Response? && h.status == 401 && p.job.cfg.agentToken.None? && p.job.cfg.hasEnrolToken
                   && !p.job.second;
      Apply(w, Hear(pid, h)) ==
        if again then w.(procs := w.procs[pid := NeedToken(p.job.(second := true))], tokenFile := None)
        else w.(procs := w.procs[pid := Spooling(p.own)])
  {
  }

  // ---- Why the collector refuses ---------------------------------------------------------------

  /** What is wrong with a bundle that `host` sends: too large, not loadable, not terminal or not storable, another
      machine's, or with a scan_uuid that belongs to another host. */
  ghost predicate Faulty(c: Collector, b: Bundle, host: HostId) {
    || b.size > 8388608 || b.content != Good(true, true)
    || (host in c.hosts && b.machine != c.hosts[host].machine)
    || HasRowElsewhere(c.rows, b.uuid, host)
  }

  ghost predicate Authentic(c: Collector, host: HostId, token: Token) {
    host in c.hosts && c.hosts[host].token == Some(token) && !c.hosts[host].revoked
  }

  /** This step answers the request. */
  ghost predicate Answers(c: Collector, a: Action, req: ReqId) {
    && req in c.requests && !c.requests[req].stage.Done?
    && req in CollectorStep(c, a).requests && CollectorStep(c, a).requests[req].stage.Done?
  }

  /** The loser of a race finds that the winner's row is gone again. */
  ghost predicate WinnerPruned(c: Collector, a: Action, req: ReqId) {
    a.Lookup? && req in c.requests && !HasUuid(c.rows, c.requests[req].bundle.uuid)
  }

  /** What each status means for the request it answers. */
  lemma AnswerMeans(c: Collector, a: Action, req: ReqId)
    requires CollectorOk(c) && Answers(c, a, req)
    ensures var r, r' := c.requests[req], CollectorStep(c, a).requests[req];
      var h := r'.stage.answer;
      && r'.bundle == r.bundle && h.Response? && h.jsonObject
      && (h.status == 401 <==> a.Admit? && !Authentic(c, a.host, r.token))
      && (h.status == 429 <==> a.Admit? && Authentic(c, a.host, r.token) && !a.rateOk)
      && (h.status == 503 ==> a.Admit? && a.busy)
      && (h.status in {400, 403, 413} ==>
          r'.stage.sender.Some? && (Faulty(c, r.bundle, r'.stage.sender.value) || WinnerPruned(c, a, req)))
      && h.status in {200, 400, 401, 403, 413, 429, 503}
  {
    hide RequestsMeanStored;
  }

  /** May pass on to the store: authenticated, let through by the limiter, within 8 MiB, loadable, terminal, of the
      sender's machine. */
  ghost predicate Fit(c: Collector, a: Action, r: Request)
    requires a.Admit?
  {
    && Authentic(c, a.host, r.token) && a.rateOk && r.bundle.size <= 8388608
    && r.bundle.content.Good? && r.bundle.content.terminal && r.bundle.machine == c.hosts[a.host].machine
  }

  ghost predicate LetIn(c: Collector, a: Action, r: Request)
    requires a.Admit?
  {
    Authentic(c, a.host, r.token) && a.rateOk
  }

  ghost predicate TooLarge(b: Bundle) {
    b.size > 8388608 || b.content.Oversize?
  }

  /** What becomes of a new request: each status exactly when its cause is there and none that is looked at earlier. */
  lemma AdmitIff(c: Collector, a: Action, req: ReqId)
    requires a.Admit? && a.req == req && req in c.requests && c.requests[req].stage.Arrived?
    ensures var r, s := c.requests[req], CollectorStep(c, a).requests[req].stage;
      var status := if s.Done? && s.answer.Response? then s.answer.status else 0;
      && (status == 401 <==> !Authentic(c, a.host, r.token))
      && (status == 429 <==> Authentic(c, a.host, r.token) && !a.rateOk)
      && (status == 413 <==> LetIn(c, a, r) && TooLarge(r.bundle))
      && (status == 403 <==> LetIn(c, a, r) && !TooLarge(r.bundle) && r.bundle.content.Good?
                             && r.bundle.machine != c.hosts[a.host].machine)
      && (status == 503 <==> Fit(c, a, r) && a.busy)
      && (status == 200 <==> Fit(c, a, r) && !a.busy && HasUuidOf(c.rows, r.bundle.uuid, a.host))
      && (s == Checked(a.host) <==> Fit(c, a, r) && !a.busy && !HasUuid(c.rows, r.bundle.uuid))
      && (status == 400 <==>
          LetIn(c, a, r) && !TooLarge(r.bundle)
          && (r.bundle.content.Good? ==> r.bundle.machine == c.hosts[a.host].machine)
          && (!Fit(c, a, r)
              || (!a.busy && HasUuid(c.rows, r.bundle.uuid) && !HasUuidOf(c.rows, r.bundle.uuid, a.host))))
  {
  }

  /** At its j-th step the run answers the request, which holds b, with h. */
  ghost predicate AnsweredAt(s: World, run: seq<Action>, j: nat, req: ReqId, b: Bundle, h: Http) {
    && j < |run| && Answers(Run(s, run[..j]).collector, run[j], req)
    && Run(s, run[..j]).collector.requests[req].bundle == b
    && CollectorStep(Run(s, run[..j]).collector, run[j]).requests[req].stage.answer == h
  }

  lemma {:induction false} StillAnsweredAt(s: World, run: seq<Action>, a: Action, j: nat, req: ReqId, b: Bundle,
                                           h: Http)
    requires AnsweredAt(s, run, j, req, b, h)
    ensures AnsweredAt(s, run + [a], j, req, b, h)
  {
    hide Run, Answers, CollectorStep;
    assert (run + [a])[j] == run[j] && (run + [a])[..j] == run[..j];
  }

  /** One step leaves answered requests as they are, and answers one or none of the others. */
  lemma StepAnswers(w: World, a: Action, req: ReqId)
    requires req in Apply(w, a).collector.requests && Apply(w, a).collector.requests[req].stage.Done?
    ensures req in w.collector.requests
    ensures Apply(w, a).collector.requests[req] == w.collector.requests[req] || Answers(w.collector, a, req)
    ensures Apply(w, a).collector.requests[req].bundle == w.collector.requests[req].bundle
    ensures Answers(w.collector, a, req) ==>
      Apply(w, a).collector.requests[req] == CollectorStep(w.collector, a).requests[req]
  {
    hide AgentStep;
    if a.Begin? {
      BeginAnswersNothing(w, a.pid, a.job);
    } else if ByAgent(a) && a.pid in w.procs {
      AgentOnlyAsks(w, a, w.procs[a.pid], req);
    } else if !ByAgent(a) {
      CollectorAnswers(w.collector, a, req);
    }
  }

  lemma AgentOnlyAsks(w: World, a: Action, p: Proc, req: ReqId)
    requires ByAgent(a) && a.pid in w.procs && w.procs[a.pid] == p
    requires req in AgentStep(w, a, p).collector.requests && AgentStep(w, a, p).collector.requests[req].stage.Done?
    ensures req in w.collector.requests
    ensures AgentStep(w, a, p).collector.requests[req] == w.collector.requests[req]
  {
    hide HearFile, HearBundle, GetToken, SpoolStep, FillStep;
    if req in w.collector.requests {
      AgentAnswersNothing(w, a, p, req);
    } else if a.Hear? {
      if p.FileSent? { HearFileAnswersNothing(w, a.pid, p, a.answer); }
      if p.BundleSent? { HearBundleAnswersNothing(w, a.pid, p, a.answer); }
    } else if !a.NextFile? {
      QuietSteps(w, a, p);
    }
  }

  lemma CollectorAnswers(c: Collector, a: Action, req: ReqId)
    requires req in CollectorStep(c, a).requests && CollectorStep(c, a).requests[req].stage.Done?
    ensures req in c.requests && CollectorStep(c, a).requests[req].bundle == c.requests[req].bundle
    ensures CollectorStep(c, a).requests[req] == c.requests[req] || Answers(c, a, req)
  {
  }

  lemma {:induction false} DoneWasAnswered(hosts: map<HostId, Host>, tokenFile: Option<Token>, run: seq<Action>,
                                           req: ReqId)
      returns (j: nat)
    requires req in Run(Start(hosts, tokenFile), run).collector.requests
    requires Run(Start(hosts, tokenFile), run).collector.requests[req].stage.Done?
    ensures var r := Run(Start(hosts, tokenFile), run).collector.requests[req];
      AnsweredAt(Start(hosts, tokenFile), run, j, req, r.bundle, r.stage.answer)
    decreases |run|
  {
    hide Run, Apply, Answers, CollectorStep;
    var s := Start(hosts, tokenFile);
    if run == [] {
      NothingRun(s);
      assert false;
    } else {
      var before, a := run[..|run| - 1], run[|run| - 1];
      assert run == before + [a];
      RunSnoc(s, before, a);
      StepAnswers(Run(s, before), a, req);
      if Answers(Run(s, before).collector, a, req) {
        j := |before|;
      } else {
        j := DoneWasAnswered(hosts, tokenFile, before, req);
        var r := Run(s, before).collector.requests[req];
        StillAnsweredAt(s, before, a, j, req, r.bundle, r.stage.answer);
      }
    }
  }

  /** A refusal that is the collector's own was given at an earlier step, to a request with the refused bundle, and for
      a cause that lies in the bundle; but a loser of a race may find the winner's row pruned. */
  lemma RefusalHasACause(hosts: map<HostId, Host>, tokenFile: Option<Token>, run: seq<Action>, a: Action, b: Bundle)
      returns (j: nat)
    requires var w := Run(Start(hosts, tokenFile), run);
      Tells(w, a, Refusal(b)) && Genuine(w, w.procs[a.pid].req, a.answer)
    ensures j < |run|
    ensures var s := Start(hosts, tokenFile);
      var c, req := Run(s, run[..j]).collector, Run(s, run).procs[a.pid].req;
      && AnsweredAt(s, run, j, req, b, a.answer)
      && (WinnerPruned(c, run[j], req) || exists host :: Faulty(c, b, host))
  {
    hide Run, CollectorStep, FilesOk, Conserved, CollectorOk, Faulty, WinnerPruned;
    var s := Start(hosts, tokenFile);
    var req := Run(s, run).procs[a.pid].req;
    j := DoneWasAnswered(hosts, tokenFile, run, req);
    StartInvariant(hosts, tokenFile);
    RunKeeps(s, run[..j]);
    var c := Run(s, run[..j]).collector;
    AnswerMeans(c, run[j], req);
    if !WinnerPruned(c, run[j], req) {
      assert Faulty(c, b, CollectorStep(c, run[j]).requests[req].stage.sender.value);
    }
  }
}
