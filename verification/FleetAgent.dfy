/** The agent's invariant of the fleet step system: every dumped bundle is accounted for, whatever an agent does. */
module FleetAgent {
  import opened Common
  import opened Report
  import opened Fleet

  predicate Holds(p: Proc, b: Bundle) {
    match p
    case Idle => false
    case Spooling(own) => own == b
    case Writing(own, _) => own == b
    case BundleSent(_, own, _) => own == b
    case _ => p.job.bundle == Some(b)
  }

  ghost predicate InFlight(w: World, b: Bundle) {
    exists pid :: pid in w.procs && Holds(w.procs[pid], b)
  }

  /** Some completely written file of the directory holds b. */
  ghost predicate InDir(dir: map<Name, Bundle>, partial: set<Name>, b: Bundle) {
    exists n :: n in dir && n !in partial && dir[n] == b
  }

  ghost predicate InSpool(w: World, b: Bundle) {
    InDir(w.spool, w.partial, b)
  }

  ghost predicate InRejected(w: World, b: Bundle) {
    InDir(w.rejected, w.partial, b)
  }

  ghost predicate Closed(l: Ledger, b: Bundle) {
    b in l.acked || b in l.refused || b in l.notSpooled
  }

  ghost predicate Accounted(w: World, b: Bundle) {
    Closed(w.ledger, b) || InFlight(w, b) || InSpool(w, b) || InRejected(w, b)
  }

  /** What a process remembers about the file it is working on. */
  ghost predicate FileOk(w: World, p: Proc) {
    && (p.BundleSent? ==> p.job.bundle == Some(p.own))
    && (p.FileSent? || p.FileAnswered? ==>
        p.name in w.ledger.names && (p.name in w.spool ==> w.spool[p.name] == p.file))
    && (p.FileSent? ==> p.data == p.file || p.name in w.ledger.early)
    && (p.FileAnswered? ==>
        if p.acked then p.file in w.ledger.acked else p.file in w.ledger.refused || p.name in w.ledger.early)
    && (p.Writing? ==> p.name in w.ledger.names && (p.name in w.spool ==> w.spool[p.name] == p.own)
                       && (p.name in w.rejected ==> w.rejected[p.name] == p.own))
  }

  /** The two directories use names once; a rejected file was refused, or read before its write ended. */
  ghost predicate DirsOk(w: World) {
    && w.spool.Keys <= w.ledger.names && w.rejected.Keys <= w.ledger.names && w.partial <= w.ledger.names
    && w.spool.Keys !! w.rejected.Keys
    && (forall n :: n in w.rejected ==> w.rejected[n] in w.ledger.refused || n in w.ledger.early)
  }

  ghost predicate FileHas(w: World, n: Name, b: Bundle) {
    (n in w.spool && w.spool[n] == b) || (n in w.rejected && w.rejected[n] == b)
  }

  ghost predicate BeingWritten(w: World, n: Name, b: Bundle) {
    exists pid :: pid in w.procs && w.procs[pid] == Writing(b, n)
  }

  /** An incomplete file is being written, or its failure was reported. */
  ghost predicate PartialOk(w: World) {
    forall n, b :: n in w.partial && FileHas(w, n, b) ==> b in w.ledger.notSpooled || BeingWritten(w, n, b)
  }

  ghost predicate ProcsOk(w: World) {
    forall pid :: pid in w.procs ==> FileOk(w, w.procs[pid])
  }

  ghost predicate FilesOk(w: World) {
    DirsOk(w) && ProcsOk(w) && PartialOk(w)
  }

  ghost predicate Conserved(w: World) {
    forall b :: b in w.ledger.dumped ==> Accounted(w, b)
  }

  ghost predicate Grows(l: Ledger, l': Ledger) {
    && l.acked <= l'.acked && l.refused <= l'.refused && l.notSpooled <= l'.notSpooled
    && l.names <= l'.names && l.early <= l'.early
  }

  /** Files keep their names and contents; they are created, moved to the rejected directory, or unlinked once
      their bundle's story has ended; a complete file stays complete. */
  ghost predicate DirsMove(w: World, w': World) {
    && DirsOk(w')
    && (forall n :: n in w'.spool && n in w.ledger.names ==> n in w.spool && w'.spool[n] == w.spool[n])
    && (forall n :: n in w.rejected ==> n in w'.rejected && w'.rejected[n] == w.rejected[n])
    && (forall n :: n in w'.rejected && n !in w.rejected ==> n in w.spool && w'.rejected[n] == w.spool[n])
    && (forall n :: n in w.spool && n !in w'.spool ==> Closed(w'.ledger, w.spool[n]) || n in w'.rejected)
    && (forall n :: n in w'.partial && n in w.ledger.names ==> n in w.partial)
  }

  ghost predicate ProcMoves(w: World, w': World, pid: Pid, p: Proc, p': Proc) {
    && FileOk(w', p')
    && w'.procs == w.procs[pid := p']
    && (forall b :: Holds(p, b) ==> Holds(p', b) || Closed(w'.ledger, b) || InSpool(w', b))
    && (forall b :: b in w'.ledger.dumped ==> b in w.ledger.dumped || Holds(p', b))
    && (p.Writing? ==> p' == p || p.name !in w'.partial || p.own in w'.ledger.notSpooled)
    && (forall n :: n in w'.partial && n !in w.partial ==>
        n !in w.ledger.names && n in w'.spool && p' == Writing(w'.spool[n], n))
  }

  /** What one step of process `pid` may do: it changes no other process, drops a spool file only once it is
      settled, reuses no name, finishes or reports what it writes, and hands on the bundle it holds. */
  ghost predicate Moves(w: World, w': World, pid: Pid, p: Proc) {
    exists p' :: Grows(w.ledger, w'.ledger) && DirsMove(w, w') && ProcMoves(w, w', pid, p, p')
  }

  ghost predicate Was(w: World, pid: Pid, p: Proc) {
    if pid in w.procs then p == w.procs[pid] else p == Idle
  }

  lemma OtherFileOk(w: World, w': World, q: Proc)
    requires DirsOk(w) && FileOk(w, q) && Grows(w.ledger, w'.ledger) && DirsMove(w, w')
    ensures FileOk(w', q)
  {
  }

  lemma StillHas(w: World, w': World, n: Name, b: Bundle)
    requires DirsOk(w) && DirsMove(w, w') && n in w.ledger.names && FileHas(w', n, b)
    ensures FileHas(w, n, b)
  {
  }

  lemma StillPartial(w: World, w': World, pid: Pid, p: Proc, p': Proc, n: Name, b: Bundle)
    requires FilesOk(w) && Was(w, pid, p)
    requires Grows(w.ledger, w'.ledger) && DirsMove(w, w') && ProcMoves(w, w', pid, p, p')
    requires n in w'.partial && FileHas(w', n, b)
    ensures b in w'.ledger.notSpooled || BeingWritten(w', n, b)
  {
    if n in w.partial {
      StillHas(w, w', n, b);
      if b !in w.ledger.notSpooled {
        var q :| q in w.procs && w.procs[q] == Writing(b, n);
        assert q in w'.procs;
        if q != pid { assert w'.procs[q] == w.procs[q]; } else { assert w'.procs[q] == p'; }
      }
    } else {
      assert w'.procs[pid] == p';
    }
  }

  lemma MovesKeepFiles(w: World, w': World, pid: Pid, p: Proc)
    requires FilesOk(w) && Moves(w, w', pid, p) && Was(w, pid, p)
    ensures FilesOk(w')
  {
    hide FileOk, DirsOk, FileHas;
    var p' :| Grows(w.ledger, w'.ledger) && DirsMove(w, w') && ProcMoves(w, w', pid, p, p');
    forall q | q in w'.procs ensures FileOk(w', w'.procs[q]) {
      if q != pid { OtherFileOk(w, w', w.procs[q]); }
    }
    forall n, b | n in w'.partial && FileHas(w', n, b)
      ensures b in w'.ledger.notSpooled || BeingWritten(w', n, b)
    {
      StillPartial(w, w', pid, p, p', n, b);
    }
  }

  lemma MovesKeepBundles(w: World, w': World, pid: Pid, p: Proc)
    requires FilesOk(w) && Conserved(w) && Moves(w, w', pid, p) && Was(w, pid, p)
    ensures Conserved(w')
  {
    hide FilesOk, DirsMove, Grows, Accounted;
    var p' :| Grows(w.ledger, w'.ledger) && DirsMove(w, w') && ProcMoves(w, w', pid, p, p');
    forall b | b in w'.ledger.dumped ensures Accounted(w', b) {
      if Holds(p', b) {
        HolderAccounts(w', pid, p', b);
      } else {
        StillAccounted(w, w', pid, p, p', b);
      }
    }
  }

  lemma HolderAccounts(w: World, pid: Pid, p: Proc, b: Bundle)
    requires pid in w.procs && w.procs[pid] == p && Holds(p, b)
    ensures Accounted(w, b)
  {
  }

  lemma StillInDirs(w: World, w': World, b: Bundle)
    requires DirsOk(w) && Grows(w.ledger, w'.ledger) && DirsMove(w, w')
    requires InSpool(w, b) || InRejected(w, b)
    ensures Accounted(w', b)
  {
    if InSpool(w, b) {
      var n :| n in w.spool && n !in w.partial && w.spool[n] == b;
      if n in w'.spool {
        assert w'.spool[n] == b && n !in w'.partial;
      } else if n in w'.rejected {
        assert w'.rejected[n] == b && n !in w'.partial;
      }
    } else {
      var n :| n in w.rejected && n !in w.partial && w.rejected[n] == b;
      assert n in w'.rejected && n !in w'.partial && w'.rejected[n] == b;
    }
  }

  lemma StillAccounted(w: World, w': World, pid: Pid, p: Proc, p': Proc, b: Bundle)
    requires FilesOk(w) && Accounted(w, b) && Was(w, pid, p)
    requires Grows(w.ledger, w'.ledger) && DirsMove(w, w') && ProcMoves(w, w', pid, p, p')
    ensures Accounted(w', b)
  {
    hide DirsMove, FileOk;
    if InFlight(w, b) {
      var q :| q in w.procs && Holds(w.procs[q], b);
      if q != pid {
        HolderAccounts(w', q, w.procs[q], b);
      } else if Holds(p', b) {
        HolderAccounts(w', pid, p', b);
      }
    } else if InSpool(w, b) || InRejected(w, b) {
      StillInDirs(w, w', b);
    }
  }

  lemma SameDirsMove(w: World, w': World)
    requires DirsOk(w) && Grows(w.ledger, w'.ledger) && w'.ledger.names == w.ledger.names
    requires w'.spool == w.spool && w'.rejected == w.rejected && w'.partial == w.partial
    ensures DirsMove(w, w')
  {
  }

  predicate HasJob(p: Proc) {
    !p.Idle? && !p.Spooling? && !p.Writing?
  }

  lemma BeginMoves(w: World, pid: Pid, job: Job)
    requires FilesOk(w) && (pid in w.procs ==> w.procs[pid].Idle?)
    ensures Moves(w, BeginStep(w, pid, job), pid, Idle)
  {
    var w', p' := BeginStep(w, pid, job), NeedToken(job.(second := false));
    assert ProcMoves(w, w', pid, Idle, p');
  }

  lemma FailMoves(w: World, pid: Pid, p: Proc, status: nat)
    requires FilesOk(w) && FileOk(w, p) && HasJob(p)
    ensures Moves(w, SendFailed(w, pid, p.job, status), pid, p)
  {
    hide DirsMove;
    var w' := SendFailed(w, pid, p.job, status);
    SameDirsMove(w, w');
    assert ProcMoves(w, w', pid, p, w'.procs[pid]);
  }

  lemma ReplayMoves(w: World, pid: Pid, p: Proc, token: Token, tokenFile: Option<Token>)
    requires FilesOk(w) && p.NeedToken?
    ensures Moves(w, StartReplay(w, pid, p.job, token, tokenFile), pid, p)
  {
    var w' := StartReplay(w, pid, p.job, token, tokenFile);
    assert ProcMoves(w, w', pid, p, w'.procs[pid]);
  }

  lemma TokenMoves(w: World, pid: Pid, p: Proc, enrol: Enrol)
    requires FilesOk(w) && p.NeedToken?
    ensures Moves(w, GetToken(w, pid, p.job, enrol), pid, p)
  {
    var job := p.job;
    if job.cfg.agentToken.Some? {
      ReplayMoves(w, pid, p, job.cfg.agentToken.value, w.tokenFile);
    } else if w.tokenFile.Some? {
      ReplayMoves(w, pid, p, w.tokenFile.value, w.tokenFile);
    } else if !job.cfg.hasEnrolToken || enrol.EnrolCrash? {
      FailMoves(w, pid, p, 0);
    } else if enrol.EnrolError? {
      FailMoves(w, pid, p, enrol.status);
    } else {
      ReplayMoves(w, pid, p, enrol.token, Some(enrol.token));
    }
  }

  lemma NextFileMoves(w: World, pid: Pid, p: Proc, readable: bool, req: ReqId, cut: Bundle)
    requires FilesOk(w) && p.Replaying? && pid in w.procs && w.procs[pid] == p
    ensures Moves(w, NextFileStep(w, pid, p, readable, req, cut), pid, p)
  {
    hide DirsMove;
    var w' := NextFileStep(w, pid, p, readable, req, cut);
    SameDirsMove(w, w');
    assert ProcMoves(w, w', pid, p, w'.procs[pid]);
  }

  lemma HearFileMoves(w: World, pid: Pid, p: Proc, h: Http)
    requires FilesOk(w) && p.FileSent? && FileOk(w, p)
    ensures Moves(w, HearFile(w, pid, p, h), pid, p)
  {
    hide DirsMove;
    var w' := HearFile(w, pid, p, h);
    SameDirsMove(w, w');
    assert ProcMoves(w, w', pid, p, w'.procs[pid]);
  }

  lemma HearBundleMoves(w: World, pid: Pid, p: Proc, h: Http)
    requires FilesOk(w) && p.BundleSent? && FileOk(w, p)
    ensures Moves(w, HearBundle(w, pid, p, h), pid, p)
  {
    hide DirsMove;
    var w' := HearBundle(w, pid, p, h);
    SameDirsMove(w, w');
    match PostResult(h)
    case Failed(status) =>
      FailMoves(w, pid, p, status);
      if Permanent(status) { assert ProcMoves(w, w', pid, p, Idle); }
    case _ => assert ProcMoves(w, w', pid, p, w'.procs[pid]);
  }

  lemma SettleMoves(w: World, pid: Pid, p: Proc, ok: bool)
    requires FilesOk(w) && p.FileAnswered? && FileOk(w, p)
    ensures Moves(w, SettleStep(w, pid, p, ok), pid, p)
  {
    var w' := SettleStep(w, pid, p, ok);
    assert ProcMoves(w, w', pid, p, w'.procs[pid]);
  }

  lemma AbortMoves(w: World, pid: Pid, p: Proc)
    requires FilesOk(w) && FileOk(w, p) && HasJob(p)
    ensures Moves(w, AbortStep(w, pid, p.job), pid, p)
  {
    var w' := AbortStep(w, pid, p.job);
    assert ProcMoves(w, w', pid, p, w'.procs[pid]);
  }

  lemma SpoolMoves(w: World, pid: Pid, p: Proc, name: Name, canWrite: bool)
    requires FilesOk(w) && p.Spooling? && pid in w.procs && w.procs[pid] == p
    ensures Moves(w, SpoolStep(w, pid, p.own, name, canWrite), pid, p)
  {
    var w' := SpoolStep(w, pid, p.own, name, canWrite);
    assert ProcMoves(w, w', pid, p, w'.procs[pid]);
  }

  lemma FillMoves(w: World, pid: Pid, p: Proc, end: WriteEnd)
    requires FilesOk(w) && p.Writing? && pid in w.procs && w.procs[pid] == p
    ensures Moves(w, FillStep(w, pid, p.own, p.name, end), pid, p)
  {
    assert FileOk(w, p);
    var w' := FillStep(w, pid, p.own, p.name, end);
    if end.Written? && p.name in w.spool {
      assert p.name in w'.spool && p.name !in w'.partial && w'.spool[p.name] == p.own;
    }
    assert ProcMoves(w, w', pid, p, w'.procs[pid]);
  }

  lemma StutterMoves(w: World, pid: Pid, p: Proc)
    requires FilesOk(w) && pid in w.procs && w.procs[pid] == p
    ensures Moves(w, w, pid, p)
  {
    assert FileOk(w, p);
    assert w.procs == w.procs[pid := p];
    assert ProcMoves(w, w, pid, p, p);
  }

  lemma AgentMoves(w: World, a: Action)
    requires FilesOk(w) && ByAgent(a) && a.pid in w.procs
    ensures Moves(w, Apply(w, a), a.pid, w.procs[a.pid])
  {
    var p := w.procs[a.pid];
    assert FileOk(w, p);
    StutterMoves(w, a.pid, p);
    match a
    case TokenStep(pid, enrol) => if p.NeedToken? { TokenMoves(w, pid, p, enrol); }
    case NextFile(pid, readable, req, cut) => if p.Replaying? { NextFileMoves(w, pid, p, readable, req, cut); }
    case Hear(pid, h) =>
      if p.FileSent? { HearFileMoves(w, pid, p, h); } else if p.BundleSent? { HearBundleMoves(w, pid, p, h); }
    case Settle(pid, ok) => if p.FileAnswered? { SettleMoves(w, pid, p, ok); }
    case Abort(pid) => if HasJob(p) { AbortMoves(w, pid, p); }
    case Spool(pid, name, canWrite) => if p.Spooling? { SpoolMoves(w, pid, p, name, canWrite); }
    case Fill(pid, end) => if p.Writing? { FillMoves(w, pid, p, end); }
  }
}
