/** The sequential code of `Report` is one of the behaviours of the step system of `Fleet`: every replay pass and every
    whole report is a run of one process, with the same directories, token file and outcome. */
module Replay {
  import opened Common
  import opened Report
  import opened Fleet

  /** A read that gets the whole file. */
  const WHOLE := Bundle(0, 0, 0, Good(true, true))

  function DirOf(w: World): Dir {
    Dir(w.tokenFile, w.spool, w.rejected)
  }

  /** What the state directory is after some steps, which names and requests have been used, and where process
      `pid` now stands. */
  ghost predicate Stands(w: World, d: Dir, used: set<Name>, req: ReqId, pid: Pid, p: Proc) {
    && DirOf(w) == d && w.ledger.names == used
    && pid in w.procs && w.procs[pid] == p
    && (forall r :: r in w.collector.requests ==> r < req)
  }

  lemma LaterRequests(w: World, d: Dir, used: set<Name>, req: ReqId, pid: Pid, p: Proc, more: nat)
    requires Stands(w, d, used, req, pid, p)
    ensures Stands(w, d, used, req + more, pid, p)
  {
  }

  // ---- One file -----------------------------------------------------------------------------------

  /** The actions that replay one file, posting it as request `req`. */
  function FileActions(pid: Pid, e: FileEnv, req: ReqId): seq<Action> {
    if !e.readable then [NextFile(pid, false, req, WHOLE)]
    else if PostResult(e.answer).Acked? then
      [NextFile(pid, true, req, WHOLE)] + [Hear(pid, e.answer)] + [Settle(pid, e.removable)]
    else if PostResult(e.answer).Failed? && Permanent(PostResult(e.answer).status) then
      [NextFile(pid, true, req, WHOLE)] + [Hear(pid, e.answer)] + [Settle(pid, e.movable)]
    else [NextFile(pid, true, req, WHOLE)] + [Hear(pid, e.answer)]
  }

  function Aborted(job: Job): Proc {
    if job.bundle.Some? then Spooling(job.bundle.value) else Idle
  }

  /** Where a process stands once it has replayed the first of its files. */
  function AfterFile(job: Job, token: Token, rest: seq<Name>, e: FileEnv): Proc {
    if FateOf(e).Blew? then Aborted(job) else Replaying(job, token, if FateOf(e).Stopped? then [] else rest)
  }

  lemma ReadAt(w: World, d: Dir, used: set<Name>, req: ReqId, pid: Pid, job: Job, token: Token, names: seq<Name>)
    requires Stands(w, d, used, req, pid, Replaying(job, token, names)) && names != [] && names[0] in d.spool
    ensures Stands(Apply(w, NextFile(pid, true, req, WHOLE)), d, used, req + 1, pid,
                   FileSent(job, token, names[1..], names[0], d.spool[names[0]], d.spool[names[0]], req))
    ensures Stands(Apply(w, NextFile(pid, false, req, WHOLE)), d, used, req + 1, pid, Replaying(job, token, names[1..]))
  {
  }

  function AfterHear(p: Proc, h: Http): Proc
    requires p.FileSent?
  {
    match PostResult(h)
    case Acked => FileAnswered(p.job, p.token, p.todo, p.name, p.file, true)
    case Crashed => Aborted(p.job)
    case Failed(status) =>
      if Permanent(status) then FileAnswered(p.job, p.token, p.todo, p.name, p.file, false)
      else Replaying(p.job, p.token, if StopsFlush(status) then [] else p.todo)
  }

  lemma HearAt(w: World, d: Dir, used: set<Name>, req: ReqId, pid: Pid, p: Proc, h: Http)
    requires p.FileSent? && Stands(w, d, used, req, pid, p)
    ensures Stands(Apply(w, Hear(pid, h)), d, used, req, pid, AfterHear(p, h))
  {
  }

  lemma SettleAt(w: World, d: Dir, used: set<Name>, req: ReqId, pid: Pid, p: Proc, ok: bool)
    requires p.FileAnswered? && p.name in d.spool && Stands(w, d, used, req, pid, p)
    ensures var d' :=
        if !ok then d else if p.acked then d.(spool := d.spool - {p.name})
        else d.(spool := d.spool - {p.name}, rejected := d.rejected[p.name := d.spool[p.name]]);
      Stands(Apply(w, Settle(pid, ok)), d', used, req, pid, Replaying(p.job, p.token, p.todo))
  {
  }

  lemma RunTwo(w: World, a: Action, b: Action)
    ensures Run(w, [a] + [b]) == Apply(Apply(w, a), b)
  {
    hide Apply, Run;
    RunOne(w, a);
    RunSnoc(w, [a], b);
  }

  lemma RunOne(w: World, a: Action)
    ensures Run(w, [a]) == Apply(w, a)
  {
    hide Apply, Run;
    NothingRun(w);
    RunSnoc(w, [], a);
    assert [] + [a] == [a];
  }

  function DirAfter(d: Dir, q: Pass): Dir {
    d.(spool := q.spool, rejected := q.rejected)
  }

  lemma FileReplays(w: World, d: Dir, used: set<Name>, req: ReqId, pid: Pid, job: Job, token: Token, names: seq<Name>,
                    e: FileEnv, p: Pass)
    requires Stands(w, d, used, req, pid, Replaying(job, token, names)) && names != [] && names[0] in d.spool
    requires p.spool == d.spool && p.rejected == d.rejected
    ensures Stands(Run(w, FileActions(pid, e, req)), DirAfter(d, FlushOne(p, names[0], e)), used, req + 1, pid,
                   AfterFile(job, token, names[1..], e))
  {
    hide Apply, Run, Stands;
    var next, hear := NextFile(pid, e.readable, req, WHOLE), Hear(pid, e.answer);
    ReadAt(w, d, used, req, pid, job, token, names);
    RunOne(w, next);
    if e.readable {
      var sent := FileSent(job, token, names[1..], names[0], d.spool[names[0]], d.spool[names[0]], req);
      HearAt(Apply(w, next), d, used, req + 1, pid, sent, e.answer);
      RunTwo(w, next, hear);
      var answered := AfterHear(sent, e.answer);
      if answered.FileAnswered? {
        var settle := Settle(pid, if answered.acked then e.removable else e.movable);
        RunSnoc(w, [next] + [hear], settle);
        SettleAt(Apply(Apply(w, next), hear), d, used, req + 1, pid, answered, settle.ok);
      }
    }
  }

  // ---- One pass -----------------------------------------------------------------------------------

  function PassActions(pid: Pid, names: seq<Name>, files: Files, req: ReqId): seq<Action> {
    if names == [] then []
    else if Ends(files(names[0])) then FileActions(pid, files(names[0]), req)
    else FileActions(pid, files(names[0]), req) + PassActions(pid, names[1..], files, req + 1)
  }

  function AfterPass(job: Job, token: Token, names: seq<Name>, files: Files): Proc {
    if Crashes(names, files) then Aborted(job) else Replaying(job, token, [])
  }

  /** Whatever the environment of a pass, the step system has a run of the same process that leaves the
      same directories: `Report.StateDir.FlushSpool` is one of its behaviours. */
  lemma {:induction false} PassIsARun(w: World, d: Dir, used: set<Name>, req: ReqId, pid: Pid, job: Job, token: Token,
                                      names: seq<Name>, files: Files, p: Pass)
    requires Stands(w, d, used, req, pid, Replaying(job, token, names)) && Fresh(names, d.spool)
    requires p.spool == d.spool && p.rejected == d.rejected
    ensures Stands(Run(w, PassActions(pid, names, files, req)), DirAfter(d, FlushAll(p, names, files)), used,
                   req + |names|, pid, AfterPass(job, token, names, files))
    decreases |names|
  {
    hide Stands, FlushOne, FileActions, Crashes, FateOf;
    if names == [] {
      NothingRun(w);
      NoCrash(files);
    } else {
      var e := files(names[0]);
      var q := FlushOne(p, names[0], e);
      var w', d' := Run(w, FileActions(pid, e, req)), DirAfter(d, q);
      FileReplays(w, d, used, req, pid, job, token, names, e, p);
      CrashesTail(names, files);
      if Ends(e) {
        LaterRequests(w', d', used, req + 1, pid, AfterFile(job, token, names[1..], e), |names| - 1);
      } else {
        FreshTail(p, names, e);
        PassIsARun(w', d', used, req + 1, pid, job, token, names[1..], files, q);
        RunConcat(w, FileActions(pid, e, req), PassActions(pid, names[1..], files, req + 1));
      }
    }
  }

  lemma NoCrash(files: Files)
    ensures !Crashes([], files)
  {
  }

  // ---- One attempt --------------------------------------------------------------------------------

  /** The last action of an attempt: hear how it ended, or fail on unlinking a rejected token. */
  function LastAction(pid: Pid, a: Action, stuck: bool): Action {
    if stuck then Abort(pid) else a
  }

  /** A 401 of a stored token on the first attempt. */
  predicate WantsAgain(job: Job, r: Sent) {
    !job.second && Reenrols(job.cfg, r, true)
  }

  function AttemptActions(pid: Pid, job: Job, d: Dir, att: Attempt, canDrop: bool, req: ReqId): seq<Action> {
    var s, names := SendOnce(job.cfg, d, att), Listing(d.spool.Keys);
    var stuck := WantsAgain(job, s.r) && !canDrop;
    if GrantFor(job.cfg, d.tokenFile, att.enrol).token.None? then [LastAction(pid, TokenStep(pid, att.enrol), stuck)]
    else if PassCrashes(d, att.files) then [TokenStep(pid, att.enrol)] + PassActions(pid, names, att.files, req)
    else [TokenStep(pid, att.enrol)] + PassActions(pid, names, att.files, req)
         + [NextFile(pid, true, req + |names|, WHOLE)] + [LastAction(pid, Hear(pid, att.answer), stuck)]
  }

  function AfterAttempt(job: Job, b: Bundle, r: Sent, canDrop: bool): Proc {
    if r.SentOk? || (r.SendError? && r.permanent) then Idle
    else if WantsAgain(job, r) && canDrop then NeedToken(job.(second := true))
    else Spooling(b)
  }

  function DirLeft(job: Job, s: SendEnd, canDrop: bool): Dir {
    if WantsAgain(job, s.r) && canDrop then s.dir.(tokenFile := None) else s.dir
  }

  ghost predicate Concluded(w: World, b: Bundle, r: Sent) {
    (r.SentOk? ==> b in w.ledger.acked) && (r.SendError? && r.permanent ==> b in w.ledger.refused)
  }

  lemma TokenFails(w: World, d: Dir, used: set<Name>, req: ReqId, pid: Pid, job: Job, b: Bundle, att: Attempt,
                   canDrop: bool)
    requires Stands(w, d, used, req, pid, NeedToken(job)) && job.bundle == Some(b)
    requires GrantFor(job.cfg, d.tokenFile, att.enrol).token.None?
    ensures var s := SendOnce(job.cfg, d, att);
      var a := LastAction(pid, TokenStep(pid, att.enrol), WantsAgain(job, s.r) && !canDrop);
      Stands(Apply(w, a), DirLeft(job, s, canDrop), used, req, pid, AfterAttempt(job, b, s.r, canDrop))
  {
    hide PassOf, PassCrashes;
  }

  lemma TokenGiven(w: World, d: Dir, used: set<Name>, req: ReqId, pid: Pid, job: Job, att: Attempt)
    requires Stands(w, d, used, req, pid, NeedToken(job))
    requires GrantFor(job.cfg, d.tokenFile, att.enrol).token.Some?
    ensures var g := GrantFor(job.cfg, d.tokenFile, att.enrol);
      Stands(Apply(w, TokenStep(pid, att.enrol)), d.(tokenFile := g.tokenFile), used, req, pid,
             Replaying(job, g.token.value, Listing(d.spool.Keys)))
  {
  }

  lemma BundlePosted(w: World, d: Dir, used: set<Name>, req: ReqId, pid: Pid, job: Job, b: Bundle, token: Token)
    requires Stands(w, d, used, req, pid, Replaying(job, token, [])) && job.bundle == Some(b)
    ensures Stands(Apply(w, NextFile(pid, true, req, WHOLE)), d, used, req + 1, pid, BundleSent(job, b, req))
  {
  }

  lemma BundleAnswered(w: World, s: SendEnd, used: set<Name>, req: ReqId, pid: Pid, p: Proc, b: Bundle, h: Http,
                       canDrop: bool)
    requires p.BundleSent? && p.own == b && p.job.bundle == Some(b) && Stands(w, s.dir, used, req, pid, p)
    requires s.r == SentBy(h)
    ensures var a := LastAction(pid, Hear(pid, h), WantsAgain(p.job, s.r) && !canDrop);
      && Stands(Apply(w, a), DirLeft(p.job, s, canDrop), used, req, pid, AfterAttempt(p.job, b, s.r, canDrop))
      && Concluded(Apply(w, a), b, s.r)
  {
  }

  lemma PassFromToken(w: World, d: Dir, used: set<Name>, req: ReqId, pid: Pid, job: Job, att: Attempt)
    requires Stands(w, d, used, req, pid, NeedToken(job)) && GrantFor(job.cfg, d.tokenFile, att.enrol).token.Some?
    ensures var g, names, q := GrantFor(job.cfg, d.tokenFile, att.enrol), Listing(d.spool.Keys), PassOf(d, att.files);
      Stands(Run(w, [TokenStep(pid, att.enrol)] + PassActions(pid, names, att.files, req)),
             Dir(g.tokenFile, q.spool, q.rejected), used, req + |names|, pid,
             AfterPass(job, g.token.value, names, att.files))
  {
    hide Stands, GrantFor, PassActions, FlushAll, Apply, Run, Listing, AfterPass, Fresh;
    var g, names := GrantFor(job.cfg, d.tokenFile, att.enrol), Listing(d.spool.Keys);
    TokenGiven(w, d, used, req, pid, job, att);
    var w1, d1 := Apply(w, TokenStep(pid, att.enrol)), d.(tokenFile := g.tokenFile);
    ListingIsFresh(d.spool);
    PassIsARun(w1, d1, used, req, pid, job, g.token.value, names, att.files, StartPass(d.spool, d.rejected));
    RunCons(w, TokenStep(pid, att.enrol), PassActions(pid, names, att.files, req));
  }

  ghost predicate AttemptEnds(w: World, s: SendEnd, used: set<Name>, req: ReqId, pid: Pid, job: Job, b: Bundle,
                              canDrop: bool) {
    && Stands(w, DirLeft(job, s, canDrop), used, req, pid, AfterAttempt(job, b, s.r, canDrop))
    && Concluded(w, b, s.r)
  }

  lemma AttemptWithoutToken(w: World, d: Dir, used: set<Name>, req: ReqId, pid: Pid, job: Job, b: Bundle, att: Attempt,
                            canDrop: bool)
    requires Stands(w, d, used, req, pid, NeedToken(job)) && job.bundle == Some(b)
    requires GrantFor(job.cfg, d.tokenFile, att.enrol).token.None?
    ensures AttemptEnds(Run(w, AttemptActions(pid, job, d, att, canDrop, req)), SendOnce(job.cfg, d, att), used,
                        req + |Listing(d.spool.Keys)| + 1, pid, job, b, canDrop)
  {
    hide Stands, GrantFor, PassActions, PassOf, PassCrashes, Apply, Run, Crashes, DirLeft, AfterAttempt, Listing;
    var s := SendOnce(job.cfg, d, att);
    var a := LastAction(pid, TokenStep(pid, att.enrol), WantsAgain(job, s.r) && !canDrop);
    TokenFails(w, d, used, req, pid, job, b, att, canDrop);
    RunOne(w, a);
    LaterRequests(Apply(w, a), DirLeft(job, s, canDrop), used, req, pid, AfterAttempt(job, b, s.r, canDrop),
                  |Listing(d.spool.Keys)| + 1);
  }

  lemma AttemptCrashes(w: World, d: Dir, used: set<Name>, req: ReqId, pid: Pid, job: Job, b: Bundle, att: Attempt,
                       canDrop: bool)
    requires Stands(w, d, used, req, pid, NeedToken(job)) && job.bundle == Some(b)
    requires GrantFor(job.cfg, d.tokenFile, att.enrol).token.Some? && PassCrashes(d, att.files)
    ensures AttemptEnds(Run(w, AttemptActions(pid, job, d, att, canDrop, req)), SendOnce(job.cfg, d, att), used,
                        req + |Listing(d.spool.Keys)| + 1, pid, job, b, canDrop)
  {
    hide Stands, GrantFor, PassActions, PassOf, PassCrashes, Apply, Run, Crashes, Listing;
    var s, names := SendOnce(job.cfg, d, att), Listing(d.spool.Keys);
    PassFromToken(w, d, used, req, pid, job, att);
    CrashesMean(d, att.files);
    var run := [TokenStep(pid, att.enrol)] + PassActions(pid, names, att.files, req);
    LaterRequests(Run(w, run), s.dir, used, req + |names|, pid, Spooling(b), 1);
  }

  lemma AttemptPosts(w: World, d: Dir, used: set<Name>, req: ReqId, pid: Pid, job: Job, b: Bundle, att: Attempt,
                     canDrop: bool)
    requires Stands(w, d, used, req, pid, NeedToken(job)) && job.bundle == Some(b)
    requires GrantFor(job.cfg, d.tokenFile, att.enrol).token.Some? && !PassCrashes(d, att.files)
    ensures AttemptEnds(Run(w, AttemptActions(pid, job, d, att, canDrop, req)), SendOnce(job.cfg, d, att), used,
                        req + |Listing(d.spool.Keys)| + 1, pid, job, b, canDrop)
  {
    hide Stands, GrantFor, PassActions, PassOf, PassCrashes, Apply, Run, Crashes, Listing, DirLeft, AfterAttempt,
      Concluded, WantsAgain, SentBy;
    var s, names, g := SendOnce(job.cfg, d, att), Listing(d.spool.Keys), GrantFor(job.cfg, d.tokenFile, att.enrol);
    PassFromToken(w, d, used, req, pid, job, att);
    CrashesMean(d, att.files);
    var run := [TokenStep(pid, att.enrol)] + PassActions(pid, names, att.files, req);
    var next := NextFile(pid, true, req + |names|, WHOLE);
    var last := LastAction(pid, Hear(pid, att.answer), WantsAgain(job, s.r) && !canDrop);
    BundlePosted(Run(w, run), s.dir, used, req + |names|, pid, job, b, g.token.value);
    BundleAnswered(Apply(Run(w, run), next), s, used, req + |names| + 1, pid, BundleSent(job, b, req + |names|), b,
                   att.answer, canDrop);
    RunSnoc(w, run, next);
    RunSnoc(w, run + [next], last);
  }

  /** One `send()`, with what `report_scan` does about its failure. */
  lemma AttemptIsARun(w: World, d: Dir, used: set<Name>, req: ReqId, pid: Pid, job: Job, b: Bundle, att: Attempt,
                      canDrop: bool)
    requires Stands(w, d, used, req, pid, NeedToken(job)) && job.bundle == Some(b)
    ensures AttemptEnds(Run(w, AttemptActions(pid, job, d, att, canDrop, req)), SendOnce(job.cfg, d, att), used,
                        req + |Listing(d.spool.Keys)| + 1, pid, job, b, canDrop)
  {
    hide Stands, GrantFor, PassCrashes, Run, AttemptActions, AttemptEnds, SendOnce, Listing;
    if GrantFor(job.cfg, d.tokenFile, att.enrol).token.None? {
      AttemptWithoutToken(w, d, used, req, pid, job, b, att, canDrop);
    } else if PassCrashes(d, att.files) {
      AttemptCrashes(w, d, used, req, pid, job, b, att, canDrop);
    } else {
      AttemptPosts(w, d, used, req, pid, job, b, att, canDrop);
    }
  }

  lemma CrashesMean(d: Dir, files: Files)
    ensures PassCrashes(d, files) == Crashes(Listing(d.spool.Keys), files)
  {
  }

  // ---- One report ---------------------------------------------------------------------------------

  function SpoolActions(pid: Pid, out: Outcome, name: Name): seq<Action> {
    if out.Spooled? then [Spool(pid, name, true)] + [Fill(pid, Written)]
    else if out.NotSpooled? then [Spool(pid, name, false)]
    else []
  }

  function SendActions(pid: Pid, cfg: Config, d: Dir, b: Bundle, env: ReportEnv, req: ReqId): seq<Action> {
    var job, s := Job(Some(b), cfg, false), SendOnce(cfg, d, env.first);
    var first := AttemptActions(pid, job, d, env.first, env.canDropToken, req);
    if Reenrols(cfg, s.r, env.canDropToken) then
      first + AttemptActions(pid, job.(second := true), s.dir.(tokenFile := None), env.second, env.canDropToken,
                             req + |Listing(d.spool.Keys)| + 1)
    else first
  }

  function ReportActions(pid: Pid, cfg: Config, d: Dir, b: Bundle, env: ReportEnv, req: ReqId): seq<Action> {
    [Begin(pid, Job(Some(b), cfg, false))] + SendActions(pid, cfg, d, b, env, req)
    + SpoolActions(pid, ReportOnce(cfg, d, b, env).out, env.name)
  }

  /** The `SendEnd` a report concludes with. */
  function LastSend(cfg: Config, d: Dir, env: ReportEnv): SendEnd {
    var s := SendOnce(cfg, d, env.first);
    if Reenrols(cfg, s.r, env.canDropToken) then SendAgain(cfg, d, env) else s
  }

  function AfterSends(b: Bundle, r: Sent): Proc {
    if r.SentOk? || (r.SendError? && r.permanent) then Idle else Spooling(b)
  }

  lemma SendsAreARun(w: World, d: Dir, used: set<Name>, req: ReqId, pid: Pid, cfg: Config, b: Bundle, env: ReportEnv)
      returns (next: ReqId)
    requires Stands(w, d, used, req, pid, NeedToken(Job(Some(b), cfg, false)))
    ensures var s, w' := LastSend(cfg, d, env), Run(w, SendActions(pid, cfg, d, b, env, req));
      Stands(w', s.dir, used, next, pid, AfterSends(b, s.r)) && Concluded(w', b, s.r)
  {
    hide Stands, SendOnce, AttemptActions, Concluded, Run, Listing;
    var job, s := Job(Some(b), cfg, false), SendOnce(cfg, d, env.first);
    AttemptIsARun(w, d, used, req, pid, job, b, env.first, env.canDropToken);
    next := req + |Listing(d.spool.Keys)| + 1;
    if Reenrols(cfg, s.r, env.canDropToken) {
      var first := AttemptActions(pid, job, d, env.first, env.canDropToken, req);
      var again, d' := job.(second := true), s.dir.(tokenFile := None);
      NotPermanent(s.r, cfg, env.canDropToken, cfg, d, env.first);
      AttemptIsARun(Run(w, first), d', used, next, pid, again, b, env.second, env.canDropToken);
      RunConcat(w, first, AttemptActions(pid, again, d', env.second, env.canDropToken, next));
      next := next + |Listing(d'.spool.Keys)| + 1;
    }
  }

  lemma NotPermanent(r: Sent, cfg: Config, canDrop: bool, c: Config, d: Dir, att: Attempt)
    requires r == SendOnce(c, d, att).r && Reenrols(cfg, r, canDrop)
    ensures !r.permanent
  {
  }

  lemma BundleFiled(w: World, d: Dir, used: set<Name>, req: ReqId, pid: Pid, b: Bundle, name: Name)
    requires Stands(w, d, used, req, pid, Spooling(b)) && name !in used
    ensures var w' := Run(w, [Spool(pid, name, true)] + [Fill(pid, Written)]);
      DirOf(w') == d.(spool := d.spool[name := b]) && name !in w'.partial && pid in w'.procs && w'.procs[pid] == Idle
  {
    RunTwo(w, Spool(pid, name, true), Fill(pid, Written));
  }

  lemma BundleNotFiled(w: World, d: Dir, used: set<Name>, req: ReqId, pid: Pid, b: Bundle, name: Name)
    requires Stands(w, d, used, req, pid, Spooling(b))
    ensures var w' := Run(w, [Spool(pid, name, false)]);
      DirOf(w') == d && b in w'.ledger.notSpooled && pid in w'.procs && w'.procs[pid] == Idle
  {
    RunOne(w, Spool(pid, name, false));
  }

  /** What the outcome of a report means for its bundle in the world it leaves. */
  ghost predicate Meant(w: World, b: Bundle, out: Outcome, name: Name) {
    match out
    case Reported => b in w.ledger.acked
    case Rejected(_) => b in w.ledger.refused
    case Spooled => name in w.spool && w.spool[name] == b && name !in w.partial
    case NotSpooled => b in w.ledger.notSpooled
  }

  lemma ReportEnds(w: World, d: Dir, used: set<Name>, req: ReqId, pid: Pid, cfg: Config, b: Bundle, env: ReportEnv)
    requires var s := LastSend(cfg, d, env);
      Stands(w, s.dir, used, req, pid, AfterSends(b, s.r)) && Concluded(w, b, s.r)
    requires env.name !in used
    ensures var e := ReportOnce(cfg, d, b, env);
      var w' := Run(w, SpoolActions(pid, e.out, env.name));
      DirOf(w') == e.dir && Meant(w', b, e.out, env.name) && pid in w'.procs && w'.procs[pid] == Idle
  {
    hide SendOnce, Run;
    var s, e := LastSend(cfg, d, env), ReportOnce(cfg, d, b, env);
    if e.out.Spooled? {
      BundleFiled(w, s.dir, used, req, pid, b, env.name);
    } else if e.out.NotSpooled? {
      BundleNotFiled(w, s.dir, used, req, pid, b, env.name);
    } else {
      NothingRun(w);
    }
  }

  lemma Begun(w: World, pid: Pid, job: Job, req: ReqId)
    requires (pid in w.procs ==> w.procs[pid].Idle?) && !job.second && forall r :: r in w.collector.requests ==> r < req
    ensures Stands(Apply(w, Begin(pid, job)), DirOf(w), w.ledger.names, req, pid, NeedToken(job))
  {
  }

  /** Whatever the environment of a report, the step system has a run of one process that leaves the same token file and
      directories, and in which the bundle's story ends as the outcome says. */
  lemma ReportIsARun(w: World, pid: Pid, cfg: Config, b: Bundle, env: ReportEnv, req: ReqId)
    requires pid in w.procs ==> w.procs[pid].Idle?
    requires forall r :: r in w.collector.requests ==> r < req
    requires env.name !in w.ledger.names
    ensures var e, w' := ReportOnce(cfg, DirOf(w), b, env), Run(w, ReportActions(pid, cfg, DirOf(w), b, env, req));
      DirOf(w') == e.dir && Meant(w', b, e.out, env.name) && pid in w'.procs && w'.procs[pid] == Idle
  {
    hide Stands, Run, Apply, SendActions, SpoolActions, ReportOnce, LastSend, Concluded, Meant;
    var d, job := DirOf(w), Job(Some(b), cfg, false);
    var sends := SendActions(pid, cfg, d, b, env, req);
    var spool := SpoolActions(pid, ReportOnce(cfg, d, b, env).out, env.name);
    Begun(w, pid, job, req);
    var w1 := Apply(w, Begin(pid, job));
    var next := SendsAreARun(w1, d, w.ledger.names, req, pid, cfg, b, env);
    ReportEnds(Run(w1, sends), d, w.ledger.names, next, pid, cfg, b, env);
    RunCons(w, Begin(pid, job), sends);
    RunConcat(w, [Begin(pid, job)] + sends, spool);
  }
}
