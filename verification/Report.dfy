/**
  The agent side of fleet reporting (cli/_report.py): spool replay, quarantine, the
  send attempt and its single re-enrolment, and what a report leaves on disk.
  The network, the disk and the collector's answers are parameters: any answer may come.
  */
module Report {
  import opened Common

  type Name = int     // spool file names; they sort chronologically
  type Token = nat

  /** What `load_bundle` and the store will make of the bytes. */
  datatype Content = Good(terminal: bool, storable: bool) | Unreadable | Oversize
  datatype Bundle = Bundle(uuid: int, machine: int, size: nat, content: Content)

  /** One HTTP exchange as the client sees it; Unexpected is an exception the poster does not catch. */
  datatype Http = NoResponse | Response(status: nat, jsonObject: bool) | Unexpected
  datatype Posted = Acked | Failed(status: nat) | Crashed

  /** `post_bundle`: transport errors and malformed 2xx bodies are status 0. */
  function PostResult(h: Http): Posted {
    match h
    case NoResponse => Failed(0)
    case Unexpected => Crashed
    case Response(status, jsonObject) =>
      if status / 100 != 2 then Failed(status) else if jsonObject then Acked else Failed(0)
  }

  predicate Permanent(status: nat) {
    status == 400 || status == 403 || status == 413
  }

  predicate StopsFlush(status: nat) {
    status == 0 || status == 401 || status == 429 || status >= 500
  }

  // ---- Spool replay ------------------------------------------------------------------

  /** The environment of one spool file: can it be read, what answers its POST, can it be moved, unlinked. */
  datatype FileEnv = FileEnv(readable: bool, answer: Http, movable: bool, removable: bool)
  type Files = Name -> FileEnv

  datatype Fate = Delivered | Quarantined | Kept | Stopped | Blew

  function FateOf(e: FileEnv): Fate {
    if !e.readable then Kept else
      match PostResult(e.answer)
      case Acked => Delivered
      case Crashed => Blew
      case Failed(status) =>
        if Permanent(status) then (if e.movable then Quarantined else Kept)
        else if StopsFlush(status) then Stopped else Kept
  }

  /** The answers that end a pass: none that could be used, 401, 429 and 5xx. */
  predicate TryLater(h: Http) {
    || h.NoResponse?
    || (h.Response? && (h.status == 0 || h.status == 401 || h.status == 429 || h.status >= 500))
    || (h.Response? && 200 <= h.status < 300 && !h.jsonObject)
  }

  /** Which answer leads to which fate, in terms of the status on the wire. */
  lemma FateIff(e: FileEnv)
    ensures FateOf(e) == Delivered <==>
      e.readable && e.answer.Response? && 200 <= e.answer.status < 300 && e.answer.jsonObject
    ensures FateOf(e) == Quarantined <==>
      e.readable && e.movable && e.answer.Response? && e.answer.status in {400, 403, 413}
    ensures FateOf(e) == Stopped <==> e.readable && TryLater(e.answer)
    ensures FateOf(e) == Blew <==> e.readable && e.answer.Unexpected?
  {
  }

  datatype Pass = Pass(spool: map<Name, Bundle>, rejected: map<Name, Bundle>,
                       sent: nat, kept: nat, moved: nat, tried: seq<Name>, wire: seq<Bundle>)

  function StartPass(spool: map<Name, Bundle>, rejected: map<Name, Bundle>): Pass {
    Pass(spool, rejected, 0, 0, 0, [], [])
  }

  /** One iteration of the replay loop on file `n`. */
  function FlushOne(p: Pass, n: Name, e: FileEnv): Pass
    requires n in p.spool
  {
    var b := p.spool[n];
    var q := p.(tried := p.tried + [n], wire := if e.readable then p.wire + [b] else p.wire);
    match FateOf(e)
    case Delivered => q.(sent := p.sent + 1, spool := if e.removable then p.spool - {n} else p.spool)
    case Quarantined => q.(moved := p.moved + 1, spool := p.spool - {n}, rejected := p.rejected[n := b])
    case Kept => q.(kept := p.kept + 1)
    case Stopped => q.(kept := p.kept + 1)
    case Blew => q
  }

  predicate Ends(e: FileEnv) {
    FateOf(e).Stopped? || FateOf(e).Blew?
  }

  predicate Fresh(names: seq<Name>, spool: map<Name, Bundle>) {
    && (forall i :: 0 <= i < |names| ==> names[i] in spool)
    && (forall i, j :: 0 <= i < j < |names| ==> names[i] < names[j])
  }

  function FlushAll(p: Pass, names: seq<Name>, files: Files): Pass
    requires Fresh(names, p.spool)
    decreases |names|
  {
    if names == [] then p else
      var q := FlushOne(p, names[0], files(names[0]));
      if Ends(files(names[0])) then q else FlushAll(q, names[1..], files)
  }

  /** The files a pass gets to: the listing up to and including the first that ends the pass. */
  function Tried(names: seq<Name>, files: Files): seq<Name> {
    if names == [] then []
    else if Ends(files(names[0])) then [names[0]]
    else [names[0]] + Tried(names[1..], files)
  }

  lemma {:induction false} TriedIsPrefix(names: seq<Name>, files: Files)
    ensures var t := Tried(names, files);
      && t <= names
      && (forall i :: 0 <= i < |t| - 1 ==> !Ends(files(t[i])))
      && (t == names || (t != [] && Ends(files(t[|t| - 1]))))
  {
    if names != [] && !Ends(files(names[0])) {
      TriedIsPrefix(names[1..], files);
    }
  }

  predicate Leaves(e: FileEnv) {
    (FateOf(e).Delivered? && e.removable) || FateOf(e).Quarantined?
  }

  function Gone(names: seq<Name>, files: Files): set<Name> {
    set n | n in names && Leaves(files(n))
  }

  function Wire(names: seq<Name>, spool: map<Name, Bundle>, files: Files): seq<Bundle> {
    if names == [] then [] else
      WireOne(names[0], spool, files(names[0])) + Wire(names[1..], spool, files)
  }

  function Count(names: seq<Name>, files: Files, f: Fate): nat {
    if names == [] then 0 else (if FateOf(files(names[0])) == f then 1 else 0) + Count(names[1..], files, f)
  }

  lemma FreshTail(p: Pass, names: seq<Name>, e: FileEnv)
    requires Fresh(names, p.spool) && names != []
    ensures Fresh(names[1..], FlushOne(p, names[0], e).spool)
    ensures names[0] !in names[1..]
    ensures forall m :: m in names[1..] ==> m in p.spool && p.spool[m] == FlushOne(p, names[0], e).spool[m]
  {
  }

  /** A pass removes exactly the delivered (and removable) and the quarantined files it tried. */
  lemma {:induction false} FlushRemoves(p: Pass, names: seq<Name>, files: Files)
    requires Fresh(names, p.spool)
    ensures FlushAll(p, names, files).spool == p.spool - Gone(Tried(names, files), files)
    decreases |names|
  {
    if names != [] && !Ends(files(names[0])) {
      var q := FlushOne(p, names[0], files(names[0]));
      FreshTail(p, names, files(names[0]));
      FlushRemoves(q, names[1..], files);
      assert q.spool == p.spool - Gone([names[0]], files);
    }
  }

  lemma RejectedAfterOne(p: Pass, n: Name, e: FileEnv)
    requires n in p.spool
    ensures FlushOne(p, n, e).rejected ==
      if FateOf(e).Quarantined? then p.rejected[n := p.spool[n]] else p.rejected
  {
  }

  /** ... and the rejected directory gains exactly the quarantined ones, unchanged. */
  lemma {:induction false} FlushQuarantines(p: Pass, names: seq<Name>, files: Files)
    requires Fresh(names, p.spool)
    ensures forall n :: n in FlushAll(p, names, files).rejected <==>
      n in p.rejected || (n in Tried(names, files) && FateOf(files(n)).Quarantined?)
    ensures forall n :: n in Tried(names, files) && FateOf(files(n)).Quarantined? ==>
      n in p.spool && FlushAll(p, names, files).rejected[n] == p.spool[n]
    ensures forall n :: n in p.rejected && n !in Tried(names, files) ==>
      FlushAll(p, names, files).rejected[n] == p.rejected[n]
    decreases |names|
  {
    hide FateOf, FlushOne;
    if names != [] {
      var n := names[0];
      RejectedAfterOne(p, n, files(n));
      if !Ends(files(n)) {
        FreshTail(p, names, files(n));
        FlushQuarantines(FlushOne(p, n, files(n)), names[1..], files);
        TriedIsPrefix(names[1..], files);
      }
    }
  }

  /** A file comes to the rejected directory only on a 400, 403 or 413; one answered with anything that may pass (no
      answer, 401, 429, 5xx) is the last that is tried and stays in the spool as it is; and a file leaves the spool
      only on one of the three statuses or on a 2xx with a JSON object. */
  lemma PassAnswers(p: Pass, names: seq<Name>, files: Files, n: Name)
    requires Fresh(names, p.spool)
    ensures var q, t, h := FlushAll(p, names, files), Tried(names, files), files(n).answer;
      && (n in q.rejected && n !in p.rejected ==> n in t && h.Response? && h.status in {400, 403, 413})
      && (n in t && files(n).readable && TryLater(h) ==>
          t[|t| - 1] == n && n in p.spool && n in q.spool && q.spool[n] == p.spool[n])
      && (n in p.spool && n !in q.spool ==> n in t && files(n).readable && h.Response?)
      && (n in p.spool && n !in q.spool ==> h.status in {400, 403, 413} || (200 <= h.status < 300 && h.jsonObject))
  {
    hide FlushAll, Tried, FateOf, TryLater;
    FateIff(files(n));
    FlushRemoves(p, names, files);
    FlushQuarantines(p, names, files);
    TriedIsPrefix(names, files);
  }

  /** A pass tries the listing in order ... */
  lemma {:induction false} FlushTries(p: Pass, names: seq<Name>, files: Files)
    requires Fresh(names, p.spool)
    ensures FlushAll(p, names, files).tried == p.tried + Tried(names, files)
    decreases |names|
  {
    if names != [] && !Ends(files(names[0])) {
      FreshTail(p, names, files(names[0]));
      FlushTries(FlushOne(p, names[0], files(names[0])), names[1..], files);
    }
  }

  lemma WireAfter(p: Pass, names: seq<Name>, files: Files)
    requires Fresh(names, p.spool) && names != []
    ensures Wire(Tried(names[1..], files), FlushOne(p, names[0], files(names[0])).spool, files)
         == Wire(Tried(names[1..], files), p.spool, files)
  {
    FreshTail(p, names, files(names[0]));
    TriedIsPrefix(names[1..], files);
    WireSame(Tried(names[1..], files), FlushOne(p, names[0], files(names[0])).spool, p.spool, files);
  }

  function WireOne(n: Name, spool: map<Name, Bundle>, e: FileEnv): seq<Bundle> {
    if n in spool && e.readable then [spool[n]] else []
  }

  lemma WireCons(n: Name, rest: seq<Name>, spool: map<Name, Bundle>, files: Files, before: seq<Bundle>)
    ensures before + Wire([n] + rest, spool, files)
         == (before + WireOne(n, spool, files(n))) + Wire(rest, spool, files)
  {
    assert ([n] + rest)[1..] == rest;
  }

  /** ... posting the readable files oldest first ... */
  lemma {:induction false} FlushPosts(p: Pass, names: seq<Name>, files: Files)
    requires Fresh(names, p.spool)
    ensures FlushAll(p, names, files).wire == p.wire + Wire(Tried(names, files), p.spool, files)
    decreases |names|
  {
    hide FateOf;
    if names != [] {
      var n, rest := names[0], Tried(names[1..], files);
      if Ends(files(n)) {
        WireCons(n, [], p.spool, files, p.wire);
        assert [n] + [] == [n];
      } else {
        FreshTail(p, names, files(n));
        FlushPosts(FlushOne(p, n, files(n)), names[1..], files);
        WireAfter(p, names, files);
        WireCons(n, rest, p.spool, files, p.wire);
      }
    }
  }

  /** ... and its three counters are the numbers of files with each fate. */
  lemma {:induction false} FlushCounts(p: Pass, names: seq<Name>, files: Files)
    requires Fresh(names, p.spool)
    ensures var q, tried := FlushAll(p, names, files), Tried(names, files);
      && q.sent == p.sent + Count(tried, files, Delivered)
      && q.moved == p.moved + Count(tried, files, Quarantined)
      && q.kept == p.kept + Count(tried, files, Kept) + Count(tried, files, Stopped)
    decreases |names|
  {
    if names != [] {
      var n := names[0];
      if Ends(files(n)) {
        assert [n][1..] == [];
      } else {
        FreshTail(p, names, files(n));
        FlushCounts(FlushOne(p, n, files(n)), names[1..], files);
        assert ([n] + Tried(names[1..], files))[1..] == Tried(names[1..], files);
      }
    }
  }

  lemma {:induction false} WireSame(names: seq<Name>, a: map<Name, Bundle>, b: map<Name, Bundle>, files: Files)
    requires forall i :: 0 <= i < |names| ==> names[i] in a && names[i] in b && a[names[i]] == b[names[i]]
    ensures Wire(names, a, files) == Wire(names, b, files)
  {
    if names != [] {
      WireSame(names[1..], a, b, files);
    }
  }

  /** An exception left the pass: nothing was returned to the caller. */
  predicate Crashes(names: seq<Name>, files: Files) {
    var t := Tried(names, files);
    t != [] && FateOf(files(t[|t| - 1])).Blew?
  }

  predicate Settled(e: FileEnv) {
    FateOf(e).Delivered? || FateOf(e).Quarantined?
  }

  lemma {:induction false} NothingKeptIffSettled(names: seq<Name>, files: Files)
    ensures Count(Tried(names, files), files, Kept) + Count(Tried(names, files), files, Stopped) == 0
            && !Crashes(names, files)
       <==> forall i :: 0 <= i < |names| ==> Settled(files(names[i]))
  {
    if names != [] {
      var n := names[0];
      if Ends(files(n)) {
        assert [n][1..] == [];
      } else {
        var rest := Tried(names[1..], files);
        assert ([n] + rest)[1..] == rest;
        NothingKeptIffSettled(names[1..], files);
        assert forall i :: 1 <= i < |names| ==> names[i] == names[1..][i - 1];
      }
    }
  }

  /** `kept == 0` means exactly that every file listed was delivered or quarantined. */
  lemma KeptZeroMeansSettled(spool: map<Name, Bundle>, rejected: map<Name, Bundle>, files: Files)
    ensures Fresh(Listing(spool.Keys), spool)
    ensures FlushAll(StartPass(spool, rejected), Listing(spool.Keys), files).kept == 0
            && !Crashes(Listing(spool.Keys), files)
       <==> forall n :: n in spool ==> Settled(files(n))
  {
    var names := Listing(spool.Keys);
    FlushCounts(StartPass(spool, rejected), names, files);
    NothingKeptIffSettled(names, files);
    assert forall i :: 0 <= i < |names| ==> names[i] in spool;
    assert forall n :: n in spool ==> n in names;
  }

  lemma {:induction false} AllGoneIffAllLeave(names: seq<Name>, files: Files)
    ensures (forall i :: 0 <= i < |names| ==> names[i] in Gone(Tried(names, files), files))
       <==> forall i :: 0 <= i < |names| ==> Leaves(files(names[i]))
  {
    if names != [] && !Ends(files(names[0])) {
      AllGoneIffAllLeave(names[1..], files);
      assert forall i :: 1 <= i < |names| ==> names[i] == names[1..][i - 1];
      if forall i :: 0 <= i < |names| ==> Leaves(files(names[i])) {
        assert forall i :: 0 <= i < |names[1..]| ==> Leaves(files(names[1..][i]));
      }
    }
  }

  lemma NoneLeft(spool: map<Name, Bundle>, gone: set<Name>)
    ensures spool - gone == map[] <==> forall n :: n in spool ==> n in gone
  {
    var left := spool - gone;
    assert forall n :: n in left <==> n in spool && n !in gone;
    if forall n :: n in spool ==> n in gone {
      assert left.Keys == {};
      assert left == map[];
    } else {
      var n :| n in spool && n !in gone;
      assert n in left;
    }
  }

  /** The spool directory is empty afterwards exactly when, besides, every delivered file could be unlinked:
      `kept == 0` alone does not make it so. */
  lemma EmptyMeansAllLeft(spool: map<Name, Bundle>, rejected: map<Name, Bundle>, files: Files)
    ensures Fresh(Listing(spool.Keys), spool)
    ensures FlushAll(StartPass(spool, rejected), Listing(spool.Keys), files).spool == map[]
       <==> forall n :: n in spool ==> Leaves(files(n))
  {
    hide FlushAll, Tried, FateOf, Gone, Leaves;
    var names := Listing(spool.Keys);
    var gone := Gone(Tried(names, files), files);
    FlushRemoves(StartPass(spool, rejected), names, files);
    AllGoneIffAllLeave(names, files);
    NoneLeft(spool, gone);
    assert forall i :: 0 <= i < |names| ==> names[i] in spool;
    assert forall n :: n in spool ==> n in names;
  }

  /** The gap between the two: a delivered file that cannot be unlinked is not counted as kept. */
  lemma DrainedWithAFileLeft(b: Bundle)
    ensures var files: Files := n => FileEnv(true, Response(200, true), true, false);
      var q := FlushAll(StartPass(map[7 := b], map[]), [7], files);
      q.kept == 0 && q.spool == map[7 := b]
  {
    var files: Files := n => FileEnv(true, Response(200, true), true, false);
    assert FlushAll(FlushOne(StartPass(map[7 := b], map[]), 7, files(7)), [7][1..], files).kept == 0;
  }

  // ---- One report ------------------------------------------------------------------------

  datatype Config = Config(agentToken: Option<Token>, hasEnrolToken: bool)
  datatype Enrol = Enrolled(token: Token) | EnrolError(status: nat) | EnrolCrash

  /** What the environment does during one `send()`: the enrolment answer, the spool files, the bundle's own answer. */
  datatype Attempt = Attempt(enrol: Enrol, files: Files, answer: Http)

  datatype Sent = SentOk | SendError(status: nat, permanent: bool) | SendCrash
  datatype Outcome = Reported | Rejected(status: nat) | Spooled | NotSpooled

  /** The state directory: the stored token, the spool and spool/rejected. */
  datatype Dir = Dir(tokenFile: Option<Token>, spool: map<Name, Bundle>, rejected: map<Name, Bundle>)

  /** What `agent_token or ensure_agent_token(...)` yields: a token or a failure status, and the token file after it. */
  datatype Grant = Grant(token: Option<Token>, status: nat, enrolled: bool, tokenFile: Option<Token>)

  function GrantFor(cfg: Config, tokenFile: Option<Token>, enrol: Enrol): Grant {
    if cfg.agentToken.Some? then Grant(cfg.agentToken, 0, false, tokenFile)
    else if tokenFile.Some? then Grant(tokenFile, 0, false, tokenFile)
    else if !cfg.hasEnrolToken then Grant(None, 0, false, None)
    else match enrol
      case Enrolled(t) => Grant(Some(t), 0, true, Some(t))
      case EnrolError(status) => Grant(None, status, true, None)
      case EnrolCrash => Grant(None, 0, true, None)
  }

  function PassOf(d: Dir, files: Files): Pass {
    ListingIsFresh(d.spool);
    FlushAll(StartPass(d.spool, d.rejected), Listing(d.spool.Keys), files)
  }

  lemma ListingIsFresh(spool: map<Name, Bundle>)
    ensures Fresh(Listing(spool.Keys), spool)
  {
    var names := Listing(spool.Keys);
    assert forall i :: 0 <= i < |names| ==> names[i] in spool;
  }

  predicate PassCrashes(d: Dir, files: Files) {
    Crashes(Listing(d.spool.Keys), files)
  }

  function SentBy(h: Http): Sent {
    match PostResult(h)
    case Acked => SentOk
    case Crashed => SendCrash
    case Failed(s) => SendError(s, Permanent(s))
  }

  /** One `send()`: how it ended, the token the bundle was posted with if it was, and the directory it leaves. */
  datatype SendEnd = SendEnd(r: Sent, post: Option<Token>, enrolled: bool, dir: Dir)

  function SendOnce(cfg: Config, d: Dir, att: Attempt): SendEnd {
    var g := GrantFor(cfg, d.tokenFile, att.enrol);
    if g.token.None? then SendEnd(SendError(g.status, false), None, g.enrolled, d.(tokenFile := g.tokenFile)) else
      var q := PassOf(d, att.files);
      var left := Dir(g.tokenFile, q.spool, q.rejected);
      if PassCrashes(d, att.files) then SendEnd(SendCrash, None, g.enrolled, left)
      else SendEnd(SentBy(att.answer), g.token, g.enrolled, left)
  }

  /** The environment of one report: both attempts, whether the token file can be unlinked, the spool write. */
  datatype ReportEnv = ReportEnv(first: Attempt, second: Attempt, canDropToken: bool, name: Name, canWrite: bool)

  /** `posts` lists the token and the answer of each post of the bundle. */
  datatype ReportEnd = ReportEnd(out: Outcome, posts: seq<(Token, Http)>, enrols: nat, reenrolled: bool, dir: Dir)

  predicate Reenrols(cfg: Config, r: Sent, canDropToken: bool) {
    r.SendError? && r.status == 401 && cfg.agentToken.None? && cfg.hasEnrolToken && canDropToken
  }

  function PostsOf(s: SendEnd, att: Attempt): seq<(Token, Http)> {
    if s.post.Some? then [(s.post.value, att.answer)] else []
  }

  function EnrolsOf(s: SendEnd): nat {
    if s.enrolled then 1 else 0
  }

  /** The second attempt, with the token file gone. */
  function SendAgain(cfg: Config, d: Dir, env: ReportEnv): SendEnd {
    SendOnce(cfg, SendOnce(cfg, d, env.first).dir.(tokenFile := None), env.second)
  }

  function OutcomeOf(r: Sent, spool: map<Name, Bundle>, env: ReportEnv): Outcome {
    if r.SentOk? then Reported
    else if r.SendError? && r.permanent then Rejected(r.status)
    else if env.canWrite && env.name !in spool then Spooled
    else NotSpooled
  }

  function Filed(d: Dir, out: Outcome, name: Name, b: Bundle): Dir {
    if out.Spooled? then d.(spool := d.spool[name := b]) else d
  }

  function ReportOnce(cfg: Config, d: Dir, b: Bundle, env: ReportEnv): ReportEnd {
    var s := SendOnce(cfg, d, env.first);
    if Reenrols(cfg, s.r, env.canDropToken) then
      var s' := SendAgain(cfg, d, env);
      var out := OutcomeOf(s'.r, s'.dir.spool, env);
      ReportEnd(out, PostsOf(s, env.first) + PostsOf(s', env.second), EnrolsOf(s) + EnrolsOf(s'), true,
                Filed(s'.dir, out, env.name, b))
    else
      var out := OutcomeOf(s.r, s.dir.spool, env);
      ReportEnd(out, PostsOf(s, env.first), EnrolsOf(s), false, Filed(s.dir, out, env.name, b))
  }

  /** A token is had exactly when one is given, stored, or granted on enrolment; enrolment happens exactly when
      neither of the first two holds and a secret was configured; what it grants is stored. */
  lemma GrantMeaning(cfg: Config, tokenFile: Option<Token>, enrol: Enrol)
    ensures var g := GrantFor(cfg, tokenFile, enrol);
      && (g.enrolled <==> cfg.agentToken.None? && tokenFile.None? && cfg.hasEnrolToken)
      && (g.token.Some? <==> cfg.agentToken.Some? || tokenFile.Some? || (cfg.hasEnrolToken && enrol.Enrolled?))
      && (g.tokenFile == if g.enrolled && enrol.Enrolled? then Some(enrol.token) else tokenFile)
      && (cfg.agentToken.None? ==> g.token == g.tokenFile)
      && (cfg.agentToken.Some? ==> g.token == cfg.agentToken)
  {
  }

  /** One send posts the bundle exactly when it has a token and the replay did not raise. */
  lemma PostedIff(cfg: Config, d: Dir, att: Attempt)
    ensures var s, g := SendOnce(cfg, d, att), GrantFor(cfg, d.tokenFile, att.enrol);
      && (s.post.Some? <==> g.token.Some? && !PassCrashes(d, att.files))
      && (s.post.Some? ==> s.post == g.token && s.r == SentBy(att.answer))
      && (s.post.None? ==> !s.r.SentOk? && (s.r.SendError? ==> !s.r.permanent))
  {
  }

  /** At most two posts, each with the answer of its attempt; the second follows a 401 and carries the token the
      second enrolment granted. A re-enrolment happens at most once and never with an explicit token. */
  lemma ReportPosts(cfg: Config, d: Dir, b: Bundle, env: ReportEnv)
    ensures var e, s := ReportOnce(cfg, d, b, env), SendOnce(cfg, d, env.first);
      && |e.posts| <= 2 && e.enrols <= 2
      && (e.reenrolled <==> Reenrols(cfg, s.r, env.canDropToken))
      && (e.reenrolled ==> SendAgain(cfg, d, env).enrolled)
      && (!e.reenrolled ==> |e.posts| <= 1 && e.enrols <= 1)
      && (s.post.Some? ==> e.posts != [] && e.posts[0] == (s.post.value, env.first.answer))
      && (s.post.Some? && e.reenrolled ==> PostResult(env.first.answer) == Failed(401))
      && (|e.posts| == 2 ==> e.reenrolled)
      && (|e.posts| == 2 ==> env.second.enrol == Enrolled(e.posts[1].0) && e.posts[1].1 == env.second.answer)
      && (e.reenrolled && env.second.enrol.Enrolled? && !PassCrashes(s.dir, env.second.files) ==>
          e.posts != [] && e.posts[|e.posts| - 1] == (env.second.enrol.token, env.second.answer))
  {
    PostedIff(cfg, d, env.first);
    PostedIff(cfg, SendOnce(cfg, d, env.first).dir.(tokenFile := None), env.second);
  }

  /** An explicit token is the only one used, nothing is enrolled and the stored token is not touched. */
  lemma ExplicitTokenIsKept(cfg: Config, d: Dir, b: Bundle, env: ReportEnv)
    requires cfg.agentToken.Some?
    ensures var e := ReportOnce(cfg, d, b, env);
      && e.dir.tokenFile == d.tokenFile && e.enrols == 0 && !e.reenrolled
      && forall i :: 0 <= i < |e.posts| ==> e.posts[i].0 == cfg.agentToken.value
  {
  }

  /** A report is rejected exactly when its last post was answered 400, 403 or 413, and reported exactly when that was
      answered 2xx with a JSON object; in all other cases the bundle is spooled, or could not be. */
  lemma OutcomeIsTheLastAnswer(cfg: Config, d: Dir, b: Bundle, env: ReportEnv, s: nat)
    ensures var e := ReportOnce(cfg, d, b, env);
      var last := if e.posts == [] then NoResponse else e.posts[|e.posts| - 1].1;
      && (e.out == Rejected(s) <==> last.Response? && last.status == s && s in {400, 403, 413})
      && (e.out == Reported <==> last.Response? && 200 <= last.status < 300 && last.jsonObject)
      && (e.out.Spooled? ==> env.canWrite && env.name in e.dir.spool && e.dir.spool[env.name] == b)
      && (e.out.NotSpooled? ==> !env.canWrite || env.name in e.dir.spool)
  {
    hide PassCrashes, PassOf;
    PostedIff(cfg, d, env.first);
    PostedIff(cfg, SendOnce(cfg, d, env.first).dir.(tokenFile := None), env.second);
  }

  ghost predicate StillThere(n: Name, b: Bundle, spool: map<Name, Bundle>, rejected: map<Name, Bundle>) {
    (n in spool && spool[n] == b) || (n in rejected && rejected[n] == b)
  }

  /** The replay of `d` got to file n and had it acknowledged. */
  predicate DeliveredIn(d: Dir, files: Files, n: Name) {
    n in Tried(Listing(d.spool.Keys), files) && FateOf(files(n)).Delivered?
  }

  lemma SendKeepsFiles(cfg: Config, d: Dir, att: Attempt, n: Name)
    ensures var d' := SendOnce(cfg, d, att).dir;
      && (n in d'.spool ==> n in d.spool && d'.spool[n] == d.spool[n])
      && (n in d.spool ==> StillThere(n, d.spool[n], d'.spool, d'.rejected) || DeliveredIn(d, att.files, n))
      && (n in d.rejected && n !in d.spool ==> n in d'.rejected && d'.rejected[n] == d.rejected[n])
  {
    hide FlushAll, Tried, FateOf;
    FlushKeepsFiles(StartPass(d.spool, d.rejected), Listing(d.spool.Keys), att.files);
  }

  /** Nothing but the reported bundle appears in the spool, and a file leaves it only for spool/rejected or by
      being acknowledged in one of the two replays. */
  lemma ReportKeepsFiles(cfg: Config, d: Dir, b: Bundle, env: ReportEnv, n: Name)
    ensures var e := ReportOnce(cfg, d, b, env);
      && (n in e.dir.spool ==> (n == env.name && e.out.Spooled?) || (n in d.spool && e.dir.spool[n] == d.spool[n]))
      && (n in d.spool ==>
          || StillThere(n, d.spool[n], e.dir.spool, e.dir.rejected)
          || DeliveredIn(d, env.first.files, n)
          || (e.reenrolled && DeliveredIn(SendOnce(cfg, d, env.first).dir, env.second.files, n)))
  {
    hide SendOnce, DeliveredIn;
    var d1 := SendOnce(cfg, d, env.first).dir;
    SendKeepsFiles(cfg, d, env.first, n);
    SendKeepsFiles(cfg, d1.(tokenFile := None), env.second, n);
    SameReplay(d1, env.second.files, n);
  }

  lemma SameReplay(d: Dir, files: Files, n: Name)
    ensures DeliveredIn(d.(tokenFile := None), files, n) == DeliveredIn(d, files, n)
  {
  }

  class StateDir {
    var tokenFile: Option<Token>
    var spool: map<Name, Bundle>
    var rejected: map<Name, Bundle>

    constructor ()
      ensures tokenFile == None && spool == map[] && rejected == map[]
    {
      tokenFile, spool, rejected := None, map[], map[];
    }

    /** The body of the replay loop for one file. */
    method FlushFile(n: Name, e: FileEnv, ghost p: Pass)
      returns (sent: nat, kept: nat, moved: nat, stop: bool, crashed: bool)
      requires n in spool && p.spool == spool && p.rejected == rejected
      modifies this`spool, this`rejected
      ensures spool == FlushOne(p, n, e).spool && rejected == FlushOne(p, n, e).rejected
      ensures p.sent + sent == FlushOne(p, n, e).sent
      ensures p.kept + kept == FlushOne(p, n, e).kept
      ensures p.moved + moved == FlushOne(p, n, e).moved
      ensures stop == Ends(e) && crashed == FateOf(e).Blew?
    {
      sent, kept, moved, stop, crashed := 0, 0, 0, false, false;
      if !e.readable {
        kept := 1;
        return;
      }
      match PostResult(e.answer)
      case Acked =>
        sent := 1;
        if e.removable {
          spool := spool - {n};
        }
      case Crashed =>
        stop, crashed := true, true;
      case Failed(status) =>
        if Permanent(status) {
          if e.movable {
            rejected := rejected[n := spool[n]];
            spool := spool - {n};
            moved := 1;
          } else {
            kept := 1;
          }
        } else {
          kept := 1;
          stop := StopsFlush(status);
        }
    }

    /** `flush_spool`. */
    method FlushSpool(files: Files) returns (sent: nat, kept: nat, moved: nat, crashed: bool)
      modifies this`spool, this`rejected
      ensures Fresh(Listing(old(spool).Keys), old(spool))
      ensures spool == FlushAll(StartPass(old(spool), old(rejected)), Listing(old(spool).Keys), files).spool
      ensures rejected == FlushAll(StartPass(old(spool), old(rejected)), Listing(old(spool).Keys), files).rejected
      ensures sent == FlushAll(StartPass(old(spool), old(rejected)), Listing(old(spool).Keys), files).sent
      ensures kept == FlushAll(StartPass(old(spool), old(rejected)), Listing(old(spool).Keys), files).kept
      ensures moved == FlushAll(StartPass(old(spool), old(rejected)), Listing(old(spool).Keys), files).moved
      ensures crashed == Crashes(Listing(old(spool).Keys), files)
    {
      hide FateOf;
      sent, kept, moved, crashed := 0, 0, 0, false;
      var names := Listing(spool.Keys);
      var todo := names;
      ghost var p := StartPass(spool, rejected);
      ghost var final := FlushAll(p, names, files);
      while todo != []
        invariant Fresh(todo, spool)
        invariant p.spool == spool && p.rejected == rejected && p.sent == sent && p.kept == kept && p.moved == moved
        invariant FlushAll(p, todo, files) == final
        invariant Crashes(todo, files) == Crashes(names, files)
        invariant !crashed
        decreases |todo|
      {
        FreshTail(p, todo, files(todo[0]));
        CrashesTail(todo, files);
        var s, k, m, stop, blew := FlushFile(todo[0], files(todo[0]), p);
        sent, kept, moved := sent + s, kept + k, moved + m;
        p := FlushOne(p, todo[0], files(todo[0]));
        if stop {
          crashed := blew;
          return;
        }
        todo := todo[1..];
      }
    }

    /** `ensure_agent_token` (an explicit token is used as it is). */
    method AgentToken(cfg: Config, enrol: Enrol) returns (token: Option<Token>, status: nat, enrolled: bool)
      modifies this`tokenFile
      ensures Grant(token, status, enrolled, tokenFile) == GrantFor(cfg, old(tokenFile), enrol)
    {
      token, status, enrolled := None, 0, false;
      if cfg.agentToken.Some? {
        token := cfg.agentToken;
      } else if tokenFile.Some? {
        token := tokenFile;
      } else if cfg.hasEnrolToken {
        enrolled := true;
        match enrol
        case Enrolled(t) =>
          token := Some(t);
          tokenFile := token;
        case EnrolError(e) =>
          status := e;
        case EnrolCrash =>
      }
    }

    ghost function Contents(): Dir
      reads this
    {
      Dir(tokenFile, spool, rejected)
    }

    /** `send()`: get a token, replay the spool, post the bundle once. */
    method Send(cfg: Config, att: Attempt) returns (r: Sent, post: Option<Token>, enrolled: bool)
      modifies this
      ensures SendEnd(r, post, enrolled, Contents()) == SendOnce(cfg, old(Contents()), att)
    {
      post := None;
      var token, status: nat;
      token, status, enrolled := AgentToken(cfg, att.enrol);
      if token.None? {
        r := SendError(status, false);
        return;
      }
      var _, _, _, crashed := FlushSpool(att.files);
      if crashed {
        r := SendCrash;
        return;
      }
      post := token;
      match PostResult(att.answer)
      case Acked => r := SentOk;
      case Crashed => r := SendCrash;
      case Failed(s) => r := SendError(s, Permanent(s));
    }

    /** `report_scan` once the bundle is dumped. */
    method ReportScan(cfg: Config, bundle: Bundle, env: ReportEnv)
      returns (out: Outcome, posts: seq<(Token, Http)>, enrols: nat, reenrolled: bool)
      modifies this
      ensures ReportEnd(out, posts, enrols, reenrolled, Contents()) == ReportOnce(cfg, old(Contents()), bundle, env)
    {
      hide SendOnce;
      reenrolled := false;
      var r, post, enrolled := Send(cfg, env.first);
      posts := if post.Some? then [(post.value, env.first.answer)] else [];
      enrols := if enrolled then 1 else 0;
      if r == SentOk {
        return Reported, posts, enrols, reenrolled;
      }
      if r.SendError? && r.status == 401 && cfg.agentToken.None? && cfg.hasEnrolToken && env.canDropToken {
        tokenFile := None;
        reenrolled := true;
        r, post, enrolled := Send(cfg, env.second);
        posts := posts + if post.Some? then [(post.value, env.second.answer)] else [];
        enrols := enrols + if enrolled then 1 else 0;
        if r == SentOk {
          return Reported, posts, enrols, reenrolled;
        }
      }
      if r.SendError? && r.permanent {
        return Rejected(r.status), posts, enrols, reenrolled;
      }
      if !env.canWrite || env.name in spool {
        return NotSpooled, posts, enrols, reenrolled;
      }
      spool := spool[env.name := bundle];
      out := Spooled;
    }
  }

  ghost predicate NothingLost(p: Pass, q: Pass, tried: seq<Name>, files: Files) {
    && q.spool.Keys <= p.spool.Keys
    && (forall n :: n in q.spool ==> q.spool[n] == p.spool[n])
    && (forall n :: n in p.spool ==>
        StillThere(n, p.spool[n], q.spool, q.rejected) || (n in tried && FateOf(files(n)).Delivered?))
    && (forall n :: n in p.rejected && n !in p.spool ==> n in q.rejected && q.rejected[n] == p.rejected[n])
  }

  /** After a pass every spooled file is still in the spool, or in the rejected directory, or was tried and
      acknowledged. */
  lemma {:induction false} FlushKeepsFiles(p: Pass, names: seq<Name>, files: Files)
    requires Fresh(names, p.spool)
    ensures NothingLost(p, FlushAll(p, names, files), Tried(names, files), files)
    decreases |names|
  {
    if names != [] {
      var q := FlushOne(p, names[0], files(names[0]));
      assert NothingLost(p, q, [names[0]], files);
      if !Ends(files(names[0])) {
        FreshTail(p, names, files(names[0]));
        FlushKeepsFiles(q, names[1..], files);
        NothingLostTrans(p, q, FlushAll(q, names[1..], files), [names[0]], Tried(names[1..], files), files);
      }
    }
  }

  lemma NothingLostTrans(p: Pass, q: Pass, r: Pass, a: seq<Name>, b: seq<Name>, files: Files)
    requires NothingLost(p, q, a, files) && NothingLost(q, r, b, files)
    ensures NothingLost(p, r, a + b, files)
  {
  }

  lemma CrashesTail(names: seq<Name>, files: Files)
    requires names != []
    ensures Crashes(names, files) ==
      if Ends(files(names[0])) then FateOf(files(names[0])).Blew? else Crashes(names[1..], files)
  {
    if !Ends(files(names[0])) {
      var rest := Tried(names[1..], files);
      if rest != [] {
        assert ([names[0]] + rest)[|rest|] == rest[|rest| - 1];
      }
    }
  }
}
