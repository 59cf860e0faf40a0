/** Two runs of the fleet system, from a fresh start, that show what its safety theorems do not promise: an
    acknowledgement does not say under which host the scan is stored, and a file in spool/rejected need not hold a
    bundle that was ever refused. */
module FleetRaces {
  import opened Common
  import opened Report
  import opened Fleet
  import opened FleetAgent
  import opened FleetCollector
  import opened FleetSafety

  // ---- Two hosts, one scan_uuid -------------------------------------------------------------------

  /** Two enrolled hosts. */
  ghost predicate TwoHosts(hosts: map<HostId, Host>, b: Bundle, t: Token, b': Bundle, t': Token) {
    && hosts == map[1 := Host(b.machine, Some(t), false), 2 := Host(b'.machine, Some(t'), false)]
    && b.uuid == b'.uuid && b.content == Good(true, true) && b'.content == Good(true, true)
    && b.size <= MAX_GZIP_BYTES && b'.size <= MAX_GZIP_BYTES
  }

  function Requests(b: Bundle, t: Token, s: Stage, b': Bundle, t': Token, s': Stage): map<ReqId, Request> {
    map[0 := Request(b, t, s), 1 := Request(b', t', s')]
  }

  lemma BothArrive(w: World, run: seq<Action>, c: Collector, b: Bundle, t: Token, b': Bundle, t': Token)
    requires Run(w, run).collector == c && c.requests == map[]
    ensures Run(w, run + [Foreign(0, b, t)] + [Foreign(1, b', t')]).collector
         == c.(requests := Requests(b, t, Arrived, b', t', Arrived))
  {
    RunSnoc(w, run, Foreign(0, b, t));
    RunSnoc(w, run + [Foreign(0, b, t)], Foreign(1, b', t'));
    assert map[0 := Request(b, t, Arrived)][1 := Request(b', t', Arrived)] == Requests(b, t, Arrived, b', t', Arrived);
  }

  lemma BothAdmitted(w: World, run: seq<Action>, c: Collector, b: Bundle, t: Token, b': Bundle, t': Token)
    requires TwoHosts(c.hosts, b, t, b', t') && c.rows == []
    requires Run(w, run).collector == c.(requests := Requests(b, t, Arrived, b', t', Arrived))
    ensures Run(w, run + [Admit(0, 1, true, false)] + [Admit(1, 2, true, false)]).collector
         == c.(requests := Requests(b, t, Checked(1), b', t', Checked(2)))
  {
    RunSnoc(w, run, Admit(0, 1, true, false));
    RunSnoc(w, run + [Admit(0, 1, true, false)], Admit(1, 2, true, false));
    var c0 := c.(requests := Requests(b, t, Arrived, b', t', Arrived));
    FirstAdmitted(c0, b, t, b', t');
    SecondAdmitted(c.(requests := Requests(b, t, Checked(1), b', t', Arrived)), b, t, b', t');
  }

  lemma FirstAdmitted(c: Collector, b: Bundle, t: Token, b': Bundle, t': Token)
    requires TwoHosts(c.hosts, b, t, b', t') && c.rows == [] && c.requests == Requests(b, t, Arrived, b', t', Arrived)
    ensures AdmitStep(c, 0, 1, true, false) == c.(requests := Requests(b, t, Checked(1), b', t', Arrived))
  {
    assert Verdict(c, b, 1, true, false) == None;
  }

  lemma SecondAdmitted(c: Collector, b: Bundle, t: Token, b': Bundle, t': Token)
    requires TwoHosts(c.hosts, b, t, b', t') && c.rows == []
    requires c.requests == Requests(b, t, Checked(1), b', t', Arrived)
    ensures AdmitStep(c, 1, 2, true, false) == c.(requests := Requests(b, t, Checked(1), b', t', Checked(2)))
  {
    assert Verdict(c, b', 2, true, false) == None;
  }

  lemma OneStored(c: Collector, b: Bundle, t: Token, b': Bundle, t': Token)
    requires TwoHosts(c.hosts, b, t, b', t') && c.rows == []
    requires c.requests == Requests(b, t, Checked(1), b', t', Checked(2))
    ensures InsertStep(c, 0)
         == c.(requests := Requests(b, t, Done(Response(200, true), Some(1), false), b', t', Checked(2)),
               rows := [Row(c.nextId, b.uuid, 1)], nextId := c.nextId + 1, stored := c.stored + {(b.uuid, 1)})
  {
    assert c.rows + [Row(c.nextId, b.uuid, 1)] == [Row(c.nextId, b.uuid, 1)];
  }

  lemma OtherLoses(c: Collector, s: Stage, b: Bundle, t: Token, b': Bundle, t': Token)
    requires c.requests == Requests(b, t, s, b', t', Checked(2)) && b.uuid == b'.uuid
    requires |c.rows| == 1 && c.rows[0].uuid == b.uuid && c.rows[0].host == 1
    ensures InsertStep(c, 1) == c.(requests := Requests(b, t, s, b', t', Conflict(2)))
    ensures LookupStep(c.(requests := Requests(b, t, s, b', t', Conflict(2))), 1)
         == c.(requests := Requests(b, t, s, b', t', Done(Response(200, true), Some(2), true)))
  {
    assert c.rows[0].uuid == b'.uuid;
    assert HasUuid(c.rows, b'.uuid) && !HasUuidOf(c.rows, b'.uuid, 2);
  }

  function RaceRun(b: Bundle, t: Token, b': Bundle, t': Token): seq<Action> {
    [] + [Foreign(0, b, t)] + [Foreign(1, b', t')] + [Admit(0, 1, true, false)] + [Admit(1, 2, true, false)]
    + [Insert(0)] + [Insert(1)] + [Lookup(1)]
  }

  /** The race behind the unique index, played out from a fresh collector: both requests pass the duplicate check, one
      row is stored, and the loser is answered 200 although the row belongs to the other host. */
  lemma RacingLoserIsAcknowledged(hosts: map<HostId, Host>, tokenFile: Option<Token>, b: Bundle, t: Token,
                                  b': Bundle, t': Token)
    requires TwoHosts(hosts, b, t, b', t')
    ensures var c := Run(Start(hosts, tokenFile), RaceRun(b, t, b', t')).collector;
      && c.rows == [Row(0, b.uuid, 1)] && c.stored == {(b.uuid, 1)}
      && 1 in c.requests && c.requests[1] == Request(b', t', Done(Response(200, true), Some(2), true))
      && !HasUuidOf(c.rows, b'.uuid, 2)
  {
    hide Run, TwoHosts, AdmitStep, InsertStep, LookupStep;
    var w, c := Start(hosts, tokenFile), Collector(hosts, [], 0, map[], {});
    var r0: seq<Action> := [];
    NothingRun(w);
    BothArrive(w, r0, c, b, t, b', t');
    var r1 := r0 + [Foreign(0, b, t)] + [Foreign(1, b', t')];
    BothAdmitted(w, r1, c, b, t, b', t');
    var r2 := r1 + [Admit(0, 1, true, false)] + [Admit(1, 2, true, false)];
    Decided(w, r2, c, b, t, b', t');
    assert RaceRun(b, t, b', t') == r2 + [Insert(0)] + [Insert(1)] + [Lookup(1)];
  }

  lemma Decided(w: World, run: seq<Action>, c: Collector, b: Bundle, t: Token, b': Bundle, t': Token)
    requires TwoHosts(c.hosts, b, t, b', t') && c.rows == [] && c.nextId == 0 && c.stored == {}
    requires Run(w, run).collector == c.(requests := Requests(b, t, Checked(1), b', t', Checked(2)))
    ensures var c' := Run(w, run + [Insert(0)] + [Insert(1)] + [Lookup(1)]).collector;
      && c'.rows == [Row(0, b.uuid, 1)] && c'.stored == {(b.uuid, 1)}
      && 1 in c'.requests && c'.requests[1] == Request(b', t', Done(Response(200, true), Some(2), true))
      && !HasUuidOf(c'.rows, b'.uuid, 2)
  {
    hide Run, InsertStep, LookupStep;
    var c0 := c.(requests := Requests(b, t, Checked(1), b', t', Checked(2)));
    RunSnoc(w, run, Insert(0));
    RunSnoc(w, run + [Insert(0)], Insert(1));
    RunSnoc(w, run + [Insert(0)] + [Insert(1)], Lookup(1));
    OneStored(c0, b, t, b', t');
    OtherLoses(InsertStep(c0, 0), Done(Response(200, true), Some(1), false), b, t, b', t');
  }

  // ---- A file read before its write ended ---------------------------------------------------------

  lemma ListingOne(x: int)
    ensures Listing({x}) == [x]
  {
    assert {x} - {x} == {};
    assert MinOf({x}) == x;
  }

  /** A report whose enrolment fails creates its spool file. */
  function WriterRun(b: Bundle): seq<Action> {
    [] + [Begin(1, Job(Some(b), Config(None, false), false))] + [TokenStep(1, EnrolCrash)] + [Spool(1, 7, true)]
  }

  /** The report of another process, with a token of its own, reads what is there so far. */
  function ReaderRun(own: Bundle, t: Token, cut: Bundle): seq<Action> {
    [] + [Begin(2, Reader(own, t))] + [TokenStep(2, EnrolCrash)] + [NextFile(2, true, 0, cut)]
  }

  function Reader(own: Bundle, t: Token): Job {
    Job(Some(own), Config(Some(t), false), false)
  }

  /** The writer ends, and only then the reader hears that what it sent is no bundle. */
  const EARLY_END: seq<Action> := [] + [Fill(1, Written)] + [Hear(2, Response(400, true))] + [Settle(2, true)]

  lemma RunThree(w: World, run: seq<Action>, a: Action, b: Action, c: Action)
    ensures Run(w, run + ([] + [a] + [b] + [c])) == Apply(Apply(Apply(Run(w, run), a), b), c)
  {
    hide Apply;
    RunSnoc(w, run, a);
    RunSnoc(w, run + [a], b);
    RunSnoc(w, run + [a] + [b], c);
    assert run + ([] + [a] + [b] + [c]) == run + [a] + [b] + [c];
  }

  lemma WriterBegins(w: World, b: Bundle)
    requires w.procs == map[] && w.tokenFile == None && 7 !in w.ledger.names
    ensures var w' := Apply(Apply(Apply(w, Begin(1, Job(Some(b), Config(None, false), false))),
                                  TokenStep(1, EnrolCrash)), Spool(1, 7, true));
      w' == w.(procs := map[1 := Writing(b, 7)], spool := w.spool[7 := b], partial := w.partial + {7},
               ledger := w.ledger.(dumped := w.ledger.dumped + {b}, names := w.ledger.names + {7}))
  {
    var w1 := Apply(w, Begin(1, Job(Some(b), Config(None, false), false)));
    assert w1.procs == map[1 := NeedToken(Job(Some(b), Config(None, false), false))];
    var w2 := Apply(w1, TokenStep(1, EnrolCrash));
    assert w2.procs == map[1 := Spooling(b)];
  }

  lemma ReaderStarts(w: World, b: Bundle, own: Bundle, t: Token)
    requires w.procs == map[1 := Writing(b, 7)] && w.spool == map[7 := b]
    ensures Apply(Apply(w, Begin(2, Reader(own, t))), TokenStep(2, EnrolCrash))
         == w.(procs := map[1 := Writing(b, 7), 2 := Replaying(Reader(own, t), t, [7])],
               ledger := w.ledger.(dumped := w.ledger.dumped + {own}))
  {
    var w1 := Apply(w, Begin(2, Reader(own, t)));
    assert w1.procs == map[1 := Writing(b, 7), 2 := NeedToken(Reader(own, t))];
    assert w1.spool.Keys == {7};
    ListingOne(7);
  }

  lemma ReaderReads(w: World, b: Bundle, own: Bundle, t: Token, cut: Bundle)
    requires w.procs == map[1 := Writing(b, 7)] && w.spool == map[7 := b] && w.partial == {7}
    requires w.collector.requests == map[] && !cut.content.Good? && cut != b
    ensures
      var w' := Apply(Apply(Apply(w, Begin(2, Reader(own, t))), TokenStep(2, EnrolCrash)), NextFile(2, true, 0, cut));
      && w'.spool == w.spool && w'.rejected == w.rejected && w'.partial == w.partial
      && w'.ledger == w.ledger.(dumped := w.ledger.dumped + {own}, early := w.ledger.early + {7})
      && w'.procs == map[1 := Writing(b, 7), 2 := FileSent(Reader(own, t), t, [], 7, b, cut, 0)]
  {
    hide GetToken, BeginStep;
    ReaderStarts(w, b, own, t);
    assert [7][1..] == [];
  }

  lemma ReaderQuarantines(w: World, b: Bundle, job: Job, t: Token, cut: Bundle)
    requires w.procs == map[1 := Writing(b, 7), 2 := FileSent(job, t, [], 7, b, cut, 0)]
    requires w.spool == map[7 := b] && w.partial == {7} && w.rejected == map[]
    ensures var w' := Apply(Apply(Apply(w, Fill(1, Written)), Hear(2, Response(400, true))), Settle(2, true));
      && w'.rejected == map[7 := b] && w'.spool == map[] && w'.partial == {}
      && w'.ledger == w.ledger.(refused := w.ledger.refused + {cut})
      && w'.procs == map[1 := Idle, 2 := Replaying(job, t, [])]
  {
    var w1 := Apply(w, Fill(1, Written));
    assert w1.procs == map[1 := Idle, 2 := FileSent(job, t, [], 7, b, cut, 0)] && w1.partial == {};
    var w2 := Apply(w1, Hear(2, Response(400, true)));
    assert w2.procs == map[1 := Idle, 2 := FileAnswered(job, t, [], 7, b, false)];
  }

  /** A complete bundle ends up in spool/rejected although no answer ever refused it, and the agent that spooled it
      was told of no failure: another process read the file while it was being written. */
  lemma RejectedThoughNeverRefused(hosts: map<HostId, Host>, b: Bundle, own: Bundle, t: Token, cut: Bundle)
    requires !cut.content.Good? && cut != b && own != b
    ensures var w := Run(Start(hosts, None), WriterRun(b) + ReaderRun(own, t, cut) + EARLY_END);
      && w.rejected == map[7 := b] && w.partial == {} && w.ledger.early == {7}
      && b in w.ledger.dumped && b !in w.ledger.refused && b !in w.ledger.acked && b !in w.ledger.notSpooled
      && !InFlight(w, b) && !InSpool(w, b)
  {
    hide Run, Apply;
    var w0 := Start(hosts, None);
    NothingRun(w0);
    var job := Reader(own, t);
    RunThree(w0, [], Begin(1, Job(Some(b), Config(None, false), false)), TokenStep(1, EnrolCrash), Spool(1, 7, true));
    assert [] + WriterRun(b) == WriterRun(b);
    WriterBegins(w0, b);
    var w1 := Run(w0, WriterRun(b));
    RunThree(w0, WriterRun(b), Begin(2, job), TokenStep(2, EnrolCrash), NextFile(2, true, 0, cut));
    ReaderReads(w1, b, own, t, cut);
    var w2 := Run(w0, WriterRun(b) + ReaderRun(own, t, cut));
    RunThree(w0, WriterRun(b) + ReaderRun(own, t, cut), Fill(1, Written), Hear(2, Response(400, true)),
             Settle(2, true));
    ReaderQuarantines(w2, b, job, t, cut);
  }
}
