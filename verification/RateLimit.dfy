/**
  The collector's per-host ingest limiter and its capped body reader (daemon/fleet.py).
  `time.monotonic()` is read before the lock is taken, so the clock values reach the bucket
  in an arbitrary order: `now` is a parameter and no order is assumed.  Floats are reals.
  */
module RateLimit {

  const INGEST_MIN_INTERVAL_S: real := 60.0
  const INGEST_BURST: real := 10.0

  datatype Level = Level(tokens: real, then': real)
  type State = map<int, Level>

  datatype Take = Take(key: int, now: real)

  function Min(a: real, b: real): (r: real)
    ensures r <= a && r <= b && (r == a || r == b)
  {
    if a <= b then a else b
  }

  /** The level `take` computes before deciding: a fresh key is full, an old one is refilled. */
  function Refilled(st: State, t: Take, burst: real, interval: real): real {
    var level := if t.key in st then st[t.key] else Level(burst, t.now);
    if interval > 0.0 then Min(burst, level.tokens + (t.now - level.then') / interval) else burst
  }

  predicate Granted(st: State, t: Take, burst: real, interval: real) {
    Refilled(st, t, burst, interval) >= 1.0
  }

  function After(st: State, t: Take, burst: real, interval: real): State {
    var tokens := Refilled(st, t, burst, interval);
    st[t.key := Level(if Granted(st, t, burst, interval) then tokens - 1.0 else tokens, t.now)]
  }

  /** `_TokenBucket`; one call of Take is one critical section. */
  class TokenBucket {
    var state: State
    const burst: real
    const interval: real

    constructor (burst: real, interval: real)
      ensures state == map[] && this.burst == burst && this.interval == interval
    {
      state := map[];
      this.burst, this.interval := burst, interval;
    }

    method TakeToken(key: int, now: real) returns (ok: bool)
      modifies this
      ensures ok == Granted(old(state), Take(key, now), burst, interval)
      ensures state == After(old(state), Take(key, now), burst, interval)
    {
      var tokens, then' := burst, now;
      if key in state {
        tokens, then' := state[key].tokens, state[key].then';
      }
      tokens := if interval > 0.0 then Min(burst, tokens + (now - then') / interval) else burst;
      ok := tokens >= 1.0;
      state := state[key := Level(if ok then tokens - 1.0 else tokens, now)];
    }
  }

  // ---- Whole runs --------------------------------------------------------------

  /** Grants to `key` with a clock value in [lo, hi] along a run of takes, in lock order. */
  function GrantsIn(st: State, run: seq<Take>, key: int, lo: real, hi: real, burst: real, interval: real): nat
    decreases |run|
  {
    if run == [] then 0 else
      (if run[0].key == key && lo <= run[0].now <= hi && Granted(st, run[0], burst, interval) then 1 else 0)
      + GrantsIn(After(st, run[0], burst, interval), run[1..], key, lo, hi, burst, interval)
  }

  /** tokens - then/interval: what a key can still spend, measured at time zero. */
  ghost function Potential(l: Level, interval: real): real
    requires interval > 0.0
  {
    l.tokens - l.then' / interval
  }

  lemma DivMonotone(a: real, b: real, d: real)
    requires d > 0.0 && a <= b
    ensures a / d <= b / d
  {
  }

  lemma DivSelf(d: real)
    requires d > 0.0
    ensures d / d == 1.0
  {
  }

  lemma DivDifference(a: real, b: real, d: real)
    requires d > 0.0
    ensures (a - b) / d == a / d - b / d
  {
  }

  /** No take raises the potential, whatever its clock value, and a grant lowers it by one. */
  lemma PotentialNeverRises(st: State, t: Take, burst: real, interval: real)
    requires interval > 0.0 && t.key in st
    ensures Potential(After(st, t, burst, interval)[t.key], interval)
         <= Potential(st[t.key], interval) - (if Granted(st, t, burst, interval) then 1.0 else 0.0)
  {
    DivDifference(t.now, st[t.key].then', interval);
  }

  /** From a key's current potential: grants up to time `hi` cannot exceed potential + hi/interval. */
  lemma {:induction false} GrantsBoundedByPotential(st: State, run: seq<Take>, key: int, lo: real, hi: real,
                                                    burst: real, interval: real)
    requires interval > 0.0 && key in st
    requires GrantsIn(st, run, key, lo, hi, burst, interval) > 0
    ensures GrantsIn(st, run, key, lo, hi, burst, interval) as real <= Potential(st[key], interval) + hi / interval
    decreases |run|
  {
    var t := run[0];
    var st' := After(st, t, burst, interval);
    var rest := GrantsIn(st', run[1..], key, lo, hi, burst, interval);
    if t.key == key {
      PotentialNeverRises(st, t, burst, interval);
      if lo <= t.now <= hi { DivMonotone(t.now, hi, interval); }
    }
    if rest > 0 {
      GrantsBoundedByPotential(st', run[1..], key, lo, hi, burst, interval);
    }
  }

  /** The rate bound, over every run and every window, with clock values in any order. */
  lemma {:induction false} WindowBound(st: State, run: seq<Take>, key: int, lo: real, hi: real,
                                       burst: real, interval: real)
    requires interval > 0.0 && burst >= 0.0 && lo <= hi
    ensures GrantsIn(st, run, key, lo, hi, burst, interval) as real <= burst + (hi - lo) / interval
    decreases |run|
  {
    DivMonotone(lo, hi, interval);
    DivDifference(hi, lo, interval);
    if run != [] {
      var t := run[0];
      var st' := After(st, t, burst, interval);
      if t.key == key && lo <= t.now <= hi && Granted(st, t, burst, interval) {
        DivMonotone(lo, t.now, interval);
        if GrantsIn(st', run[1..], key, lo, hi, burst, interval) > 0 {
          GrantsBoundedByPotential(st', run[1..], key, lo, hi, burst, interval);
        }
      } else {
        WindowBound(st', run[1..], key, lo, hi, burst, interval);
      }
    }
  }

  /** The deployed constants: any 10 minutes see at most 20 ingests of one host. */
  lemma DeployedWindowBound(run: seq<Take>, key: int, lo: real, hi: real)
    requires lo <= hi
    ensures GrantsIn(map[], run, key, lo, hi, INGEST_BURST, INGEST_MIN_INTERVAL_S) as real <= 10.0 + (hi - lo) / 60.0
  {
    WindowBound(map[], run, key, lo, hi, INGEST_BURST, INGEST_MIN_INTERVAL_S);
  }

  // ---- Keys are independent -------------------------------------------------------

  function OnlyKey(run: seq<Take>, key: int): seq<Take> {
    if run == [] then [] else (if run[0].key == key then [run[0]] else []) + OnlyKey(run[1..], key)
  }

  ghost predicate SameFor(key: int, a: State, b: State) {
    (key in a <==> key in b) && (key in a ==> a[key] == b[key])
  }

  /** What other keys do never changes which of a key's takes are granted. */
  lemma {:induction false} KeysAreIndependent(a: State, b: State, run: seq<Take>, key: int, lo: real, hi: real,
                                              burst: real, interval: real)
    requires SameFor(key, a, b)
    ensures GrantsIn(a, run, key, lo, hi, burst, interval)
         == GrantsIn(b, OnlyKey(run, key), key, lo, hi, burst, interval)
    decreases |run|
  {
    if run != [] {
      var t, rest := run[0], OnlyKey(run[1..], key);
      var a' := After(a, t, burst, interval);
      if t.key == key {
        assert ([t] + rest)[1..] == rest;
        KeysAreIndependent(a', After(b, t, burst, interval), run[1..], key, lo, hi, burst, interval);
      } else {
        assert [] + rest == rest;
        KeysAreIndependent(a', b, run[1..], key, lo, hi, burst, interval);
      }
    }
  }

  // ---- The bound is met: a patient host is never refused ---------------------------

  ghost predicate Patient(st: State, run: seq<Take>, key: int, interval: real) {
    && (forall i :: 0 <= i < |run| ==> run[i].key == key)
    && (forall i, j :: 0 <= i < j < |run| && j == i + 1 ==> run[j].now - run[i].now >= interval)
    && (run != [] && key in st ==> run[0].now - st[key].then' >= interval)
  }

  /** Takes of one key spaced by at least the interval are all granted. */
  lemma {:induction false} PatientHostIsNeverRefused(st: State, run: seq<Take>, key: int, lo: real, hi: real,
                                                     burst: real, interval: real)
    requires interval > 0.0 && burst >= 1.0 && Patient(st, run, key, interval)
    requires key in st ==> st[key].tokens >= 0.0
    requires forall i :: 0 <= i < |run| ==> lo <= run[i].now <= hi
    ensures GrantsIn(st, run, key, lo, hi, burst, interval) == |run|
    decreases |run|
  {
    if run != [] {
      var t := run[0];
      if key in st {
        DivSelf(interval);
        DivMonotone(interval, t.now - st[key].then', interval);
        assert st[key].tokens + (t.now - st[key].then') / interval >= 1.0;
      }
      assert Granted(st, t, burst, interval);
      var st' := After(st, t, burst, interval);
      if run[1..] != [] {
        assert run[1..][0] == run[1];
      }
      PatientHostIsNeverRefused(st', run[1..], key, lo, hi, burst, interval);
    }
  }

  /** The deployed constants: an ingest a minute is always granted. */
  lemma DeployedPatientHost(run: seq<Take>, key: int, lo: real, hi: real)
    requires Patient(map[], run, key, 60.0) && forall i :: 0 <= i < |run| ==> lo <= run[i].now <= hi
    ensures GrantsIn(map[], run, key, lo, hi, INGEST_BURST, INGEST_MIN_INTERVAL_S) == |run|
  {
    PatientHostIsNeverRefused(map[], run, key, lo, hi, INGEST_BURST, INGEST_MIN_INTERVAL_S);
  }

  /** Clock values that do not run backwards. */
  ghost predicate InOrder(st: State, run: seq<Take>, key: int) {
    && (forall i :: 0 <= i < |run| ==> run[i].key == key)
    && (forall i, j :: 0 <= i < j < |run| ==> run[i].now <= run[j].now)
    && (run != [] && key in st ==> st[key].then' <= run[0].now)
  }

  /** What a key has is what it gets: as many takes as it has tokens are granted, however fast they come. */
  lemma {:induction false} TokensAreGranted(st: State, run: seq<Take>, key: int, lo: real, hi: real,
                                            burst: real, interval: real)
    requires interval > 0.0 && InOrder(st, run, key)
    requires |run| as real <= burst && (key in st ==> |run| as real <= st[key].tokens)
    requires forall i :: 0 <= i < |run| ==> lo <= run[i].now <= hi
    ensures GrantsIn(st, run, key, lo, hi, burst, interval) == |run|
    decreases |run|
  {
    if run != [] {
      var t := run[0];
      if key in st {
        DivMonotone(0.0, t.now - st[key].then', interval);
      }
      assert Granted(st, t, burst, interval);
      TokensAreGranted(After(st, t, burst, interval), run[1..], key, lo, hi, burst, interval);
    }
  }

  /** A host the collector has not seen can spend its whole burst at once. */
  lemma BurstIsGranted(st: State, run: seq<Take>, key: int, lo: real, hi: real)
    requires key !in st && InOrder(st, run, key) && |run| <= 10
    requires forall i :: 0 <= i < |run| ==> lo <= run[i].now <= hi
    ensures GrantsIn(st, run, key, lo, hi, INGEST_BURST, INGEST_MIN_INTERVAL_S) == |run|
  {
    TokensAreGranted(st, run, key, lo, hi, INGEST_BURST, INGEST_MIN_INTERVAL_S);
  }

  // ---- The capped body reader ---------------------------------------------------------

  type Chunk = seq<int>

  function Concat(chunks: seq<Chunk>): Chunk {
    if chunks == [] then [] else chunks[0] + Concat(chunks[1..])
  }

  datatype Body = Body(data: Chunk) | TooLarge

  lemma {:induction false} ConcatSnoc(chunks: seq<Chunk>, c: Chunk)
    ensures Concat(chunks + [c]) == Concat(chunks) + c
  {
    if chunks == [] {
      assert chunks + [c] == [c];
    } else {
      assert (chunks + [c])[1..] == chunks[1..] + [c];
      ConcatSnoc(chunks[1..], c);
    }
  }

  lemma {:induction false} ConcatPrefix(chunks: seq<Chunk>, i: nat)
    requires i <= |chunks|
    ensures |Concat(chunks[..i])| <= |Concat(chunks)|
    decreases |chunks|
  {
    if i > 0 {
      assert chunks[..i][1..] == chunks[1..][..i - 1];
      ConcatPrefix(chunks[1..], i - 1);
    }
  }

  /** `_read_capped`: 413 exactly when the declared or the true length passes the cap, whatever
      the chunking; otherwise the whole body. */
  method ReadCapped(declared: int, stream: seq<Chunk>, cap: nat) returns (body: Body)
    ensures body == if declared > cap || |Concat(stream)| > cap then TooLarge else Body(Concat(stream))
  {
    if declared > cap {
      return TooLarge;
    }
    var chunks: seq<Chunk> := [];
    var size := 0;
    for i := 0 to |stream|
      invariant chunks == stream[..i]
      invariant size == |Concat(chunks)| <= cap
    {
      ConcatSnoc(chunks, stream[i]);
      assert stream[..i + 1] == stream[..i] + [stream[i]];
      ConcatPrefix(stream, i + 1);
      size := size + |stream[i]|;
      if size > cap {
        return TooLarge;
      }
      chunks := chunks + [stream[i]];
    }
    assert stream[..|stream|] == stream;
    return Body(Concat(chunks));
  }
}
