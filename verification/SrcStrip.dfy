/**
  Comment and string blanking (core/srcstrip.py).  Each lexical form's regular expression is written as
  the function it computes: the end of its match at a position.  All forms are deterministic except the
  C# verbatim string, whose backtracking at the end of input is spelled out.
  */
module SrcStrip {
  import opened Common

  datatype Lang = Go | Java | JavaScript | Php | Rust | CSharp

  // ---- Lexical forms -------------------------------------------------------------------

  predicate Is(s: string, i: nat, c: char) {
    i < |s| && s[i] == c
  }

  /** The body of a quoted string from offset j: escapes take any character but a newline. */
  function Quoted(s: string, j: nat, q: char): (r: Option<nat>)
    ensures r.Some? ==> j < r.value <= |s|
    decreases |s| - j
  {
    if j >= |s| then None
    else if s[j] == q then Some(j + 1)
    else if s[j] == '\\' then (if j + 1 < |s| && s[j + 1] != '\n' then Quoted(s, j + 2, q) else None)
    else if s[j] == '\n' then None
    else Quoted(s, j + 1, q)
  }

  /** A char literal whose opening quote stands at i: one character or one escape. */
  function CharLit(s: string, i: nat): (r: Option<nat>)
    ensures r.Some? ==> i + 2 < r.value <= |s|
  {
    if Is(s, i + 1, '\\') then
      (if i + 2 < |s| && s[i + 2] != '\n' && Is(s, i + 3, '\'') then Some(i + 4) else None)
    else if i + 1 < |s| && s[i + 1] != '\'' && s[i + 1] != '\n' && Is(s, i + 2, '\'') then Some(i + 3)
    else None
  }

  /** The first `*` `/` from offset j. */
  function BlockEnd(s: string, j: nat): (r: Option<nat>)
    ensures r.Some? ==> j + 2 <= r.value <= |s|
    decreases |s| - j
  {
    if j + 1 >= |s| then None else if s[j] == '*' && s[j + 1] == '/' then Some(j + 2) else BlockEnd(s, j + 1)
  }

  function LineEnd(s: string, j: nat): (e: nat)
    requires j <= |s|
    ensures j <= e <= |s| && (e == |s| || s[e] == '\n')
    decreases |s| - j
  {
    if j == |s| || s[j] == '\n' then j else LineEnd(s, j + 1)
  }

  /** The offset after the first c from offset j. */
  function After(s: string, j: nat, c: char): (r: Option<nat>)
    ensures r.Some? ==> j < r.value <= |s|
    decreases |s| - j
  {
    if j >= |s| then None else if s[j] == c then Some(j + 1) else After(s, j + 1, c)
  }

  function Hashes(s: string, j: nat): (n: nat)
    ensures j <= |s| ==> j + n <= |s|
    decreases |s| - j
  {
    if Is(s, j, '#') then 1 + Hashes(s, j + 1) else 0
  }

  predicate HashesAt(s: string, j: nat, n: nat) {
    j + n <= |s| && forall i :: j <= i < j + n ==> s[i] == '#'
  }

  /** The first quote followed by n hashes, from offset j. */
  function RawEnd(s: string, j: nat, n: nat): (r: Option<nat>)
    ensures r.Some? ==> j < r.value <= |s|
    decreases |s| - j
  {
    if j >= |s| then None else if s[j] == '"' && HashesAt(s, j + 1, n) then Some(j + 1 + n) else RawEnd(s, j + 1, n)
  }

  /** A Rust raw string at i: an optional b, r, hashes, a quote, and the first quote with as many hashes. */
  function Raw(s: string, i: nat): (r: Option<nat>)
    ensures r.Some? ==> i + 1 < r.value <= |s|
  {
    var j := if Is(s, i, 'b') then i + 1 else i;
    if !Is(s, j, 'r') then None else
      var n := Hashes(s, j + 1);
      if Is(s, j + 1 + n, '"') then RawEnd(s, j + 2 + n, n) else None
  }

  /** The body of a C# verbatim string from j.  A lone quote closes it; if there is none, the regular expression
      backtracks to the last doubled quote and closes at its first half (`last`). */
  function Verbatim(s: string, j: nat, last: Option<nat>): (r: Option<nat>)
    requires last.Some? ==> last.value <= |s|
    ensures r.Some? ==> r == last || j < r.value <= |s|
    decreases |s| - j
  {
    if j >= |s| then last
    else if s[j] != '"' then Verbatim(s, j + 1, last)
    else if Is(s, j + 1, '"') then Verbatim(s, j + 2, Some(j + 1))
    else Some(j + 1)
  }

  predicate HasChar(lang: Lang) {
    lang.Go? || lang.Java? || lang.Rust? || lang.CSharp?
  }

  /** The combined pattern at offset i: the end of the match, if there is one. */
  function MatchAt(lang: Lang, s: string, i: nat): (r: Option<nat>)
    ensures r.Some? ==> i < r.value <= |s|
  {
    if i >= |s| then None
    else if s[i] == '/' then
      if Is(s, i + 1, '*') then BlockEnd(s, i + 2)
      else if Is(s, i + 1, '/') then Some(LineEnd(s, i + 2))
      else None
    else if s[i] == '"' then Quoted(s, i + 1, '"')
    else if s[i] == '\'' then if HasChar(lang) then CharLit(s, i) else Quoted(s, i + 1, '\'')
    else if s[i] == '`' then if lang.Go? || lang.JavaScript? then After(s, i + 1, '`') else None
    else if s[i] == '#' then if lang.Php? then Some(LineEnd(s, i + 1)) else None
    else if s[i] == 'b' || s[i] == 'r' then if lang.Rust? then Raw(s, i) else None
    else if s[i] == '@' then if lang.CSharp? && Is(s, i + 1, '"') then Verbatim(s, i + 2, None) else None
    else None
  }

  // ---- The scan ------------------------------------------------------------------------

  type Span = (nat, nat)

  /** `finditer`: leftmost, non-overlapping, resuming after each match. */
  function Spans(lang: Lang, s: string, i: nat): seq<Span>
    decreases |s| - i
  {
    if i >= |s| then []
    else match MatchAt(lang, s, i)
      case None => Spans(lang, s, i + 1)
      case Some(e) => [(i, e)] + Spans(lang, s, e)
  }

  predicate Inside(spans: seq<Span>, k: nat) {
    exists i :: 0 <= i < |spans| && spans[i].0 <= k < spans[i].1
  }

  /** The spans from offset i are matches, in order and disjoint ... */
  lemma {:induction false} SpansAreMatches(lang: Lang, s: string, i: nat)
    ensures forall x :: 0 <= x < |Spans(lang, s, i)| ==>
      && i <= Spans(lang, s, i)[x].0
      && MatchAt(lang, s, Spans(lang, s, i)[x].0) == Some(Spans(lang, s, i)[x].1)
    decreases |s| - i
  {
    if i < |s| {
      var m := MatchAt(lang, s, i);
      SpansAreMatches(lang, s, if m.None? then i + 1 else m.value);
    }
  }

  lemma {:induction false} SpansAreOrdered(lang: Lang, s: string, i: nat)
    ensures forall x, y :: 0 <= x < y < |Spans(lang, s, i)| ==> Spans(lang, s, i)[x].1 <= Spans(lang, s, i)[y].0
    decreases |s| - i
  {
    if i < |s| {
      var m := MatchAt(lang, s, i);
      var next := if m.None? then i + 1 else m.value;
      SpansAreOrdered(lang, s, next);
      SpansAreMatches(lang, s, next);
    }
  }

  lemma InsideCons(x: Span, spans: seq<Span>, k: nat)
    ensures Inside([x] + spans, k) <==> x.0 <= k < x.1 || Inside(spans, k)
  {
    if Inside(spans, k) {
      var i :| 0 <= i < |spans| && spans[i].0 <= k < spans[i].1;
      assert ([x] + spans)[i + 1] == spans[i];
    }
    assert ([x] + spans)[0] == x;
  }

  /** ... and nothing outside them matches. */
  lemma {:induction false} OutsideFails(lang: Lang, s: string, i: nat, k: nat)
    requires i <= k < |s| && !Inside(Spans(lang, s, i), k)
    ensures MatchAt(lang, s, k).None?
    decreases |s| - i
  {
    var m := MatchAt(lang, s, i);
    if m.Some? {
      InsideCons((i, m.value), Spans(lang, s, m.value), k);
      OutsideFails(lang, s, m.value, k);
    } else if i < k {
      OutsideFails(lang, s, i + 1, k);
    }
  }

  function Blanked(c: char): char {
    if c == '\n' then c else ' '
  }

  /** `strip_noncode`, as a function of the character positions. */
  function Strip(lang: Lang, s: string): (t: string)
    ensures |t| == |s|
  {
    var sp := Spans(lang, s, 0);
    seq(|s|, k requires 0 <= k < |s| => if Inside(sp, k) then Blanked(s[k]) else s[k])
  }

  /** The two nested loops of `strip_noncode`. */
  method StripNoncode(source: string, lang: Option<Lang>) returns (r: string)
    ensures r == if lang.None? then source else Strip(lang.value, source)
  {
    hide MatchAt;
    if lang.None? {
      return source;
    }
    var chars := new char[|source|](i requires 0 <= i < |source| => source[i]);
    ghost var all := Spans(lang.value, source, 0);
    ghost var done: seq<Span> := [];
    var pos: nat := 0;
    while pos < |source|
      invariant all == done + Spans(lang.value, source, pos)
      invariant forall k :: 0 <= k < |source| ==> chars[k] == if Inside(done, k) then Blanked(source[k]) else source[k]
      decreases |source| - pos
    {
      var m := MatchAt(lang.value, source, pos);
      if m.None? {
        pos := pos + 1;
        continue;
      }
      for i := pos to m.value
        invariant forall k :: 0 <= k < |source| ==>
          chars[k] == if Inside(done, k) || pos <= k < i then Blanked(source[k]) else source[k]
      {
        if chars[i] != '\n' {
          chars[i] := ' ';
        }
      }
      InsideSnoc(done, (pos, m.value));
      done := done + [(pos, m.value)];
      pos := m.value;
    }
    assert done + [] == done;
    r := chars[..];
  }

  lemma InsideSnoc(spans: seq<Span>, x: Span)
    ensures forall k: nat :: Inside(spans + [x], k) <==> Inside(spans, k) || x.0 <= k < x.1
  {
    forall k: nat ensures Inside(spans + [x], k) <==> Inside(spans, k) || x.0 <= k < x.1 {
      if Inside(spans, k) {
        var i :| 0 <= i < |spans| && spans[i].0 <= k < spans[i].1;
        assert (spans + [x])[i] == spans[i];
      }
      assert (spans + [x])[|spans|] == x;
    }
  }

  // ---- Lines are kept --------------------------------------------------------------------

  /** `text[:off].count("\n")`. */
  function Newlines(s: string, off: nat): nat
    requires off <= |s|
  {
    if off == 0 then 0 else Newlines(s, off - 1) + (if s[off - 1] == '\n' then 1 else 0)
  }

  /** Blanking keeps every newline where it is, so line numbers agree at every offset. */
  lemma {:induction false} StripKeepsLines(lang: Lang, s: string, off: nat)
    requires off <= |s|
    ensures Newlines(Strip(lang, s), off) == Newlines(s, off)
  {
    if off > 0 {
      StripKeepsLines(lang, s, off - 1);
    }
  }

  /** It is the number of newlines before the offset. */
  lemma {:induction false} NewlinesCount(s: string, off: nat)
    requires off <= |s|
    ensures Newlines(s, off) == |set i | 0 <= i < off && s[i] == '\n'|
  {
    var all := set i | 0 <= i < off && s[i] == '\n';
    if off == 0 {
      assert all == {};
    } else {
      NewlinesCount(s, off - 1);
      var before := set i | 0 <= i < off - 1 && s[i] == '\n';
      assert all == if s[off - 1] == '\n' then before + {off - 1} else before;
    }
  }

  // ---- The anchor filter -------------------------------------------------------------------

  predicate Keeps(m: Span, text: string, scan: string) {
    !(m.0 < |scan| && m.0 < |text| && text[m.0] != scan[m.0])
  }

  /** The matches whose start the blanking left unchanged. */
  function Unchanged(ms: seq<Span>, text: string, scan: string): seq<Span> {
    if ms == [] then [] else
      if Keeps(ms[0], text, scan) then [ms[0]] + Unchanged(ms[1..], text, scan) else Unchanged(ms[1..], text, scan)
  }

  /** `code_finditer`, given the detection pattern's matches in order. */
  method CodeFinditer(matches: seq<Span>, text: string, scan: string) returns (kept: seq<Span>)
    requires |scan| <= |text|
    ensures kept == Unchanged(matches, text, scan)
  {
    kept := [];
    var todo := matches;
    while todo != []
      invariant kept + Unchanged(todo, text, scan) == Unchanged(matches, text, scan)
      decreases |todo|
    {
      var m := todo[0];
      ConcatAssoc(kept, [m], Unchanged(todo[1..], text, scan));
      if !(m.0 < |scan| && text[m.0] != scan[m.0]) {
        kept := kept + [m];
      }
      todo := todo[1..];
    }
  }

  /** A match is anchored in code: it starts outside every blanked span, or at a blank or newline (or the end). */
  predicate InCode(lang: Lang, s: string, k: nat) {
    k >= |s| || !Inside(Spans(lang, s, 0), k) || s[k] == ' ' || s[k] == '\n'
  }

  function Anchored(ms: seq<Span>, lang: Lang, s: string): seq<Span> {
    if ms == [] then [] else 
      if InCode(lang, s, ms[0].0) then [ms[0]] + Anchored(ms[1..], lang, s) else Anchored(ms[1..], lang, s)
  }

  /** On a stripped text the filter keeps, in order, exactly the matches anchored in code. */
  lemma {:induction false} FilterKeepsCode(ms: seq<Span>, lang: Lang, s: string)
    ensures Unchanged(ms, s, Strip(lang, s)) == Anchored(ms, lang, s)
  {
    if ms != [] {
      FilterKeepsCode(ms[1..], lang, s);
      if ms[0].0 < |s| { StripAt(lang, s, ms[0].0); }
    }
  }

  lemma StripAt(lang: Lang, s: string, k: nat)
    requires k < |s|
    ensures s[k] == Strip(lang, s)[k] <==> InCode(lang, s, k)
  {
  }

  // ---- Idempotence ---------------------------------------------------------------------------

  /** t is s with some characters blanked. */
  ghost predicate Fades(s: string, t: string) {
    |t| == |s| && forall k :: 0 <= k < |s| ==> t[k] == s[k] || (t[k] == ' ' && s[k] != '\n')
  }

  lemma {:induction false} BlockStillFails(s: string, t: string, j: nat)
    requires Fades(s, t) && BlockEnd(s, j).None?
    ensures BlockEnd(t, j).None?
    decreases |s| - j
  {
    if j + 1 < |s| {
      BlockStillFails(s, t, j + 1);
    }
  }

  lemma {:induction false} AfterStillFails(s: string, t: string, j: nat, c: char)
    requires Fades(s, t) && c != ' ' && After(s, j, c).None?
    ensures After(t, j, c).None?
    decreases |s| - j
  {
    if j < |s| {
      AfterStillFails(s, t, j + 1, c);
    }
  }

  lemma {:induction false} RawEndStillFails(s: string, t: string, j: nat, n: nat)
    requires Fades(s, t) && RawEnd(s, j, n).None?
    ensures RawEnd(t, j, n).None?
    decreases |s| - j
  {
    if j < |s| {
      if t[j] == '"' && HashesAt(t, j + 1, n) {
        assert HashesAt(s, j + 1, n);
      }
      RawEndStillFails(s, t, j + 1, n);
    }
  }

  lemma {:induction false} SameHashes(s: string, t: string, j: nat)
    requires Fades(s, t) && Is(t, j + Hashes(t, j), '"')
    ensures Hashes(s, j) == Hashes(t, j)
    decreases |s| - j
  {
    if Is(t, j, '#') {
      SameHashes(s, t, j + 1);
    }
  }

  lemma RawStillFails(s: string, t: string, i: nat)
    requires Fades(s, t) && Raw(s, i).None?
    ensures Raw(t, i).None?
  {
    var j := if Is(t, i, 'b') then i + 1 else i;
    var n := Hashes(t, j + 1);
    if Is(t, j, 'r') && Is(t, j + 1 + n, '"') {
      SameHashes(s, t, j + 1);
      RawEndStillFails(s, t, j + 2 + n, n);
    }
  }

  /** A verbatim string fails only when no quote follows at all. */
  lemma {:induction false} VerbatimNeedsAQuote(s: string, j: nat, last: Option<nat>)
    requires last.Some? ==> last.value <= |s|
    ensures Verbatim(s, j, last).None? <==> last.None? && forall k :: j <= k < |s| ==> s[k] != '"'
    decreases |s| - j
  {
    if j < |s| {
      if s[j] != '"' {
        VerbatimNeedsAQuote(s, j + 1, last);
      } else if Is(s, j + 1, '"') {
        VerbatimNeedsAQuote(s, j + 2, Some(j + 1));
      }
    }
  }

  // ---- Quoted strings: the scan of the blanked text meets the same boundaries ------------------

  lemma {:induction false} SkipBlanks(t: string, j: nat, e: nat, q: char)
    requires j <= e <= |t| && q != ' ' && forall k :: j <= k < e ==> t[k] == ' '
    ensures Quoted(t, j, q) == Quoted(t, e, q)
    decreases e - j
  {
    if j < e {
      SkipBlanks(t, j + 1, e, q);
    }
  }

  lemma {:induction false} NewlineStops(t: string, j: nat, n: nat, q: char)
    requires j <= n < |t| && q != ' ' && q != '\n' && t[n] == '\n'
    requires forall k :: j <= k < n ==> t[k] == ' ' || t[k] == '\n'
    ensures Quoted(t, j, q).None?
    decreases n - j
  {
    if j < n && t[j] == ' ' {
      NewlineStops(t, j + 1, n, q);
    }
  }

  /** A failing scan that meets no newline before e is still failing at e, unless an escape straddles e. */
  lemma {:induction false} FailsOn(s: string, j: nat, e: nat, q: char)
    requires j <= e <= |s| && q != '\\' && Quoted(s, j, q).None? && forall k :: j <= k < e ==> s[k] != '\n'
    ensures Quoted(s, e, q).None? || (j < e && s[e - 1] == '\\')
    decreases e - j
  {
    if j < e {
      if s[j] == '\\' {
        if j + 2 <= e { FailsOn(s, j + 2, e, q); }
      } else {
        FailsOn(s, j + 1, e, q);
      }
    }
  }

  /** The blanked text of s: spans are all blanks and newlines, the rest is untouched, and no span ends in a
      backslash unless the line ends there. */
  ghost predicate Masks(s: string, t: string, spans: seq<Span>) {
    && Fades(s, t)
    && (forall k :: 0 <= k < |s| && !Inside(spans, k) ==> t[k] == s[k])
    && (forall k :: 0 <= k < |s| && Inside(spans, k) ==> t[k] == Blanked(s[k]))
    && (forall x :: 0 <= x < |spans| ==> spans[x].0 < spans[x].1 <= |s| && EndsWell(s, spans[x].1))
  }

  predicate EndsWell(s: string, e: nat)
    requires 0 < e <= |s|
  {
    s[e - 1] != '\\' || e == |s| || s[e] == '\n'
  }

  lemma {:induction false} QuoteStillFails(s: string, t: string, spans: seq<Span>, j: nat, q: char)
    requires Masks(s, t, spans) && q != ' ' && q != '\n' && q != '\\' && Quoted(s, j, q).None?
    ensures Quoted(t, j, q).None?
    decreases |s| - j
  {
    if j < |s| {
      if Inside(spans, j) {
        var x :| 0 <= x < |spans| && spans[x].0 <= j < spans[x].1;
        var e := spans[x].1;
        forall k | j <= k < e ensures t[k] == Blanked(s[k]) { assert Inside(spans, k); }
        if n :| j <= n < e && s[n] == '\n' {
          NewlineStops(t, j, n, q);
        } else {
          SkipBlanks(t, j, e, q);
          FailsOn(s, j, e, q);
          if Quoted(s, e, q).None? { QuoteStillFails(s, t, spans, e, q); }
        }
      } else if s[j] == '\\' {
        if j + 1 < |s| && s[j + 1] != '\n' { QuoteStillFails(s, t, spans, j + 2, q); }
      } else if s[j] != '\n' {
        QuoteStillFails(s, t, spans, j + 1, q);
      }
    }
  }

  // ---- Every form, and the theorem ---------------------------------------------------------------

  /** A match ends well, and is longer than one character unless it is a PHP hash comment. */
  lemma MatchEndsWell(lang: Lang, s: string, i: nat)
    requires MatchAt(lang, s, i).Some?
    ensures EndsWell(s, MatchAt(lang, s, i).value)
    ensures HasChar(lang) ==> MatchAt(lang, s, i).value >= i + 2
  {
    if s[i] == '/' {
      if Is(s, i + 1, '*') { BlockEndsInSlash(s, i + 2); }
    } else if s[i] == '"' {
      QuotedEndsInQuote(s, i + 1, '"');
    } else if s[i] == '\'' {
      if !HasChar(lang) { QuotedEndsInQuote(s, i + 1, '\''); }
    } else if s[i] == '`' {
      AfterEndsIn(s, i + 1, '`');
    } else if s[i] == 'b' || s[i] == 'r' {
      var j := if Is(s, i, 'b') then i + 1 else i;
      RawEndsWell(s, j + 2 + Hashes(s, j + 1), Hashes(s, j + 1));
    } else if s[i] == '@' {
      VerbatimEndsInQuote(s, i + 2, None);
    }
  }

  lemma {:induction false} BlockEndsInSlash(s: string, j: nat)
    requires BlockEnd(s, j).Some?
    ensures s[BlockEnd(s, j).value - 1] == '/'
    decreases |s| - j
  {
    if !(s[j] == '*' && s[j + 1] == '/') { BlockEndsInSlash(s, j + 1); }
  }

  lemma {:induction false} QuotedEndsInQuote(s: string, j: nat, q: char)
    requires Quoted(s, j, q).Some?
    ensures s[Quoted(s, j, q).value - 1] == q
    decreases |s| - j
  {
    if s[j] == q {
    } else if s[j] == '\\' {
      QuotedEndsInQuote(s, j + 2, q);
    } else {
      QuotedEndsInQuote(s, j + 1, q);
    }
  }

  lemma {:induction false} AfterEndsIn(s: string, j: nat, c: char)
    requires After(s, j, c).Some?
    ensures s[After(s, j, c).value - 1] == c
    decreases |s| - j
  {
    if s[j] != c { AfterEndsIn(s, j + 1, c); }
  }

  lemma {:induction false} RawEndsWell(s: string, j: nat, n: nat)
    requires RawEnd(s, j, n).Some?
    ensures s[RawEnd(s, j, n).value - 1] != '\\'
    decreases |s| - j
  {
    if !(s[j] == '"' && HashesAt(s, j + 1, n)) { RawEndsWell(s, j + 1, n); }
  }

  lemma {:induction false} VerbatimEndsInQuote(s: string, j: nat, last: Option<nat>)
    requires last.Some? ==> 0 < last.value <= |s| && s[last.value - 1] == '"'
    requires Verbatim(s, j, last).Some?
    ensures Verbatim(s, j, last).value > 0 && s[Verbatim(s, j, last).value - 1] == '"'
    decreases |s| - j
  {
    if j < |s| {
      if s[j] != '"' {
        VerbatimEndsInQuote(s, j + 1, last);
      } else if Is(s, j + 1, '"') {
        VerbatimEndsInQuote(s, j + 2, Some(j + 1));
      }
    }
  }

  lemma StripMasks(lang: Lang, s: string)
    ensures Masks(s, Strip(lang, s), Spans(lang, s, 0))
  {
    var spans := Spans(lang, s, 0);
    SpansAreMatches(lang, s, 0);
    forall x | 0 <= x < |spans|
      ensures spans[x].0 < spans[x].1 <= |s| && EndsWell(s, spans[x].1)
    {
      MatchEndsWell(lang, s, spans[x].0);
    }
  }

  /** A failing char literal at a code position cannot come to match: a span right after its quote covers the
      place where the closing quote would have to be. */
  lemma CharStillFails(lang: Lang, s: string, i: nat)
    requires HasChar(lang) && i < |s| && !Inside(Spans(lang, s, 0), i) && CharLit(s, i).None?
    ensures CharLit(Strip(lang, s), i).None?
  {
    var spans, t := Spans(lang, s, 0), Strip(lang, s);
    StripMasks(lang, s);
    if i + 2 < |s| && Inside(spans, i + 1) {
      SpansAreMatches(lang, s, 0);
      var x :| 0 <= x < |spans| && spans[x].0 <= i + 1 < spans[x].1;
      MatchEndsWell(lang, s, spans[x].0);
      assert spans[x].0 == i + 1;
      assert Inside(spans, i + 2);
    }
  }

  lemma CodeStillFails(lang: Lang, s: string, i: nat)
    requires i < |s| && !Inside(Spans(lang, s, 0), i)
    ensures MatchAt(lang, Strip(lang, s), i).None?
  {
    var t, spans := Strip(lang, s), Spans(lang, s, 0);
    OutsideFails(lang, s, 0, i);
    StripMasks(lang, s);
    if s[i] == '/' {
      if Is(s, i + 1, '*') { BlockStillFails(s, t, i + 2); }
    } else if s[i] == '"' {
      QuoteStillFails(s, t, spans, i + 1, '"');
    } else if s[i] == '\'' {
      if HasChar(lang) { CharStillFails(lang, s, i); } else { QuoteStillFails(s, t, spans, i + 1, '\''); }
    } else if s[i] == '`' {
      if lang.Go? || lang.JavaScript? { AfterStillFails(s, t, i + 1, '`'); }
    } else if s[i] == 'b' || s[i] == 'r' {
      if lang.Rust? { RawStillFails(s, t, i); }
    } else if s[i] == '@' {
      VerbatimNeedsAQuote(s, i + 2, None);
      VerbatimNeedsAQuote(t, i + 2, None);
    }
  }

  lemma NothingMatchesAfterwards(lang: Lang, s: string, i: nat)
    requires i < |s|
    ensures MatchAt(lang, Strip(lang, s), i).None?
  {
    if !Inside(Spans(lang, s, 0), i) {
      CodeStillFails(lang, s, i);
    }
  }

  lemma {:induction false} NoSpans(lang: Lang, t: string, i: nat)
    requires forall k :: 0 <= k < |t| ==> MatchAt(lang, t, k).None?
    ensures Spans(lang, t, i) == []
    decreases |t| - i
  {
    if i < |t| {
      NoSpans(lang, t, i + 1);
    }
  }

  /** Blanking is idempotent in all six languages. */
  lemma StripIsIdempotent(lang: Lang, s: string)
    ensures Strip(lang, Strip(lang, s)) == Strip(lang, s)
  {
    var t := Strip(lang, s);
    forall k | 0 <= k < |t| ensures MatchAt(lang, t, k).None? {
      NothingMatchesAfterwards(lang, s, k);
    }
    NoSpans(lang, t, 0);
  }
}
