/**
  What counts as a comment or a literal, said on the characters alone, and what counts as code.  `SrcStrip` computes
  the pieces by scanning; here each is described by its first and last characters and by what may stand between, and
  the two descriptions are proved to agree in every language.
  */
module SrcPieces {
  import opened Common
  import opened SrcStrip

  /** The text w stands at offset i. */
  predicate At(s: string, i: nat, w: string) {
    i + |w| <= |s| && s[i..i + |w|] == w
  }

  /** The first w from offset j stands at m. */
  ghost predicate FirstAt(s: string, j: nat, w: string, m: nat) {
    j <= m && At(s, m, w) && forall k :: j <= k < m ==> !At(s, k, w)
  }

  predicate OneLine(s: string, i: nat, e: nat) {
    i <= e <= |s| && forall k :: i <= k < e ==> s[k] != '\n'
  }

  /** From i to the end of the line. */
  predicate RestOfLine(s: string, i: nat, e: nat) {
    OneLine(s, i, e) && (e == |s| || s[e] == '\n')
  }

  /** How many c stand right before k, counting back to `from` at most. */
  function RunBefore(s: string, from: nat, k: nat, c: char): nat
    requires k <= |s|
  {
    if from < k && s[k - 1] == c then 1 + RunBefore(s, from, k - 1, c) else 0
  }

  /** An odd number of backslashes before k escapes it. */
  predicate Escaped(s: string, from: nat, k: nat)
    requires k <= |s|
  {
    RunBefore(s, from, k, '\\') % 2 == 1
  }

  /** On one line, q at both ends, every q in between is escaped and the last is not. */
  predicate QuotedPiece(s: string, i: nat, e: nat, q: char) {
    && i + 2 <= e && OneLine(s, i, e) && s[i] == q && s[e - 1] == q && !Escaped(s, i + 1, e - 1)
    && forall k :: i < k < e - 1 && s[k] == q ==> Escaped(s, i + 1, k)
  }

  /** One character or one escape between single quotes. */
  predicate CharPiece(s: string, i: nat, e: nat) {
    && i < e - 2 && OneLine(s, i, e) && s[i] == '\'' && s[e - 1] == '\''
    && (e == i + 3 ==> s[i + 1] != '\\' && s[i + 1] != '\'')
    && (e != i + 3 ==> e == i + 4 && s[i + 1] == '\\')
  }

  function Hash(n: nat): string {
    seq(n, _ => '#')
  }

  /** r or br, n hashes and a quote; it ends with the first quote that has n hashes behind it. */
  ghost predicate RawPiece(s: string, i: nat, e: nat) {
    exists p: string, n: nat :: RawWith(s, i, e, p, n)
  }

  ghost predicate RawWith(s: string, i: nat, e: nat, p: string, n: nat) {
    && (p == "r" || p == "br") && At(s, i, p + Hash(n) + "\"")
    && e >= n + 1 && FirstAt(s, i + |p| + n + 1, "\"" + Hash(n), e - n - 1)
  }

  /** Between b and k quotes come in pairs. */
  predicate Paired(s: string, b: nat, k: nat) {
    b <= k <= |s| && forall m :: b <= m <= k && (m == k || s[m] != '"') ==> RunBefore(s, b, m, '"') % 2 == 0
  }

  predicate VerbatimEnd(s: string, i: nat, e: nat) {
    i + 3 <= e <= |s| && s[e - 1] == '"' && Paired(s, i + 2, e - 1)
  }

  /** @" and the longest text in which quotes come in pairs, with a quote behind it. */
  predicate VerbatimPiece(s: string, i: nat, e: nat) {
    At(s, i, "@\"") && VerbatimEnd(s, i, e) && forall f :: e < f <= |s| ==> !VerbatimEnd(s, i, f)
  }

  ghost predicate Comment(lang: Lang, s: string, i: nat, e: nat) {
    || (At(s, i, "/*") && e >= 2 && FirstAt(s, i + 2, "*/", e - 2))
    || (At(s, i, "//") && RestOfLine(s, i, e))
    || (lang.Php? && At(s, i, "#") && RestOfLine(s, i, e))
  }

  ghost predicate Literal(lang: Lang, s: string, i: nat, e: nat) {
    || QuotedPiece(s, i, e, '"')
    || (if lang.JavaScript? || lang.Php? then QuotedPiece(s, i, e, '\'') else CharPiece(s, i, e))
    || ((lang.Go? || lang.JavaScript?) && At(s, i, "`") && e >= 1 && FirstAt(s, i + 1, "`", e - 1))
    || (lang.Rust? && RawPiece(s, i, e))
    || (lang.CSharp? && VerbatimPiece(s, i, e))
  }

  /** The text from i to e is a comment or a literal. */
  ghost predicate Piece(lang: Lang, s: string, i: nat, e: nat) {
    Comment(lang, s, i, e) || Literal(lang, s, i, e)
  }

  /** Reading from the left, something begins at i: i is the start, or the end of a piece that begins where something
      does, or follows a character at which no piece begins. */
  ghost predicate Begins(lang: Lang, s: string, i: nat) {
    || i == 0
    || exists j: nat :: j < i && Begins(lang, s, j) && Leads(lang, s, j, i)
  }

  ghost predicate Leads(lang: Lang, s: string, j: nat, i: nat) {
    Piece(lang, s, j, i) || (i == j + 1 && j < |s| && forall e :: !Piece(lang, s, j, e))
  }

  /** The character at k belongs to a comment or a literal. */
  ghost predicate Masked(lang: Lang, s: string, k: nat) {
    exists i: nat, e: nat :: i <= k < e && Begins(lang, s, i) && Piece(lang, s, i, e)
  }

  // ---- The scanner finds the pieces ------------------------------------------------------------

  lemma OneChar(s: string, i: nat, c: char)
    ensures At(s, i, [c]) <==> Is(s, i, c)
  {
  }

  lemma TwoChars(s: string, i: nat, w: string)
    requires |w| == 2
    ensures At(s, i, w) <==> Is(s, i, w[0]) && Is(s, i + 1, w[1])
  {
    if Is(s, i, w[0]) && Is(s, i + 1, w[1]) { assert s[i..i + 2] == w; }
  }

  lemma {:induction false} BlockIff(s: string, j: nat, e: nat)
    ensures BlockEnd(s, j) == Some(e) <==> e >= 2 && FirstAt(s, j, "*/", e - 2)
    decreases |s| - j
  {
    TwoChars(s, j, "*/");
    if j + 1 < |s| && !At(s, j, "*/") { BlockIff(s, j + 1, e); }
  }

  lemma {:induction false} AfterIff(s: string, j: nat, c: char, e: nat)
    ensures After(s, j, c) == Some(e) <==> e >= 1 && FirstAt(s, j, [c], e - 1)
    decreases |s| - j
  {
    OneChar(s, j, c);
    if j < |s| && s[j] != c { AfterIff(s, j + 1, c, e); }
  }

  lemma {:induction false} LineIff(s: string, j: nat, e: nat)
    requires j <= |s|
    ensures LineEnd(s, j) == e <==> RestOfLine(s, j, e)
    decreases |s| - j
  {
    if j < |s| && s[j] != '\n' { LineIff(s, j + 1, e); }
  }

  /** The scan from j of a string that opened before b finds e. */
  predicate Closes(s: string, b: nat, j: nat, q: char, e: nat) {
    && j < e && OneLine(s, j, e) && s[e - 1] == q && !Escaped(s, b, e - 1)
    && forall k :: j <= k < e - 1 && s[k] == q ==> Escaped(s, b, k)
  }

  lemma {:induction false} QuotedIff(s: string, b: nat, j: nat, q: char, e: nat)
    requires b <= j <= |s| && q != '\\' && q != '\n' && !Escaped(s, b, j)
    ensures Quoted(s, j, q) == Some(e) <==> Closes(s, b, j, q, e)
    decreases |s| - j
  {
    if j < |s| && s[j] != q && s[j] != '\n' {
      if s[j] != '\\' {
        QuotedIff(s, b, j + 1, q, e);
      } else if j + 1 < |s| && s[j + 1] != '\n' {
        QuotedIff(s, b, j + 2, q, e);
      }
    }
  }

  lemma CharIff(s: string, i: nat, e: nat)
    requires Is(s, i, '\'')
    ensures CharLit(s, i) == Some(e) <==> CharPiece(s, i, e)
  {
  }

  lemma QuoteHashes(s: string, k: nat, n: nat)
    ensures At(s, k, "\"" + Hash(n)) <==> Is(s, k, '"') && HashesAt(s, k + 1, n)
  {
    var w := "\"" + Hash(n);
    if At(s, k, w) {
      assert forall x :: k < x < k + 1 + n ==> s[x] == w[x - k];
      assert s[k] == w[0];
    }
    if Is(s, k, '"') && HashesAt(s, k + 1, n) {
      assert s[k..k + |w|] == w;
    }
  }

  lemma {:induction false} RawEndIff(s: string, j: nat, n: nat, e: nat)
    ensures RawEnd(s, j, n) == Some(e) <==> e >= n + 1 && FirstAt(s, j, "\"" + Hash(n), e - n - 1)
    decreases |s| - j
  {
    QuoteHashes(s, j, n);
    if j < |s| && !(s[j] == '"' && HashesAt(s, j + 1, n)) { RawEndIff(s, j + 1, n, e); }
  }

  lemma {:induction false} HashesIff(s: string, j: nat, n: nat)
    requires j <= |s|
    ensures Hashes(s, j) == n <==> HashesAt(s, j, n) && !Is(s, j + n, '#')
    decreases |s| - j
  {
    if Is(s, j, '#') && n > 0 { HashesIff(s, j + 1, n - 1); }
  }

  /** The opening of a raw string, character by character. */
  lemma RawOpens(s: string, i: nat, p: string, n: nat)
    requires p == "r" || p == "br"
    ensures At(s, i, p + Hash(n) + "\"") <==>
      && (p == "r" ==> Is(s, i, 'r')) && (p == "br" ==> Is(s, i, 'b') && Is(s, i + 1, 'r'))
      && HashesAt(s, i + |p|, n) && Is(s, i + |p| + n, '"')
  {
    var w := p + Hash(n) + "\"";
    if At(s, i, w) {
      assert forall x :: i <= x < i + |w| ==> s[x] == w[x - i];
      assert w[0] == p[0] && w[|p| - 1] == p[|p| - 1] && w[|p| + n] == '"';
      assert forall y :: |p| <= y < |p| + n ==> w[y] == '#';
    }
    if HashesAt(s, i + |p|, n) && Is(s, i + |p| + n, '"') && (p == "r" ==> Is(s, i, 'r'))
       && (p == "br" ==> Is(s, i, 'b') && Is(s, i + 1, 'r')) {
      assert s[i..i + |w|] == w;
    }
  }

  lemma RawIff(s: string, i: nat, e: nat)
    ensures Raw(s, i) == Some(e) <==> RawPiece(s, i, e)
  {
    hide FirstAt, At, RawEnd;
    var p := if Is(s, i, 'b') then "br" else "r";
    var j := i + |p| - 1;
    if Is(s, j, 'r') {
      var n := Hashes(s, j + 1);
      HashesIff(s, j + 1, n);
      RawOpens(s, i, p, n);
      RawEndIff(s, j + 2 + n, n, e);
      assert RawWith(s, i, e, p, n) <==> Raw(s, i) == Some(e);
    }
    forall p', n' | RawWith(s, i, e, p', n')
      ensures p' == p && Is(s, j, 'r') && n' == Hashes(s, j + 1)
    {
      RawOpens(s, i, p', n');
      HashesIff(s, j + 1, n');
    }
  }

  /** `last` is the end of the longest verbatim string found up to j. */
  ghost predicate LongestSoFar(s: string, i: nat, j: nat, last: Option<nat>) {
    && (last.Some? ==> last.value <= j && VerbatimEnd(s, i, last.value))
    && forall f: nat :: (last.Some? ==> last.value < f) && f <= j ==> !VerbatimEnd(s, i, f)
  }

  lemma {:induction false} VerbatimIff(s: string, i: nat, j: nat, last: Option<nat>, e: nat)
    requires Paired(s, i + 2, j) && LongestSoFar(s, i, j, last)
    ensures Verbatim(s, j, last) == Some(e) <==>
      VerbatimEnd(s, i, e) && forall f :: e < f <= |s| ==> !VerbatimEnd(s, i, f)
    decreases |s| - j
  {
    if j < |s| {
      if s[j] != '"' {
        VerbatimIff(s, i, j + 1, last, e);
      } else if Is(s, j + 1, '"') {
        assert VerbatimEnd(s, i, j + 1);
        VerbatimIff(s, i, j + 2, Some(j + 1), e);
      } else {
        assert VerbatimEnd(s, i, j + 1);
        assert RunBefore(s, i + 2, j + 1, '"') % 2 == 1;
      }
    }
  }

  lemma SlashIff(lang: Lang, s: string, i: nat, e: nat)
    requires Is(s, i, '/')
    ensures MatchAt(lang, s, i) == Some(e) <==> Comment(lang, s, i, e)
  {
    hide FirstAt, BlockEnd, LineEnd, Quoted, Raw, Verbatim, CharLit;
    OneChar(s, i, '#');
    TwoChars(s, i, "/*");
    TwoChars(s, i, "//");
    BlockIff(s, i + 2, e);
    if i + 2 <= |s| { LineIff(s, i + 2, e); }
  }

  lemma HashIff(lang: Lang, s: string, i: nat, e: nat)
    requires Is(s, i, '#')
    ensures MatchAt(lang, s, i) == Some(e) <==> Comment(lang, s, i, e)
  {
    hide FirstAt, BlockEnd, LineEnd, Quoted, Raw, Verbatim, CharLit;
    OneChar(s, i, '#');
    TwoChars(s, i, "/*");
    TwoChars(s, i, "//");
    LineIff(s, i + 1, e);
  }

  /** Comments begin with a slash or a hash, literals with other characters. */
  lemma CommentStarts(lang: Lang, s: string, i: nat, e: nat)
    ensures Comment(lang, s, i, e) ==> Is(s, i, '/') || Is(s, i, '#')
  {
    hide FirstAt, RestOfLine;
    OneChar(s, i, '#');
    TwoChars(s, i, "/*");
    TwoChars(s, i, "//");
  }

  lemma RawStarts(s: string, i: nat, e: nat)
    ensures RawPiece(s, i, e) ==> Is(s, i, 'r') || Is(s, i, 'b')
  {
    hide FirstAt, At;
    if p, n :| RawWith(s, i, e, p, n) { RawOpens(s, i, p, n); }
  }

  lemma LiteralStarts(lang: Lang, s: string, i: nat, e: nat)
    requires Literal(lang, s, i, e)
    ensures i < |s|
    ensures !lang.Rust? || !RawPiece(s, i, e) ==> s[i] == '"' || s[i] == '\'' || s[i] == '`' || s[i] == '@'
    ensures lang.Rust? && RawPiece(s, i, e) ==> s[i] == 'r' || s[i] == 'b'
  {
    hide FirstAt, RawPiece, Escaped, VerbatimEnd;
    OneChar(s, i, '`');
    TwoChars(s, i, "@\"");
    RawStarts(s, i, e);
  }

  lemma LiteralIff(lang: Lang, s: string, i: nat, e: nat)
    requires i < |s| && s[i] != '/' && s[i] != '#'
    ensures MatchAt(lang, s, i) == Some(e) <==> Literal(lang, s, i, e)
  {
    hide FirstAt, Quoted, Raw, Verbatim, CharLit, CharPiece, RawPiece, After, VerbatimEnd, Escaped;
    OneChar(s, i, '`');
    TwoChars(s, i, "@\"");
    CharStarts(s, i, e);
    RawStarts(s, i, e);
    if s[i] == '"' {
      DoubleIff(s, i, '"', e);
    } else if s[i] == '\'' {
      if HasChar(lang) { CharIff(s, i, e); } else { DoubleIff(s, i, '\'', e); }
    } else if s[i] == '`' {
      AfterIff(s, i + 1, '`', e);
    } else if s[i] == 'b' || s[i] == 'r' {
      RawIff(s, i, e);
    } else if s[i] == '@' {
      if Is(s, i + 1, '"') { VerbatimPieceIff(s, i, e); }
    }
  }

  lemma VerbatimPieceIff(s: string, i: nat, e: nat)
    requires At(s, i, "@\"")
    ensures Verbatim(s, i + 2, None) == Some(e) <==> VerbatimPiece(s, i, e)
  {
    TwoChars(s, i, "@\"");
    VerbatimIff(s, i, i + 2, None, e);
  }

  lemma CharStarts(s: string, i: nat, e: nat)
    ensures CharPiece(s, i, e) ==> Is(s, i, '\'')
  {
  }

  lemma DoubleIff(s: string, i: nat, q: char, e: nat)
    requires Is(s, i, q) && q != '\\' && q != '\n'
    ensures Quoted(s, i + 1, q) == Some(e) <==> QuotedPiece(s, i, e, q)
  {
    QuotedIff(s, i + 1, i + 1, q, e);
  }

  /** The scanner's match at i is the piece that begins there, and it has one exactly when a piece does. */
  lemma MatchIff(lang: Lang, s: string, i: nat, e: nat)
    ensures MatchAt(lang, s, i) == Some(e) <==> Piece(lang, s, i, e)
  {
    hide Comment, Literal, RawPiece;
    CommentStarts(lang, s, i, e);
    if Literal(lang, s, i, e) { LiteralStarts(lang, s, i, e); }
    if Is(s, i, '/') {
      SlashIff(lang, s, i, e);
    } else if Is(s, i, '#') {
      HashIff(lang, s, i, e);
    } else if i < |s| {
      LiteralIff(lang, s, i, e);
    }
  }

  // ---- The scan visits the beginnings ----------------------------------------------------------

  lemma NoPieceIff(lang: Lang, s: string, i: nat)
    ensures MatchAt(lang, s, i).None? <==> forall e :: !Piece(lang, s, i, e)
  {
    hide MatchAt, Piece;
    forall e: nat ensures MatchAt(lang, s, i) == Some(e) <==> Piece(lang, s, i, e) { MatchIff(lang, s, i, e); }
    if MatchAt(lang, s, i).Some? { assert Piece(lang, s, i, MatchAt(lang, s, i).value); }
  }

  /** x is one of the last spans. */
  predicate IsSuffix(x: seq<Span>, all: seq<Span>) {
    |x| <= |all| && x == all[|all| - |x|..]
  }

  /** From where something begins, the rest of the scan is a scan from there. */
  lemma {:induction false} BeginsIsVisited(lang: Lang, s: string, i: nat)
    requires Begins(lang, s, i)
    ensures i <= |s| && IsSuffix(Spans(lang, s, i), Spans(lang, s, 0))
    decreases i
  {
    hide MatchAt, Piece;
    if i > 0 {
      var j: nat :| j < i && Begins(lang, s, j) && Leads(lang, s, j, i);
      BeginsIsVisited(lang, s, j);
      MatchIff(lang, s, j, i);
      NoPieceIff(lang, s, j);
      if Piece(lang, s, j, i) { assert Spans(lang, s, j)[1..] == Spans(lang, s, i); }
    }
  }

  /** Every span from a beginning is a piece at a beginning. */
  lemma {:induction false} SpansArePieces(lang: Lang, s: string, i: nat, x: nat)
    requires Begins(lang, s, i) && x < |Spans(lang, s, i)|
    ensures var p := Spans(lang, s, i)[x]; Begins(lang, s, p.0) && Piece(lang, s, p.0, p.1)
    decreases |s| - i
  {
    hide MatchAt, Piece;
    var m := MatchAt(lang, s, i);
    if m.Some? {
      MatchIff(lang, s, i, m.value);
      assert Leads(lang, s, i, m.value);
      if x > 0 { SpansArePieces(lang, s, m.value, x - 1); }
    } else {
      NoPieceIff(lang, s, i);
      assert Leads(lang, s, i, i + 1);
      SpansArePieces(lang, s, i + 1, x);
    }
  }

  /** The scanner's spans are exactly the pieces that begin where something does. */
  lemma SpansIff(lang: Lang, s: string, i: nat, e: nat)
    ensures (i, e) in Spans(lang, s, 0) <==> Begins(lang, s, i) && Piece(lang, s, i, e)
  {
    hide MatchAt, Piece, Begins;
    assert Begins(lang, s, 0) by { StartBegins(lang, s); }
    if (i, e) in Spans(lang, s, 0) {
      var x: nat :| x < |Spans(lang, s, 0)| && Spans(lang, s, 0)[x] == (i, e);
      SpansArePieces(lang, s, 0, x);
    }
    if Begins(lang, s, i) && Piece(lang, s, i, e) {
      BeginsIsVisited(lang, s, i);
      MatchIff(lang, s, i, e);
      assert Spans(lang, s, i)[0] == (i, e);
      assert Spans(lang, s, 0)[|Spans(lang, s, 0)| - |Spans(lang, s, i)|] == (i, e);
    }
  }

  lemma StartBegins(lang: Lang, s: string)
    ensures Begins(lang, s, 0)
  {
  }

  /** No span runs across a beginning. */
  lemma {:induction false} NoneStraddles(lang: Lang, s: string, i: nat, x: nat)
    requires Begins(lang, s, i) && x < |Spans(lang, s, 0)|
    ensures var p := Spans(lang, s, 0)[x]; !(p.0 < i < p.1)
    decreases i
  {
    hide MatchAt, Piece, Spans;
    if i > 0 {
      var j: nat :| j < i && Begins(lang, s, j) && Leads(lang, s, j, i);
      NoneStraddles(lang, s, j, x);
      var p := Spans(lang, s, 0)[x];
      SpansIff(lang, s, p.0, p.1);
      if Piece(lang, s, j, i) {
        SpansIff(lang, s, j, i);
        SpansAreOrdered(lang, s, 0);
      }
    }
  }

  lemma {:induction false} OutsideBegins(lang: Lang, s: string, i: nat, k: nat)
    requires Begins(lang, s, i) && i <= k < |s| && !Inside(Spans(lang, s, i), k)
    ensures Begins(lang, s, k)
    decreases |s| - i
  {
    hide MatchAt, Piece;
    var m := MatchAt(lang, s, i);
    if m.Some? {
      InsideCons((i, m.value), Spans(lang, s, m.value), k);
      MatchIff(lang, s, i, m.value);
      assert Leads(lang, s, i, m.value);
      OutsideBegins(lang, s, m.value, k);
    } else if i < k {
      NoPieceIff(lang, s, i);
      assert Leads(lang, s, i, i + 1);
      OutsideBegins(lang, s, i + 1, k);
    }
  }

  lemma InsideIffMasked(lang: Lang, s: string, k: nat)
    ensures Inside(Spans(lang, s, 0), k) <==> Masked(lang, s, k)
  {
    hide Piece, Begins, Spans;
    var spans := Spans(lang, s, 0);
    if Inside(spans, k) {
      var x :| 0 <= x < |spans| && spans[x].0 <= k < spans[x].1;
      SpansIff(lang, s, spans[x].0, spans[x].1);
    }
    if Masked(lang, s, k) {
      var i: nat, e: nat :| i <= k < e && Begins(lang, s, i) && Piece(lang, s, i, e);
      SpansIff(lang, s, i, e);
      var x: nat :| x < |spans| && spans[x] == (i, e);
    }
  }

  /** A character is blanked exactly when it belongs to a comment or a literal; line breaks in those stay. */
  lemma StripMasksPieces(lang: Lang, s: string, k: nat)
    requires k < |s|
    ensures Strip(lang, s)[k] == if Masked(lang, s, k) && s[k] != '\n' then ' ' else s[k]
  {
    hide Masked, Spans;
    InsideIffMasked(lang, s, k);
  }

  /** The rest is code: a place where something begins, and no piece does. */
  lemma CodeIff(lang: Lang, s: string, k: nat)
    requires k < |s|
    ensures !Masked(lang, s, k) <==> Begins(lang, s, k) && forall e :: !Piece(lang, s, k, e)
  {
    hide MatchAt, Piece, Begins, Spans, Masked;
    var spans := Spans(lang, s, 0);
    InsideIffMasked(lang, s, k);
    NoPieceIff(lang, s, k);
    StartBegins(lang, s);
    if !Inside(spans, k) {
      OutsideBegins(lang, s, 0, k);
      OutsideFails(lang, s, 0, k);
    } else if Begins(lang, s, k) {
      var x :| 0 <= x < |spans| && spans[x].0 <= k < spans[x].1;
      NoneStraddles(lang, s, k, x);
      SpansIff(lang, s, spans[x].0, spans[x].1);
    }
  }

  /** A match of the detection pattern survives the filter exactly when its first character is code, or blank. */
  lemma KeptIff(lang: Lang, s: string, m: Span)
    ensures Keeps(m, s, Strip(lang, s)) <==>
      m.0 >= |s| || s[m.0] == ' ' || s[m.0] == '\n' || (Begins(lang, s, m.0) && forall e :: !Piece(lang, s, m.0, e))
  {
    hide Piece, Begins, Masked, Strip;
    if m.0 < |s| {
      CodeIff(lang, s, m.0);
      StripMasksPieces(lang, s, m.0);
    }
  }

  lemma LinePiece(lang: Lang, s: string, i: nat, e: nat)
    requires (At(s, i, "//") || (lang.Php? && At(s, i, "#"))) && RestOfLine(s, i, e)
    ensures Piece(lang, s, i, e)
  {
  }

  /** So a comment that begins in code is blanked to the end of its line, whatever stands in it. */
  lemma LineCommentIsBlanked(lang: Lang, s: string, i: nat, k: nat)
    requires Begins(lang, s, i) && (At(s, i, "//") || (lang.Php? && At(s, i, "#")))
    requires i <= k && OneLine(s, i, k + 1)
    ensures Strip(lang, s)[k] == ' '
  {
    hide Begins, Piece, Strip;
    var e := LineEnd(s, i);
    LineIff(s, i, e);
    LinePiece(lang, s, i, e);
    StripMasksPieces(lang, s, k);
  }
}
