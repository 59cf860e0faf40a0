/** Host-agnostic identity of core/parity.py: how a title is normalised, what it keeps, and when two
    findings on different hosts share a key. */
module Parity {
  import opened Common

  const MAX_TITLE_NORMALISE: nat := 512
  const OPEN := "(\"'"
  const CLOSE := ",;.)\"'"
  const HOST := "<host>"

  /** The regular expressions' parts that follow Unicode tables or the IPv6 grammar, and the substitution of
      a given host name. */
  datatype Text = Text(
    digit: char -> bool, word: char -> bool, space: char -> bool, ipv6: string -> bool,
    substitute: (string, string) -> string)

  /** The shape facts used about them. */
  ghost predicate Lawful(text: Text) {
    && text.space(' ') && !text.digit('<') && !text.digit(':') && !text.digit(']')
    && (forall c :: text.digit(c) ==> !text.space(c) && c !in OPEN && c !in CLOSE)
    && (forall c :: c in HOST ==> !text.space(c)) && !text.space(':') && !text.space('[') && !text.space(']')
    && (forall c :: '0' <= c <= '9' ==> text.digit(c))
    && (forall s :: text.ipv6(s) ==> s != "" && AllHex(s))
  }

  /** The facts are consistent: ASCII digits, words and blanks satisfy them. */
  lemma LawsHaveAModel() returns (text: Text)
    ensures Lawful(text) && text.digit('7') && text.word('a') && text.ipv6("::")
  {
    text := Text(c => '0' <= c <= '9', c => Alnum(c) || c == '_', c => c in " \t\n\r", s => s == "::", (s, h) => s);
    assert "::"[0] == ':';
  }

  // ---- Tokens -----------------------------------------------------------------------------------

  function Lead(tok: string, chars: string): (r: string)
    ensures r <= tok
  {
    if tok == "" || tok[0] !in chars then "" else [tok[0]] + Lead(tok[1..], chars)
  }

  /** `tok.lstrip(chars)`. */
  function StripLeft(tok: string, chars: string): string {
    tok[|Lead(tok, chars)|..]
  }

  /** `tok.rstrip(chars)`. */
  function StripRight(tok: string, chars: string): (r: string)
    ensures r <= tok
  {
    if tok == "" || tok[|tok| - 1] !in chars then tok else StripRight(tok[..|tok| - 1], chars)
  }

  predicate Alnum(c: char) {
    'a' <= c <= 'z' || 'A' <= c <= 'Z' || '0' <= c <= '9'
  }

  predicate Hex(c: char) {
    'a' <= c <= 'f' || 'A' <= c <= 'F' || '0' <= c <= '9'
  }

  /** Hexadecimal digits and colons. */
  predicate AllHex(s: string) {
    forall i :: 0 <= i < |s| ==> Hex(s[i]) || s[i] == ':'
  }

  predicate Digits(text: Text, s: string, most: nat) {
    1 <= |s| <= most && forall i :: 0 <= i < |s| ==> text.digit(s[i])
  }

  function AfterLast(s: string, c: char): (r: string)
    ensures |r| <= |s|
  {
    if s == "" || s[|s| - 1] == c then "" else AfterLast(s[..|s| - 1], c) + [s[|s| - 1]]
  }

  /** Four runs of one to three digits, joined by dots. */
  predicate Ipv4From(text: Text, s: string, groups: nat) {
    var g := AfterLast(s, '.');
    Digits(text, g, 3) &&
    if groups <= 1 then g == s
    else |g| < |s| && Ipv4From(text, s[..|s| - |g| - 1], groups - 1)
  }

  predicate Ipv4(text: Text, s: string) {
    Ipv4From(text, s, 4)
  }

  predicate Bracketed(s: string) {
    |s| >= 3 && s[0] == '[' && s[|s| - 1] == ']' && forall i :: 0 < i < |s| - 1 ==> Hex(s[i]) || s[i] == ':'
  }

  predicate HostName(s: string) {
    s != "" && Alnum(s[0]) && forall i :: 0 <= i < |s| ==> Alnum(s[i]) || s[i] in "._-"
  }

  predicate HostShape(text: Text, s: string) {
    Bracketed(s) || Ipv4(text, s) || HostName(s)
  }

  /** `_HOSTPORT.fullmatch`: the port is what follows the last colon, since a digit is no colon. */
  predicate HostPort(text: Text, core: string) {
    var port := AfterLast(core, ':');
    Digits(text, port, 5) && |port| < |core| && HostShape(text, core[..|core| - |port| - 1])
  }

  /** `_NAME.match(core).end()`. */
  function NameEnd(text: Text, core: string): (n: nat)
    ensures n <= |core|
  {
    if core == "" || !Alnum(core[0]) then 0 else 1 + Run(text, core[1..])
  }

  predicate NameChar(text: Text, c: char) {
    text.word(c) || c == '.' || c == '-'
  }

  function Run(text: Text, s: string): (n: nat)
    ensures n <= |s|
  {
    if s == "" || !NameChar(text, s[0]) then 0 else 1 + Run(text, s[1..])
  }

  function NormCore(text: Text, core: string, afterAt: bool): string {
    if HostPort(text, core) then HOST + ":" + AfterLast(core, ':')
    else if Ipv4(text, core) || text.ipv6(core) then HOST
    else if afterAt && NameEnd(text, core) > 0 then HOST + core[NameEnd(text, core)..]
    else core
  }

  function NormToken(text: Text, tok: string, afterAt: bool): string {
    var lead, rest := Lead(tok, OPEN), StripLeft(tok, OPEN);
    var core := StripRight(rest, CLOSE);
    lead + NormCore(text, core, afterAt) + rest[|core|..]
  }

  // ---- Titles -----------------------------------------------------------------------------------

  function WordLength(text: Text, s: string): (n: nat)
    ensures n <= |s|
    ensures s != "" && !text.space(s[0]) ==> n > 0
    ensures forall i :: 0 <= i < n ==> !text.space(s[i])
    ensures n < |s| ==> text.space(s[n])
  {
    if s == "" || text.space(s[0]) then 0 else 1 + WordLength(text, s[1..])
  }

  /** `s.split()`. */
  function Split(text: Text, s: string): seq<string>
    decreases |s|
  {
    if s == "" then []
    else if text.space(s[0]) then Split(text, s[1..])
    else var n := WordLength(text, s); [s[..n]] + Split(text, s[n..])
  }

  /** `" ".join(toks)`. */
  function Join(toks: seq<string>): string {
    if toks == [] then "" else if |toks| == 1 then toks[0] else toks[0] + " " + Join(toks[1..])
  }

  predicate AfterAt(out: seq<string>) {
    out != [] && out[|out| - 1] == "at"
  }

  /** Each token is normalised in the light of the previous output. */
  function NormTokens(text: Text, toks: seq<string>): seq<string> {
    if toks == [] then [] else
      var out := NormTokens(text, toks[..|toks| - 1]);
      out + [NormToken(text, toks[|toks| - 1], AfterAt(out))]
  }

  function Take(s: string, n: nat): string {
    if |s| <= n then s else s[..n]
  }

  /** The tokens of a title, with a given host name replaced. */
  function Tokens(text: Text, title: string, host: string): seq<string> {
    var t := Take(title, MAX_TITLE_NORMALISE);
    Split(text, if host == "" then t else text.substitute(t, Take(host, 253)))
  }

  function NormTitle(text: Text, title: string, host: string): string {
    Join(NormTokens(text, Tokens(text, title, host)))
  }

  /** `_norm_title`. */
  method NormTitleLoop(text: Text, title: string, host: string) returns (r: string)
    ensures r == NormTitle(text, title, host)
  {
    var t := Take(title, MAX_TITLE_NORMALISE);
    if host != "" { t := text.substitute(t, Take(host, 253)); }
    assert Split(text, t) == Tokens(text, title, host);
    var out := NormTokensLoop(text, Split(text, t));
    r := Join(out);
  }

  method NormTokensLoop(text: Text, toks: seq<string>) returns (out: seq<string>)
    ensures out == NormTokens(text, toks)
  {
    out := [];
    for i := 0 to |toks|
      invariant out == NormTokens(text, toks[..i])
    {
      NormTokensNext(text, toks, i);
      out := out + [NormToken(text, toks[i], AfterAt(out))];
    }
    assert toks[..|toks|] == toks;
  }

  lemma NormTokensNext(text: Text, toks: seq<string>, i: nat)
    requires i < |toks|
    ensures var out := NormTokens(text, toks[..i]);
      NormTokens(text, toks[..i + 1]) == out + [NormToken(text, toks[i], AfterAt(out))]
  {
    assert toks[..i + 1][..i] == toks[..i];
  }

  // ---- Stripping --------------------------------------------------------------------------------

  predicate All(s: string, chars: string) {
    forall i :: 0 <= i < |s| ==> s[i] in chars
  }

  lemma {:induction false} LeadOf(lead: string, rest: string, chars: string)
    requires All(lead, chars) && (rest == "" || rest[0] !in chars)
    ensures Lead(lead + rest, chars) == lead
  {
    if lead == "" {
      assert lead + rest == rest;
    } else {
      LeadOf(lead[1..], rest, chars);
      assert (lead + rest)[1..] == lead[1..] + rest;
      assert lead == [lead[0]] + lead[1..];
    }
  }

  lemma {:induction false} StripRightOf(core: string, tail: string, chars: string)
    requires All(tail, chars) && (core == "" || core[|core| - 1] !in chars)
    ensures StripRight(core + tail, chars) == core
  {
    if tail == "" {
      assert core + tail == core;
    } else {
      StripRightOf(core, tail[..|tail| - 1], chars);
      assert (core + tail)[..|core + tail| - 1] == core + tail[..|tail| - 1];
    }
  }

  lemma {:induction false} LeadAll(tok: string, chars: string)
    ensures All(Lead(tok, chars), chars)
    ensures var rest := StripLeft(tok, chars); rest == "" || rest[0] !in chars
  {
    if tok != "" && tok[0] in chars {
      LeadAll(tok[1..], chars);
      assert StripLeft(tok, chars) == StripLeft(tok[1..], chars);
    }
  }

  lemma {:induction false} StripRightAll(tok: string, chars: string)
    ensures var core := StripRight(tok, chars);
      All(tok[|core|..], chars) && (core == "" || core[|core| - 1] !in chars)
  {
    if tok != "" && tok[|tok| - 1] in chars {
      StripRightAll(tok[..|tok| - 1], chars);
      var core := StripRight(tok, chars);
      forall i | |core| <= i < |tok| ensures tok[i] in chars {
        if i < |tok| - 1 { assert tok[i] == tok[..|tok| - 1][|core|..][i - |core|]; }
      }
    }
  }

  /** A token is its brackets around a core, and nothing else is. */
  ghost predicate Dressed(tok: string, lead: string, core: string, tail: string) {
    && tok == lead + core + tail && All(lead, OPEN) && All(tail, CLOSE)
    && (core == "" || core[|core| - 1] !in CLOSE)
    && (core + tail == "" || (core + tail)[0] !in OPEN)
  }

  lemma {:induction false} Undress(text: Text, tok: string, afterAt: bool, lead: string, core: string, tail: string)
    requires Dressed(tok, lead, core, tail)
    ensures NormToken(text, tok, afterAt) == lead + NormCore(text, core, afterAt) + tail
  {
    assert lead + core + tail == lead + (core + tail);
    LeadOf(lead, core + tail, OPEN);
    assert StripLeft(tok, OPEN) == core + tail;
    StripRightOf(core, tail, CLOSE);
    assert (core + tail)[|core|..] == tail;
  }

  lemma {:induction false} Dress(tok: string) returns (lead: string, core: string, tail: string)
    ensures Dressed(tok, lead, core, tail)
  {
    LeadAll(tok, OPEN);
    var rest := StripLeft(tok, OPEN);
    StripRightAll(rest, CLOSE);
    lead, core := Lead(tok, OPEN), StripRight(rest, CLOSE);
    tail := rest[|core|..];
    Reassemble(tok, lead, rest, core, tail);
  }

  lemma {:induction false} Reassemble(tok: string, lead: string, rest: string, core: string, tail: string)
    requires lead <= tok && rest == tok[|lead|..] && core <= rest && tail == rest[|core|..]
    ensures rest == core + tail && tok == lead + core + tail
  {
    assert tok == lead + rest;
    assert lead + (core + tail) == lead + core + tail;
  }

  // ---- A normalised core stays -------------------------------------------------------------------

  lemma {:induction false} Ipv4Starts(text: Text, s: string, groups: nat)
    requires Ipv4From(text, s, groups)
    ensures s != "" && text.digit(s[0])
  {
    var g := AfterLast(s, '.');
    if groups <= 1 {
      assert g[0] == s[0];
    } else {
      Ipv4Starts(text, s[..|s| - |g| - 1], groups - 1);
    }
  }

  lemma {:induction false} MarkIsNoHost(text: Text, s: string)
    requires Lawful(text) && s != "" && s[0] == '<'
    ensures !HostShape(text, s) && !Ipv4(text, s)
  {
    if Ipv4(text, s) { Ipv4Starts(text, s, 4); }
  }

  /** No pattern matches what starts with the mark. */
  lemma {:induction false} MarkedStays(text: Text, core: string, afterAt: bool)
    requires Lawful(text) && core != "" && core[0] == '<'
    ensures NormCore(text, core, afterAt) == core
  {
    MarkIsNoHost(text, core);
    var port := AfterLast(core, ':');
    if |port| < |core| {
      var host := core[..|core| - |port| - 1];
      if host != "" { MarkIsNoHost(text, host); } else { NoEmptyHost(text); }
    }
  }

  lemma {:induction false} NoEmptyHost(text: Text)
    ensures !HostShape(text, "")
  {
    assert AfterLast("", '.') == "";
  }

  /** A core is left alone, or replaced by one that starts with the mark and ends as a core ends. */
  lemma {:induction false} CoreOutcome(text: Text, core: string, afterAt: bool)
    requires Lawful(text) && (core == "" || core[|core| - 1] !in CLOSE)
    ensures var r := NormCore(text, core, afterAt);
      r == core || (r != "" && r[0] == '<' && r[|r| - 1] !in CLOSE)
  {
    var r := NormCore(text, core, afterAt);
    if HostPort(text, core) {
      var port := AfterLast(core, ':');
      assert r[|r| - 1] == port[|port| - 1];
    } else if Ipv4(text, core) || text.ipv6(core) {
      assert r[5] == '>';
    } else if afterAt && NameEnd(text, core) > 0 {
      var rest := core[NameEnd(text, core)..];
      if rest == "" { assert r[|r| - 1] == '>'; } else { assert r[|r| - 1] == core[|core| - 1]; }
    }
  }

  lemma {:induction false} TokenStays(text: Text, tok: string, afterAt: bool)
    requires Lawful(text)
    ensures NormToken(text, NormToken(text, tok, afterAt), afterAt) == NormToken(text, tok, afterAt)
  {
    var lead, core, tail := Dress(tok);
    Undress(text, tok, afterAt, lead, core, tail);
    CoreOutcome(text, core, afterAt);
    var r := NormCore(text, core, afterAt);
    if r != core {
      MarkedStays(text, r, afterAt);
      assert (r + tail)[0] == '<';
      assert Dressed(lead + r + tail, lead, r, tail);
      Undress(text, lead + r + tail, afterAt, lead, r, tail);
    }
  }

  lemma {:induction false} TokensStay(text: Text, toks: seq<string>)
    requires Lawful(text)
    ensures NormTokens(text, NormTokens(text, toks)) == NormTokens(text, toks)
  {
    if toks != [] {
      var front, last := toks[..|toks| - 1], toks[|toks| - 1];
      TokensStay(text, front);
      var out := NormTokens(text, front);
      var all := out + [NormToken(text, last, AfterAt(out))];
      assert all[..|all| - 1] == out;
      TokenStays(text, last, AfterAt(out));
    }
  }

  // ---- Splitting what was joined -----------------------------------------------------------------

  ghost predicate Word(text: Text, s: string) {
    s != "" && forall i :: 0 <= i < |s| ==> !text.space(s[i])
  }

  ghost predicate Words(text: Text, toks: seq<string>) {
    forall i :: 0 <= i < |toks| ==> Word(text, toks[i])
  }

  lemma {:induction false} WordLengthOf(text: Text, w: string, rest: string)
    requires forall i :: 0 <= i < |w| ==> !text.space(w[i])
    requires rest == "" || text.space(rest[0])
    ensures WordLength(text, w + rest) == |w|
  {
    if w == "" {
      assert w + rest == rest;
    } else {
      WordLengthOf(text, w[1..], rest);
      assert (w + rest)[1..] == w[1..] + rest;
    }
  }

  lemma {:induction false} SplitWord(text: Text, w: string, rest: string)
    requires Word(text, w) && (rest == "" || text.space(rest[0]))
    ensures Split(text, w + rest) == [w] + Split(text, rest)
  {
    WordLengthOf(text, w, rest);
    assert (w + rest)[..|w|] == w && (w + rest)[|w|..] == rest;
    assert (w + rest)[0] == w[0];
  }

  lemma {:induction false} SplitSpace(text: Text, s: string)
    requires text.space(' ')
    ensures Split(text, " " + s) == Split(text, s)
  {
    assert (" " + s)[0] == ' ' && (" " + s)[1..] == s;
  }

  lemma {:induction false} SplitPair(text: Text, w: string, s: string)
    requires text.space(' ') && Word(text, w)
    ensures Split(text, w + " " + s) == [w] + Split(text, s)
  {
    SplitSpace(text, s);
    SplitWord(text, w, " " + s);
    assert w + (" " + s) == w + " " + s;
  }

  lemma {:induction false} SplitJoin(text: Text, toks: seq<string>)
    requires text.space(' ') && Words(text, toks)
    ensures Split(text, Join(toks)) == toks
  {
    if |toks| == 1 {
      SplitWord(text, toks[0], "");
      assert toks[0] + "" == toks[0];
    } else if |toks| > 1 {
      SplitJoin(text, toks[1..]);
      SplitPair(text, toks[0], Join(toks[1..]));
      assert toks == [toks[0]] + toks[1..];
    }
  }

  lemma {:induction false} SplitGivesWords(text: Text, s: string)
    ensures Words(text, Split(text, s))
    decreases |s|
  {
    if s != "" {
      if text.space(s[0]) {
        SplitGivesWords(text, s[1..]);
      } else {
        var n := WordLength(text, s);
        SplitGivesWords(text, s[n..]);
      }
    }
  }

  lemma {:induction false} CoreIsWord(text: Text, core: string, afterAt: bool)
    requires Lawful(text) && forall i :: 0 <= i < |core| ==> !text.space(core[i])
    ensures var r := NormCore(text, core, afterAt);
      (forall i :: 0 <= i < |r| ==> !text.space(r[i])) && (core != "" ==> r != "")
  {
    var r := NormCore(text, core, afterAt);
    if HostPort(text, core) {
      var port := AfterLast(core, ':');
      forall i | 0 <= i < |r| ensures !text.space(r[i]) {
        if i < 6 { assert r[i] == HOST[i]; } else if i > 6 { assert r[i] == port[i - 7]; }
      }
    } else if Ipv4(text, core) || text.ipv6(core) {
      forall i | 0 <= i < |r| ensures !text.space(r[i]) { assert r[i] == HOST[i]; }
    } else if afterAt && NameEnd(text, core) > 0 {
      forall i | 0 <= i < |r| ensures !text.space(r[i]) {
        if i < 6 { assert r[i] == HOST[i]; } else { assert r[i] == core[i - 6 + NameEnd(text, core)]; }
      }
    }
  }

  lemma {:induction false} PartsOfWord(text: Text, a: string, b: string, c: string)
    ensures (forall i :: 0 <= i < |a + b + c| ==> !text.space((a + b + c)[i])) <==>
      && (forall i :: 0 <= i < |a| ==> !text.space(a[i]))
      && (forall i :: 0 <= i < |b| ==> !text.space(b[i]))
      && (forall i :: 0 <= i < |c| ==> !text.space(c[i]))
  {
    var s := a + b + c;
    assert forall i :: 0 <= i < |a| ==> s[i] == a[i];
    assert forall i :: 0 <= i < |b| ==> s[|a| + i] == b[i];
    assert forall i :: 0 <= i < |c| ==> s[|a| + |b| + i] == c[i];
  }

  lemma {:induction false} TokenIsWord(text: Text, tok: string, afterAt: bool)
    requires Lawful(text) && Word(text, tok)
    ensures Word(text, NormToken(text, tok, afterAt))
  {
    var lead, core, tail := Dress(tok);
    Undress(text, tok, afterAt, lead, core, tail);
    PartsOfWord(text, lead, core, tail);
    CoreIsWord(text, core, afterAt);
    PartsOfWord(text, lead, NormCore(text, core, afterAt), tail);
  }

  lemma {:induction false} TokensAreWords(text: Text, toks: seq<string>)
    requires Lawful(text) && Words(text, toks)
    ensures Words(text, NormTokens(text, toks))
  {
    if toks != [] {
      var front := toks[..|toks| - 1];
      TokensAreWords(text, front);
      TokenIsWord(text, toks[|toks| - 1], AfterAt(NormTokens(text, front)));
    }
  }

  /** Normalising again changes nothing, as long as the result is short enough to be read whole. */
  lemma TitleStays(text: Text, title: string)
    requires Lawful(text) && |NormTitle(text, title, "")| <= MAX_TITLE_NORMALISE
    ensures NormTitle(text, NormTitle(text, title, ""), "") == NormTitle(text, title, "")
  {
    var toks := Split(text, Take(title, MAX_TITLE_NORMALISE));
    SplitGivesWords(text, Take(title, MAX_TITLE_NORMALISE));
    TokensAreWords(text, toks);
    SplitJoin(text, NormTokens(text, toks));
    TokensStay(text, toks);
  }

  // ---- Moving to another host --------------------------------------------------------------------

  ghost predicate HostToken(text: Text, tok: string, lead: string, host: string, port: string, tail: string) {
    && tok == lead + (host + ":" + port) + tail && All(lead, OPEN) && All(tail, CLOSE)
    && HostShape(text, host) && Digits(text, port, 5)
  }

  lemma {:induction false} HostStarts(text: Text, host: string)
    requires Lawful(text) && HostShape(text, host)
    ensures host != "" && host[0] !in OPEN
  {
    if Ipv4(text, host) { Ipv4Starts(text, host, 4); }
  }

  lemma {:induction false} HostPortCore(text: Text, host: string, port: string, afterAt: bool)
    requires Lawful(text) && HostShape(text, host) && Digits(text, port, 5)
    ensures NormCore(text, host + ":" + port, afterAt) == HOST + ":" + port
  {
    var core := host + ":" + port;
    assert ':' !in port;
    AfterLastTail(host, port, ':');
    assert core[..|core| - |port| - 1] == host;
  }

  lemma {:induction false} HostTokenNorm(
      text: Text, tok: string, afterAt: bool, lead: string, host: string, port: string, tail: string)
    requires Lawful(text) && HostToken(text, tok, lead, host, port, tail)
    ensures NormToken(text, tok, afterAt) == lead + (HOST + ":" + port) + tail
  {
    var core := host + ":" + port;
    HostStarts(text, host);
    assert core[|core| - 1] == port[|port| - 1] && (core + tail)[0] == host[0];
    Undress(text, tok, afterAt, lead, core, tail);
    HostPortCore(text, host, port, afterAt);
  }

  // An address literal on its own.

  predicate Literal(text: Text, s: string) {
    (Ipv4(text, s) || text.ipv6(s)) && !HostPort(text, s)
  }

  ghost predicate LiteralToken(text: Text, tok: string, lead: string, address: string, tail: string) {
    tok == lead + address + tail && All(lead, OPEN) && All(tail, CLOSE) && Literal(text, address)
  }

  lemma {:induction false} AfterLastEnds(s: string, c: char)
    ensures AfterLast(s, c) != "" ==> s != "" && AfterLast(s, c)[|AfterLast(s, c)| - 1] == s[|s| - 1]
  {
  }

  lemma {:induction false} LiteralEnds(text: Text, s: string)
    requires Lawful(text) && Literal(text, s)
    ensures s != "" && s[0] !in OPEN && s[|s| - 1] !in CLOSE
  {
    if Ipv4(text, s) {
      Ipv4Starts(text, s, 4);
      AfterLastEnds(s, '.');
    }
  }

  lemma {:induction false} LiteralNorm(text: Text, tok: string, afterAt: bool, lead: string, address: string,
                                       tail: string)
    requires Lawful(text) && LiteralToken(text, tok, lead, address, tail)
    ensures NormToken(text, tok, afterAt) == lead + HOST + tail
  {
    LiteralEnds(text, address);
    assert (address + tail)[0] == address[0];
    Undress(text, tok, afterAt, lead, address, tail);
  }

  // A host name after "at".

  ghost predicate NameToken(text: Text, tok: string, lead: string, name: string, rest: string, tail: string) {
    && tok == lead + (name + rest) + tail && All(lead, OPEN) && All(tail, CLOSE)
    && name != "" && Alnum(name[0]) && (forall i :: 1 <= i < |name| ==> NameChar(text, name[i]))
    && (rest == "" || !NameChar(text, rest[0]))
    && (name + rest)[|name + rest| - 1] !in CLOSE
    && !HostPort(text, name + rest) && !Ipv4(text, name + rest) && !text.ipv6(name + rest)
  }

  lemma {:induction false} RunOf(text: Text, name: string, rest: string)
    requires forall i :: 0 <= i < |name| ==> NameChar(text, name[i])
    requires rest == "" || !NameChar(text, rest[0])
    ensures Run(text, name + rest) == |name|
  {
    if name == "" {
      assert name + rest == rest;
    } else {
      RunOf(text, name[1..], rest);
      assert (name + rest)[1..] == name[1..] + rest;
    }
  }

  lemma {:induction false} NameThenRest(name: string, rest: string)
    requires name != ""
    ensures (name + rest)[0] == name[0] && (name + rest)[1..] == name[1..] + rest && (name + rest)[|name|..] == rest
  {
  }

  lemma {:induction false} NameCore(text: Text, name: string, rest: string)
    requires name != "" && Alnum(name[0]) && (forall i :: 1 <= i < |name| ==> NameChar(text, name[i]))
    requires rest == "" || !NameChar(text, rest[0])
    requires !HostPort(text, name + rest) && !Ipv4(text, name + rest) && !text.ipv6(name + rest)
    ensures NormCore(text, name + rest, true) == HOST + rest
  {
    hide HostPort, Ipv4;
    RunOf(text, name[1..], rest);
    NameThenRest(name, rest);
  }

  lemma {:induction false} NameNorm(text: Text, tok: string, lead: string, name: string, rest: string, tail: string)
    requires Lawful(text) && NameToken(text, tok, lead, name, rest, tail)
    ensures NormToken(text, tok, true) == lead + (HOST + rest) + tail
  {
    hide NormToken, NormCore, HostPort, Ipv4;
    assert (name + rest + tail)[0] == name[0];
    Undress(text, tok, true, lead, name + rest, tail);
    NameCore(text, name, rest);
  }

  /** The token is brackets around a host with `suffix` behind it: a host and port, an address, after "at" a name, or
      the mark itself. */
  ghost predicate HostAt(text: Text, tok: string, afterAt: bool, lead: string, suffix: string, tail: string) {
    || (exists host, port :: suffix == ":" + port && HostToken(text, tok, lead, host, port, tail))
    || (suffix == "" && exists address :: LiteralToken(text, tok, lead, address, tail))
    || (afterAt && exists name :: NameToken(text, tok, lead, name, suffix, tail))
    || Dressed(tok, lead, HOST + suffix, tail)
  }

  /** The same brackets around hosts, with the same text behind them. */
  ghost predicate Moved(text: Text, tok: string, other: string, afterAt: bool) {
    exists lead, suffix, tail :: HostAt(text, tok, afterAt, lead, suffix, tail)
                              && HostAt(text, other, afterAt, lead, suffix, tail)
  }

  /** Token i follows an "at" that is not itself a name after "at". */
  predicate AtBefore(toks: seq<string>, i: nat)
    requires i <= |toks|
  {
    i > 0 && toks[i - 1] == "at" && !AtBefore(toks, i - 1)
  }

  ghost predicate SameButHosts(text: Text, toks: seq<string>, others: seq<string>) {
    |toks| == |others| && forall i :: 0 <= i < |toks| ==>
      toks[i] == others[i] || Moved(text, toks[i], others[i], AtBefore(toks, i))
  }

  lemma {:induction false} HostAtNorm(text: Text, tok: string, afterAt: bool, lead: string, suffix: string,
                                      tail: string)
    requires Lawful(text) && HostAt(text, tok, afterAt, lead, suffix, tail)
    ensures NormToken(text, tok, afterAt) == lead + (HOST + suffix) + tail
  {
    hide NormToken, HostToken, LiteralToken, NameToken, Lawful;
    if host, port :| suffix == ":" + port && HostToken(text, tok, lead, host, port, tail) {
      HostTokenNorm(text, tok, afterAt, lead, host, port, tail);
      assert HOST + ":" + port == HOST + (":" + port);
    } else if address :| suffix == "" && LiteralToken(text, tok, lead, address, tail) {
      LiteralNorm(text, tok, afterAt, lead, address, tail);
      assert HOST + suffix == HOST;
    } else if name :| afterAt && NameToken(text, tok, lead, name, suffix, tail) {
      NameNorm(text, tok, lead, name, suffix, tail);
    } else {
      Undress(text, tok, afterAt, lead, HOST + suffix, tail);
      MarkedStays(text, HOST + suffix, afterAt);
    }
  }

  /** Only hosts are replaced: a token that changes is brackets around a host, and stays so. */
  lemma {:induction false} NormIsHostAt(text: Text, tok: string, afterAt: bool)
      returns (lead: string, suffix: string, tail: string)
    requires Lawful(text) && NormToken(text, tok, afterAt) != tok
    ensures HostAt(text, tok, afterAt, lead, suffix, tail)
    ensures NormToken(text, tok, afterAt) == lead + (HOST + suffix) + tail
    ensures Dressed(NormToken(text, tok, afterAt), lead, HOST + suffix, tail)
  {
    hide NormToken, HostToken, LiteralToken, NameToken, HostPort, Ipv4, NameEnd;
    var core;
    lead, core, tail := Dress(tok);
    Undress(text, tok, afterAt, lead, core, tail);
    CoreOutcome(text, core, afterAt);
    suffix := NormCore(text, core, afterAt)[6..];
    CoreParts(text, tok, afterAt, lead, core, tail);
    assert (HOST + suffix + tail)[0] == '<';
  }

  lemma HostPortParts(text: Text, tok: string, afterAt: bool, lead: string, core: string, tail: string)
    requires Dressed(tok, lead, core, tail) && HostPort(text, core)
    ensures HostAt(text, tok, afterAt, lead, ":" + AfterLast(core, ':'), tail)
  {
    hide HostShape;
    var port := AfterLast(core, ':');
    var host := core[..|core| - |port| - 1];
    SplitsAtLast(core, ':');
    assert HostToken(text, tok, lead, host, port, tail);
  }

  lemma NamePartsAt(text: Text, tok: string, lead: string, core: string, tail: string)
    requires Dressed(tok, lead, core, tail) && NameEnd(text, core) > 0
    requires !HostPort(text, core) && !Ipv4(text, core) && !text.ipv6(core)
    ensures HostAt(text, tok, true, lead, core[NameEnd(text, core)..], tail)
  {
    hide HostPort, Ipv4, NameEnd;
    var n := NameEnd(text, core);
    NameParts(text, core);
    assert core == core[..n] + core[n..];
    assert NameToken(text, tok, lead, core[..n], core[n..], tail);
  }

  lemma CoreParts(text: Text, tok: string, afterAt: bool, lead: string, core: string, tail: string)
    requires Lawful(text) && Dressed(tok, lead, core, tail) && NormCore(text, core, afterAt) != core
    ensures var r := NormCore(text, core, afterAt);
      |r| >= 6 && r == HOST + r[6..] && HostAt(text, tok, afterAt, lead, r[6..], tail)
  {
    hide HostPort, Ipv4, NameEnd, HostAt;
    var r := NormCore(text, core, afterAt);
    if HostPort(text, core) {
      HostPortParts(text, tok, afterAt, lead, core, tail);
      assert r[6..] == ":" + AfterLast(core, ':');
    } else if Ipv4(text, core) || text.ipv6(core) {
      assert r[6..] == "";
      AddressAt(text, tok, afterAt, lead, core, tail);
    } else {
      NamePartsAt(text, tok, lead, core, tail);
      assert r[6..] == core[NameEnd(text, core)..];
    }
  }

  lemma AddressAt(text: Text, tok: string, afterAt: bool, lead: string, core: string, tail: string)
    requires Dressed(tok, lead, core, tail) && Literal(text, core)
    ensures HostAt(text, tok, afterAt, lead, "", tail)
  {
    hide HostPort, Ipv4;
    assert LiteralToken(text, tok, lead, core, tail);
  }

  lemma {:induction false} SplitsAtLast(s: string, c: char)
    requires |AfterLast(s, c)| < |s|
    ensures var last := AfterLast(s, c); s == s[..|s| - |last| - 1] + [c] + last
  {
    if s[|s| - 1] != c {
      SplitsAtLast(s[..|s| - 1], c);
    }
  }

  lemma {:induction false} NameParts(text: Text, core: string)
    requires NameEnd(text, core) > 0
    ensures var n := NameEnd(text, core);
      && Alnum(core[0]) && (forall i :: 1 <= i < n ==> NameChar(text, core[i]))
      && (n < |core| ==> !NameChar(text, core[n]))
  {
    RunParts(text, core[1..]);
  }

  lemma {:induction false} RunParts(text: Text, s: string)
    ensures var n := Run(text, s);
      && (forall i :: 0 <= i < n ==> NameChar(text, s[i])) && (n < |s| ==> !NameChar(text, s[n]))
  {
    if s != "" && NameChar(text, s[0]) { RunParts(text, s[1..]); }
  }

  lemma {:induction false} DressedOnce(tok: string, lead: string, core: string, tail: string,
                                       lead': string, core': string, tail': string)
    requires Dressed(tok, lead, core, tail) && Dressed(tok, lead', core', tail')
    ensures lead == lead' && core == core' && tail == tail'
  {
    assert lead + core + tail == lead + (core + tail) && lead' + core' + tail' == lead' + (core' + tail');
    LeadOf(lead, core + tail, OPEN);
    LeadOf(lead', core' + tail', OPEN);
    Suffixes(lead, core + tail, core' + tail');
    StripRightOf(core, tail, CLOSE);
    StripRightOf(core', tail', CLOSE);
    Suffixes(core, tail, tail');
  }

  /** Two tokens are identified exactly when they are equal or differ in hosts only. */
  lemma {:induction false} TokensAlikeIff(text: Text, tok: string, other: string, afterAt: bool)
    requires Lawful(text)
    ensures NormToken(text, tok, afterAt) == NormToken(text, other, afterAt) <==>
      tok == other || Moved(text, tok, other, afterAt)
  {
    hide NormToken, HostAt, Lawful, Dressed;
    var r := NormToken(text, tok, afterAt);
    if lead, suffix, tail :| HostAt(text, tok, afterAt, lead, suffix, tail)
                             && HostAt(text, other, afterAt, lead, suffix, tail) {
      HostAtNorm(text, tok, afterAt, lead, suffix, tail);
      HostAtNorm(text, other, afterAt, lead, suffix, tail);
    }
    if r == NormToken(text, other, afterAt) && tok != other {
      if r == tok {
        var l, s, t := NormIsHostAt(text, other, afterAt);
        MarkIsHostAt(text, tok, afterAt, l, s, t);
      } else if r == other {
        var l, s, t := NormIsHostAt(text, tok, afterAt);
        MarkIsHostAt(text, other, afterAt, l, s, t);
      } else {
        var l, s, t := NormIsHostAt(text, tok, afterAt);
        var l', s', t' := NormIsHostAt(text, other, afterAt);
        DressedOnce(r, l, HOST + s, t, l', HOST + s', t');
        Suffixes(HOST, s, s');
      }
    }
  }

  lemma MarkIsHostAt(text: Text, tok: string, afterAt: bool, lead: string, suffix: string, tail: string)
    requires Dressed(tok, lead, HOST + suffix, tail)
    ensures HostAt(text, tok, afterAt, lead, suffix, tail)
  {
  }

  /** A token that is no host in brackets is an ordinary word, and is left as it is. */
  lemma OrdinaryStays(text: Text, tok: string, afterAt: bool)
    requires Lawful(text) && forall lead, suffix, tail :: !HostAt(text, tok, afterAt, lead, suffix, tail)
    ensures NormToken(text, tok, afterAt) == tok
  {
    hide NormToken, HostAt, Lawful;
    if NormToken(text, tok, afterAt) != tok {
      var l, s, t := NormIsHostAt(text, tok, afterAt);
    }
  }

  /** ... among them, where no "at" stands before it, every core that is neither host:port nor an address. */
  lemma WithoutAtWordsStay(text: Text, tok: string, lead: string, core: string, tail: string)
    requires Lawful(text) && Dressed(tok, lead, core, tail)
    requires !exists host, port ::
      core == host + ":" + port && HostShape(text, host) && 1 <= |port| <= 5 && AllDigits(text, port)
    requires !Ipv4(text, core) && !text.ipv6(core)
    ensures NormToken(text, tok, false) == tok
  {
    hide HostShape, Ipv4, NormToken, HostPort, AllDigits;
    Undress(text, tok, false, lead, core, tail);
    HostPortIff(text, core);
  }

  ghost predicate AllDigits(text: Text, s: string) {
    forall i :: 0 <= i < |s| ==> text.digit(s[i])
  }

  /** `_HOSTPORT`, as a concatenation. */
  lemma HostPortIff(text: Text, core: string)
    requires !text.digit(':')
    ensures HostPort(text, core) <==>
      exists host, port ::
        core == host + ":" + port && HostShape(text, host) && 1 <= |port| <= 5 && AllDigits(text, port)
  {
    hide HostShape;
    if HostPort(text, core) {
      SplitsAtLast(core, ':');
      assert AllDigits(text, AfterLast(core, ':'));
    }
    forall host, port |
        core == host + ":" + port && HostShape(text, host) && 1 <= |port| <= 5 && AllDigits(text, port)
      ensures HostPort(text, core)
    {
      assert ':' !in port;
      AfterLastTail(host, port, ':');
      assert core[..|core| - |port| - 1] == host;
    }
  }

  /** In ASCII codes; a name goes on with word characters, full stops and hyphens. */
  lemma CharactersIff(text: Text, c: char)
    ensures NameChar(text, c) <==> text.word(c) || c as int == 46 || c as int == 45
    ensures Alnum(c) <==> 48 <= c as int <= 57 || 65 <= c as int <= 90 || 97 <= c as int <= 122
    ensures Hex(c) <==> 48 <= c as int <= 57 || 65 <= c as int <= 70 || 97 <= c as int <= 102
  {
  }

  lemma BracketedIff(s: string)
    ensures Bracketed(s) <==> exists h :: s == "[" + h + "]" && h != "" && AllHex(h)
  {
    hide Hex;
    if Bracketed(s) {
      var h := s[1..|s| - 1];
      assert s == "[" + h + "]";
    }
    forall h | s == "[" + h + "]" && h != "" && AllHex(h) ensures Bracketed(s) {
      assert forall i :: 0 < i < |s| - 1 ==> s[i] == h[i - 1];
    }
  }

  ghost predicate NameTail(rest: string) {
    forall i :: 0 <= i < |rest| ==> Alnum(rest[i]) || rest[i] == '.' || rest[i] == '_' || rest[i] == '-'
  }

  lemma HostNameIff(s: string)
    ensures HostName(s) <==> exists c, rest :: s == [c] + rest && Alnum(c) && NameTail(rest)
  {
    hide Alnum;
    if HostName(s) { assert s == [s[0]] + s[1..] && NameTail(s[1..]); }
    forall c, rest | s == [c] + rest && Alnum(c) && NameTail(rest) ensures HostName(s) {
      assert forall i :: 0 < i < |s| ==> s[i] == rest[i - 1];
    }
  }

  /** The three ways to name a host: hexadecimal digits and colons in square brackets, an IPv4 address, a letter or a
      digit and then letters, digits, dots, underscores and hyphens. */
  lemma HostShapeIff(text: Text, s: string)
    ensures HostShape(text, s) <==>
      || (exists h :: s == "[" + h + "]" && h != "" && AllHex(h))
      || Ipv4(text, s)
      || (exists c, rest :: s == [c] + rest && Alnum(c) && NameTail(rest))
  {
    hide Ipv4, Alnum, Bracketed, HostName, NameTail, AllHex;
    BracketedIff(s);
    HostNameIff(s);
  }

  /** Only the first 512 characters of a title are looked at, and 253 of a host. */
  lemma TitleIsCut(text: Text, title: string, host: string)
    ensures var t := if |title| <= 512 then title else title[..512];
      Tokens(text, title, host) == if host == "" then Split(text, t)
                                   else Split(text, text.substitute(t, if |host| <= 253 then host else host[..253]))
  {
  }

  /** `_IPV4`, as a concatenation. */
  lemma Ipv4Iff(text: Text, s: string)
    requires !text.digit('.')
    ensures Ipv4(text, s) <==>
      exists a, b, c, d :: s == a + "." + b + "." + c + "." + d && Octet(text, a) && Octet(text, b) && Octet(text, c)
                           && Octet(text, d)
  {
    if Ipv4(text, s) {
      var a, b, c, d := Ipv4Groups(text, s);
      assert Octet(text, a) && Octet(text, b) && Octet(text, c) && Octet(text, d);
    }
    forall a, b, c, d | s == a + "." + b + "." + c + "." + d && Octet(text, a) && Octet(text, b) && Octet(text, c)
                        && Octet(text, d)
      ensures Ipv4(text, s)
    {
      Ipv4Joined(text, a, b, c, d);
    }
  }

  ghost predicate Octet(text: Text, s: string) {
    1 <= |s| <= 3 && AllDigits(text, s)
  }

  lemma Ipv4Groups(text: Text, s: string) returns (a: string, b: string, c: string, d: string)
    requires Ipv4(text, s)
    ensures s == a + "." + b + "." + c + "." + d
    ensures Digits(text, a, 3) && Digits(text, b, 3) && Digits(text, c, 3) && Digits(text, d, 3)
  {
    d := AfterLast(s, '.');
    SplitsAtLast(s, '.');
    var s3 := s[..|s| - |d| - 1];
    assert Ipv4From(text, s3, 3);
    c := AfterLast(s3, '.');
    SplitsAtLast(s3, '.');
    var s2 := s3[..|s3| - |c| - 1];
    assert Ipv4From(text, s2, 2);
    b := AfterLast(s2, '.');
    SplitsAtLast(s2, '.');
    a := s2[..|s2| - |b| - 1];
    assert Ipv4From(text, a, 1);
  }

  lemma Ipv4Last(text: Text, s: string, g: string, groups: nat)
    requires !text.digit('.') && Digits(text, g, 3) && groups > 0 && Ipv4From(text, s, groups)
    ensures Ipv4From(text, s + "." + g, groups + 1)
  {
    AfterLastTail(s, g, '.');
    assert (s + "." + g)[..|s + "." + g| - |g| - 1] == s;
  }

  lemma {:induction false} AfterLastNone(s: string, c: char)
    requires c !in s
    ensures AfterLast(s, c) == s
  {
    if s != "" { AfterLastNone(s[..|s| - 1], c); }
  }

  lemma Ipv4Joined(text: Text, a: string, b: string, c: string, d: string)
    requires !text.digit('.')
    requires Digits(text, a, 3) && Digits(text, b, 3) && Digits(text, c, 3) && Digits(text, d, 3)
    ensures Ipv4(text, a + "." + b + "." + c + "." + d)
  {
    hide Ipv4From, Digits;
    assert '.' !in a by { DigitsHaveNo(text, a, 3, '.'); }
    AfterLastNone(a, '.');
    assert Ipv4From(text, a, 1) by { OneGroup(text, a); }
    Ipv4Last(text, a, b, 1);
    Ipv4Last(text, a + "." + b, c, 2);
    Ipv4Last(text, a + "." + b + "." + c, d, 3);
  }

  lemma DigitsHaveNo(text: Text, s: string, most: nat, c: char)
    requires !text.digit(c) && Digits(text, s, most)
    ensures c !in s
  {
  }

  lemma OneGroup(text: Text, a: string)
    requires Digits(text, a, 3) && AfterLast(a, '.') == a
    ensures Ipv4From(text, a, 1)
  {
  }

  /** Only an "at" that is left alone comes out as "at". */
  lemma {:induction false} AtStays(text: Text, tok: string, afterAt: bool)
    requires Lawful(text)
    ensures NormToken(text, tok, afterAt) == "at" <==> tok == "at" && !afterAt
  {
    hide NormToken, HostAt, Lawful;
    if NormToken(text, tok, afterAt) != tok {
      var l, s, t := NormIsHostAt(text, tok, afterAt);
      assert |l + (HOST + s) + t| >= 6;
    }
    if tok == "at" { AtNorm(text, afterAt); }
  }

  lemma AtNorm(text: Text, afterAt: bool)
    requires Lawful(text)
    ensures (NormToken(text, "at", afterAt) == "at") == !afterAt
  {
    assert Dressed("at", "", "at", "");
    Undress(text, "at", afterAt, "", "at", "");
    assert "at"[1] == 't' && "at"[..1] == "a";
    assert AfterLast("at", ':') == "at" && AfterLast("at", '.') == "at";
  }

  lemma {:induction false} AfterAtIff(text: Text, toks: seq<string>, i: nat)
    requires Lawful(text) && i <= |toks|
    ensures AfterAt(NormTokens(text, toks[..i])) <==> AtBefore(toks, i)
  {
    hide NormToken, Lawful;
    if i > 0 {
      AfterAtIff(text, toks, i - 1);
      NormTokensNext(text, toks, i - 1);
      AtStays(text, toks[i - 1], AtBefore(toks, i - 1));
    }
  }

  lemma {:induction false} NormTokensLength(text: Text, toks: seq<string>)
    ensures |NormTokens(text, toks)| == |toks|
  {
    if toks != [] { NormTokensLength(text, toks[..|toks| - 1]); }
  }

  lemma {:induction false} SameAtBefore(toks: seq<string>, others: seq<string>, i: nat)
    requires i <= |toks| && i <= |others| && toks[..i] == others[..i]
    ensures AtBefore(toks, i) == AtBefore(others, i)
  {
    if i > 0 {
      assert toks[i - 1] == toks[..i][i - 1] && others[i - 1] == others[..i][i - 1];
      assert toks[..i - 1] == toks[..i][..i - 1] && others[..i - 1] == others[..i][..i - 1];
      SameAtBefore(toks, others, i - 1);
    }
  }

  lemma SameButHostsSnoc(text: Text, toks: seq<string>, others: seq<string>)
    requires |toks| == |others| && toks != []
    ensures var n := |toks| - 1;
      SameButHosts(text, toks, others) <==>
      && SameButHosts(text, toks[..n], others[..n])
      && (toks[n] == others[n] || Moved(text, toks[n], others[n], AtBefore(toks, n)))
  {
    hide Moved, AtBefore;
    var n := |toks| - 1;
    forall i | 0 <= i <= n ensures i < n ==> AtBefore(toks[..n], i) == AtBefore(toks, i) {
      if i < n { SameAtBefore(toks[..n], toks, i); }
    }
  }

  /** Token lists are identified exactly when they agree up to hosts. */
  lemma {:induction false} AlikeIff(text: Text, toks: seq<string>, others: seq<string>)
    requires Lawful(text)
    ensures NormTokens(text, toks) == NormTokens(text, others) <==> SameButHosts(text, toks, others)
    decreases |toks|
  {
    hide Moved, NormToken, Lawful, SameButHosts, AtBefore;
    NormTokensLength(text, toks);
    NormTokensLength(text, others);
    if |toks| != |others| {
      OtherLengths(text, toks, others);
    } else if toks == [] {
      NoTokens(text, toks, others);
    } else {
      var n := |toks| - 1;
      var out, out' := NormTokens(text, toks[..n]), NormTokens(text, others[..n]);
      Appended(out, NormToken(text, toks[n], AfterAt(out)), out', NormToken(text, others[n], AfterAt(out')));
      AlikeIff(text, toks[..n], others[..n]);
      SameButHostsSnoc(text, toks, others);
      AfterAtIff(text, toks, n);
      TokensAlikeIff(text, toks[n], others[n], AtBefore(toks, n));
    }
  }

  lemma Appended(a: seq<string>, x: string, b: seq<string>, y: string)
    ensures a + [x] == b + [y] <==> a == b && x == y
  {
    if a + [x] == b + [y] {
      assert (a + [x])[..|a|] == a && (b + [y])[..|b|] == b;
      assert (a + [x])[|a|] == x && (b + [y])[|b|] == y;
    }
  }

  lemma OtherLengths(text: Text, toks: seq<string>, others: seq<string>)
    requires |toks| != |others|
    ensures !SameButHosts(text, toks, others)
  {
  }

  lemma NoTokens(text: Text, toks: seq<string>, others: seq<string>)
    requires toks == [] && others == []
    ensures SameButHosts(text, toks, others)
  {
  }

  lemma NormIsWords(text: Text, title: string, host: string)
    requires Lawful(text)
    ensures Words(text, NormTokens(text, Tokens(text, title, host)))
    ensures Split(text, NormTitle(text, title, host)) == NormTokens(text, Tokens(text, title, host))
  {
    hide Split, Lawful, Word, NormTokens;
    assert text.space(' ') by { BlankIsSpace(text); }
    var t := Take(title, MAX_TITLE_NORMALISE);
    SplitGivesWords(text, if host == "" then t else text.substitute(t, Take(host, 253)));
    TokensAreWords(text, Tokens(text, title, host));
    SplitJoin(text, NormTokens(text, Tokens(text, title, host)));
  }

  lemma BlankIsSpace(text: Text)
    requires Lawful(text)
    ensures text.space(' ')
  {
  }

  /** Titles, each stripped of its own host name, normalise identically exactly when they differ only in hosts:
      host:port tokens with equal ports, addresses, names after "at", or the mark that stands for one. */
  lemma MovedTitle(text: Text, title: string, host: string, other: string, there: string)
    requires Lawful(text)
    ensures NormTitle(text, title, host) == NormTitle(text, other, there) <==>
      SameButHosts(text, Tokens(text, title, host), Tokens(text, other, there))
  {
    hide SameButHosts, Tokens, Split, Lawful, Word;
    AlikeIff(text, Tokens(text, title, host), Tokens(text, other, there));
    NormIsWords(text, title, host);
    NormIsWords(text, other, there);
  }

  /** The port survives: host:port tokens in the same brackets are identified exactly when the ports agree. */
  lemma {:induction false} PortDecides(text: Text, tok: string, other: string, afterAt: bool,
      lead: string, tail: string, host: string, port: string, there: string, gate: string)
    requires Lawful(text)
    requires HostToken(text, tok, lead, host, port, tail) && HostToken(text, other, lead, there, gate, tail)
    ensures NormToken(text, tok, afterAt) == NormToken(text, other, afterAt) <==> port == gate
  {
    hide HostToken, Lawful, NormToken;
    HostTokenNorm(text, tok, afterAt, lead, host, port, tail);
    HostTokenNorm(text, other, afterAt, lead, there, gate, tail);
    Middles(lead, HOST + ":", port, gate, tail);
  }

  lemma {:induction false} Middles(lead: string, mark: string, a: string, b: string, tail: string)
    ensures lead + (mark + a) + tail == lead + (mark + b) + tail <==> a == b
  {
    if lead + (mark + a) + tail == lead + (mark + b) + tail {
      Prefixes(lead + (mark + a), lead + (mark + b), tail);
      Suffixes(lead, mark + a, mark + b);
      Suffixes(mark, a, b);
    }
  }

  lemma {:induction false} Prefixes(a: string, b: string, tail: string)
    ensures a + tail == b + tail <==> a == b
  {
    if a + tail == b + tail {
      assert (a + tail)[..|a|] == a && (b + tail)[..|b|] == b;
    }
  }

  lemma {:induction false} Suffixes(head: string, a: string, b: string)
    ensures head + a == head + b <==> a == b
  {
    if head + a == head + b {
      assert (head + a)[|head|..] == a && (head + b)[|head|..] == b;
    }
  }

  // ---- The key of a finding ------------------------------------------------------------------------

  datatype Row = Row(probeId: string, algorithm: string, title: string, evidence: map<string, string>)

  predicate PlainPort(port: string) {
    1 <= |port| <= 5 && forall i :: 0 <= i < |port| ==> '0' <= port[i] <= '9'
  }

  function PortOf(row: Row): string {
    AfterLast(Take(Get(row.evidence, "endpoint"), MAX_TITLE_NORMALISE), ':')
  }

  lemma PlainPortIff(port: string)
    ensures PlainPort(port) <==>
      (|port| == 1 || |port| == 2 || |port| == 3 || |port| == 4 || |port| == 5)
      && forall c :: c in port ==> 48 <= c as int <= 57
  {
    assert forall i :: 0 <= i < |port| ==> port[i] in port;
  }

  lemma {:induction false} AfterLastFree(s: string, c: char)
    ensures c !in AfterLast(s, c)
    ensures |AfterLast(s, c)| == |s| ==> AfterLast(s, c) == s
  {
    if s != "" && s[|s| - 1] != c { AfterLastFree(s[..|s| - 1], c); }
  }

  /** The port of an endpoint is what follows the last colon of its first 512 characters, or all of them. */
  lemma PortIff(row: Row, port: string)
    ensures var e := Get(row.evidence, "endpoint");
      var cut := if |e| <= 512 then e else e[..512];
      PortOf(row) == port <==> ':' !in port && (port == cut || exists head :: cut == head + ":" + port)
  {
    var e := Get(row.evidence, "endpoint");
    var cut := if |e| <= 512 then e else e[..512];
    AfterLastFree(cut, ':');
    if |AfterLast(cut, ':')| < |cut| { SplitsAtLast(cut, ':'); }
    if ':' !in port {
      if port == cut { AfterLastNone(cut, ':'); }
      if head :| cut == head + ":" + port { AfterLastTail(head, port, ':'); }
    }
  }

  lemma {:induction false} AfterLastTail(s: string, port: string, c: char)
    requires c !in port
    ensures AfterLast(s + [c] + port, c) == port
  {
    var whole := s + [c] + port;
    if port != "" {
      AfterLastTail(s, port[..|port| - 1], c);
      assert whole[..|whole| - 1] == s + [c] + port[..|port| - 1];
      assert port == port[..|port| - 1] + [port[|port| - 1]];
    }
  }

  /** `parity_key`. */
  function ParityKey(text: Text, row: Row): (key: seq<string>)
    ensures |key| == 3
  {
    var path := Get(row.evidence, "path");
    if path != "" then [row.probeId, row.algorithm, "path=" + Take(path, MAX_TITLE_NORMALISE)] else
      var norm := NormTitle(text, row.title, Get(row.evidence, "host"));
      var port := PortOf(row);
      [row.probeId, row.algorithm,
       if PlainPort(port) && !Contains(norm, ":" + port) then norm + " [:" + port + "]" else norm]
  }

  /** Without a path the key shows the normalised title, and behind it the endpoint's port exactly when that is a plain
      one the title lacks. */
  lemma KeyShowsPort(text: Text, row: Row)
    requires Get(row.evidence, "path") == ""
    ensures var norm := NormTitle(text, row.title, Get(row.evidence, "host"));
      var port := PortOf(row);
      && ParityKey(text, row)[0] == row.probeId && ParityKey(text, row)[1] == row.algorithm
      && (PlainPort(port) && !Contains(norm, ":" + port) ==> ParityKey(text, row)[2] == norm + " [:" + port + "]")
      && (!PlainPort(port) || Contains(norm, ":" + port) ==> ParityKey(text, row)[2] == norm)
  {
    hide NormTitle, PortOf, PlainPort, Contains;
  }

  /** The title as the key shows it is `shorter` with an endpoint's port behind it. */
  predicate Tagged(longer: string, shorter: string, port: string) {
    PlainPort(port) && !Contains(shorter, ":" + port) && longer == shorter + " [:" + port + "]"
  }

  lemma {:induction false} ContainsMiddle(a: string, part: string, b: string)
    ensures Contains(a + part + b, part)
  {
    if a == "" {
      assert a + part + b == part + b;
    } else {
      ContainsMiddle(a[1..], part, b);
      assert (a + part + b)[1..] == a[1..] + part + b;
    }
  }

  lemma TagContainsPort(longer: string, shorter: string, port: string)
    requires Tagged(longer, shorter, port)
    ensures Contains(longer, ":" + port)
  {
    ContainsMiddle(shorter + " [", ":" + port, "]");
    assert shorter + " [" + (":" + port) + "]" == longer;
  }

  lemma SameTag(a: string, b: string, port: string)
    ensures a + " [:" + port + "]" == b + " [:" + port + "]" <==> a == b
  {
    Prefixes(a, b, " [:" + port + "]");
    assert a + " [:" + port + "]" == a + (" [:" + port + "]") && b + " [:" + port + "]" == b + (" [:" + port + "]");
  }

  /** Exactly when two findings without a path, and with the same endpoint port, are one to the collector: probe and
      algorithm agree, and the titles agree up to hosts, or one of them spells the other's port out at its end. */
  lemma KeyIff(text: Text, row: Row, other: Row)
    requires Lawful(text) && PortOf(row) == PortOf(other)
    requires Get(row.evidence, "path") == "" && Get(other.evidence, "path") == ""
    ensures var n := NormTitle(text, row.title, Get(row.evidence, "host"));
      var m := NormTitle(text, other.title, Get(other.evidence, "host"));
      ParityKey(text, row) == ParityKey(text, other) <==>
      && row.probeId == other.probeId && row.algorithm == other.algorithm
      && (SameButHosts(text, Tokens(text, row.title, Get(row.evidence, "host")),
                       Tokens(text, other.title, Get(other.evidence, "host")))
          || Tagged(n, m, PortOf(row)) || Tagged(m, n, PortOf(row)))
  {
    hide Lawful, SameButHosts, Tokens, NormTitle, PortOf, Contains, PlainPort;
    var n := NormTitle(text, row.title, Get(row.evidence, "host"));
    var m := NormTitle(text, other.title, Get(other.evidence, "host"));
    MovedTitle(text, row.title, Get(row.evidence, "host"), other.title, Get(other.evidence, "host"));
    if Tagged(n, m, PortOf(row)) { TagContainsPort(n, m, PortOf(row)); }
    if Tagged(m, n, PortOf(row)) { TagContainsPort(m, n, PortOf(row)); }
    SameTag(n, m, PortOf(row));
    var a, b := ParityKey(text, row), ParityKey(text, other);
    KeysEqual(a, b);
  }

  /** Such titles: one says in words what the other's endpoint adds. */
  lemma SpeltOutPortSharesKey(text: Text, row: Row, other: Row)
    requires Lawful(text) && row.probeId == other.probeId && row.algorithm == other.algorithm
    requires row.evidence == other.evidence == map["endpoint" := "host:443"]
    requires row.title == "host [:443]" && other.title == "host"
    ensures ParityKey(text, row) == ParityKey(text, other)
    ensures !SameButHosts(text, Tokens(text, row.title, ""), Tokens(text, other.title, ""))
  {
    hide NormTitle, Lawful, Contains, SameButHosts, Tokens, AfterLast, PlainPort;
    NoOtherEvidence(row);
    NoOtherEvidence(other);
    assert PortOf(row) == "443" by { AfterLastTail("host", "443", ':'); assert "host" + ":" + "443" == "host:443"; }
    assert PlainPort("443") by { PlainPortIff("443"); }
    PlainTitles(text);
    NotContained("host", ":443", ':');
    assert "host [:443]" == "host" + " [:" + "443" + "]" && ":" + "443" == ":443";
    assert Tagged("host [:443]", "host", "443");
    KeyIff(text, row, other);
    TagAddsAToken(text, row.title, "", other.title, "", "443");
    OtherLengths(text, Tokens(text, row.title, ""), Tokens(text, other.title, ""));
  }

  lemma NoOtherEvidence(row: Row)
    requires row.evidence == map["endpoint" := "host:443"]
    ensures Get(row.evidence, "path") == "" && Get(row.evidence, "host") == ""
    ensures Get(row.evidence, "endpoint") == "host:443"
  {
    assert "path"[0] == 'p' && "host"[0] == 'h' && "endpoint"[0] == 'e';
  }

  /** No pattern applies to a core without a dot whose text after the last colon is all of it, or not all digits. */
  lemma NoPattern(text: Text, core: string, last: string)
    requires '.' !in core && AfterLast(core, ':') == last && (last == core || !Digits(text, last, 5))
    requires !text.ipv6(core)
    ensures NormCore(text, core, false) == core
  {
    AfterLastNone(core, '.');
  }

  lemma NotIpv6(text: Text, s: string, i: nat)
    requires Lawful(text) && i < |s| && !Hex(s[i]) && s[i] != ':'
    ensures !text.ipv6(s)
  {
  }

  lemma HostWord(text: Text)
    requires Lawful(text)
    ensures Word(text, "host") && NormToken(text, "host", false) == "host"
  {
    hide NormCore, NormToken, Ipv4From;
    assert HOST[1] == 'h' && HOST[2] == 'o' && HOST[3] == 's' && HOST[4] == 't';
    assert Dressed("host", "", "host", "");
    Undress(text, "host", false, "", "host", "");
    AfterLastNone("host", ':');
    NotIpv6(text, "host", 1);
    NoPattern(text, "host", "host");
  }

  lemma PortWord(text: Text)
    requires Lawful(text)
    ensures Word(text, "[:443]") && NormToken(text, "[:443]", false) == "[:443]"
  {
    hide NormCore, NormToken, Ipv4From;
    var core, last := "[:443]", "443]";
    assert Dressed(core, "", core, "");
    Undress(text, core, false, "", core, "");
    AfterLastTail("[", last, ':');
    assert "[" + [':'] + last == core && last[3] == ']' && core[0] == '[';
    assert text.digit('4') && text.digit('3');
    assert !Digits(text, last, 5);
    NotIpv6(text, core, 0);
    NoPattern(text, core, last);
  }

  lemma PlainTitles(text: Text)
    requires Lawful(text)
    ensures NormTitle(text, "host", "") == "host" && NormTitle(text, "host [:443]", "") == "host [:443]"
  {
    hide NormToken, Lawful, Split;
    BlankIsSpace(text);
    HostWord(text);
    PortWord(text);
    SplitJoin(text, ["host"]);
    SplitJoin(text, ["host", "[:443]"]);
    assert ["host", "[:443]"][1..] == ["[:443]"];
    assert Join(["host", "[:443]"]) == "host" + " " + "[:443]" == "host [:443]";
    var out := NormTokens(text, ["host"]);
    assert ["host"][..0] == [] && NormTokens(text, []) == [] && !AfterAt([]);
    assert out == [] + ["host"] == ["host"];
    assert ["host", "[:443]"][..1] == ["host"];
    assert "host"[0] == 'h' && !AfterAt(out);
    assert NormTokens(text, ["host", "[:443]"]) == out + ["[:443]"];
  }

  lemma KeysEqual(a: seq<string>, b: seq<string>)
    requires |a| == 3 && |b| == 3
    ensures a == b <==> a[0] == b[0] && a[1] == b[1] && a[2] == b[2]
  {
  }

  lemma {:induction false} JoinSnoc(toks: seq<string>, w: string)
    requires toks != []
    ensures Join(toks + [w]) == Join(toks) + " " + w
  {
    if |toks| == 1 {
      assert (toks + [w])[1..] == [w];
    } else {
      JoinSnoc(toks[1..], w);
      assert (toks + [w])[1..] == toks[1..] + [w];
      assert toks[0] + " " + (Join(toks[1..]) + " " + w) == (toks[0] + " " + Join(toks[1..])) + " " + w;
    }
  }

  lemma TagIsWord(text: Text, port: string)
    requires Lawful(text) && PlainPort(port)
    ensures Word(text, "[:" + port + "]")
  {
    var w := "[:" + port + "]";
    forall i | 0 <= i < |w| ensures !text.space(w[i]) {
      if 2 <= i < |w| - 1 { assert w[i] == port[i - 2] && text.digit(w[i]); }
    }
  }

  lemma SplitTagged(text: Text, toks: seq<string>, w: string)
    requires text.space(' ') && Words(text, toks) && Word(text, w)
    ensures Split(text, Join(toks) + " " + w) == toks + [w]
  {
    hide Split, Word;
    if toks == [] {
      SplitSpace(text, w);
      SplitJoin(text, [w]);
      assert Join(toks) + " " + w == " " + w;
    } else {
      JoinSnoc(toks, w);
      SplitJoin(text, toks + [w]);
    }
  }

  /** Spelling the port out takes one more token. */
  lemma TagAddsAToken(text: Text, title: string, host: string, other: string, there: string, port: string)
    requires Lawful(text) && Tagged(NormTitle(text, title, host), NormTitle(text, other, there), port)
    ensures |Tokens(text, title, host)| == |Tokens(text, other, there)| + 1
  {
    hide Lawful, Tokens, Split, Word, Contains, PlainPort, NormTokens;
    var toks := NormTokens(text, Tokens(text, other, there));
    var w := "[:" + port + "]";
    NormIsWords(text, title, host);
    NormIsWords(text, other, there);
    BlankIsSpace(text);
    TagIsWord(text, port);
    SplitTagged(text, toks, w);
    assert Join(toks) + " [:" + port + "]" == Join(toks) + " " + w;
    NormTokensLength(text, Tokens(text, title, host));
    NormTokensLength(text, Tokens(text, other, there));
  }

  /** An ordinary word decides: where two titles of equally many words have different ones, and one of the two is no
      host, the keys differ. */
  lemma WordDecides(text: Text, row: Row, other: Row, i: nat)
    requires Lawful(text) && PortOf(row) == PortOf(other)
    requires Get(row.evidence, "path") == "" && Get(other.evidence, "path") == ""
    requires var toks := Tokens(text, row.title, Get(row.evidence, "host"));
      var others := Tokens(text, other.title, Get(other.evidence, "host"));
      && |toks| == |others| && i < |toks| && toks[i] != others[i]
      && forall lead, suffix, tail :: !HostAt(text, toks[i], AtBefore(toks, i), lead, suffix, tail)
    ensures ParityKey(text, row) != ParityKey(text, other)
  {
    hide Lawful, Tokens, NormTitle, PortOf, Tagged, ParityKey, HostAt, AtBefore;
    KeyIff(text, row, other);
    var h, g, p := Get(row.evidence, "host"), Get(other.evidence, "host"), PortOf(row);
    if Tagged(NormTitle(text, row.title, h), NormTitle(text, other.title, g), p) {
      TagAddsAToken(text, row.title, h, other.title, g, p);
    } else if Tagged(NormTitle(text, other.title, g), NormTitle(text, row.title, h), p) {
      TagAddsAToken(text, other.title, g, row.title, h, p);
    }
  }

  /** One finding on two hosts: the key survives the move. */
  lemma KeySurvivesMove(text: Text, row: Row, other: Row)
    requires Lawful(text)
    requires row.probeId == other.probeId && row.algorithm == other.algorithm && PortOf(row) == PortOf(other)
    requires Get(row.evidence, "path") == "" && Get(other.evidence, "path") == ""
    requires SameButHosts(text, Tokens(text, row.title, Get(row.evidence, "host")),
                          Tokens(text, other.title, Get(other.evidence, "host")))
    ensures ParityKey(text, row) == ParityKey(text, other)
  {
    hide Lawful, SameButHosts, Tokens, NormTitle, PortOf, ParityKey, Tagged;
    KeyIff(text, row, other);
  }

  /** A path replaces the title: it and nothing else of the evidence decides. */
  lemma PathDecides(text: Text, row: Row, other: Row)
    requires Get(row.evidence, "path") != "" && Get(other.evidence, "path") != ""
    ensures ParityKey(text, row) == ParityKey(text, other) <==>
      && row.probeId == other.probeId && row.algorithm == other.algorithm
      && Take(Get(row.evidence, "path"), 512) == Take(Get(other.evidence, "path"), 512)
  {
    var p := Take(Get(row.evidence, "path"), MAX_TITLE_NORMALISE);
    var q := Take(Get(other.evidence, "path"), MAX_TITLE_NORMALISE);
    Suffixes("path=", p, q);
    var a, b := ParityKey(text, row), ParityKey(text, other);
    assert a[0] == row.probeId && a[1] == row.algorithm && a[2] == "path=" + p;
    assert b[0] == other.probeId && b[1] == other.algorithm && b[2] == "path=" + q;
  }

  /** An endpoint's port that the title lacks is part of the key: two such ports are told apart. */
  lemma EndpointPortDecides(text: Text, row: Row, other: Row)
    requires row.probeId == other.probeId && row.algorithm == other.algorithm && row.title == other.title
    requires Get(row.evidence, "path") == "" && Get(other.evidence, "path") == ""
    requires Get(row.evidence, "host") == Get(other.evidence, "host")
    requires PlainPort(PortOf(row)) && PlainPort(PortOf(other))
    requires var norm := NormTitle(text, row.title, Get(row.evidence, "host"));
      !Contains(norm, ":" + PortOf(row)) && !Contains(norm, ":" + PortOf(other))
    ensures ParityKey(text, row) == ParityKey(text, other) <==> PortOf(row) == PortOf(other)
  {
    hide NormTitle, Contains, PortOf, PlainPort;
    var norm := NormTitle(text, row.title, Get(row.evidence, "host"));
    var p, q := PortOf(row), PortOf(other);
    Suffixes(norm + " [:", p + "]", q + "]");
    if p + "]" == q + "]" { assert (p + "]")[..|p|] == p && (q + "]")[..|q|] == q; }
    assert norm + " [:" + p + "]" == norm + " [:" + (p + "]") && norm + " [:" + q + "]" == norm + " [:" + (q + "]");
    var a, b := ParityKey(text, row), ParityKey(text, other);
    assert a[2] == norm + " [:" + p + "]" && b[2] == norm + " [:" + q + "]";
  }
}
