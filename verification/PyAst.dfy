/**
  The import-resolving Python analyzer (core/pyast.py).  A dotted symbol is the sequence of its
  components; the formatted algorithm labels are kept as structured values.
  */
module PyAst {
  import opened Common

  type Dotted = seq<string>

  datatype Value = Str(s: string) | Int(n: int) | Opaque

  datatype Alias = Alias(name: Dotted, asname: Option<string>)

  /** The parts of a syntax tree the analyzer looks at; every other node is Other, with its children in order. */
  datatype Node =
    | Name(id: string)
    | Attribute(value: Node, attr: string, line: int)
    | Call(func: Node, args: seq<Node>, keywords: seq<Node>, line: int)
    | Keyword(arg: string, value: Node)
    | Constant(constant: Value)
    | Import(names: seq<Alias>)
    | ImportFrom(from: Dotted, names: seq<Alias>)      // [] for a relative import without a module
    | Other(children: seq<Node>)

  // ---- ast.walk ----------------------------------------------------------------------------

  function Children(n: Node): seq<Node> {
    match n
    case Attribute(value, _, _) => [value]
    case Call(func, args, keywords, _) => [func] + args + keywords
    case Keyword(_, value) => [value]
    case Other(children) => children
    case _ => []
  }

  function Size(n: Node): nat
    decreases n, 0
  {
    match n
    case Attribute(value, _, _) => 1 + Size(value)
    case Call(func, args, keywords, _) => 1 + Size(func) + SizeAll(args) + SizeAll(keywords)
    case Keyword(_, value) => 1 + Size(value)
    case Other(children) => 1 + SizeAll(children)
    case _ => 1
  }

  function SizeAll(ns: seq<Node>): nat
    decreases ns, 1
  {
    if ns == [] then 0 else Size(ns[0]) + SizeAll(ns[1..])
  }

  lemma {:induction false} SizeConcat(a: seq<Node>, b: seq<Node>)
    ensures SizeAll(a + b) == SizeAll(a) + SizeAll(b)
  {
    if a == [] {
      assert a + b == b;
    } else {
      assert (a + b)[1..] == a[1..] + b;
      SizeConcat(a[1..], b);
    }
  }

  lemma SizeChildren(n: Node)
    ensures SizeAll(Children(n)) < Size(n)
  {
    match n
    case Call(func, args, keywords, _) =>
      SizeConcat([func] + args, keywords);
      SizeConcat([func], args);
      assert SizeAll([func]) == Size(func) by { assert [func][1..] == []; }
    case Attribute(value, _, _) => assert SizeAll([value]) == Size(value) by { assert [value][1..] == []; }
    case Keyword(_, value) => assert SizeAll([value]) == Size(value) by { assert [value][1..] == []; }
    case _ =>
  }

  lemma QueueShrinks(queue: seq<Node>)
    requires queue != []
    ensures SizeAll(queue[1..] + Children(queue[0])) < SizeAll(queue)
  {
    SizeConcat(queue[1..], Children(queue[0]));
    SizeChildren(queue[0]);
  }

  /** Breadth-first order from a queue of nodes. */
  function Walk(queue: seq<Node>): seq<Node>
    decreases SizeAll(queue)
  {
    if queue == [] then [] else
      QueueShrinks(queue);
      [queue[0]] + Walk(queue[1..] + Children(queue[0]))
  }

  // ---- Import resolution ---------------------------------------------------------------------

  type Symbols = map<Dotted, Dotted>

  function Local(a: Alias): Dotted {
    if a.asname.Some? then [a.asname.value] else a.name
  }

  function Bind(m: Symbols, from: Dotted, names: seq<Alias>): Symbols
    decreases |names|
  {
    if names == [] then m
    else if from != [] && names[0].name == ["*"] then Bind(m, from, names[1..])
    else Bind(m[Local(names[0]) := from + names[0].name], from, names[1..])
  }

  function Collected(m: Symbols, n: Node): Symbols {
    match n
    case Import(names) => Bind(m, [], names)
    case ImportFrom(from, names) => if from == [] then m else Bind(m, from, names)
    case _ => m
  }

  function Collect(ns: seq<Node>, m: Symbols): Symbols {
    if ns == [] then m else Collect(ns[1..], Collected(m, ns[0]))
  }

  function Resolve(n: Node, m: Symbols): Option<Dotted> {
    match n
    case Name(id) => Some(if [id] in m then m[[id]] else [id])
    case Attribute(value, attr, _) =>
      var prefix := Resolve(value, m);
      if prefix.None? then None else Some(prefix.value + [attr])
    case _ => None
  }

  // ---- Hits ----------------------------------------------------------------------------------

  datatype Label = Fixed(name: string) | Digest(name: string) | RsaBits(bits: int) | Curve(name: string, bare: bool)
  datatype Hit = Hit(line: int, what: Label, kind: string)

  function Lower(s: string): string {
    seq(|s|, i requires 0 <= i < |s| => if 'A' <= s[i] <= 'Z' then s[i] + 32 as char else s[i])
  }

  predicate WeakDigest(s: string) {
    Lower(s) in {"md5", "sha1", "md4", "md2"}
  }

  function Last(d: Dotted): string {
    if d == [] then "" else d[|d| - 1]
  }

  function Object(d: Dotted): string {
    if |d| < 2 then "" else d[|d| - 2]
  }

  function ConstInt(n: Node): Option<int> {
    if n.Constant? && n.constant.Int? then Some(n.constant.n) else None
  }

  function ConstStr(n: Node): Option<string> {
    if n.Constant? && n.constant.Str? then Some(n.constant.s) else None
  }

  /** The last `key_size` keyword decides; a non-literal one erases an earlier literal. */
  function KeySize(keywords: seq<Node>, bits: Option<int>): Option<int> {
    if keywords == [] then bits
    else KeySize(keywords[1..],
                 if keywords[0].Keyword? && keywords[0].arg == "key_size" then ConstInt(keywords[0].value) else bits)
  }

  function RsaLabel(bits: Option<int>): Label {
    if bits.Some? then RsaBits(bits.value) else Fixed("RSA")
  }

  /** `_ec_curve`: an attribute's last component or, unresolved, a bare name. */
  function CurveLabel(args: seq<Node>): Label {
    if args == [] then Fixed("EC") else
      var f := if args[0].Call? then args[0].func else args[0];
      if f.Attribute? then Curve(f.attr, false) else if f.Name? then Curve(f.id, true) else Fixed("EC")
  }

  predicate IsCbc(n: Node) {
    n.Attribute? && n.attr == "MODE_CBC"
  }

  predicate CbcArg(args: seq<Node>) {
    args != [] && (IsCbc(args[0]) || CbcArg(args[1..]))
  }

  predicate CbcKeyword(keywords: seq<Node>) {
    keywords != [] && ((keywords[0].Keyword? && IsCbc(keywords[0].value)) || CbcKeyword(keywords[1..]))
  }

  predicate HasModeCbc(args: seq<Node>, keywords: seq<Node>) {
    CbcArg(args) || CbcKeyword(keywords)
  }

  /** The rules keyed on the resolved symbol alone. */
  function SymbolRule(canon: Dotted): Option<(Label, string)> {
    var last, obj := Last(canon), Object(canon);
    if obj == "dsa" && last == "generate_private_key" then Some((Fixed("DSA"), "dsa_keygen"))
    else if obj == "DSA" && last == "generate" then Some((Fixed("DSA"), "dsa_keygen"))
    else if last == "new" && obj == "DES" then Some((Fixed("DES"), "des_cipher"))
    else if last == "new" && obj == "DES3" then Some((Fixed("3DES"), "des_cipher"))
    else if last == "new" && obj == "ARC4" then Some((Fixed("RC4"), "rc4_cipher"))
    else if last == "new" && obj == "Blowfish" then Some((Fixed("Blowfish"), "blowfish_cipher"))
    else if obj == "algorithms" && last == "TripleDES" then Some((Fixed("3DES"), "des_cipher"))
    else if obj == "algorithms" && last == "ARC4" then Some((Fixed("RC4"), "rc4_cipher"))
    else if obj == "algorithms" && last == "Blowfish" then Some((Fixed("Blowfish"), "blowfish_cipher"))
    else if obj == "modes" && last == "CBC" then Some((Fixed("AES-CBC"), "aes_cbc"))
    else None
  }

  /** `_visit_call` once the callee is resolved. */
  function CallRule(canon: Dotted, args: seq<Node>, keywords: seq<Node>): Option<(Label, string)> {
    var last, obj := Last(canon), Object(canon);
    if canon == ["hashlib", "md5"] then Some((Fixed("MD5"), "weak_hash"))
    else if canon == ["hashlib", "sha1"] then Some((Fixed("SHA1"), "weak_hash"))
    else if canon == ["hashlib", "new"] then
      var name := if args == [] then None else ConstStr(args[0]);
      if name.Some? && WeakDigest(name.value) then Some((Digest(name.value), "weak_hash")) else None
    else if obj == "rsa" && last == "generate_private_key" then Some((RsaLabel(KeySize(keywords, None)), "rsa_keygen"))
    else if obj == "RSA" && last == "generate" then
      Some((RsaLabel(if args == [] then None else ConstInt(args[0])), "rsa_keygen"))
    else if obj == "ec" && last == "generate_private_key" then Some((CurveLabel(args), "ecdsa_keygen"))
    else if last == "new" && obj == "AES" then
      if HasModeCbc(args, keywords) then Some((Fixed("AES-CBC"), "aes_cbc")) else None
    else SymbolRule(canon)
  }

  function WeakProtocol(attr: string): Option<string> {
    if attr == "PROTOCOL_TLSv1" then Some("TLSv1")
    else if attr == "PROTOCOL_TLSv1_1" then Some("TLSv1.1")
    else if attr == "PROTOCOL_SSLv3" then Some("SSLv3")
    else if attr == "PROTOCOL_SSLv23" then Some("SSLv23")
    else None
  }

  function Visit(n: Node, m: Symbols): seq<Hit> {
    if n.Call? then
      var canon := Resolve(n.func, m);
      if canon.None? then [] else
        var rule := CallRule(canon.value, n.args, n.keywords);
        if rule.None? then [] else [Hit(n.line, rule.value.0, rule.value.1)]
    else if n.Attribute? then
      var proto, canon := WeakProtocol(n.attr), Resolve(n, m);
      if proto.Some? && canon.Some? && Object(canon.value) == "ssl" && Last(canon.value) == n.attr
      then [Hit(n.line, Fixed(proto.value), "weak_tls_proto")] else []
    else []
  }

  function VisitAll(ns: seq<Node>, m: Symbols): seq<Hit> {
    if ns == [] then [] else Visit(ns[0], m) + VisitAll(ns[1..], m)
  }

  /** `analyze` after parsing: imports first, from anywhere in the tree, then one walk. */
  function Analyze(tree: Node): seq<Hit> {
    var nodes := Walk([tree]);
    VisitAll(nodes, Collect(nodes, map[]))
  }

  class Analyzer {
    var symbols: Symbols
    var hits: seq<Hit>

    constructor ()
      ensures symbols == map[] && hits == []
    {
      symbols, hits := map[], [];
    }

    /** `collect_imports`. */
    method CollectImports(tree: Node)
      modifies this`symbols
      ensures symbols == Collect(Walk([tree]), old(symbols))
    {
      var queue := [tree];
      while queue != []
        invariant Collect(Walk(queue), symbols) == Collect(Walk([tree]), old(symbols))
        decreases SizeAll(queue)
      {
        QueueShrinks(queue);
        assert Walk(queue)[1..] == Walk(queue[1..] + Children(queue[0]));
        symbols := Collected(symbols, queue[0]);
        queue := queue[1..] + Children(queue[0]);
      }
    }

    /** `walk`. */
    method WalkTree(tree: Node)
      modifies this`hits
      ensures hits == old(hits) + VisitAll(Walk([tree]), symbols)
    {
      hide Visit;
      var queue := [tree];
      while queue != []
        invariant hits + VisitAll(Walk(queue), symbols) == old(hits) + VisitAll(Walk([tree]), symbols)
        decreases SizeAll(queue)
      {
        QueueShrinks(queue);
        var next := queue[1..] + Children(queue[0]);
        assert Walk(queue)[1..] == Walk(next);
        var found := Visit(queue[0], symbols);
        assert hits + (found + VisitAll(Walk(next), symbols)) == (hits + found) + VisitAll(Walk(next), symbols);
        hits := hits + found;
        queue := next;
      }
    }
  }

  // ---- Renaming an imported name ---------------------------------------------------------------

  function RenameAlias(a: Alias, x: string, y: string): Alias {
    if Local(a) == [x] then Alias(a.name, Some(y)) else a
  }

  function RenameAliases(names: seq<Alias>, x: string, y: string): (r: seq<Alias>)
    ensures |r| == |names|
  {
    if names == [] then [] else [RenameAlias(names[0], x, y)] + RenameAliases(names[1..], x, y)
  }

  /** Every use of the local name x, and every import that binds it, now says y. */
  function Rename(n: Node, x: string, y: string): Node
    decreases n, 0
  {
    match n
    case Name(id) => if id == x then Name(y) else n
    case Attribute(value, attr, line) => Attribute(Rename(value, x, y), attr, line)
    case Call(func, args, keywords, line) =>
      Call(Rename(func, x, y), RenameAll(args, x, y), RenameAll(keywords, x, y), line)
    case Keyword(arg, value) => Keyword(arg, Rename(value, x, y))
    case Constant(_) => n
    case Import(names) => Import(RenameAliases(names, x, y))
    case ImportFrom(from, names) => ImportFrom(from, RenameAliases(names, x, y))
    case Other(children) => Other(RenameAll(children, x, y))
  }

  function RenameAll(ns: seq<Node>, x: string, y: string): (r: seq<Node>)
    ensures |r| == |ns|
    decreases ns, 1
  {
    if ns == [] then [] else [Rename(ns[0], x, y)] + RenameAll(ns[1..], x, y)
  }

  predicate FreshIn(names: seq<Alias>, y: string) {
    forall i :: 0 <= i < |names| ==> Local(names[i]) != [y]
  }

  /** y is neither used nor bound by an import anywhere below n. */
  predicate Fresh(n: Node, y: string)
    decreases n, 0
  {
    match n
    case Name(id) => id != y
    case Attribute(value, _, _) => Fresh(value, y)
    case Call(func, args, keywords, _) => Fresh(func, y) && FreshAll(args, y) && FreshAll(keywords, y)
    case Keyword(_, value) => Fresh(value, y)
    case Constant(_) => true
    case Import(names) => FreshIn(names, y)
    case ImportFrom(_, names) => FreshIn(names, y)
    case Other(children) => FreshAll(children, y)
  }

  predicate FreshAll(ns: seq<Node>, y: string)
    decreases ns, 1
  {
    ns == [] || (Fresh(ns[0], y) && FreshAll(ns[1..], y))
  }

  // ---- The tree keeps its shape --------------------------------------------------------------------

  lemma {:induction false} RenameConcat(a: seq<Node>, b: seq<Node>, x: string, y: string)
    ensures RenameAll(a + b, x, y) == RenameAll(a, x, y) + RenameAll(b, x, y)
  {
    if a == [] {
      assert a + b == b;
    } else {
      assert (a + b)[1..] == a[1..] + b;
      RenameConcat(a[1..], b, x, y);
    }
  }

  lemma RenameOne(n: Node, x: string, y: string)
    ensures RenameAll([n], x, y) == [Rename(n, x, y)]
  {
    assert [n][1..] == [];
  }

  lemma RenameChildren(n: Node, x: string, y: string)
    ensures Children(Rename(n, x, y)) == RenameAll(Children(n), x, y)
  {
    match n
    case Call(func, args, keywords, _) =>
      RenameConcat([func] + args, keywords, x, y);
      RenameConcat([func], args, x, y);
      RenameOne(func, x, y);
    case Attribute(value, _, _) => RenameOne(value, x, y);
    case Keyword(_, value) => RenameOne(value, x, y);
    case _ =>
  }

  lemma {:induction false} RenameWalk(queue: seq<Node>, x: string, y: string)
    ensures Walk(RenameAll(queue, x, y)) == RenameAll(Walk(queue), x, y)
    decreases SizeAll(queue)
  {
    if queue != [] {
      QueueShrinks(queue);
      var next := queue[1..] + Children(queue[0]);
      RenameWalk(next, x, y);
      RenameConcat(queue[1..], Children(queue[0]), x, y);
      RenameChildren(queue[0], x, y);
      var renamed := RenameAll(queue, x, y);
      assert renamed[0] == Rename(queue[0], x, y) && renamed[1..] == RenameAll(queue[1..], x, y);
      assert Walk(queue)[0] == queue[0] && Walk(queue)[1..] == Walk(next);
    }
  }

  lemma {:induction false} FreshConcat(a: seq<Node>, b: seq<Node>, y: string)
    ensures FreshAll(a + b, y) <==> FreshAll(a, y) && FreshAll(b, y)
  {
    if a == [] {
      assert a + b == b;
    } else {
      assert (a + b)[1..] == a[1..] + b;
      FreshConcat(a[1..], b, y);
    }
  }

  lemma FreshChildren(n: Node, y: string)
    requires Fresh(n, y)
    ensures FreshAll(Children(n), y)
  {
    match n
    case Call(func, args, keywords, _) =>
      FreshConcat([func] + args, keywords, y);
      FreshConcat([func], args, y);
      assert [func][1..] == [];
    case Attribute(value, _, _) => assert [value][1..] == [];
    case Keyword(_, value) => assert [value][1..] == [];
    case _ =>
  }

  lemma {:induction false} FreshWalk(queue: seq<Node>, y: string)
    requires FreshAll(queue, y)
    ensures FreshAll(Walk(queue), y)
    decreases SizeAll(queue)
  {
    if queue != [] {
      QueueShrinks(queue);
      var next := queue[1..] + Children(queue[0]);
      FreshChildren(queue[0], y);
      FreshConcat(queue[1..], Children(queue[0]), y);
      FreshWalk(next, y);
      assert Walk(queue)[0] == queue[0] && Walk(queue)[1..] == Walk(next);
    }
  }

  // ---- The symbol table moves x to y ------------------------------------------------------------------

  ghost predicate Moved(m: Symbols, m': Symbols, x: string, y: string) {
    && [y] !in m && [x] !in m'
    && ([x] in m <==> [y] in m') && ([x] in m ==> m'[[y]] == m[[x]])
    && (forall k :: k != [x] && k != [y] ==> (k in m <==> k in m') && (k in m ==> m'[k] == m[k]))
  }

  lemma {:induction false} BindMoved(m: Symbols, m': Symbols, from: Dotted, names: seq<Alias>, x: string, y: string)
    requires x != y && Moved(m, m', x, y) && FreshIn(names, y)
    ensures Moved(Bind(m, from, names), Bind(m', from, RenameAliases(names, x, y)), x, y)
    decreases |names|
  {
    if names != [] {
      var a, a' := names[0], RenameAlias(names[0], x, y);
      assert RenameAliases(names, x, y)[1..] == RenameAliases(names[1..], x, y);
      if from != [] && a.name == ["*"] {
        BindMoved(m, m', from, names[1..], x, y);
      } else {
        BindMoved(m[Local(a) := from + a.name], m'[Local(a') := from + a'.name], from, names[1..], x, y);
      }
    }
  }

  lemma {:induction false} CollectMoved(ns: seq<Node>, m: Symbols, m': Symbols, x: string, y: string)
    requires x != y && Moved(m, m', x, y) && FreshAll(ns, y)
    ensures Moved(Collect(ns, m), Collect(RenameAll(ns, x, y), m'), x, y)
    decreases |ns|
  {
    if ns != [] {
      var n := ns[0];
      if n.Import? {
        BindMoved(m, m', [], n.names, x, y);
      } else if n.ImportFrom? {
        BindMoved(m, m', n.from, n.names, x, y);
      }
      assert RenameAll(ns, x, y)[1..] == RenameAll(ns[1..], x, y);
      CollectMoved(ns[1..], Collected(m, n), Collected(m', Rename(n, x, y)), x, y);
    }
  }

  lemma {:induction false} ResolveMoved(n: Node, m: Symbols, m': Symbols, x: string, y: string)
    requires x != y && Moved(m, m', x, y) && [x] in m && Fresh(n, y)
    ensures Resolve(Rename(n, x, y), m') == Resolve(n, m)
  {
    match n
    case Name(id) => assert id != x ==> [id] != [x]; assert id != y ==> [id] != [y];
    case Attribute(value, _, _) => ResolveMoved(value, m, m', x, y);
    case _ =>
  }

  // ---- The rules see the same call -------------------------------------------------------------------

  function RenameLabel(l: Label, x: string, y: string): Label {
    if l == Curve(x, true) then Curve(y, true) else l
  }

  function RenameHits(hs: seq<Hit>, x: string, y: string): seq<Hit> {
    if hs == [] then [] else [hs[0].(what := RenameLabel(hs[0].what, x, y))] + RenameHits(hs[1..], x, y)
  }

  lemma LeavesSame(n: Node, x: string, y: string)
    ensures ConstInt(Rename(n, x, y)) == ConstInt(n) && ConstStr(Rename(n, x, y)) == ConstStr(n)
    ensures IsCbc(Rename(n, x, y)) <==> IsCbc(n)
    ensures Rename(n, x, y).Keyword? <==> n.Keyword?
    ensures n.Keyword? ==> Rename(n, x, y).arg == n.arg && Rename(n, x, y).value == Rename(n.value, x, y)
  {
  }

  lemma {:induction false} KeySizeSame(keywords: seq<Node>, bits: Option<int>, x: string, y: string)
    ensures KeySize(RenameAll(keywords, x, y), bits) == KeySize(keywords, bits)
  {
    if keywords != [] {
      var k := keywords[0];
      LeavesSame(k, x, y);
      if k.Keyword? { LeavesSame(k.value, x, y); }
      var bits' := if k.Keyword? && k.arg == "key_size" then ConstInt(k.value) else bits;
      KeySizeSame(keywords[1..], bits', x, y);
      var r := RenameAll(keywords, x, y);
      assert r[0] == Rename(k, x, y) && r[1..] == RenameAll(keywords[1..], x, y);
    }
  }

  lemma {:induction false} CbcArgsSame(args: seq<Node>, x: string, y: string)
    ensures CbcArg(RenameAll(args, x, y)) <==> CbcArg(args)
  {
    if args != [] {
      LeavesSame(args[0], x, y);
      CbcArgsSame(args[1..], x, y);
      assert RenameAll(args, x, y)[1..] == RenameAll(args[1..], x, y);
    }
  }

  lemma {:induction false} CbcKeywordsSame(keywords: seq<Node>, x: string, y: string)
    ensures CbcKeyword(RenameAll(keywords, x, y)) <==> CbcKeyword(keywords)
  {
    if keywords != [] {
      var k := keywords[0];
      LeavesSame(k, x, y);
      if k.Keyword? { LeavesSame(k.value, x, y); }
      CbcKeywordsSame(keywords[1..], x, y);
      assert RenameAll(keywords, x, y)[1..] == RenameAll(keywords[1..], x, y);
    }
  }

  lemma CurveMoved(args: seq<Node>, x: string, y: string)
    requires FreshAll(args, y)
    ensures CurveLabel(RenameAll(args, x, y)) == RenameLabel(CurveLabel(args), x, y)
  {
    if args != [] {
      var a := args[0];
      assert RenameAll(args, x, y)[0] == Rename(a, x, y);
      var f := if a.Call? then a.func else a;
      assert Fresh(f, y);
      assert Rename(f, x, y).Attribute? <==> f.Attribute?;
    }
  }

  /** The rules that look at the arguments see the same in them. */
  lemma ArgumentsSame(args: seq<Node>, keywords: seq<Node>, x: string, y: string)
    requires FreshAll(args, y)
    ensures var args', keywords' := RenameAll(args, x, y), RenameAll(keywords, x, y);
      && KeySize(keywords', None) == KeySize(keywords, None)
      && (HasModeCbc(args', keywords') <==> HasModeCbc(args, keywords))
      && CurveLabel(args') == RenameLabel(CurveLabel(args), x, y)
      && (args' == [] <==> args == [])
      && (args != [] ==> ConstInt(args'[0]) == ConstInt(args[0]) && ConstStr(args'[0]) == ConstStr(args[0]))
  {
    KeySizeSame(keywords, None, x, y);
    CbcArgsSame(args, x, y);
    CbcKeywordsSame(keywords, x, y);
    CurveMoved(args, x, y);
    if args != [] { LeavesSame(args[0], x, y); }
  }

  lemma SymbolLabels(canon: Dotted, x: string, y: string)
    ensures SymbolRule(canon).Some? ==> RenameLabel(SymbolRule(canon).value.0, x, y) == SymbolRule(canon).value.0
  {
  }

  lemma RuleMoved(canon: Dotted, args: seq<Node>, keywords: seq<Node>, args': seq<Node>, keywords': seq<Node>,
                  x: string, y: string)
    requires KeySize(keywords', None) == KeySize(keywords, None)
    requires HasModeCbc(args', keywords') <==> HasModeCbc(args, keywords)
    requires CurveLabel(args') == RenameLabel(CurveLabel(args), x, y)
    requires args' == [] <==> args == []
    requires args != [] ==> ConstInt(args'[0]) == ConstInt(args[0]) && ConstStr(args'[0]) == ConstStr(args[0])
    ensures CallRule(canon, args', keywords') == RenameRule(CallRule(canon, args, keywords), x, y)
  {
    SymbolLabels(canon, x, y);
  }

  function RenameRule(r: Option<(Label, string)>, x: string, y: string): Option<(Label, string)> {
    if r.None? then None else Some((RenameLabel(r.value.0, x, y), r.value.1))
  }

  lemma VisitMoved(n: Node, m: Symbols, m': Symbols, x: string, y: string)
    requires x != y && Moved(m, m', x, y) && [x] in m && Fresh(n, y)
    ensures Visit(Rename(n, x, y), m') == RenameHits(Visit(n, m), x, y)
  {
    if n.Call? {
      ResolveMoved(n.func, m, m', x, y);
      var canon := Resolve(n.func, m);
      if canon.Some? {
        ArgumentsSame(n.args, n.keywords, x, y);
        RuleMoved(canon.value, n.args, n.keywords, RenameAll(n.args, x, y), RenameAll(n.keywords, x, y), x, y);
      }
    } else if n.Attribute? {
      ResolveMoved(n, m, m', x, y);
    }
  }

  lemma {:induction false} RenameHitsConcat(a: seq<Hit>, b: seq<Hit>, x: string, y: string)
    ensures RenameHits(a + b, x, y) == RenameHits(a, x, y) + RenameHits(b, x, y)
  {
    if a == [] {
      assert a + b == b;
    } else {
      assert (a + b)[1..] == a[1..] + b;
      RenameHitsConcat(a[1..], b, x, y);
    }
  }

  lemma {:induction false} VisitAllMoved(ns: seq<Node>, m: Symbols, m': Symbols, x: string, y: string)
    requires x != y && Moved(m, m', x, y) && [x] in m && FreshAll(ns, y)
    ensures VisitAll(RenameAll(ns, x, y), m') == RenameHits(VisitAll(ns, m), x, y)
    decreases |ns|
  {
    if ns != [] {
      VisitMoved(ns[0], m, m', x, y);
      VisitAllMoved(ns[1..], m, m', x, y);
      RenameHitsConcat(Visit(ns[0], m), VisitAll(ns[1..], m), x, y);
      assert RenameAll(ns, x, y)[1..] == RenameAll(ns[1..], x, y);
    }
  }

  /** Renaming an imported local name to a fresh one, everywhere, leaves the sequence of hits as it was, but
      for the label of an EC curve passed as that bare name, which the analyzer does not resolve. */
  lemma RenamingPreservesAnalysis(tree: Node, x: string, y: string)
    requires x != y && Fresh(tree, y) && [x] in Collect(Walk([tree]), map[])
    ensures Analyze(Rename(tree, x, y)) == RenameHits(Analyze(tree), x, y)
  {
    var nodes := Walk([tree]);
    RenameWalk([tree], x, y);
    RenameOne(tree, x, y);
    assert [tree][1..] == [];
    FreshWalk([tree], y);
    CollectMoved(nodes, map[], map[], x, y);
    VisitAllMoved(nodes, Collect(nodes, map[]), Collect(RenameAll(nodes, x, y), map[]), x, y);
  }

  lemma {:induction false} HitsSameIff(hs: seq<Hit>, x: string, y: string)
    requires x != y
    ensures RenameHits(hs, x, y) == hs <==> forall i :: 0 <= i < |hs| ==> hs[i].what != Curve(x, true)
    ensures |RenameHits(hs, x, y)| == |hs|
  {
    if hs != [] {
      HitsSameIff(hs[1..], x, y);
      assert RenameHits(hs, x, y)[1..] == RenameHits(hs[1..], x, y);
      assert hs == [hs[0]] + hs[1..];
    }
  }

  /** A call that generates an EC key on a curve given by the bare name x, or by a call of it. */
  predicate CurveGivenAs(n: Node, m: Symbols, x: string) {
    && n.Call? && n.args != [] && (n.args[0] == Name(x) || (n.args[0].Call? && n.args[0].func == Name(x)))
    && var canon := Resolve(n.func, m);
       canon.Some? && Object(canon.value) == "ec" && Last(canon.value) == "generate_private_key"
  }

  predicate SomeCurve(hs: seq<Hit>, x: string) {
    exists i :: 0 <= i < |hs| && hs[i].what == Curve(x, true)
  }

  lemma CurveLabelIff(args: seq<Node>, x: string)
    ensures CurveLabel(args) == Curve(x, true) <==>
      args != [] && (args[0] == Name(x) || (args[0].Call? && args[0].func == Name(x)))
  {
  }

  lemma SymbolIsNoCurve(canon: Dotted, x: string)
    ensures SymbolRule(canon).Some? ==> SymbolRule(canon).value.0 != Curve(x, true)
  {
  }

  lemma RuleIsCurveIff(canon: Dotted, args: seq<Node>, keywords: seq<Node>, x: string)
    ensures (CallRule(canon, args, keywords).Some? && CallRule(canon, args, keywords).value.0 == Curve(x, true)) <==>
      Object(canon) == "ec" && Last(canon) == "generate_private_key" && CurveLabel(args) == Curve(x, true)
  {
    hide SymbolRule, CurveLabel, HasModeCbc, WeakDigest, KeySize;
    SymbolIsNoCurve(canon, x);
  }

  lemma VisitCurveIff(n: Node, m: Symbols, x: string)
    ensures SomeCurve(Visit(n, m), x) <==> CurveGivenAs(n, m, x)
  {
    hide CallRule, CurveLabel;
    if n.Call? && Resolve(n.func, m).Some? {
      var canon := Resolve(n.func, m).value;
      RuleIsCurveIff(canon, n.args, n.keywords, x);
      CurveLabelIff(n.args, x);
      var rule := CallRule(canon, n.args, n.keywords);
      if rule.Some? { assert Visit(n, m)[0].what == rule.value.0; }
    }
  }

  lemma {:induction false} SomeCurveConcat(a: seq<Hit>, b: seq<Hit>, x: string)
    ensures SomeCurve(a + b, x) <==> SomeCurve(a, x) || SomeCurve(b, x)
  {
    assert forall i :: 0 <= i < |a| ==> (a + b)[i] == a[i];
    assert forall i :: 0 <= i < |b| ==> (a + b)[|a| + i] == b[i];
    if SomeCurve(a + b, x) {
      var i :| 0 <= i < |a + b| && (a + b)[i].what == Curve(x, true);
      if i >= |a| { assert b[i - |a|].what == Curve(x, true); }
    }
  }

  lemma {:induction false} VisitAllCurveIff(ns: seq<Node>, m: Symbols, x: string)
    ensures SomeCurve(VisitAll(ns, m), x) <==> exists i :: 0 <= i < |ns| && CurveGivenAs(ns[i], m, x)
  {
    hide Visit, CurveGivenAs, SomeCurve;
    if ns == [] {
      NoHitNoCurve(x);
    } else {
      VisitAllCurveIff(ns[1..], m, x);
      VisitCurveIff(ns[0], m, x);
      SomeCurveConcat(Visit(ns[0], m), VisitAll(ns[1..], m), x);
      if i :| 0 <= i < |ns| && CurveGivenAs(ns[i], m, x) {
        if i > 0 { assert ns[1..][i - 1] == ns[i]; }
      }
      if i :| 0 <= i < |ns[1..]| && CurveGivenAs(ns[1..][i], m, x) { assert ns[1..][i] == ns[i + 1]; }
    }
  }

  lemma NoHitNoCurve(x: string)
    ensures !SomeCurve([], x)
  {
  }

  /** Renaming changes the hits if and only if some call in the tree generates an EC key on a curve given by the renamed
      name itself. */
  lemma AnalysisUnchangedIff(tree: Node, x: string, y: string)
    requires x != y && Fresh(tree, y) && [x] in Collect(Walk([tree]), map[])
    ensures Analyze(Rename(tree, x, y)) == Analyze(tree)
       <==> !(exists i :: 0 <= i < |Walk([tree])| && CurveGivenAs(Walk([tree])[i], Collect(Walk([tree]), map[]), x))
  {
    hide CurveGivenAs, Walk, Collect, VisitAll, Rename;
    RenamingPreservesAnalysis(tree, x, y);
    HitsSameIff(Analyze(tree), x, y);
    VisitAllCurveIff(Walk([tree]), Collect(Walk([tree]), map[]), x);
  }

  // ---- A tree whose hits change ---------------------------------------------------------------------

  lemma WalkStep(n: Node, rest: seq<Node>)
    ensures Walk([n] + rest) == [n] + Walk(rest + Children(n))
  {
    assert ([n] + rest)[1..] == rest;
  }

  lemma CollectStep(n: Node, rest: seq<Node>, m: Symbols)
    ensures Collect([n] + rest, m) == Collect(rest, Collected(m, n))
  {
    assert ([n] + rest)[1..] == rest;
  }

  lemma BindOne(m: Symbols, from: Dotted, name: string)
    requires from != [] && name != "*"
    ensures Bind(m, from, [Alias([name], None)]) == m[[name] := from + [name]]
  {
    assert [Alias([name], None)][1..] == [] && [name][0] == name && ["*"][0] == "*";
  }

  lemma {:induction false} NoImports(ns: seq<Node>, m: Symbols)
    requires forall i :: 0 <= i < |ns| ==> !ns[i].Import? && !ns[i].ImportFrom?
    ensures Collect(ns, m) == m
  {
    if ns != [] { NoImports(ns[1..], m); }
  }

  /** `from pkg import ec`, `from pkg.ec import curve`, `ec.generate_private_key(curve())`. */
  function CurveCall(curve: string): Node {
    Call(Attribute(Name("ec"), "generate_private_key", 1), [Call(Name(curve), [], [], 1)], [], 1)
  }

  function CurveTree(pkg: Dotted, curve: string): Node {
    Other([ImportFrom(pkg, [Alias(["ec"], None)]), ImportFrom(pkg + ["ec"], [Alias([curve], None)]), CurveCall(curve)])
  }

  lemma CurveCallWalk(curve: string) returns (rest: seq<Node>)
    ensures Walk([CurveCall(curve)]) == [CurveCall(curve)] + rest
    ensures forall i :: 0 <= i < |rest| ==> !rest[i].Import? && !rest[i].ImportFrom?
  {
    hide Walk;
    var attribute, call := Attribute(Name("ec"), "generate_private_key", 1), Call(Name(curve), [], [], 1);
    WalkStep(CurveCall(curve), []);
    assert [CurveCall(curve)] + [] == [CurveCall(curve)] && [] + Children(CurveCall(curve)) == [attribute] + [call];
    WalkStep(attribute, [call]);
    WalkStep(call, [Name("ec")]);
    assert [Name("ec")] + Children(call) == [Name("ec")] + [Name(curve)];
    WalkStep(Name("ec"), [Name(curve)]);
    WalkStep(Name(curve), []);
    assert [Name(curve)] + Children(Name("ec")) == [Name(curve)] + [];
    NothingToWalk();
    assert [] + Children(Name(curve)) == [];
    rest := [attribute] + ([call] + ([Name("ec")] + ([Name(curve)] + [])));
  }

  lemma NothingToWalk()
    ensures Walk([]) == []
  {
  }

  lemma CurveTreeWalk(pkg: Dotted, curve: string) returns (rest: seq<Node>)
    ensures var t := CurveTree(pkg, curve);
      Walk([t]) == [t] + ([t.children[0]] + ([t.children[1]] + ([CurveCall(curve)] + rest)))
    ensures forall i :: 0 <= i < |rest| ==> !rest[i].Import? && !rest[i].ImportFrom?
  {
    hide Walk, CurveCall;
    var t := CurveTree(pkg, curve);
    var a, b, c := t.children[0], t.children[1], CurveCall(curve);
    WalkStep(t, []);
    assert [t] + [] == [t] && [] + Children(t) == [a] + [b, c];
    WalkStep(a, [b, c]);
    assert [b, c] + Children(a) == [b] + [c];
    WalkStep(b, [c]);
    assert [c] + Children(b) == [c];
    rest := CurveCallWalk(curve);
  }

  lemma CurveTreeSymbols(pkg: Dotted, curve: string)
    requires pkg != [] && curve != "*" && curve != "ec"
    ensures var m := Collect(Walk([CurveTree(pkg, curve)]), map[]);
      [curve] in m && ["ec"] in m && m[["ec"]] == pkg + ["ec"]
  {
    hide Walk, Collect, Bind, CurveCall;
    var t := CurveTree(pkg, curve);
    var rest := CurveTreeWalk(pkg, curve);
    var a, b, c := t.children[0], t.children[1], CurveCall(curve);
    CollectStep(t, [a] + ([b] + ([c] + rest)), map[]);
    CollectStep(a, [b] + ([c] + rest), map[]);
    BindOne(map[], pkg, "ec");
    var m1: Symbols := map[["ec"] := pkg + ["ec"]];
    CollectStep(b, [c] + rest, m1);
    BindOne(m1, pkg + ["ec"], curve);
    var m2 := m1[[curve] := pkg + ["ec"] + [curve]];
    CallBindsNothing(curve, m2);
    CollectStep(c, rest, m2);
    NoImports(rest, m2);
    assert [curve][0] == curve && ["ec"][0] == "ec";
  }

  lemma CallBindsNothing(curve: string, m: Symbols)
    ensures Collected(m, CurveCall(curve)) == m
  {
  }

  lemma AllFresh(ns: seq<Node>, y: string)
    requires forall i :: 0 <= i < |ns| ==> Fresh(ns[i], y)
    ensures FreshAll(ns, y)
  {
    if ns != [] {
      AllFresh(ns[1..], y);
    }
  }

  lemma CurveTreeFresh(pkg: Dotted, curve: string, y: string)
    requires y != curve && y != "ec"
    ensures Fresh(CurveTree(pkg, curve), y)
  {
    assert [curve][0] == curve && ["ec"][0] == "ec" && [y][0] == y;
    AllFresh([Call(Name(curve), [], [], 1)], y);
    assert Fresh(CurveCall(curve), y);
    AllFresh(CurveTree(pkg, curve).children, y);
  }

  /** Renaming the imported curve of such a module changes its hits. */
  lemma RenamedCurveChangesHits(pkg: Dotted, curve: string, y: string)
    requires pkg != [] && curve != "*" && curve != "ec" && y != curve && y != "ec"
    ensures Analyze(Rename(CurveTree(pkg, curve), curve, y)) != Analyze(CurveTree(pkg, curve))
  {
    hide Walk, Collect, Rename, Fresh, Analyze;
    var t := CurveTree(pkg, curve);
    var m := Collect(Walk([t]), map[]);
    var rest := CurveTreeWalk(pkg, curve);
    CurveTreeFresh(pkg, curve, y);
    CurveTreeSymbols(pkg, curve);
    CurveCallResolves(pkg, curve, m);
    assert Walk([t])[3] == CurveCall(curve);
    AnalysisUnchangedIff(t, curve, y);
  }

  lemma CurveCallResolves(pkg: Dotted, curve: string, m: Symbols)
    requires ["ec"] in m && m[["ec"]] == pkg + ["ec"]
    ensures CurveGivenAs(CurveCall(curve), m, curve)
  {
    var canon := pkg + ["ec"] + ["generate_private_key"];
    assert Resolve(CurveCall(curve).func, m) == Some(canon);
    assert canon[|canon| - 1] == "generate_private_key" && canon[|canon| - 2] == "ec";
  }
}
