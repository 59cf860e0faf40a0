/**
  What the analyzer of `PyAst` reports, said without its queue, its symbol table and the order of its rules: the
  last import that binds a name decides what the name stands for, and a call or constant anywhere in the tree is
  reported exactly when what it stands for is in the table of weak cryptography.
  */
module PySymbols {
  import opened Common
  import opened PyAst

  // ---- Nodes of the tree -----------------------------------------------------------------------

  /** n is t or occurs below it. */
  ghost predicate Occurs(n: Node, t: Node)
    decreases t, 0
  {
    || n == t
    || match t
       case Attribute(value, _, _) => Occurs(n, value)
       case Call(func, args, keywords, _) => Occurs(n, func) || OccursIn(n, args) || OccursIn(n, keywords)
       case Keyword(_, value) => Occurs(n, value)
       case Other(children) => OccursIn(n, children)
       case _ => false
  }

  ghost predicate OccursIn(n: Node, ts: seq<Node>)
    decreases ts, 1
  {
    ts != [] && (Occurs(n, ts[0]) || OccursIn(n, ts[1..]))
  }

  lemma {:induction false} OccursConcat(n: Node, a: seq<Node>, b: seq<Node>)
    ensures OccursIn(n, a + b) <==> OccursIn(n, a) || OccursIn(n, b)
  {
    if a == [] {
      assert a + b == b;
    } else {
      OccursConcat(n, a[1..], b);
      assert (a + b)[1..] == a[1..] + b;
    }
  }

  lemma OccursOne(n: Node, t: Node)
    ensures OccursIn(n, [t]) <==> Occurs(n, t)
  {
    assert [t][1..] == [];
  }

  lemma OccursBelow(n: Node, t: Node)
    ensures Occurs(n, t) <==> n == t || OccursIn(n, Children(t))
  {
    match t
    case Attribute(value, _, _) => OccursOne(n, value);
    case Call(func, args, keywords, _) =>
      OccursOne(n, func);
      OccursConcat(n, [func], args);
      OccursConcat(n, [func] + args, keywords);
    case Keyword(_, value) => OccursOne(n, value);
    case _ =>
  }

  lemma {:induction false} WalkIff(queue: seq<Node>, n: Node)
    ensures n in Walk(queue) <==> OccursIn(n, queue)
    decreases SizeAll(queue)
  {
    hide Occurs;
    if queue != [] {
      QueueShrinks(queue);
      var next := queue[1..] + Children(queue[0]);
      WalkIff(next, n);
      OccursConcat(n, queue[1..], Children(queue[0]));
      OccursBelow(n, queue[0]);
    }
  }

  /** The walk reaches exactly the nodes of the tree ... */
  lemma WalkReachesTheTree(tree: Node, n: Node)
    ensures n in Walk([tree]) <==> Occurs(n, tree)
  {
    WalkIff([tree], n);
    OccursOne(n, tree);
  }

  function ChildrenAll(ns: seq<Node>): seq<Node> {
    if ns == [] then [] else Children(ns[0]) + ChildrenAll(ns[1..])
  }

  /** ... level by level. */
  lemma {:induction false} WalkByLevels(level: seq<Node>, below: seq<Node>)
    ensures Walk(level + below) == level + Walk(below + ChildrenAll(level))
    decreases |level|
  {
    hide Walk, Children;
    if level == [] {
      assert level + below == below && below + ChildrenAll(level) == below;
    } else {
      var n, rest := level[0], level[1..];
      var next := Walk(below + ChildrenAll(level));
      assert level == [n] + rest;
      ConcatAssoc([n], rest, below);
      WalkStep(n, rest + below);
      ConcatAssoc(rest, below, Children(n));
      WalkByLevels(rest, below + Children(n));
      ConcatAssoc(below, Children(n), ChildrenAll(rest));
      ConcatAssoc([n], rest, next);
    }
  }

  // ---- Imports -----------------------------------------------------------------------------------

  /** The j-th alias of the import n makes `local` stand for d: `import d`, `import d as local`, `from p import q`,
      `from p import q as local`. */
  ghost predicate Binds(n: Node, j: nat, local: Dotted, d: Dotted) {
    || (n.Import? && j < |n.names| && n.names[j].name == d
        && local == if n.names[j].asname.Some? then [n.names[j].asname.value] else d)
    || (n.ImportFrom? && n.from != [] && j < |n.names| && n.names[j].name != ["*"] && d == n.from + n.names[j].name
        && local == if n.names[j].asname.Some? then [n.names[j].asname.value] else n.names[j].name)
  }

  ghost predicate BindsNothing(n: Node, j: nat, local: Dotted) {
    forall d :: !Binds(n, j, local, d)
  }

  /** n binds the name, last to d. */
  ghost predicate LastBinds(n: Node, local: Dotted, d: Dotted) {
    exists j: nat :: Binds(n, j, local, d) && forall k :: j < k ==> BindsNothing(n, k, local)
  }

  ghost predicate LeavesAlone(n: Node, local: Dotted) {
    forall k: nat :: BindsNothing(n, k, local)
  }

  /** The last import of `ns` that binds the name binds it to d. */
  ghost predicate BoundTo(ns: seq<Node>, local: Dotted, d: Dotted) {
    exists i :: 0 <= i < |ns| && LastBinds(ns[i], local, d) && forall h :: i < h < |ns| ==> LeavesAlone(ns[h], local)
  }

  ghost predicate Unbound(ns: seq<Node>, local: Dotted) {
    forall h :: 0 <= h < |ns| ==> LeavesAlone(ns[h], local)
  }

  predicate Maps(m: Symbols, local: Dotted, d: Dotted) {
    local in m && m[local] == d
  }

  function BindOneMore(m: Symbols, from: Dotted, a: Alias): Symbols {
    if from != [] && a.name == ["*"] then m else m[Local(a) := from + a.name]
  }

  lemma {:induction false} BindSnoc(m: Symbols, from: Dotted, names: seq<Alias>)
    requires names != []
    ensures Bind(m, from, names) == BindOneMore(Bind(m, from, names[..|names| - 1]), from, names[|names| - 1])
    decreases |names|
  {
    if |names| > 1 {
      BindSnoc(BindOneMore(m, from, names[0]), from, names[1..]);
      assert names[..|names| - 1][1..] == names[1..][..|names| - 2];
    }
  }

  lemma {:induction false} BindIff(m: Symbols, n: Node, c: nat, local: Dotted, d: Dotted)
    requires (n.Import? || (n.ImportFrom? && n.from != [])) && c <= |n.names|
    ensures Maps(Bind(m, if n.Import? then [] else n.from, n.names[..c]), local, d) <==>
      || (exists j: nat :: j < c && Binds(n, j, local, d) && forall k: nat :: j < k < c ==> BindsNothing(n, k, local))
      || ((forall k: nat :: k < c ==> BindsNothing(n, k, local)) && Maps(m, local, d))
    decreases c
  {
    hide Binds, BindsNothing, Maps;
    if c > 0 {
      var from := if n.Import? then [] else n.from;
      BindIff(m, n, c - 1, local, d);
      BindSnoc(m, from, n.names[..c]);
      assert n.names[..c][..c - 1] == n.names[..c - 1];
      LastAlias(Bind(m, from, n.names[..c - 1]), n, c - 1, local, d);
    }
  }

  lemma LastAlias(m: Symbols, n: Node, j: nat, local: Dotted, d: Dotted)
    requires (n.Import? || (n.ImportFrom? && n.from != [])) && j < |n.names|
    ensures Maps(BindOneMore(m, if n.Import? then [] else n.from, n.names[j]), local, d) <==>
      Binds(n, j, local, d) || (BindsNothing(n, j, local) && Maps(m, local, d))
  {
    var from := if n.Import? then [] else n.from;
    var a := n.names[j];
    assert [] + a.name == a.name;
    if !(from != [] && a.name == ["*"]) && local == Local(a) { assert Binds(n, j, local, from + a.name); }
  }

  /** An import binds its aliases in order. */
  lemma CollectedIff(m: Symbols, n: Node, local: Dotted, d: Dotted)
    ensures Maps(Collected(m, n), local, d) <==> LastBinds(n, local, d) || (LeavesAlone(n, local) && Maps(m, local, d))
  {
    hide Maps;
    if n.Import? || (n.ImportFrom? && n.from != []) {
      BindIff(m, n, |n.names|, local, d);
      assert n.names[..|n.names|] == n.names;
    }
  }

  lemma {:induction false} CollectSnoc(ns: seq<Node>, m: Symbols)
    requires ns != []
    ensures Collect(ns, m) == Collected(Collect(ns[..|ns| - 1], m), ns[|ns| - 1])
    decreases |ns|
  {
    hide Collected;
    if |ns| > 1 {
      CollectSnoc(ns[1..], Collected(m, ns[0]));
      assert ns[..|ns| - 1][1..] == ns[1..][..|ns| - 2];
    } else {
      assert ns[1..] == [] && ns[..0] == [];
    }
  }

  lemma BoundSnoc(ns: seq<Node>, local: Dotted, d: Dotted)
    requires ns != []
    ensures var front, last := ns[..|ns| - 1], ns[|ns| - 1];
      && (BoundTo(ns, local, d) <==>
          LastBinds(last, local, d) || (LeavesAlone(last, local) && BoundTo(front, local, d)))
      && (Unbound(ns, local) <==> LeavesAlone(last, local) && Unbound(front, local))
  {
    hide LastBinds, LeavesAlone;
    var front, last := ns[..|ns| - 1], ns[|ns| - 1];
    assert forall i :: 0 <= i < |front| ==> front[i] == ns[i];
    if LeavesAlone(last, local) && BoundTo(front, local, d) {
      var i :| 0 <= i < |front| && LastBinds(front[i], local, d)
               && forall h :: i < h < |front| ==> LeavesAlone(front[h], local);
      assert LastBinds(ns[i], local, d);
    }
  }

  /** What a name stands for after the imports: what the last import that binds it says. */
  lemma {:induction false} CollectIff(ns: seq<Node>, local: Dotted, d: Dotted)
    ensures Maps(Collect(ns, map[]), local, d) <==> BoundTo(ns, local, d)
    decreases |ns|
  {
    hide Collect, Collected, LastBinds, LeavesAlone, BoundTo, Unbound;
    if ns == [] {
      NothingBound(local, d);
    } else {
      CollectIff(ns[..|ns| - 1], local, d);
      CollectSnoc(ns, map[]);
      CollectedIff(Collect(ns[..|ns| - 1], map[]), ns[|ns| - 1], local, d);
      BoundSnoc(ns, local, d);
    }
  }

  lemma NothingBound(local: Dotted, d: Dotted)
    ensures !BoundTo([], local, d) && Collect([], map[]) == map[]
  {
  }

  // ---- Dotted expressions --------------------------------------------------------------------------

  /** The expression is the name `id` with the attributes `attrs`. */
  predicate IsChain(n: Node, id: string, attrs: Dotted)
    decreases |attrs|
  {
    if attrs == [] then n == Name(id)
    else n.Attribute? && n.attr == attrs[|attrs| - 1] && IsChain(n.value, id, attrs[..|attrs| - 1])
  }

  /** With these nodes in the module, the name stands for d: for what it was last imported as, or for itself. */
  ghost predicate StandsFor(ns: seq<Node>, id: string, d: Dotted) {
    BoundTo(ns, [id], d) || (d == [id] && forall e :: !BoundTo(ns, [id], e))
  }

  ghost predicate Denotes(ns: seq<Node>, n: Node, d: Dotted) {
    exists id, attrs, v :: IsChain(n, id, attrs) && StandsFor(ns, id, v) && d == v + attrs
  }

  function Looked(m: Symbols, id: string): Dotted {
    if [id] in m then m[[id]] else [id]
  }

  lemma {:induction false} ChainResolves(n: Node, m: Symbols, id: string, attrs: Dotted)
    requires IsChain(n, id, attrs)
    ensures Resolve(n, m) == Some(Looked(m, id) + attrs)
    decreases |attrs|
  {
    if attrs == [] {
      assert Looked(m, id) + [] == Looked(m, id);
    } else {
      var front, last := attrs[..|attrs| - 1], attrs[|attrs| - 1];
      ChainResolves(n.value, m, id, front);
      assert Looked(m, id) + front + [last] == Looked(m, id) + attrs;
    }
  }

  lemma {:induction false} ResolvedIsChain(n: Node, m: Symbols) returns (id: string, attrs: Dotted)
    requires Resolve(n, m).Some?
    ensures IsChain(n, id, attrs)
  {
    if n.Name? {
      id, attrs := n.id, [];
    } else {
      var front;
      id, front := ResolvedIsChain(n.value, m);
      attrs := front + [n.attr];
      assert attrs[..|attrs| - 1] == front;
    }
  }

  lemma ChainIff(n: Node, m: Symbols, d: Dotted)
    ensures Resolve(n, m) == Some(d) <==> exists id, attrs :: IsChain(n, id, attrs) && d == Looked(m, id) + attrs
  {
    hide IsChain, Resolve, Looked;
    if Resolve(n, m).Some? {
      var id, attrs := ResolvedIsChain(n, m);
      ChainResolves(n, m, id, attrs);
    }
    if id, attrs :| IsChain(n, id, attrs) && d == Looked(m, id) + attrs {
      ChainResolves(n, m, id, attrs);
    }
  }

  lemma StandsForIff(ns: seq<Node>, id: string, v: Dotted)
    ensures v == Looked(Collect(ns, map[]), id) <==> StandsFor(ns, id, v)
  {
    hide Collect, BoundTo;
    var m := Collect(ns, map[]);
    forall e ensures Maps(m, [id], e) <==> BoundTo(ns, [id], e) { CollectIff(ns, [id], e); }
    if [id] in m { assert Maps(m, [id], m[[id]]); }
  }

  /** An expression resolves to d exactly when it denotes d. */
  lemma ResolveIff(ns: seq<Node>, n: Node, d: Dotted)
    ensures Resolve(n, Collect(ns, map[])) == Some(d) <==> Denotes(ns, n, d)
  {
    hide Collect, StandsFor, Resolve, IsChain, Looked;
    var m := Collect(ns, map[]);
    ChainIff(n, m, d);
    if id, attrs :| IsChain(n, id, attrs) && d == Looked(m, id) + attrs {
      StandsForIff(ns, id, Looked(m, id));
    }
    if id, attrs, v :| IsChain(n, id, attrs) && StandsFor(ns, id, v) && d == v + attrs {
      StandsForIff(ns, id, v);
    }
  }

  // ---- The table of weak cryptography --------------------------------------------------------------

  predicate EndsIn(d: Dotted, a: string, b: string) {
    |d| >= 2 && d[|d| - 2] == a && d[|d| - 1] == b
  }

  /** s spells the lower-case word w in letters of either case. */
  predicate Spells(s: string, w: string) {
    |s| == |w| && forall i :: 0 <= i < |s| ==> s[i] == w[i] || ('a' <= w[i] <= 'z' && s[i] as int + 32 == w[i] as int)
  }

  ghost predicate WeakName(args: seq<Node>, s: string) {
    && args != [] && args[0] == Constant(Str(s))
    && (Spells(s, "md5") || Spells(s, "sha1") || Spells(s, "md4") || Spells(s, "md2"))
  }

  predicate IsKeySize(k: Node) {
    k.Keyword? && k.arg == "key_size"
  }

  /** The last key_size keyword is the literal b. */
  predicate LastKeySize(keywords: seq<Node>, b: int) {
    exists i :: 0 <= i < |keywords| && LastAt(keywords, i, b)
  }

  predicate LastAt(keywords: seq<Node>, i: int, b: int)
    requires 0 <= i < |keywords|
  {
    && keywords[i] == Keyword("key_size", Constant(Int(b)))
    && forall j :: i < j < |keywords| ==> !IsKeySize(keywords[j])
  }

  predicate CbcGiven(args: seq<Node>, keywords: seq<Node>) {
    || (exists i :: 0 <= i < |args| && args[i].Attribute? && args[i].attr == "MODE_CBC")
    || (exists i :: 0 <= i < |keywords| && keywords[i].Keyword? && keywords[i].value.Attribute?
                    && keywords[i].value.attr == "MODE_CBC")
  }

  ghost predicate RsaCall(d: Dotted, args: seq<Node>, keywords: seq<Node>, l: Label) {
    || (EndsIn(d, "rsa", "generate_private_key")
        && (l.RsaBits? ==> LastKeySize(keywords, l.bits))
        && (!l.RsaBits? ==> l == Fixed("RSA") && forall b :: !LastKeySize(keywords, b)))
    || (EndsIn(d, "RSA", "generate")
        && (l.RsaBits? ==> args != [] && args[0] == Constant(Int(l.bits)))
        && (!l.RsaBits? ==> l == Fixed("RSA") && forall b :: args == [] || args[0] != Constant(Int(b))))
  }

  /** The curve is named by the first argument or, if that is a call, by what it calls. */
  ghost predicate EcCall(d: Dotted, args: seq<Node>, l: Label) {
    EndsIn(d, "ec", "generate_private_key")
    && if args == [] then l == Fixed("EC") else
       var f := if args[0].Call? then args[0].func else args[0];
       match f
       case Attribute(_, attr, _) => l == Curve(attr, false)
       case Name(id) => l == Curve(id, true)
       case _ => l == Fixed("EC")
  }

  predicate CipherCall(d: Dotted, l: Label, kind: string) {
    || (EndsIn(d, "DES", "new") && l == Fixed("DES") && kind == "des_cipher")
    || (EndsIn(d, "DES3", "new") && l == Fixed("3DES") && kind == "des_cipher")
    || (EndsIn(d, "ARC4", "new") && l == Fixed("RC4") && kind == "rc4_cipher")
    || (EndsIn(d, "Blowfish", "new") && l == Fixed("Blowfish") && kind == "blowfish_cipher")
    || (EndsIn(d, "algorithms", "TripleDES") && l == Fixed("3DES") && kind == "des_cipher")
    || (EndsIn(d, "algorithms", "ARC4") && l == Fixed("RC4") && kind == "rc4_cipher")
    || (EndsIn(d, "algorithms", "Blowfish") && l == Fixed("Blowfish") && kind == "blowfish_cipher")
    || (EndsIn(d, "modes", "CBC") && l == Fixed("AES-CBC") && kind == "aes_cbc")
  }

  /** What a call of d is reported as; the rows exclude each other. */
  ghost predicate WeakCall(d: Dotted, args: seq<Node>, keywords: seq<Node>, l: Label, kind: string) {
    || (d == ["hashlib", "md5"] && l == Fixed("MD5") && kind == "weak_hash")
    || (d == ["hashlib", "sha1"] && l == Fixed("SHA1") && kind == "weak_hash")
    || (d == ["hashlib", "new"] && l.Digest? && WeakName(args, l.name) && kind == "weak_hash")
    || (RsaCall(d, args, keywords, l) && kind == "rsa_keygen")
    || ((EndsIn(d, "dsa", "generate_private_key") || EndsIn(d, "DSA", "generate"))
        && l == Fixed("DSA") && kind == "dsa_keygen")
    || (EcCall(d, args, l) && kind == "ecdsa_keygen")
    || (EndsIn(d, "AES", "new") && CbcGiven(args, keywords) && l == Fixed("AES-CBC") && kind == "aes_cbc")
    || CipherCall(d, l, kind)
  }

  lemma LastAtCons(k: Node, rest: seq<Node>, i: nat, b: int)
    requires i < |rest|
    ensures LastAt([k] + rest, i + 1, b) <==> LastAt(rest, i, b)
  {
    var all := [k] + rest;
    assert forall j :: 0 <= j < |rest| ==> all[j + 1] == rest[j];
    if LastAt(all, i + 1, b) {
      forall j | i < j < |rest| ensures !IsKeySize(rest[j]) { assert all[j + 1] == rest[j]; }
    }
    if LastAt(rest, i, b) {
      forall j | i + 1 < j < |all| ensures !IsKeySize(all[j]) { assert all[j] == rest[j - 1]; }
    }
  }

  lemma FirstIsLast(k: Node, rest: seq<Node>, b: int)
    ensures LastAt([k] + rest, 0, b) <==>
      k == Keyword("key_size", Constant(Int(b))) && forall j :: 0 <= j < |rest| ==> !IsKeySize(rest[j])
  {
    var all := [k] + rest;
    if LastAt(all, 0, b) {
      forall j | 0 <= j < |rest| ensures !IsKeySize(rest[j]) { assert all[j + 1] == rest[j]; }
    }
    if forall j :: 0 <= j < |rest| ==> !IsKeySize(rest[j]) {
      forall j | 0 < j < |all| ensures !IsKeySize(all[j]) { assert all[j] == rest[j - 1]; }
    }
  }

  lemma LastKeySizeCons(k: Node, rest: seq<Node>, b: int)
    ensures LastKeySize([k] + rest, b) <==>
      || LastKeySize(rest, b)
      || (k == Keyword("key_size", Constant(Int(b))) && forall j :: 0 <= j < |rest| ==> !IsKeySize(rest[j]))
  {
    hide LastAt, IsKeySize;
    var all := [k] + rest;
    FirstIsLast(k, rest, b);
    if i :| 0 <= i < |rest| && LastAt(rest, i, b) {
      LastAtCons(k, rest, i, b);
      assert LastAt(all, i + 1, b);
    }
    if i :| 0 <= i < |all| && LastAt(all, i, b) {
      if i > 0 { LastAtCons(k, rest, i - 1, b); }
    }
  }

  lemma {:induction false} KeySizeIff(keywords: seq<Node>, bits: Option<int>, b: int)
    ensures KeySize(keywords, bits) == Some(b) <==>
      || LastKeySize(keywords, b)
      || (bits == Some(b) && forall j :: 0 <= j < |keywords| ==> !IsKeySize(keywords[j]))
    decreases |keywords|
  {
    hide LastKeySize;
    if keywords == [] {
      NoKeySize(b);
    } else {
      var rest, k := keywords[1..], keywords[0];
      assert keywords == [k] + rest;
      KeySizeIff(rest, if k.Keyword? && k.arg == "key_size" then ConstInt(k.value) else bits, b);
      LastKeySizeCons(k, rest, b);
      assert forall j :: 0 <= j < |rest| ==> keywords[j + 1] == rest[j];
    }
  }

  lemma NoKeySize(b: int)
    ensures !LastKeySize([], b)
  {
  }

  lemma {:induction false} CbcArgIff(args: seq<Node>)
    ensures CbcArg(args) <==> exists i :: 0 <= i < |args| && args[i].Attribute? && args[i].attr == "MODE_CBC"
  {
    if args != [] {
      CbcArgIff(args[1..]);
      assert args == [args[0]] + args[1..];
      if i :| 0 <= i < |args[1..]| && args[1..][i].Attribute? && args[1..][i].attr == "MODE_CBC" {
        assert args[i + 1] == args[1..][i];
      }
    }
  }

  lemma {:induction false} CbcKeywordIff(keywords: seq<Node>)
    ensures CbcKeyword(keywords) <==>
      exists i :: 0 <= i < |keywords| && keywords[i].Keyword? && keywords[i].value.Attribute?
                  && keywords[i].value.attr == "MODE_CBC"
  {
    if keywords != [] {
      var rest := keywords[1..];
      CbcKeywordIff(rest);
      assert keywords == [keywords[0]] + rest;
      if i :| 0 <= i < |rest| && rest[i].Keyword? && rest[i].value.Attribute? && rest[i].value.attr == "MODE_CBC" {
        assert keywords[i + 1] == rest[i];
      }
    }
  }

  lemma LowerIff(s: string, w: string)
    requires forall i :: 0 <= i < |w| ==> 'a' <= w[i] <= 'z' || '0' <= w[i] <= '9'
    ensures Lower(s) == w <==> Spells(s, w)
  {
  }

  lemma WeakDigestIff(s: string)
    ensures WeakDigest(s) <==> Spells(s, "md5") || Spells(s, "sha1") || Spells(s, "md4") || Spells(s, "md2")
  {
    hide Lower, Spells;
    LowerIff(s, "md5");
    LowerIff(s, "sha1");
    LowerIff(s, "md4");
    LowerIff(s, "md2");
  }

  lemma EndsInIff(d: Dotted, a: string, b: string)
    requires a != ""
    ensures EndsIn(d, a, b) <==> Object(d) == a && Last(d) == b
  {
  }

  lemma SymbolRuleIff(d: Dotted, l: Label, kind: string)
    ensures SymbolRule(d) == Some((l, kind)) <==>
      || ((EndsIn(d, "dsa", "generate_private_key") || EndsIn(d, "DSA", "generate"))
          && l == Fixed("DSA") && kind == "dsa_keygen")
      || CipherCall(d, l, kind)
  {
    hide EndsIn, Object, Last;
    forall a, b | a != "" ensures EndsIn(d, a, b) <==> Object(d) == a && Last(d) == b { EndsInIff(d, a, b); }
  }

  lemma NewDigestIff(args: seq<Node>, l: Label)
    ensures var name := if args == [] then None else ConstStr(args[0]);
      (name.Some? && WeakDigest(name.value) && l == Digest(name.value)) <==> l.Digest? && WeakName(args, l.name)
  {
    hide WeakDigest, Spells;
    if args != [] && ConstStr(args[0]).Some? { WeakDigestIff(ConstStr(args[0]).value); }
  }

  lemma RsaPrivateIff(keywords: seq<Node>, l: Label)
    ensures l == RsaLabel(KeySize(keywords, None)) <==>
      && (l.RsaBits? ==> LastKeySize(keywords, l.bits))
      && (!l.RsaBits? ==> l == Fixed("RSA") && forall b :: !LastKeySize(keywords, b))
  {
    hide LastKeySize;
    forall b ensures KeySize(keywords, None) == Some(b) <==> LastKeySize(keywords, b) { KeySizeIff(keywords, None, b); }
  }

  lemma RsaGenerateIff(args: seq<Node>, l: Label)
    ensures l == RsaLabel(if args == [] then None else ConstInt(args[0])) <==>
      && (l.RsaBits? ==> args != [] && args[0] == Constant(Int(l.bits)))
      && (!l.RsaBits? ==> l == Fixed("RSA") && forall b :: args == [] || args[0] != Constant(Int(b)))
  {
    if args != [] && args[0].Constant? && args[0].constant.Int? {
      assert args[0] == Constant(Int(args[0].constant.n));
    }
  }

  lemma EcIff(d: Dotted, args: seq<Node>, l: Label)
    requires EndsIn(d, "ec", "generate_private_key")
    ensures l == CurveLabel(args) <==> EcCall(d, args, l)
  {
  }

  lemma CbcIff(args: seq<Node>, keywords: seq<Node>)
    ensures HasModeCbc(args, keywords) <==> CbcGiven(args, keywords)
  {
    CbcArgIff(args);
    CbcKeywordIff(keywords);
  }

  lemma HashRuleIff(last: string, args: seq<Node>, keywords: seq<Node>, l: Label, kind: string)
    requires last in {"md5", "sha1", "new"}
    ensures var d := ["hashlib", last];
      CallRule(d, args, keywords) == Some((l, kind)) <==> WeakCall(d, args, keywords, l, kind)
  {
    hide WeakDigest, WeakName, LastKeySize, KeySize, HasModeCbc, CbcGiven, CurveLabel, SymbolRule;
    NewDigestIff(args, l);
  }

  lemma KeygenRuleIff(d: Dotted, args: seq<Node>, keywords: seq<Node>, l: Label, kind: string)
    requires Object(d) in {"rsa", "RSA", "ec"}
    ensures CallRule(d, args, keywords) == Some((l, kind)) <==> WeakCall(d, args, keywords, l, kind)
  {
    hide EndsIn, Object, Last, SymbolRule, CipherCall, WeakDigest, WeakName, LastKeySize, KeySize, HasModeCbc, CbcGiven,
      CurveLabel, EcCall;
    NoHashlib(d);
    SymbolRuleIff(d, l, kind);
    RsaPrivateIff(keywords, l);
    RsaGenerateIff(args, l);
    EndsInIff(d, "rsa", "generate_private_key");
    EndsInIff(d, "RSA", "generate");
    EndsInIff(d, "ec", "generate_private_key");
    EndsInIff(d, "AES", "new");
    EcStarts(d, args, l);
    CipherEnds(d, l, kind);
    EndsInIff(d, "dsa", "generate_private_key");
    EndsInIff(d, "DSA", "generate");
    if EndsIn(d, "ec", "generate_private_key") { EcIff(d, args, l); }
  }

  lemma NoHashlib(d: Dotted)
    requires Object(d) != "hashlib"
    ensures forall last :: d != ["hashlib", last]
  {
  }

  lemma OtherRuleIff(d: Dotted, args: seq<Node>, keywords: seq<Node>, l: Label, kind: string)
    requires Object(d) !in {"rsa", "RSA", "ec"} && d !in {["hashlib", "md5"], ["hashlib", "sha1"], ["hashlib", "new"]}
    ensures CallRule(d, args, keywords) == Some((l, kind)) <==> WeakCall(d, args, keywords, l, kind)
  {
    hide EndsIn, Object, Last, SymbolRule, CipherCall, WeakDigest, WeakName, LastKeySize, KeySize, HasModeCbc, CbcGiven,
      CurveLabel, EcCall;
    SymbolRuleIff(d, l, kind);
    CbcIff(args, keywords);
    EndsInIff(d, "rsa", "generate_private_key");
    EndsInIff(d, "RSA", "generate");
    EndsInIff(d, "ec", "generate_private_key");
    EndsInIff(d, "AES", "new");
    EcStarts(d, args, l);
    CipherEnds(d, l, kind);
    EndsInIff(d, "dsa", "generate_private_key");
    EndsInIff(d, "DSA", "generate");
  }

  /** The rules report a call of d exactly as the table says: no rule hides another. */
  lemma CallRuleIff(d: Dotted, args: seq<Node>, keywords: seq<Node>, l: Label, kind: string)
    ensures CallRule(d, args, keywords) == Some((l, kind)) <==> WeakCall(d, args, keywords, l, kind)
  {
    hide CallRule, WeakCall, Object;
    if Object(d) in {"rsa", "RSA", "ec"} {
      KeygenRuleIff(d, args, keywords, l, kind);
    } else if d in {["hashlib", "md5"], ["hashlib", "sha1"], ["hashlib", "new"]} {
      HashRuleIff(d[1], args, keywords, l, kind);
    } else {
      OtherRuleIff(d, args, keywords, l, kind);
    }
  }

  lemma EcStarts(d: Dotted, args: seq<Node>, l: Label)
    ensures EcCall(d, args, l) ==> EndsIn(d, "ec", "generate_private_key")
  {
  }

  lemma CipherEnds(d: Dotted, l: Label, kind: string)
    ensures CipherCall(d, l, kind) ==>
      || Object(d) == "algorithms" || Object(d) == "modes"
      || (Last(d) == "new" && Object(d) in {"DES", "DES3", "ARC4", "Blowfish"})
  {
  }

  // ---- The report ------------------------------------------------------------------------------------

  predicate LegacyProtocol(attr: string, l: Label) {
    || (attr == "PROTOCOL_TLSv1" && l == Fixed("TLSv1"))
    || (attr == "PROTOCOL_TLSv1_1" && l == Fixed("TLSv1.1"))
    || (attr == "PROTOCOL_SSLv3" && l == Fixed("SSLv3"))
    || (attr == "PROTOCOL_SSLv23" && l == Fixed("SSLv23"))
  }

  /** Node n, in a module with these nodes, is to be reported as h. */
  ghost predicate Reports(ns: seq<Node>, n: Node, h: Hit) {
    || (n.Call? && h.line == n.line
        && exists d :: Denotes(ns, n.func, d) && WeakCall(d, n.args, n.keywords, h.what, h.kind))
    || (n.Attribute? && h.line == n.line && h.kind == "weak_tls_proto" && LegacyProtocol(n.attr, h.what)
        && exists d :: Denotes(ns, n, d) && EndsIn(d, "ssl", n.attr))
  }

  lemma CallReports(ns: seq<Node>, n: Node, h: Hit)
    requires n.Call?
    ensures h in Visit(n, Collect(ns, map[])) <==> Reports(ns, n, h)
  {
    hide Collect, Denotes, WeakCall, CallRule, Resolve;
    var m := Collect(ns, map[]);
    var canon := Resolve(n.func, m);
    forall d ensures canon == Some(d) <==> Denotes(ns, n.func, d) { ResolveIff(ns, n.func, d); }
    if canon.Some? {
      CallRuleIff(canon.value, n.args, n.keywords, h.what, h.kind);
    }
  }

  lemma ProtocolIff(attr: string, name: string)
    ensures WeakProtocol(attr) == Some(name) <==> LegacyProtocol(attr, Fixed(name))
  {
  }

  lemma AttributeReports(ns: seq<Node>, n: Node, h: Hit)
    requires n.Attribute?
    ensures h in Visit(n, Collect(ns, map[])) <==> Reports(ns, n, h)
  {
    hide Collect, Denotes, Resolve, WeakProtocol, LegacyProtocol, Object, Last, EndsIn;
    var m := Collect(ns, map[]);
    var canon := Resolve(n, m);
    forall d ensures canon == Some(d) <==> Denotes(ns, n, d) { ResolveIff(ns, n, d); }
    forall name ensures WeakProtocol(n.attr) == Some(name) <==> LegacyProtocol(n.attr, Fixed(name)) {
      ProtocolIff(n.attr, name);
    }
    ProtocolIsFixed(n.attr, h.what);
    if canon.Some? { EndsInIff(canon.value, "ssl", n.attr); }
  }

  lemma ProtocolIsFixed(attr: string, l: Label)
    ensures LegacyProtocol(attr, l) ==> l.Fixed?
  {
  }

  lemma {:induction false} VisitAllIff(ns: seq<Node>, m: Symbols, h: Hit)
    ensures h in VisitAll(ns, m) <==> exists n :: n in ns && h in Visit(n, m)
  {
    hide Visit;
    if ns != [] {
      VisitAllIff(ns[1..], m, h);
      assert ns == [ns[0]] + ns[1..];
    }
  }

  lemma VisitedIsFound(ns: seq<Node>, m: Symbols, h: Hit, n: Node)
    requires n in ns && h in Visit(n, m)
    ensures h in VisitAll(ns, m)
  {
    VisitAllIff(ns, m, h);
  }

  lemma VisitIff(ns: seq<Node>, n: Node, h: Hit)
    ensures h in Visit(n, Collect(ns, map[])) <==> Reports(ns, n, h)
  {
    hide Collect, Visit, Reports;
    if n.Call? {
      CallReports(ns, n, h);
    } else if n.Attribute? {
      AttributeReports(ns, n, h);
    } else {
      OthersReportNothing(ns, n, h);
    }
  }

  /** The analyzer reports exactly what is there: a hit for each node of the tree that is to be reported, and no other;
      names are taken by the imports of the whole tree, read level by level. */
  lemma HitIff(tree: Node, h: Hit)
    ensures h in Analyze(tree) <==> exists n :: Occurs(n, tree) && Reports(Walk([tree]), n, h)
  {
    hide Walk, Collect, Visit, Reports, Occurs, VisitAll;
    var ns := Walk([tree]);
    var m := Collect(ns, map[]);
    if h in Analyze(tree) {
      VisitAllIff(ns, m, h);
      var n :| n in ns && h in Visit(n, m);
      VisitIff(ns, n, h);
      WalkReachesTheTree(tree, n);
    }
    if n :| Occurs(n, tree) && Reports(ns, n, h) {
      VisitIff(ns, n, h);
      WalkReachesTheTree(tree, n);
      VisitedIsFound(ns, m, h, n);
      assert h in Analyze(tree);
    }
  }

  lemma OthersReportNothing(ns: seq<Node>, n: Node, h: Hit)
    requires !n.Call? && !n.Attribute?
    ensures Visit(n, Collect(ns, map[])) == [] && !Reports(ns, n, h)
  {
  }
}
