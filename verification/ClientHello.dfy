/**
  The TLS ClientHello extractor of probes/_pcap.py, against the encoding of sections 4.1.2, 4.2.1, 4.2.7 and 4.2.8
  of RFC 8446.  A struct.error or IndexError of the source is None; the ServerHello branch is not modelled.
  */
module ClientHello {
  import opened Common
  import opened Bytes

  const SUPPORTED_GROUPS := 0x000A
  const SUPPORTED_VERSIONS := 0x002B
  const KEY_SHARE := 0x0033

  // ---- The extractor ---------------------------------------------------------------------

  /** The 16-bit words of `b[i:e]`, a trailing odd byte ignored: the list comprehensions over
      `range(0, len - 1, 2)`, with e already clamped to the buffer. */
  function Words(b: bytes, i: nat, e: nat): seq<int>
    requires e <= |b|
    decreases if i < e then e - i else 0
  {
    if i + 2 > e then [] else [ReadU16(b, i)] + Words(b, i + 2, e)
  }

  /** The version list of n bytes after its length byte; None where the last unpack is short. */
  function Versions(ev: bytes, j: nat, n: nat): Option<seq<int>>
    decreases if j < n then n - j else 0
  {
    if j + 1 >= n then Some([])
    else if 3 + j > |ev| then None
    else
      var rest := Versions(ev, j + 2, n);
      if rest.None? then None else Some([ReadU16(ev, 1 + j)] + rest.value)
  }

  function KeyShares(b: bytes, j: nat): seq<int>
    decreases if j < |b| then |b| - j else 0
  {
    if j + 4 > |b| then [] else [ReadU16(b, j)] + KeyShares(b, j + 4 + ReadU16(b, j + 2))
  }

  /** `_parse_key_share_groups`. */
  method ParseKeyShareGroups(entries: bytes) returns (out: seq<int>)
    ensures out == KeyShares(entries, 0)
  {
    out := [];
    var j: nat := 0;
    while j + 4 <= |entries|
      invariant out + KeyShares(entries, j) == KeyShares(entries, 0)
      decreases if j < |entries| then |entries| - j else 0
    {
      var group, klen := ReadU16(entries, j), ReadU16(entries, j + 2);
      ConcatAssoc(out, [group], KeyShares(entries, j + 4 + klen));
      out := out + [group];
      j := j + 4 + klen;
    }
  }

  datatype Offer = Offer(versions: seq<int>, groups: seq<int>, shares: seq<int>)

  /** One extension: a later supported_versions replaces, groups and key shares accumulate. */
  function Noted(o: Offer, kind: nat, ev: bytes): Option<Offer> {
    if kind == SUPPORTED_VERSIONS && ev != [] then
      var v := Versions(ev, 0, ev[0]);
      if v.None? then None else Some(o.(versions := v.value))
    else if kind == SUPPORTED_GROUPS && |ev| >= 2 then
      Some(o.(groups := o.groups + Words(ev, 2, Min(2 + ReadU16(ev, 0), |ev|))))
    else if kind == KEY_SHARE && |ev| >= 2 then
      Some(o.(shares := o.shares + KeyShares(Slice(ev, 2, 2 + ReadU16(ev, 0)), 0)))
    else Some(o)
  }

  /** One extension as it stands on the wire. */
  datatype Item = Item(kind: nat, data: bytes)

  function Items(b: bytes, i: nat): seq<Item>
    decreases if i < |b| then |b| - i else 0
  {
    if i + 4 > |b| then [] else
      var kind, n := ReadU16(b, i), ReadU16(b, i + 2);
      [Item(kind, Slice(b, i + 4, i + 4 + n))] + Items(b, i + 4 + n)
  }

  function NoteAll(o: Offer, items: seq<Item>): Option<Offer>
    decreases |items|
  {
    if items == [] then Some(o) else
      var next := Noted(o, items[0].kind, items[0].data);
      if next.None? then None else NoteAll(next.value, items[1..])
  }

  function Extensions(b: bytes): Option<Offer> {
    NoteAll(Offer([], [], []), Items(b, 0))
  }

  lemma {:induction false} NoteStep(o: Offer, x: Item, rest: seq<Item>, next: Option<Offer>)
    requires Noted(o, x.kind, x.data) == next
    ensures NoteAll(o, [x] + rest) == if next.None? then None else NoteAll(next.value, rest)
  {
    assert ([x] + rest)[1..] == rest;
  }

  /** `_parse_client_extensions`. */
  method ParseClientExtensions(exts: bytes) returns (r: Option<Offer>)
    ensures r == Extensions(exts)
  {
    hide Noted, ReadU16, Slice;
    var o := Offer([], [], []);
    var i: nat := 0;
    while i + 4 <= |exts|
      invariant NoteAll(o, Items(exts, i)) == Extensions(exts)
      decreases if i < |exts| then |exts| - i else 0
    {
      var kind, n := ReadU16(exts, i), ReadU16(exts, i + 2);
      var data := Slice(exts, i + 4, i + 4 + n);
      var next := Noted(o, kind, data);
      NoteStep(o, Item(kind, data), Items(exts, i + 4 + n), next);
      if next.None? {
        return None;
      }
      o := next.value;
      i := i + 4 + n;
    }
    return Some(o);
  }

  datatype Hello = Hello(legacyVersion: nat, suites: seq<int>, versions: seq<int>, groups: seq<int>, shares: seq<int>)

  function HelloOf(legacy: nat, suites: seq<int>, o: Offer): Hello {
    Hello(legacy, suites, o.versions, Dedupe(o.groups + o.shares), o.shares)
  }

  /** From the compression methods on. */
  function HelloTail(body: bytes, off: nat, legacy: nat, suites: seq<int>): Option<Hello> {
    if |body| < off + 1 then Some(Hello(legacy, suites, [], [], []))
    else
      var e := off + 1 + body[off] as int;
      if |body| < e + 2 then Some(HelloOf(legacy, suites, Offer([], [], [])))
      else
        var o := Extensions(Slice(body, e + 2, e + 2 + ReadU16(body, e)));
        if o.None? then None else Some(HelloOf(legacy, suites, o.value))
  }

  /** `_parse_client_hello`. */
  function ParseBody(body: bytes): Option<Hello> {
    if |body| < 35 then None else
      var s := 35 + body[34] as int;
      if |body| < s + 2 then None
      else
        var n := ReadU16(body, s);
        HelloTail(body, s + 2 + n, ReadU16(body, 0), Words(body, s + 2, Min(s + 2 + n, |body|)))
  }

  /** `parse_tls_handshake` for a ClientHello; None for any other record. */
  function ParseRecord(payload: bytes): Option<Hello> {
    if |payload| < 9 || payload[0] != 0x16 then None else
      var hs := Slice(payload, 5, 5 + ReadU16(payload, 3));
      if |hs| < 4 || hs[0] != 1 then None
      else ParseBody(Slice(hs, 4, 4 + FromBE(hs[1..4])))
  }

  // ---- The encoding ------------------------------------------------------------------------

  predicate Word(n: int) {
    0 <= n < 65536
  }

  predicate AllWords(ns: seq<int>) {
    forall i :: 0 <= i < |ns| ==> Word(ns[i])
  }

  function EncodeWords(ns: seq<int>): (b: bytes)
    requires AllWords(ns)
    ensures |b| == 2 * |ns|
  {
    if ns == [] then [] else U16(ns[0]) + EncodeWords(ns[1..])
  }

  datatype Share = Share(group: int, key: bytes)

  predicate SharesOk(ss: seq<Share>) {
    forall i :: 0 <= i < |ss| ==> Word(ss[i].group) && |ss[i].key| < 65536
  }

  function EncodeShares(ss: seq<Share>): bytes
    requires SharesOk(ss)
  {
    if ss == [] then [] else U16(ss[0].group) + U16(|ss[0].key|) + ss[0].key + EncodeShares(ss[1..])
  }

  function Groups(ss: seq<Share>): seq<int> {
    if ss == [] then [] else [ss[0].group] + Groups(ss[1..])
  }

  datatype Ext =
    | VersionsExt(versions: seq<int>, tail: bytes)
    | GroupsExt(groups: seq<int>, tail: bytes)
    | SharesExt(shares: seq<Share>, tail: bytes)
    | OtherExt(kind: int, data: bytes)

  predicate ExtOk(x: Ext) {
    match x
    case VersionsExt(vs, tail) => AllWords(vs) && |vs| <= 127 && 1 + 2 * |vs| + |tail| < 65536
    case GroupsExt(gs, tail) => AllWords(gs) && 2 + 2 * |gs| + |tail| < 65536
    case SharesExt(ss, tail) => SharesOk(ss) && 2 + |EncodeShares(ss)| + |tail| < 65536
    case OtherExt(kind, data) =>
      Word(kind) && |data| < 65536 && kind !in {10, 43, 51}
  }

  predicate ExtsOk(xs: seq<Ext>) {
    forall i :: 0 <= i < |xs| ==> ExtOk(xs[i])
  }

  function ExtKind(x: Ext): nat
    requires ExtOk(x)
  {
    match x
    case VersionsExt(_, _) => 43
    case GroupsExt(_, _) => 10
    case SharesExt(_, _) => 51
    case OtherExt(kind, _) => kind
  }

  function ExtData(x: Ext): (b: bytes)
    requires ExtOk(x)
    ensures |b| < 65536
  {
    match x
    case VersionsExt(vs, tail) => [2 * |vs|] + EncodeWords(vs) + tail
    case GroupsExt(gs, tail) => U16(2 * |gs|) + EncodeWords(gs) + tail
    case SharesExt(ss, tail) => U16(|EncodeShares(ss)|) + EncodeShares(ss) + tail
    case OtherExt(_, data) => data
  }

  predicate ItemsOk(items: seq<Item>) {
    forall i :: 0 <= i < |items| ==> Word(items[i].kind) && |items[i].data| < 65536
  }

  function EncodeItems(items: seq<Item>): bytes
    requires ItemsOk(items)
  {
    if items == [] then [] else
      U16(items[0].kind) + U16(|items[0].data|) + items[0].data + EncodeItems(items[1..])
  }

  function ItemOf(x: Ext): Item
    requires ExtOk(x)
  {
    Item(ExtKind(x), ExtData(x))
  }

  function ItemsOf(xs: seq<Ext>): (r: seq<Item>)
    requires ExtsOk(xs)
    ensures |r| == |xs| && ItemsOk(r)
  {
    if xs == [] then [] else [ItemOf(xs[0])] + ItemsOf(xs[1..])
  }

  function EncodeExts(xs: seq<Ext>): bytes
    requires ExtsOk(xs)
  {
    EncodeItems(ItemsOf(xs))
  }

  /** What the extensions offer. */
  function Offered(o: Offer, x: Ext): Offer {
    match x
    case VersionsExt(vs, _) => o.(versions := vs)
    case GroupsExt(gs, _) => o.(groups := o.groups + gs)
    case SharesExt(ss, _) => o.(shares := o.shares + Groups(ss))
    case OtherExt(_, _) => o
  }

  function OfferedAll(o: Offer, xs: seq<Ext>): Offer
    decreases |xs|
  {
    if xs == [] then o else OfferedAll(Offered(o, xs[0]), xs[1..])
  }

  // ---- Lists ----------------------------------------------------------------------------------

  lemma {:induction false} WordsRead(b: bytes, i: nat, ns: seq<int>)
    requires AllWords(ns) && At(b, i, EncodeWords(ns))
    ensures Words(b, i, i + 2 * |ns|) == ns
    decreases |ns|
  {
    if ns != [] {
      AtConcat(b, i, U16(ns[0]), EncodeWords(ns[1..]));
      ReadU16At(b, i, ns[0]);
      WordsRead(b, i + 2, ns[1..]);
      assert ns == [ns[0]] + ns[1..];
    }
  }

  lemma {:induction false} VersionsRead(ev: bytes, j: nat, vs: seq<int>)
    requires AllWords(vs) && At(ev, 1 + j, EncodeWords(vs))
    ensures Versions(ev, j, j + 2 * |vs|) == Some(vs)
    decreases |vs|
  {
    if vs != [] {
      AtConcat(ev, 1 + j, U16(vs[0]), EncodeWords(vs[1..]));
      ReadU16At(ev, 1 + j, vs[0]);
      VersionsRead(ev, j + 2, vs[1..]);
      assert vs == [vs[0]] + vs[1..];
    }
  }

  /** On any bytes: every whole word up to the end ... */
  lemma {:induction false} WordsMean(b: bytes, i: nat, e: nat)
    requires i <= e <= |b|
    ensures |Words(b, i, e)| == (e - i) / 2
    ensures forall k :: 0 <= k < (e - i) / 2 ==> Words(b, i, e)[k] == ReadU16(b, i + 2 * k)
    decreases e - i
  {
    hide ReadU16;
    if i + 2 <= e { WordsMean(b, i + 2, e); }
  }

  /** ... and every whole version the length byte announces, or an error if one of them is cut off. */
  lemma {:induction false} VersionsMean(ev: bytes, j: nat, n: nat)
    requires j <= n
    ensures Versions(ev, j, n).None? <==> (n - j) / 2 > 0 && 1 + j + 2 * ((n - j) / 2) > |ev|
    ensures Versions(ev, j, n).Some? ==> |Versions(ev, j, n).value| == (n - j) / 2
    ensures Versions(ev, j, n).Some? ==> forall k :: 0 <= k < (n - j) / 2 ==>
      1 + j + 2 * k + 2 <= |ev| && Versions(ev, j, n).value[k] == ReadU16(ev, 1 + j + 2 * k)
    decreases n - j
  {
    hide ReadU16;
    if j + 1 < n && 3 + j <= |ev| { VersionsMean(ev, j + 2, n); }
  }

  lemma {:induction false} ShareLayout(b: bytes, j: nat, s: Share, rest: bytes)
    requires Word(s.group) && |s.key| < 65536 && At(b, j, U16(s.group) + U16(|s.key|) + s.key + rest)
    ensures ReadU16(b, j) == s.group && ReadU16(b, j + 2) == |s.key| && At(b, j + 4 + |s.key|, rest)
  {
    var g, n := U16(s.group), U16(|s.key|);
    AtConcat(b, j, g + n + s.key, rest);
    AtConcat(b, j, g + n, s.key);
    AtConcat(b, j, g, n);
    ReadU16At(b, j, s.group);
    ReadU16At(b, j + 2, |s.key|);
  }

  lemma {:induction false} KeySharesStep(b: bytes, j: nat, group: int, n: nat)
    requires j + 4 <= |b| && ReadU16(b, j) == group && ReadU16(b, j + 2) == n
    ensures KeyShares(b, j) == [group] + KeyShares(b, j + 4 + n)
  {
  }

  lemma {:induction false} ShareStep(b: bytes, j: nat, s: Share, rest: bytes)
    requires Word(s.group) && |s.key| < 65536 && At(b, j, U16(s.group) + U16(|s.key|) + s.key + rest)
    ensures KeyShares(b, j) == [s.group] + KeyShares(b, j + 4 + |s.key|) && At(b, j + 4 + |s.key|, rest)
  {
    ShareLayout(b, j, s, rest);
    KeySharesStep(b, j, s.group, |s.key|);
  }

  lemma {:induction false} SharesUnfold(ss: seq<Share>)
    requires SharesOk(ss) && ss != []
    ensures EncodeShares(ss) == U16(ss[0].group) + U16(|ss[0].key|) + ss[0].key + EncodeShares(ss[1..])
    ensures |EncodeShares(ss)| == 4 + |ss[0].key| + |EncodeShares(ss[1..])|
  {
  }

  lemma {:induction false} SharesAdvance(b: bytes, j: nat, ss: seq<Share>) returns (next: nat)
    requires SharesOk(ss) && ss != [] && At(b, j, EncodeShares(ss)) && j + |EncodeShares(ss)| == |b|
    ensures KeyShares(b, j) == [ss[0].group] + KeyShares(b, next)
    ensures At(b, next, EncodeShares(ss[1..])) && next + |EncodeShares(ss[1..])| == |b|
  {
    hide At, U16, ReadU16, KeyShares;
    SharesUnfold(ss);
    ShareStep(b, j, ss[0], EncodeShares(ss[1..]));
    next := j + 4 + |ss[0].key|;
  }

  lemma {:induction false} SharesRead(b: bytes, j: nat, ss: seq<Share>)
    requires SharesOk(ss) && At(b, j, EncodeShares(ss)) && j + |EncodeShares(ss)| == |b|
    ensures KeyShares(b, j) == Groups(ss)
    decreases |ss|
  {
    if ss != [] {
      var next := SharesAdvance(b, j, ss);
      SharesRead(b, next, ss[1..]);
    }
  }

  // ---- Extensions ------------------------------------------------------------------------------

  lemma {:induction false} VersionsNoted(o: Offer, vs: seq<int>, tail: bytes)
    requires AllWords(vs) && |vs| <= 127
    ensures Noted(o, SUPPORTED_VERSIONS, [2 * |vs|] + EncodeWords(vs) + tail) == Some(o.(versions := vs))
  {
    var ev := [2 * |vs|] + EncodeWords(vs) + tail;
    assert At(ev, 1, EncodeWords(vs));
    VersionsRead(ev, 0, vs);
  }

  lemma {:induction false} Prefixed(list: bytes, tail: bytes)
    requires |list| < 65536
    ensures var ev := U16(|list|) + list + tail;
      ReadU16(ev, 0) == |list| && At(ev, 2, list) && Slice(ev, 2, 2 + |list|) == list
  {
    var ev := U16(|list|) + list + tail;
    assert At(ev, 0, U16(|list|)) && At(ev, 2, list);
    ReadU16At(ev, 0, |list|);
    AtSlice(ev, 2, list);
  }

  lemma {:induction false} GroupsNoted(o: Offer, gs: seq<int>, tail: bytes)
    requires AllWords(gs) && |gs| <= 32766
    ensures Noted(o, SUPPORTED_GROUPS, U16(2 * |gs|) + EncodeWords(gs) + tail) == Some(o.(groups := o.groups + gs))
  {
    Prefixed(EncodeWords(gs), tail);
    WordsRead(U16(2 * |gs|) + EncodeWords(gs) + tail, 2, gs);
  }

  lemma {:induction false} SharesNoted(o: Offer, ss: seq<Share>, tail: bytes)
    requires SharesOk(ss) && |EncodeShares(ss)| <= 65533
    ensures Noted(o, KEY_SHARE, U16(|EncodeShares(ss)|) + EncodeShares(ss) + tail)
         == Some(o.(shares := o.shares + Groups(ss)))
  {
    Prefixed(EncodeShares(ss), tail);
    SharesRead(EncodeShares(ss), 0, ss);
  }

  lemma {:induction false} NotedRead(o: Offer, x: Ext)
    requires ExtOk(x)
    ensures Noted(o, ExtKind(x), ExtData(x)) == Some(Offered(o, x))
  {
    match x
    case VersionsExt(vs, tail) => VersionsNoted(o, vs, tail);
    case GroupsExt(gs, tail) => GroupsNoted(o, gs, tail);
    case SharesExt(ss, tail) => SharesNoted(o, ss, tail);
    case OtherExt(_, _) =>
  }

  lemma {:induction false} ItemLayout(b: bytes, i: nat, kind: nat, data: bytes, rest: bytes)
    requires kind < 65536 && |data| < 65536 && At(b, i, U16(kind) + U16(|data|) + data + rest)
    ensures ReadU16(b, i) == kind && ReadU16(b, i + 2) == |data|
    ensures Slice(b, i + 4, i + 4 + |data|) == data && At(b, i + 4 + |data|, rest)
  {
    var k, n := U16(kind), U16(|data|);
    AtConcat(b, i, k + n + data, rest);
    AtConcat(b, i, k + n, data);
    AtConcat(b, i, k, n);
    ReadU16At(b, i, kind);
    ReadU16At(b, i + 2, |data|);
    AtSlice(b, i + 4, data);
  }

  lemma {:induction false} ItemsUnfold(items: seq<Item>)
    requires ItemsOk(items) && items != []
    ensures EncodeItems(items) == U16(items[0].kind) + U16(|items[0].data|) + items[0].data + EncodeItems(items[1..])
    ensures |EncodeItems(items)| == 4 + |items[0].data| + |EncodeItems(items[1..])|
  {
  }

  lemma {:induction false} ItemsKnown(b: bytes, i: nat, kind: nat, data: bytes, rest: seq<Item>)
    requires i + 4 <= |b| && ReadU16(b, i) == kind && ReadU16(b, i + 2) == |data|
    requires Slice(b, i + 4, i + 4 + |data|) == data && Items(b, i + 4 + |data|) == rest
    ensures Items(b, i) == [Item(kind, data)] + rest
  {
  }

  lemma {:induction false} ItemsRead(b: bytes, i: nat, items: seq<Item>)
    requires ItemsOk(items) && At(b, i, EncodeItems(items)) && i + |EncodeItems(items)| == |b|
    ensures Items(b, i) == items
    decreases |items|
  {
    hide At, U16, ReadU16, Slice;
    if items != [] {
      var x, rest := items[0], items[1..];
      ItemsUnfold(items);
      ItemLayout(b, i, x.kind, x.data, EncodeItems(rest));
      ItemsRead(b, i + 4 + |x.data|, rest);
      ItemsKnown(b, i, x.kind, x.data, rest);
      assert items == [Item(x.kind, x.data)] + rest;
    }
  }

  lemma {:induction false} ItemsNoted(o: Offer, xs: seq<Ext>)
    requires ExtsOk(xs)
    ensures NoteAll(o, ItemsOf(xs)) == Some(OfferedAll(o, xs))
    decreases |xs|
  {
    if xs != [] {
      var x, next := ItemOf(xs[0]), Offered(o, xs[0]);
      NotedRead(o, xs[0]);
      NoteStep(o, x, ItemsOf(xs[1..]), Some(next));
      ItemsNoted(next, xs[1..]);
    }
  }

  /** The extension block of any list of extensions is read back as what they offer. */
  lemma {:induction false} ExtensionsRead(xs: seq<Ext>)
    requires ExtsOk(xs)
    ensures Extensions(EncodeExts(xs)) == Some(OfferedAll(Offer([], [], []), xs))
  {
    var b := EncodeExts(xs);
    assert b[0..|b|] == b;
    ItemsRead(b, 0, ItemsOf(xs));
    ItemsNoted(Offer([], [], []), xs);
  }

  // ---- The whole message ------------------------------------------------------------------------

  datatype Message = Message(legacy: nat, random: bytes, session: bytes, suites: seq<int>, compression: bytes,
                             extensions: seq<Ext>)

  predicate MessageOk(m: Message) {
    && Word(m.legacy) && |m.random| == 32 && |m.session| < 256 && AllWords(m.suites) && |m.suites| < 32768
    && |m.compression| < 256 && ExtsOk(m.extensions) && |EncodeExts(m.extensions)| < 65536
  }

  function EncodeBody(m: Message): bytes
    requires MessageOk(m)
  {
    U16(m.legacy) + m.random + [|m.session|] + m.session + U16(2 * |m.suites|) + EncodeWords(m.suites)
    + [|m.compression|] + m.compression + U16(|EncodeExts(m.extensions)|) + EncodeExts(m.extensions)
  }

  function Meaning(m: Message): Hello {
    HelloOf(m.legacy, m.suites, OfferedAll(Offer([], [], []), m.extensions))
  }

  lemma {:induction false} BodyLayout(b: bytes, m: Message)
    requires MessageOk(m) && b == EncodeBody(m)
    ensures var s := 35 + |m.session|; var c := s + 2 + 2 * |m.suites|; var e := c + 1 + |m.compression|;
      && At(b, 0, U16(m.legacy)) && At(b, 34, [|m.session|]) && At(b, s, U16(2 * |m.suites|))
      && At(b, s + 2, EncodeWords(m.suites)) && At(b, c, [|m.compression|])
      && At(b, e, U16(|EncodeExts(m.extensions)|)) && At(b, e + 2, EncodeExts(m.extensions))
      && |b| == e + 2 + |EncodeExts(m.extensions)|
  {
    Layout10(b, U16(m.legacy), m.random, [|m.session|], m.session, U16(2 * |m.suites|), EncodeWords(m.suites),
             [|m.compression|], m.compression, U16(|EncodeExts(m.extensions)|), EncodeExts(m.extensions));
  }

  lemma {:induction false} Layout10(b: bytes, p0: bytes, p1: bytes, p2: bytes, p3: bytes, p4: bytes, p5: bytes,
                                    p6: bytes, p7: bytes, p8: bytes, p9: bytes)
    requires b == p0 + p1 + p2 + p3 + p4 + p5 + p6 + p7 + p8 + p9
    ensures At(b, 0, p0) && At(b, |p0| + |p1|, p2)
    ensures At(b, |p0| + |p1| + |p2| + |p3|, p4) && At(b, |p0| + |p1| + |p2| + |p3| + |p4|, p5)
    ensures At(b, |p0| + |p1| + |p2| + |p3| + |p4| + |p5|, p6)
    ensures At(b, |p0| + |p1| + |p2| + |p3| + |p4| + |p5| + |p6| + |p7|, p8)
    ensures At(b, |p0| + |p1| + |p2| + |p3| + |p4| + |p5| + |p6| + |p7| + |p8|, p9)
  {
    var q2, q4, q6 := p0 + p1 + p2, p0 + p1 + p2 + p3 + p4, p0 + p1 + p2 + p3 + p4 + p5 + p6;
    AtConcat(b, 0, q6 + p7 + p8, p9);
    AtConcat(b, 0, q6 + p7, p8);
    AtConcat(b, 0, q6, p7);
    AtConcat(b, 0, q4 + p5, p6);
    AtConcat(b, 0, q4, p5);
    AtConcat(b, 0, q2 + p3, p4);
    AtConcat(b, 0, q2, p3);
    AtConcat(b, 0, p0 + p1, p2);
    AtConcat(b, 0, p0, p1);
  }

  lemma {:induction false} TailKnown(b: bytes, c: nat, n: nat, x: bytes, legacy: nat, suites: seq<int>, o: Offer)
    requires c + 3 + n + |x| <= |b| && b[c] == n && ReadU16(b, c + 1 + n) == |x|
    requires Slice(b, c + 3 + n, c + 3 + n + |x|) == x && Extensions(x) == Some(o)
    ensures HelloTail(b, c, legacy, suites) == Some(HelloOf(legacy, suites, o))
  {
  }

  lemma {:induction false} TailRead(b: bytes, c: nat, n: nat, x: bytes, legacy: nat, suites: seq<int>, o: Offer)
    requires n < 256 && |x| < 65536 && At(b, c, [n]) && At(b, c + 1 + n, U16(|x|)) && At(b, c + 3 + n, x)
    requires Extensions(x) == Some(o)
    ensures HelloTail(b, c, legacy, suites) == Some(HelloOf(legacy, suites, o))
  {
    AtIndex(b, c, [n], 0);
    ReadU16At(b, c + 1 + n, |x|);
    AtSlice(b, c + 3 + n, x);
    TailKnown(b, c, n, x, legacy, suites, o);
  }

  lemma {:induction false} BodyKnown(b: bytes, sid: nat, n: nat, legacy: nat, suites: seq<int>)
    requires 37 + sid + n <= |b| && b[34] == sid && ReadU16(b, 35 + sid) == n && ReadU16(b, 0) == legacy
    requires Words(b, 37 + sid, 37 + sid + n) == suites
    ensures ParseBody(b) == HelloTail(b, 37 + sid + n, legacy, suites)
  {
    hide HelloTail, Words, ReadU16;
  }

  lemma {:induction false} PartsRead(b: bytes, legacy: nat, sid: nat, suites: seq<int>, n: nat, x: bytes, o: Offer)
    requires legacy < 65536 && sid < 256 && AllWords(suites) && |suites| < 32768 && n < 256 && |x| < 65536
    requires At(b, 0, U16(legacy)) && At(b, 34, [sid]) && At(b, 35 + sid, U16(2 * |suites|))
    requires At(b, 37 + sid, EncodeWords(suites)) && At(b, 37 + sid + 2 * |suites|, [n])
    requires At(b, 38 + sid + 2 * |suites| + n, U16(|x|)) && At(b, 40 + sid + 2 * |suites| + n, x)
    requires Extensions(x) == Some(o)
    ensures ParseBody(b) == Some(HelloOf(legacy, suites, o))
  {
    hide ParseBody, HelloTail, HelloOf, U16, Words, EncodeWords, ReadU16;
    AtIndex(b, 34, [sid], 0);
    ReadU16At(b, 0, legacy);
    ReadU16At(b, 35 + sid, 2 * |suites|);
    WordsRead(b, 37 + sid, suites);
    BodyKnown(b, sid, 2 * |suites|, legacy, suites);
    TailRead(b, 37 + sid + 2 * |suites|, n, x, legacy, suites, o);
  }

  lemma {:induction false} BodyRead(m: Message)
    requires MessageOk(m)
    ensures ParseBody(EncodeBody(m)) == Some(Meaning(m))
  {
    hide At, ParseBody, HelloOf, U16, EncodeWords, EncodeExts, EncodeBody, OfferedAll;
    BodyLayout(EncodeBody(m), m);
    var x := EncodeExts(m.extensions);
    ExtensionsRead(m.extensions);
    PartsRead(EncodeBody(m), m.legacy, |m.session|, m.suites, |m.compression|, x,
              OfferedAll(Offer([], [], []), m.extensions));
  }

  /** A body that ends before its compression methods, or right after them, offers its suites and nothing else. */
  lemma {:induction false} ShortBodyRead(legacy: nat, random: bytes, session: bytes, suites: seq<int>, tail: bytes)
    requires legacy < 65536 && |random| == 32 && |session| < 256 && AllWords(suites) && |suites| < 32768
    requires tail == [] || |tail| < 3 + tail[0] as int
    ensures var b := U16(legacy) + random + [|session|] + session + U16(2 * |suites|) + EncodeWords(suites) + tail;
      ParseBody(b) == Some(Hello(legacy, suites, [], [], []))
  {
    hide At, ParseBody, HelloTail, U16, EncodeWords, Words;
    var w, s := EncodeWords(suites), 35 + |session|;
    var b := U16(legacy) + random + [|session|] + session + U16(2 * |suites|) + w + tail;
    assert b == U16(legacy) + random + [|session|] + session + U16(2 * |suites|) + w + tail + [] + [] + [];
    Layout10(b, U16(legacy), random, [|session|], session, U16(2 * |suites|), w, tail, [], [], []);
    AtIndex(b, 34, [|session|], 0);
    ReadU16At(b, 0, legacy);
    ReadU16At(b, s, 2 * |suites|);
    WordsRead(b, s + 2, suites);
    BodyKnown(b, |session|, 2 * |suites|, legacy, suites);
    ShortTail(b, s + 2 + 2 * |suites|, tail, legacy, suites);
  }

  lemma {:induction false} ShortTail(b: bytes, off: nat, tail: bytes, legacy: nat, suites: seq<int>)
    requires At(b, off, tail) && off + |tail| == |b| && (tail == [] || |tail| < 3 + tail[0] as int)
    ensures HelloTail(b, off, legacy, suites) == Some(Hello(legacy, suites, [], [], []))
  {
    if tail != [] { AtIndex(b, off, tail, 0); }
  }

  /** Everything that is no handshake record with a ClientHello. */
  lemma {:induction false} OtherRecordsYieldNothing(payload: bytes)
    requires |payload| < 9 || payload[0] != 22 || Slice(payload, 5, 5 + ReadU16(payload, 3)) == []
             || Slice(payload, 5, 5 + ReadU16(payload, 3))[0] != 1
    ensures ParseRecord(payload) == None
  {
  }

  /** The message in a single handshake record. */
  function EncodeRecord(m: Message, version: int): bytes
    requires MessageOk(m) && Word(version) && |EncodeBody(m)| + 4 < 65536
  {
    var body := EncodeBody(m);
    [0x16] + U16(version) + U16(4 + |body|) + ([1] + ToBE(|body|, 3) + body)
  }

  lemma {:induction false} U24RoundTrip(n: nat)
    requires n < 0x100_0000
    ensures FromBE(ToBE(n, 3)) == n
  {
    assert Pow256(3) == 0x100_0000;
    FromToBE(n, 3);
  }

  lemma {:induction false} HandshakeLayout(length: bytes, body: bytes)
    requires |length| == 3
    ensures var hs := [1] + length + body; hs[0] == 1 && hs[1..4] == length && Slice(hs, 4, 4 + |body|) == body
  {
  }

  lemma {:induction false} HandshakeRead(body: bytes)
    requires |body| + 4 < 65536
    ensures var hs := [1] + ToBE(|body|, 3) + body;
      hs[0] == 1 && FromBE(hs[1..4]) == |body| && Slice(hs, 4, 4 + |body|) == body
  {
    HandshakeLayout(ToBE(|body|, 3), body);
    U24RoundTrip(|body|);
  }

  lemma {:induction false} RecordRead(version: bytes, hs: bytes, rest: bytes)
    requires |version| == 2 && |hs| < 65536
    ensures var p := [0x16] + version + U16(|hs|) + hs + rest;
      p[0] == 0x16 && ReadU16(p, 3) == |hs| && Slice(p, 5, 5 + |hs|) == hs
  {
    var p := [0x16] + version + U16(|hs|) + hs + rest;
    assert At(p, 3, U16(|hs|)) && At(p, 5, hs);
    ReadU16At(p, 3, |hs|);
    AtSlice(p, 5, hs);
  }

  /** Any ClientHello in one record, whatever follows it, yields its suites, versions and key shares, and the
      order-preserving deduped union of its groups. */
  lemma {:induction false} ClientHelloRoundTrip(m: Message, version: int, rest: bytes)
    requires MessageOk(m) && Word(version) && |EncodeBody(m)| + 4 < 65536
    ensures ParseRecord(EncodeRecord(m, version) + rest) == Some(Meaning(m))
  {
    hide ParseBody, Meaning, EncodeBody, ToBE, FromBE, U16, ReadU16, Slice;
    var body := EncodeBody(m);
    var hs := [1] + ToBE(|body|, 3) + body;
    HandshakeRead(body);
    RecordRead(U16(version), hs, rest);
    BodyRead(m);
  }
}
