/**
 The flattened devicetree format: what a tree looks like as bytes, and a
 reference parser written from chapter 5 of the Devicetree Specification v0.4
 (5.2 header, 5.3 memory reservation block, 5.4 structure block, 5.5 strings
 block, 5.6 alignment). The parser reads the numbers of the standard; the writer's
 constants are its own.
 */
module DevicetreeFormat {
  import opened ByteStrings

  type Name = Bytes

  datatype Prop = Prop(name: Name, value: Bytes)
  datatype Node = Node(name: Name, props: seq<Prop>, kids: seq<Node>)

  // The writer's constants.
  const FDT_MAGIC: nat := 0xd00dfeed
  const BEGIN_NODE: nat := 1
  const END_NODE: nat := 2
  const PROP: nat := 3
  const END: nat := 9

  predicate NulFree(s: Bytes) { forall i :: 0 <= i < |s| ==> s[i] != 0 }

  function Padding(n: nat): (p: nat)
    ensures p < 4 && (n + p) % 4 == 0
  {
    (4 - n % 4) % 4
  }

  function Padded(b: Bytes): (r: Bytes)
    ensures |r| % 4 == 0
  {
    b + Zeros(Padding(|b|))
  }

  // ------------------------------------------------------------------- strings

  function Flat(table: seq<Name>): Bytes {
    if table == [] then [] else table[0] + [0] + Flat(table[1..])
  }

  /** Where the name starts in the strings block. */
  function Offset(table: seq<Name>, name: Name): nat {
    if table == [] || table[0] == name then 0 else |table[0]| + 1 + Offset(table[1..], name)
  }

  function Add(table: seq<Name>, name: Name): seq<Name> {
    if name in table then table else table + [name]
  }

  function AddAll(table: seq<Name>, names: seq<Name>): seq<Name> {
    if names == [] then table else Add(AddAll(table, names[..|names| - 1]), names[|names| - 1])
  }

  predicate Distinct(table: seq<Name>) {
    forall i, j :: 0 <= i < j < |table| ==> table[i] != table[j]
  }

  predicate AllNulFree(table: seq<Name>) {
    forall i :: 0 <= i < |table| ==> NulFree(table[i])
  }

  // ------------------------------------------------------------ a tree as bytes

  function PropBytes(p: Prop, table: seq<Name>): Bytes {
    U32(PROP) + U32(|p.value|) + U32(Offset(table, p.name)) + Padded(p.value)
  }

  function PropsBytes(ps: seq<Prop>, table: seq<Name>): Bytes {
    if ps == [] then [] else PropBytes(ps[0], table) + PropsBytes(ps[1..], table)
  }

  function NodeHead(name: Name): Bytes {
    U32(BEGIN_NODE) + Padded(name + [0])
  }

  function NodeBytes(n: Node, table: seq<Name>): Bytes
    decreases n, 1
  {
    NodeHead(n.name) + (PropsBytes(n.props, table) + (KidsBytes(n.kids, table) + U32(END_NODE)))
  }

  function KidsBytes(kids: seq<Node>, table: seq<Name>): Bytes
    decreases kids, 0
  {
    if kids == [] then [] else NodeBytes(kids[0], table) + KidsBytes(kids[1..], table)
  }

  /** Names of the properties in the order in which they are written. */
  function PropNames(ps: seq<Prop>): seq<Name> {
    if ps == [] then [] else [ps[0].name] + PropNames(ps[1..])
  }

  function NodeNames(n: Node): seq<Name>
    decreases n, 1
  {
    PropNames(n.props) + KidsNames(n.kids)
  }

  function KidsNames(kids: seq<Node>): seq<Name>
    decreases kids, 0
  {
    if kids == [] then [] else NodeNames(kids[0]) + KidsNames(kids[1..])
  }

  function Table(root: Node): seq<Name> { AddAll([], NodeNames(root)) }

  const HEADER_SIZE: nat := 40
  const RESERVE_SIZE: nat := 16

  function Cells(ns: seq<nat>): (b: Bytes)
    ensures |b| == 4 * |ns|
  {
    if ns == [] then [] else U32(ns[0]) + Cells(ns[1..])
  }

  function HeaderCells(structSize: nat, stringsSize: nat): (cells: seq<nat>)
    ensures |cells| == 10
  {
    var offStruct := HEADER_SIZE + RESERVE_SIZE;
    var offStrings := offStruct + structSize;
    [FDT_MAGIC, offStrings + stringsSize, offStruct, offStrings, HEADER_SIZE, 17, 16, 0, stringsSize, structSize]
  }

  function HeaderBytes(structSize: nat, stringsSize: nat): (h: Bytes)
    ensures |h| == HEADER_SIZE
  {
    Cells(HeaderCells(structSize, stringsSize))
  }

  function StructBytes(root: Node): Bytes {
    NodeBytes(root, Table(root)) + U32(END)
  }

  /** The blob of a tree: the table is fixed first, the structure is written against it. */
  function Blob(root: Node): Bytes {
    var strings := Flat(Table(root));
    HeaderBytes(|StructBytes(root)|, |strings|) + Zeros(RESERVE_SIZE) + StructBytes(root) + strings
  }

  // --------------------------------------------------------- the reference parser

  datatype Parsed<+T> = Bad | Good(value: T, rest: Bytes) {
    predicate IsFailure() { Bad? }

    function PropagateFailure<U>(): Parsed<U>
      requires Bad?
    {
      Bad
    }

    function Extract(): (T, Bytes)
      requires Good?
    {
      (value, rest)
    }
  }

  function ReadCell(b: Bytes): (r: Parsed<nat>)
    ensures r.Good? ==> |r.rest| + 4 == |b|
  {
    if |b| < 4 then Bad else Good(Value(b[..4]), b[4..])
  }

  /** A string up to its NUL. */
  function ReadString(b: Bytes): (r: Parsed<Bytes>)
    ensures r.Good? ==> |r.value| + 1 + |r.rest| == |b|
  {
    if b == [] then Bad
    else if b[0] == 0 then Good([], b[1..])
    else
      var (s, rest) :- ReadString(b[1..]);
      Good([b[0]] + s, rest)
  }

  /** Zero bytes up to the next 4-byte boundary after n bytes. */
  function ReadPadding(b: Bytes, n: nat): (r: Parsed<()>)
    ensures r.Good? ==> |r.rest| <= |b|
  {
    var p := Padding(n);
    if |b| < p || b[..p] != Zeros(p) then Bad else Good((), b[p..])
  }

  function SkipNops(b: Bytes): (r: Bytes)
    ensures |r| <= |b|
  {
    if |b| >= 4 && Value(b[..4]) == 4 then SkipNops(b[4..]) else b
  }

  predicate AtToken(b: Bytes, token: nat) {
    var r := SkipNops(b);
    |r| >= 4 && Value(r[..4]) == token
  }

  function ReadToken(b: Bytes, token: nat): (r: Parsed<()>)
    ensures r.Good? ==> |r.rest| < |b|
  {
    if AtToken(b, token) then Good((), SkipNops(b)[4..]) else Bad
  }

  function ReadProp(b: Bytes, strings: Bytes): (r: Parsed<Prop>)
    ensures r.Good? ==> |r.rest| < |b|
  {
    var (_, r0) :- ReadToken(b, 3);
    var (len, r1) :- ReadCell(r0);
    var (nameoff, r2) :- ReadCell(r1);
    if nameoff > |strings| || len > |r2| then Bad
    else
      var (name, _) :- ReadString(strings[nameoff..]);
      var (_, rest) :- ReadPadding(r2[len..], len);
      Good(Prop(name, r2[..len]), rest)
  }

  function ReadProps(b: Bytes, strings: Bytes): (r: Parsed<seq<Prop>>)
    ensures r.Good? ==> |r.rest| <= |b|
    decreases |b|
  {
    if !AtToken(b, 3) then Good([], b)
    else
      var (p, r1) :- ReadProp(b, strings);
      var (ps, rest) :- ReadProps(r1, strings);
      Good([p] + ps, rest)
  }

  function ReadHead(b: Bytes): (r: Parsed<Name>)
    ensures r.Good? ==> |r.rest| < |b|
  {
    var (_, r0) :- ReadToken(b, 1);
    var (name, r1) :- ReadString(r0);
    var (_, rest) :- ReadPadding(r1, |name| + 1);
    Good(name, rest)
  }

  function ReadNode(b: Bytes, strings: Bytes): (r: Parsed<Node>)
    ensures r.Good? ==> |r.rest| < |b|
    decreases |b|, 0
  {
    var (name, r1) :- ReadHead(b);
    var (props, r2) :- ReadProps(r1, strings);
    var (kids, r3) :- ReadKids(r2, strings);
    var (_, rest) :- ReadToken(r3, 2);
    Good(Node(name, props, kids), rest)
  }

  function ReadKids(b: Bytes, strings: Bytes): (r: Parsed<seq<Node>>)
    ensures r.Good? ==> |r.rest| <= |b|
    decreases |b|, 1
  {
    if !AtToken(b, 1) then Good([], b)
    else
      var (kid, r1) :- ReadNode(b, strings);
      var (kids, rest) :- ReadKids(r1, strings);
      Good([kid] + kids, rest)
  }

  datatype Reservation = Reservation(address: nat, size: nat)

  function ReadReservations(b: Bytes): Option<seq<Reservation>>
    decreases |b|
  {
    if |b| < 16 then None
    else
      var entry := Reservation(Value(b[..8]), Value(b[8..16]));
      if entry == Reservation(0, 0) then Some([])
      else match ReadReservations(b[16..])
        case None => None
        case Some(more) => Some([entry] + more)
  }

  function Field(b: Bytes, n: nat): nat
    requires 4 * n + 4 <= |b|
  {
    Value(b[4 * n..4 * n + 4])
  }

  datatype Devicetree = Devicetree(root: Node, reservations: seq<Reservation>, bootCpu: nat)

  /** The structure block: one root node with an empty name, then the end token and nothing else. */
  function ReadStruct(b: Bytes, strings: Bytes): Option<Node> {
    match ReadNode(b, strings)
    case Bad => None
    case Good(root, rest) =>
      if root.name == [] && AtToken(rest, 9) && |SkipNops(rest)| == 4 then Some(root) else None
  }

  function ParseBlob(b: Bytes): Option<Devicetree> {
    if |b| < 40 then None
    else
      var total, offStruct, offStrings, offReserve := Field(b, 1), Field(b, 2), Field(b, 3), Field(b, 4);
      var sizeStrings, sizeStruct := Field(b, 8), Field(b, 9);
      if Field(b, 0) != 0xd00dfeed || total > |b| || Field(b, 5) < 17 || Field(b, 6) > 17 then None
      else if offReserve % 8 != 0 || offReserve > total || offStruct % 4 != 0 then None
      else if offStruct + sizeStruct > total || offStrings + sizeStrings > total then None
      else
        var strings := b[offStrings..offStrings + sizeStrings];
        match ReadReservations(b[offReserve..total])
        case None => None
        case Some(rsv) =>
          match ReadStruct(b[offStruct..offStruct + sizeStruct], strings)
          case None => None
          case Some(root) => Some(Devicetree(root, rsv, Field(b, 7)))
  }

  // --------------------------------------------------------- the strings block

  lemma {:induction false} OffsetOfPrefix(table: seq<Name>, more: seq<Name>, name: Name)
    requires name in table
    ensures Offset(table + more, name) == Offset(table, name)
  {
    assert (table + more)[0] == table[0];
    if table[0] != name {
      assert (table + more)[1..] == table[1..] + more;
      OffsetOfPrefix(table[1..], more, name);
    }
  }

  lemma {:induction false} OffsetOfNew(table: seq<Name>, name: Name)
    requires name !in table
    ensures Offset(table + [name], name) == |Flat(table)|
    ensures Flat(table + [name]) == Flat(table) + name + [0]
  {
    var t1 := table + [name];
    if table == [] {
      assert t1 == [name] && [name][1..] == [];
    } else {
      assert t1[0] == table[0] && t1[1..] == table[1..] + [name];
      OffsetOfNew(table[1..], name);
      assert Flat(t1) == table[0] + [0] + Flat(t1[1..]);
      assert Flat(table) == table[0] + [0] + Flat(table[1..]);
    }
  }

  lemma {:induction false} ReadStringThenRest(s: Bytes, rest: Bytes)
    requires NulFree(s)
    ensures ReadString(s + [0] + rest) == Good(s, rest)
  {
    var b := s + [0] + rest;
    if s == [] {
      assert b[1..] == rest;
    } else {
      assert b[1..] == s[1..] + [0] + rest;
      ReadStringThenRest(s[1..], rest);
      assert s == [s[0]] + s[1..];
    }
  }

  /** An offset names its NUL-terminated string in the block. */
  lemma {:induction false} NameAtOffset(table: seq<Name>, name: Name)
    requires name in table && AllNulFree(table)
    ensures Offset(table, name) < |Flat(table)|
    ensures ReadString(Flat(table)[Offset(table, name)..]).Good?
    ensures ReadString(Flat(table)[Offset(table, name)..]).value == name
  {
    var flat := Flat(table);
    if table[0] == name {
      assert flat[0..] == table[0] + [0] + Flat(table[1..]);
      ReadStringThenRest(name, Flat(table[1..]));
    } else {
      NameAtOffset(table[1..], name);
      var k := |table[0]| + 1;
      assert flat[k..] == Flat(table[1..]);
      assert flat[Offset(table, name)..] == flat[k..][Offset(table[1..], name)..];
    }
  }

  lemma {:induction false} AddAllGrows(table: seq<Name>, names: seq<Name>)
    ensures table <= AddAll(table, names)
    ensures forall i :: 0 <= i < |names| ==> names[i] in AddAll(table, names)
    ensures Distinct(table) ==> Distinct(AddAll(table, names))
    ensures AllNulFree(table) && AllNulFree(names) ==> AllNulFree(AddAll(table, names))
    ensures forall n :: n in AddAll(table, names) ==> n in table || n in names
  {
    if names != [] { AddAllGrows(table, names[..|names| - 1]); }
  }

  lemma {:induction false} AddAllConcat(table: seq<Name>, a: seq<Name>, b: seq<Name>)
    ensures AddAll(table, a + b) == AddAll(AddAll(table, a), b)
  {
    if b == [] {
      assert a + b == a;
    } else {
      assert (a + b)[..|a + b| - 1] == a + b[..|b| - 1];
      AddAllConcat(table, a, b[..|b| - 1]);
    }
  }

  /** Every property name is stored exactly once. */
  lemma TableHasEachNameOnce(root: Node)
    ensures Distinct(Table(root))
    ensures forall n :: n in Table(root) <==> n in NodeNames(root)
  {
    AddAllGrows([], NodeNames(root));
  }

  lemma {:induction false} FlatOfPrefix(table: seq<Name>, more: seq<Name>)
    ensures Flat(table + more) == Flat(table) + Flat(more)
  {
    if table == [] {
      assert table + more == more;
    } else {
      assert (table + more)[0] == table[0] && (table + more)[1..] == table[1..] + more;
      FlatOfPrefix(table[1..], more);
    }
  }

  // -------------------------------------------- a growing table changes nothing written

  predicate Within(names: seq<Name>, table: seq<Name>) {
    forall i :: 0 <= i < |names| ==> names[i] in table
  }

  lemma {:induction false} PropsStable(ps: seq<Prop>, table: seq<Name>, more: seq<Name>)
    requires Within(PropNames(ps), table)
    ensures PropsBytes(ps, table + more) == PropsBytes(ps, table)
  {
    if ps != [] {
      assert PropNames(ps)[0] in table;
      assert PropNames(ps)[1..] == PropNames(ps[1..]);
      OffsetOfPrefix(table, more, ps[0].name);
      PropsStable(ps[1..], table, more);
    }
  }

  lemma {:induction false} NodeStable(n: Node, table: seq<Name>, more: seq<Name>)
    requires Within(NodeNames(n), table)
    ensures NodeBytes(n, table + more) == NodeBytes(n, table)
    decreases n, 1
  {
    WithinParts(PropNames(n.props), KidsNames(n.kids), table);
    PropsStable(n.props, table, more);
    KidsStable(n.kids, table, more);
  }

  lemma {:induction false} KidsStable(kids: seq<Node>, table: seq<Name>, more: seq<Name>)
    requires Within(KidsNames(kids), table)
    ensures KidsBytes(kids, table + more) == KidsBytes(kids, table)
    decreases kids, 0
  {
    if kids != [] {
      WithinParts(NodeNames(kids[0]), KidsNames(kids[1..]), table);
      NodeStable(kids[0], table, more);
      KidsStable(kids[1..], table, more);
    }
  }

  lemma WithinParts(a: seq<Name>, b: seq<Name>, table: seq<Name>)
    requires Within(a + b, table)
    ensures Within(a, table) && Within(b, table)
  {
    forall i | 0 <= i < |a| ensures a[i] in table { assert (a + b)[i] == a[i]; }
    forall i | 0 <= i < |b| ensures b[i] in table { assert (a + b)[|a| + i] == b[i]; }
  }

  // ------------------------------------------------------------ parsing what was written

  predicate NamesNulFree(n: Node) {
    NulFree(n.name) && forall i :: 0 <= i < |n.kids| ==> NamesNulFree(n.kids[i])
  }

  lemma TokenThenRest(token: nat, rest: Bytes)
    requires token < TWO32 && token != 4
    ensures SkipNops(U32(token) + rest) == U32(token) + rest
    ensures forall other: nat :: AtToken(U32(token) + rest, other) <==> other == token
    ensures ReadToken(U32(token) + rest, token) == Good((), rest)
  {
    U32RoundTrip(token);
    var b := U32(token) + rest;
    assert b[..4] == U32(token) && b[4..] == rest;
  }

  lemma CellThenRest(n: nat, rest: Bytes)
    requires n < TWO32
    ensures ReadCell(U32(n) + rest) == Good(n, rest)
  {
    U32RoundTrip(n);
    assert (U32(n) + rest)[..4] == U32(n) && (U32(n) + rest)[4..] == rest;
  }

  lemma PaddingThenRest(n: nat, rest: Bytes)
    ensures ReadPadding(Zeros(Padding(n)) + rest, n) == Good((), rest)
  {
    var p := Padding(n);
    assert (Zeros(p) + rest)[..p] == Zeros(p) && (Zeros(p) + rest)[p..] == rest;
  }

  lemma HeadThenRest(name: Name, rest: Bytes)
    requires NulFree(name)
    ensures ReadHead(NodeHead(name) + rest) == Good(name, rest)
    ensures AtToken(NodeHead(name) + rest, BEGIN_NODE) && !AtToken(NodeHead(name) + rest, PROP)
  {
    var pad := Zeros(Padding(|name| + 1)) + rest;
    var r0 := name + [0] + pad;
    assert NodeHead(name) + rest == U32(BEGIN_NODE) + r0;
    TokenThenRest(BEGIN_NODE, r0);
    ReadStringThenRest(name, pad);
    PaddingThenRest(|name| + 1, rest);
  }

  lemma PropThenRest(p: Prop, table: seq<Name>, rest: Bytes)
    requires p.name in table && AllNulFree(table)
    requires |p.value| < TWO32 && |Flat(table)| <= TWO32
    ensures ReadProp(PropBytes(p, table) + rest, Flat(table)) == Good(p, rest)
    ensures AtToken(PropBytes(p, table) + rest, PROP)
  {
    var pad := Zeros(Padding(|p.value|)) + rest;
    var r2 := p.value + pad;
    var r1 := U32(Offset(table, p.name)) + r2;
    var r0 := U32(|p.value|) + r1;
    assert PropBytes(p, table) + rest == U32(PROP) + r0;
    TokenThenRest(PROP, r0);
    CellThenRest(|p.value|, r1);
    NameAtOffset(table, p.name);
    CellThenRest(Offset(table, p.name), r2);
    assert r2[..|p.value|] == p.value && r2[|p.value|..] == pad;
    PaddingThenRest(|p.value|, rest);
  }

  lemma PropsParts(ps: seq<Prop>, table: seq<Name>, rest: Bytes)
    requires ps != []
    ensures PropsBytes(ps, table) + rest == PropBytes(ps[0], table) + (PropsBytes(ps[1..], table) + rest)
    ensures |PropsBytes(ps, table)| == |PropBytes(ps[0], table)| + |PropsBytes(ps[1..], table)|
  {
    hide PropBytes;
    var a, b := PropBytes(ps[0], table), PropsBytes(ps[1..], table);
    assert PropsBytes(ps, table) == a + b;
    assert (a + b) + rest == a + (b + rest);
  }

  lemma ReadPropsSteps(b: Bytes, strings: Bytes, ps: seq<Prop>, r1: Bytes, rest: Bytes)
    requires ps != [] && AtToken(b, PROP)
    requires ReadProp(b, strings) == Good(ps[0], r1)
    requires ReadProps(r1, strings) == Good(ps[1..], rest)
    ensures ReadProps(b, strings) == Good(ps, rest)
  {
    hide ReadProp, AtToken;
    assert ps == [ps[0]] + ps[1..];
  }

  lemma {:induction false} PropsThenRest(ps: seq<Prop>, table: seq<Name>, rest: Bytes)
    requires Within(PropNames(ps), table) && AllNulFree(table)
    requires |PropsBytes(ps, table)| < TWO32 && |Flat(table)| <= TWO32
    requires !AtToken(rest, PROP)
    ensures ReadProps(PropsBytes(ps, table) + rest, Flat(table)) == Good(ps, rest)
  {
    if ps == [] {
      assert PropsBytes(ps, table) + rest == rest;
    } else {
      assert PropNames(ps)[0] in table;
      assert PropNames(ps)[1..] == PropNames(ps[1..]);
      var r1 := PropsBytes(ps[1..], table) + rest;
      PropsParts(ps, table, rest);
      PropThenRest(ps[0], table, r1);
      PropsThenRest(ps[1..], table, rest);
      hide ReadProp, ReadProps, AtToken, Flat;
      ReadPropsSteps(PropBytes(ps[0], table) + r1, Flat(table), ps, r1, rest);
    }
  }

  /** A node's bytes cut into its four parts. */
  lemma NodeParts(n: Node, table: seq<Name>, rest: Bytes)
    ensures NodeBytes(n, table) + rest ==
            NodeHead(n.name) + (PropsBytes(n.props, table) + (KidsBytes(n.kids, table) + (U32(END_NODE) + rest)))
    ensures |NodeBytes(n, table)| ==
            |NodeHead(n.name)| + |PropsBytes(n.props, table)| + |KidsBytes(n.kids, table)| + 4
  {
    hide NodeHead, PropsBytes, KidsBytes, U32;
    RegroupFour(NodeHead(n.name), PropsBytes(n.props, table), KidsBytes(n.kids, table), U32(END_NODE), rest);
  }

  lemma RegroupFour(a: Bytes, b: Bytes, c: Bytes, d: Bytes, rest: Bytes)
    ensures (a + (b + (c + d))) + rest == a + (b + (c + (d + rest)))
    ensures |a + (b + (c + d))| == |a| + |b| + |c| + |d|
  {
    assert (c + d) + rest == c + (d + rest);
    assert (b + (c + d)) + rest == b + ((c + d) + rest);
  }

  lemma ReadNodeSteps(b: Bytes, strings: Bytes, n: Node, r1: Bytes, r2: Bytes, r3: Bytes, rest: Bytes)
    requires ReadHead(b) == Good(n.name, r1)
    requires ReadProps(r1, strings) == Good(n.props, r2)
    requires ReadKids(r2, strings) == Good(n.kids, r3)
    requires ReadToken(r3, END_NODE) == Good((), rest)
    ensures ReadNode(b, strings) == Good(n, rest)
  {
  }

  lemma ReadKidsSteps(b: Bytes, strings: Bytes, kids: seq<Node>, r1: Bytes, rest: Bytes)
    requires kids != [] && AtToken(b, BEGIN_NODE)
    requires ReadNode(b, strings) == Good(kids[0], r1)
    requires ReadKids(r1, strings) == Good(kids[1..], rest)
    ensures ReadKids(b, strings) == Good(kids, rest)
  {
    hide ReadNode, AtToken;
    assert kids == [kids[0]] + kids[1..];
  }

  lemma {:induction false} NodeThenRest(n: Node, table: seq<Name>, rest: Bytes)
    requires Within(NodeNames(n), table) && AllNulFree(table) && NamesNulFree(n)
    requires |NodeBytes(n, table)| < TWO32 && |Flat(table)| <= TWO32
    ensures ReadNode(NodeBytes(n, table) + rest, Flat(table)) == Good(n, rest)
    ensures AtToken(NodeBytes(n, table) + rest, BEGIN_NODE)
    ensures !AtToken(NodeBytes(n, table) + rest, PROP)
    decreases n, 1
  {
    WithinParts(PropNames(n.props), KidsNames(n.kids), table);
    NodeParts(n, table, rest);
    var r3 := U32(END_NODE) + rest;
    var r2 := KidsBytes(n.kids, table) + r3;
    var r1 := PropsBytes(n.props, table) + r2;
    HeadThenRest(n.name, r1);
    TokenThenRest(END_NODE, rest);
    KidsThenRest(n.kids, table, r3);
    PropsThenRest(n.props, table, r2);
    ReadNodeSteps(NodeHead(n.name) + r1, Flat(table), n, r1, r2, r3, rest);
  }

  lemma KidsParts(kids: seq<Node>, table: seq<Name>, rest: Bytes)
    requires kids != []
    ensures KidsBytes(kids, table) + rest == NodeBytes(kids[0], table) + (KidsBytes(kids[1..], table) + rest)
    ensures |KidsBytes(kids, table)| == |NodeBytes(kids[0], table)| + |KidsBytes(kids[1..], table)|
  {
    hide NodeBytes;
    var a, b := NodeBytes(kids[0], table), KidsBytes(kids[1..], table);
    assert KidsBytes(kids, table) == a + b;
    assert (a + b) + rest == a + (b + rest);
  }

  lemma {:induction false} KidsThenRest(kids: seq<Node>, table: seq<Name>, rest: Bytes)
    requires Within(KidsNames(kids), table) && AllNulFree(table)
    requires forall i :: 0 <= i < |kids| ==> NamesNulFree(kids[i])
    requires |KidsBytes(kids, table)| < TWO32 && |Flat(table)| <= TWO32
    requires !AtToken(rest, BEGIN_NODE) && !AtToken(rest, PROP)
    ensures ReadKids(KidsBytes(kids, table) + rest, Flat(table)) == Good(kids, rest)
    ensures !AtToken(KidsBytes(kids, table) + rest, PROP)
    decreases kids, 0
  {
    if kids == [] {
      assert KidsBytes(kids, table) + rest == rest;
    } else {
      WithinParts(NodeNames(kids[0]), KidsNames(kids[1..]), table);
      KidsParts(kids, table, rest);
      var r1 := KidsBytes(kids[1..], table) + rest;
      NodeThenRest(kids[0], table, r1);
      KidsThenRest(kids[1..], table, rest);
      ReadKidsSteps(NodeBytes(kids[0], table) + r1, Flat(table), kids, r1, rest);
    }
  }

  lemma SumAligned(a: nat, b: nat)
    requires a % 4 == 0 && b % 4 == 0
    ensures (a + b) % 4 == 0
  {
  }

  lemma HeadAligned(name: Name)
    ensures |NodeHead(name)| % 4 == 0
  {
  }

  lemma PropAligned(p: Prop, table: seq<Name>)
    ensures |PropBytes(p, table)| % 4 == 0
  {
  }

  lemma {:induction false} PropsAligned(ps: seq<Prop>, table: seq<Name>)
    ensures |PropsBytes(ps, table)| % 4 == 0
  {
    hide PropBytes;
    if ps != [] {
      PropsParts(ps, table, []);
      PropAligned(ps[0], table);
      PropsAligned(ps[1..], table);
      SumAligned(|PropBytes(ps[0], table)|, |PropsBytes(ps[1..], table)|);
    }
  }

  lemma {:induction false} NodeAligned(n: Node, table: seq<Name>)
    ensures |NodeBytes(n, table)| % 4 == 0
    decreases n, 1
  {
    hide NodeBytes, NodeHead, PropsBytes, KidsBytes;
    NodeParts(n, table, []);
    HeadAligned(n.name);
    PropsAligned(n.props, table);
    KidsAligned(n.kids, table);
    SumAligned(|NodeHead(n.name)|, |PropsBytes(n.props, table)|);
    SumAligned(|NodeHead(n.name)| + |PropsBytes(n.props, table)|, |KidsBytes(n.kids, table)|);
  }

  lemma {:induction false} KidsAligned(kids: seq<Node>, table: seq<Name>)
    ensures |KidsBytes(kids, table)| % 4 == 0
    decreases kids, 0
  {
    hide NodeBytes;
    if kids != [] {
      KidsParts(kids, table, []);
      NodeAligned(kids[0], table);
      KidsAligned(kids[1..], table);
      SumAligned(|NodeBytes(kids[0], table)|, |KidsBytes(kids[1..], table)|);
    }
  }

  lemma StructParses(root: Node)
    requires root.name == [] && NamesNulFree(root) && AllNulFree(NodeNames(root))
    requires |Blob(root)| < TWO32
    ensures ReadStruct(StructBytes(root), Flat(Table(root))) == Some(root)
  {
    var table := Table(root);
    AddAllGrows([], NodeNames(root));
    TokenThenRest(END, []);
    assert U32(END) + [] == U32(END);
    NodeThenRest(root, table, U32(END));
  }

  lemma {:induction false} CellAt(ns: seq<nat>, rest: Bytes, k: nat)
    requires k < |ns| && ns[k] < TWO32
    ensures Field(Cells(ns) + rest, k) == ns[k]
  {
    var b, more := Cells(ns) + rest, Cells(ns[1..]) + rest;
    assert b == U32(ns[0]) + more;
    if k == 0 {
      U32RoundTrip(ns[0]);
      assert b[0..4] == U32(ns[0]);
    } else {
      CellAt(ns[1..], rest, k - 1);
      assert b[4 * k..4 * k + 4] == more[4 * (k - 1)..4 * (k - 1) + 4];
    }
  }

  lemma HeaderFields(structSize: nat, stringsSize: nat, rest: Bytes, k: nat)
    requires HEADER_SIZE + RESERVE_SIZE + structSize + stringsSize < TWO32 && k < 10
    ensures Field(HeaderBytes(structSize, stringsSize) + rest, k) == HeaderCells(structSize, stringsSize)[k]
  {
    CellAt(HeaderCells(structSize, stringsSize), rest, k);
  }

  lemma {:induction false} ZerosAreZero(n: nat)
    ensures Value(Zeros(n)) == 0
  {
    if n > 0 {
      assert Zeros(n)[..n - 1] == Zeros(n - 1);
      ZerosAreZero(n - 1);
    }
  }

  lemma NoReservations(b: Bytes)
    requires |b| >= 16 && b[..16] == Zeros(16)
    ensures ReadReservations(b) == Some([])
  {
    assert b[..8] == b[..16][..8] == Zeros(8) && b[8..16] == b[..16][8..16] == Zeros(8);
    ZerosAreZero(8);
  }

  lemma BlobParts(header: Bytes, st: Bytes, strings: Bytes)
    requires |header| == 40
    ensures var b := header + Zeros(16) + st + strings;
            && b == header + (Zeros(16) + st + strings) && |b| == 56 + |st| + |strings|
            && b[40..56] == Zeros(16) && b[56..56 + |st|] == st && b[56 + |st|..] == strings
  {
  }

  /** The header of a blob, field by field. */
  lemma BlobFields(root: Node)
    requires |Blob(root)| < TWO32
    ensures |Blob(root)| == 56 + |StructBytes(root)| + |Flat(Table(root))|
    ensures forall k: nat :: k < 10 ==>
              Field(Blob(root), k) == HeaderCells(|StructBytes(root)|, |Flat(Table(root))|)[k]
  {
    var st, strings := StructBytes(root), Flat(Table(root));
    var header := HeaderBytes(|st|, |strings|);
    BlobParts(header, st, strings);
    var rest := Zeros(RESERVE_SIZE) + st + strings;
    assert Blob(root) == header + rest;
    hide HeaderBytes, StructBytes, Flat, Table, Field, HeaderCells, Blob;
    forall k: nat | k < 10 ensures Field(Blob(root), k) == HeaderCells(|st|, |strings|)[k] {
      HeaderFields(|st|, |strings|, rest, k);
    }
  }

  /**
   The header's offsets and sizes tile the blob: reservations at 40, structure
   at 56 and aligned, strings right behind it up to the end, and the total is
   the length.
   */
  lemma HeaderTiles(root: Node)
    requires |Blob(root)| < TWO32
    ensures |Blob(root)| >= 56
    ensures var b := Blob(root);
            && Field(b, 1) == |b| && Field(b, 4) == 40 && Field(b, 2) == 56 && Field(b, 9) % 4 == 0
            && Field(b, 3) == Field(b, 2) + Field(b, 9) && Field(b, 3) + Field(b, 8) == |b|
            && b[40..56] == Zeros(16)
            && b[Field(b, 2)..Field(b, 3)] == StructBytes(root)
            && b[Field(b, 3)..] == Flat(Table(root))
  {
    var st, strings := StructBytes(root), Flat(Table(root));
    BlobParts(HeaderBytes(|st|, |strings|), st, strings);
    BlobFields(root);
    hide Field;
    StructAligned(root);
  }

  lemma StructAligned(root: Node)
    ensures |StructBytes(root)| % 4 == 0
  {
    hide NodeBytes, Table;
    NodeAligned(root, Table(root));
  }

  lemma CellConstants(structSize: nat, stringsSize: nat)
    ensures var cells := HeaderCells(structSize, stringsSize);
            cells[0] == FDT_MAGIC && cells[5] == 17 && cells[6] == 16 && cells[7] == 0
  {
  }

  lemma HeaderConstants(root: Node)
    requires |Blob(root)| < TWO32
    ensures |Blob(root)| >= 56
    ensures var b := Blob(root);
            && Field(b, 0) == FDT_MAGIC && Field(b, 5) == 17 && Field(b, 6) == 16 && Field(b, 7) == 0
  {
    hide Blob, Field, StructBytes, Flat, Table, HeaderCells;
    BlobFields(root);
    CellConstants(|StructBytes(root)|, |Flat(Table(root))|);
  }

  /** A well-formed header leads the parser to the three blocks. */
  lemma ParseBlobSteps(b: Bytes, st: Bytes, strings: Bytes, root: Node)
    requires |b| == 56 + |st| + |strings| && |st| % 4 == 0
    requires Field(b, 0) == FDT_MAGIC && Field(b, 1) == |b| && Field(b, 2) == 56 && Field(b, 3) == 56 + |st|
    requires Field(b, 4) == 40 && Field(b, 5) == 17 && Field(b, 6) == 16 && Field(b, 7) == 0
    requires Field(b, 8) == |strings| && Field(b, 9) == |st|
    requires b[40..56] == Zeros(16) && b[56..56 + |st|] == st && b[56 + |st|..] == strings
    requires ReadStruct(st, strings) == Some(root)
    ensures ParseBlob(b) == Some(Devicetree(root, [], 0))
  {
    hide Field, ReadStruct, ReadReservations;
    assert b[40..|b|][..16] == b[40..56];
    NoReservations(b[40..|b|]);
    assert b[56 + |st|..56 + |st| + |strings|] == strings;
  }

  /** Parsing the blob of a tree gives the tree back. */
  lemma BlobParses(root: Node)
    requires root.name == [] && NamesNulFree(root) && AllNulFree(NodeNames(root))
    requires |Blob(root)| < TWO32
    ensures ParseBlob(Blob(root)) == Some(Devicetree(root, [], 0))
  {
    var st, strings := StructBytes(root), Flat(Table(root));
    HeaderTiles(root);
    HeaderConstants(root);
    StructParses(root);
    StructAligned(root);
    BlobParts(HeaderBytes(|st|, |strings|), st, strings);
    hide StructBytes, Field, Flat, Table, ReadStruct;
    ParseBlobSteps(Blob(root), st, strings, root);
  }
}
