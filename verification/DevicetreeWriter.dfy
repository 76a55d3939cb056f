/** build() of fs2dtb.py: one pass over the tree, with a string table that grows as names turn up. */
module DevicetreeWriter {
  import opened ByteStrings
  import opened DevicetreeFormat
  import opened DevicetreeTree
  import opened DevicetreeEdits

  lemma {:induction false} OffsetBelow(table: seq<Name>, name: Name)
    requires name in table
    ensures Offset(table, name) < |Flat(table)|
  {
    if table[0] != name { OffsetBelow(table[1..], name); }
  }

  lemma {:induction false} PropListAt(props: map<Name, Bytes>, names: seq<Name>, i: nat)
    requires (forall n :: n in names ==> n in props) && i < |names|
    ensures names[i] in props && PropList(props, names)[i] == Prop(names[i], props[names[i]])
  {
    assert names[0] in names;
    assert forall n :: n in names[1..] ==> n in names;
    if i > 0 { PropListAt(props, names[1..], i - 1); }
  }

  lemma {:induction false} EmittedAllAt(t: PathTree, p: Path, cs: seq<Path>, i: nat)
    requires Closed(t) && p in t && forall i :: 0 <= i < |cs| ==> cs[i] in t[p].children
    requires i < |cs|
    ensures cs[i] in t && EmittedAll(t, p, cs)[i] == Emitted(t, cs[i])
  {
    hide Emitted, EmittedAll, Reachable, ReachableAll, Closed, Deeper;
    EmittedAllStep(t, p, cs);
    if i > 0 {
      var rest := cs[1..];
      assert forall k :: 0 <= k < |rest| ==> rest[k] == cs[k + 1];
      EmittedAllAt(t, p, rest, i - 1);
    }
  }

  /** Bytes of structure and strings once the node has been written after the given table. */
  function Weight(n: Node, table: seq<Name>): nat {
    var final := AddAll(table, NodeNames(n));
    |NodeBytes(n, final)| + |Flat(final)|
  }

  lemma AddAllFirst(table: seq<Name>, name: Name, names: seq<Name>)
    ensures AddAll(table, [name] + names) == AddAll(Add(table, name), names)
  {
    AddAllConcat(table, [name], names);
    assert [name][..0] == [];
    assert AddAll(table, [name]) == Add(table, name);
  }

  lemma FlatGrows(table: seq<Name>, final: seq<Name>)
    requires table <= final
    ensures |Flat(table)| <= |Flat(final)|
  {
    FlatOfPrefix(table, final[|table|..]);
    assert final == table + final[|table|..];
  }

  /** One more name: the rest of the plan still leads to the same final table. */
  lemma PlanStep(table: seq<Name>, name: Name, names: seq<Name>, final: seq<Name>)
    requires AddAll(table, [name] + names) == final
    ensures AddAll(Add(table, name), names) == final
    ensures name in Add(table, name) && Add(table, name) <= final
    ensures Offset(final, name) == Offset(Add(table, name), name) < |Flat(final)|
  {
    AddAllFirst(table, name, names);
    var t1 := Add(table, name);
    AddAllGrows(t1, names);
    assert final == t1 + final[|t1|..];
    OffsetOfPrefix(t1, final[|t1|..], name);
    OffsetBelow(t1, name);
    FlatGrows(t1, final);
  }

  /** The same for a whole child. */
  lemma PlanNode(table: seq<Name>, kid: Node, names: seq<Name>, final: seq<Name>)
    requires AddAll(table, NodeNames(kid) + names) == final
    ensures var t1 := AddAll(table, NodeNames(kid));
            && AddAll(t1, names) == final
            && NodeBytes(kid, final) == NodeBytes(kid, t1)
            && |Flat(t1)| <= |Flat(final)|
  {
    hide NodeBytes, NodeNames;
    var t1 := AddAll(table, NodeNames(kid));
    AddAllConcat(table, NodeNames(kid), names);
    AddAllGrows(table, NodeNames(kid));
    AddAllGrows(t1, names);
    assert final == t1 + final[|t1|..];
    NodeStable(kid, t1, final[|t1|..]);
    FlatGrows(t1, final);
  }

  lemma {:induction false} PropsConcat(a: seq<Prop>, b: seq<Prop>, table: seq<Name>)
    ensures PropsBytes(a + b, table) == PropsBytes(a, table) + PropsBytes(b, table)
  {
    hide PropBytes;
    if a == [] {
      assert a + b == b;
    } else {
      assert (a + b)[0] == a[0] && (a + b)[1..] == a[1..] + b;
      PropsConcat(a[1..], b, table);
    }
  }

  lemma PropsCut(ps: seq<Prop>, i: nat, table: seq<Name>)
    requires i < |ps|
    ensures PropsBytes(ps[..i + 1], table) == PropsBytes(ps[..i], table) + PropBytes(ps[i], table)
    ensures |PropBytes(ps[i], table)| <= |PropsBytes(ps, table)|
    ensures PropNames(ps[i..]) == [ps[i].name] + PropNames(ps[i + 1..])
  {
    assert ps[..i + 1] == ps[..i] + [ps[i]];
    PropsConcat(ps[..i], [ps[i]], table);
    PropsParts([ps[i]], table, []);
    assert PropsBytes([ps[i]], table) == PropBytes(ps[i], table) by { assert [ps[i]][1..] == []; }
    assert ps == ps[..i + 1] + ps[i + 1..];
    PropsConcat(ps[..i + 1], ps[i + 1..], table);
    assert ps[i..][1..] == ps[i + 1..];
  }

  lemma {:induction false} KidsConcat(a: seq<Node>, b: seq<Node>, table: seq<Name>)
    ensures KidsBytes(a + b, table) == KidsBytes(a, table) + KidsBytes(b, table)
  {
    hide NodeBytes;
    if a == [] {
      assert a + b == b;
    } else {
      assert (a + b)[0] == a[0] && (a + b)[1..] == a[1..] + b;
      KidsConcat(a[1..], b, table);
    }
  }

  lemma KidsCut(kids: seq<Node>, j: nat, table: seq<Name>)
    requires j < |kids|
    ensures KidsBytes(kids[..j + 1], table) == KidsBytes(kids[..j], table) + NodeBytes(kids[j], table)
    ensures |NodeBytes(kids[j], table)| <= |KidsBytes(kids, table)|
    ensures KidsNames(kids[j..]) == NodeNames(kids[j]) + KidsNames(kids[j + 1..])
  {
    hide NodeBytes, NodeNames;
    assert kids[j..][1..] == kids[j + 1..];
    assert KidsNames(kids[j..]) == NodeNames(kids[j]) + KidsNames(kids[j + 1..]);
    assert KidsBytes([kids[j]], table) == NodeBytes(kids[j], table) by { assert [kids[j]][1..] == []; }
    hide KidsBytes, KidsNames;
    assert kids[..j + 1] == kids[..j] + [kids[j]];
    KidsConcat(kids[..j], [kids[j]], table);
    assert kids == kids[..j + 1] + kids[j + 1..];
    KidsConcat(kids[..j + 1], kids[j + 1..], table);
  }

  lemma NodeNamesParts(n: Node)
    ensures NodeNames(n) == PropNames(n.props) + KidsNames(n.kids)
  {
    hide PropNames, KidsNames;
  }

  lemma Regroup(a: Bytes, b: Bytes, c: Bytes)
    ensures (a + b) + c == a + (b + c)
  {
  }

  /** Head, properties, children and end token, written one after the other, are the node. */
  lemma NodeAssembled(start: Bytes, n: Node, table: seq<Name>)
    ensures ((start + NodeHead(n.name)) + PropsBytes(n.props, table)) + KidsBytes(n.kids, table) + U32(END_NODE)
            == start + NodeBytes(n, table)
    ensures |PropsBytes(n.props, table)| + |KidsBytes(n.kids, table)| <= |NodeBytes(n, table)|
  {
    var h, p, k, e := NodeHead(n.name), PropsBytes(n.props, table), KidsBytes(n.kids, table), U32(END_NODE);
    assert NodeBytes(n, table) == h + (p + (k + e));
    hide NodeHead, PropsBytes, KidsBytes, NodeBytes;
    Regroup(start, h, p + (k + e));
    Regroup(start + h, p, k + e);
    Regroup((start + h) + p, k, e);
  }

  lemma RegroupPadded(start: Bytes, c: Bytes, v: Bytes, z: Bytes)
    ensures start + c + v + z == start + (c + (v + z))
  {
  }

  lemma HeadWritten(start: Bytes, name: Name)
    requires |start| % 4 == 0
    ensures var s := start + U32(BEGIN_NODE) + (name + [0]);
            s + Zeros(Padding(|s|)) == start + NodeHead(name)
  {
    assert Padding(|start| + 4 + |name| + 1) == Padding(|name| + 1);
    hide U32, Padding;
    RegroupPadded(start, U32(BEGIN_NODE), name + [0], Zeros(Padding(|name| + 1)));
  }

  lemma PropWritten(start: Bytes, p: Prop, table: seq<Name>)
    requires |start| % 4 == 0
    ensures var s := start + (U32(PROP) + U32(|p.value|) + U32(Offset(table, p.name))) + p.value;
            s + Zeros(Padding(|s|)) == start + PropBytes(p, table)
  {
    assert Padding(|start| + 12 + |p.value|) == Padding(|p.value|);
    hide U32, Padding, Offset;
    RegroupPadded(start, U32(PROP) + U32(|p.value|) + U32(Offset(table, p.name)), p.value, Zeros(Padding(|p.value|)));
  }

  class DtbWriter {
    var strings: Bytes
    var stroff: map<Name, nat>
    var st: Bytes
    ghost var table: seq<Name>

    constructor ()
      ensures Valid() && st == [] && table == []
    {
      strings, stroff, st, table := [], map[], [], [];
    }

    ghost predicate Valid()
      reads this`strings, this`stroff, this`table
    {
      && strings == Flat(table)
      && (forall n :: n in table <==> n in stroff)
      && (forall n :: n in stroff ==> stroff[n] == Offset(table, n))
    }

    method Sid(name: Name) returns (off: nat)
      requires Valid()
      modifies this`strings, this`stroff, this`table
      ensures Valid() && table == Add(old(table), name) && off == Offset(table, name)
    {
      if name !in stroff {
        stroff := stroff[name := |strings|];
        OffsetOfNew(table, name);
        forall n | n in table ensures Offset(table + [name], n) == Offset(table, n) {
          OffsetOfPrefix(table, [name], n);
        }
        strings := strings + (name + [0]);
        table := table + [name];
      }
      off := stroff[name];
    }

    method Align()
      modifies this`st
      ensures st == old(st) + Zeros(Padding(|old(st)|))
    {
      ghost var n := 0;
      while |st| % 4 != 0
        invariant n <= Padding(|old(st)|) && st == old(st) + Zeros(n)
        decreases Padding(|old(st)|) - n
      {
        st := st + [0];
        n := n + 1;
      }
    }

    /** One property; struct.pack refuses a length or an offset of 2^32 or more. */
    method EmitProp(p: Prop, ghost names: seq<Name>, ghost final: seq<Name>) returns (ok: bool)
      requires Valid() && |st| % 4 == 0 && AddAll(table, [p.name] + names) == final
      modifies this
      ensures ok ==> Valid() && st == old(st) + PropBytes(p, final) && AddAll(table, names) == final
      ensures !ok ==> TWO32 <= |PropBytes(p, final)| + |Flat(final)|
    {
      PlanStep(table, p.name, names, final);
      PropWritten(st, p, final);
      var off := Sid(p.name);
      if |p.value| >= TWO32 || off >= TWO32 { return false; }
      hide PropBytes, AddAll, Offset, Padding;
      st := st + (U32(PROP) + U32(|p.value|) + U32(off));
      st := st + p.value;
      Align();
      ok := true;
    }

    method EmitProps(props: map<Name, Bytes>, ghost more: seq<Name>, ghost final: seq<Name>) returns (ok: bool)
      requires Valid() && |st| % 4 == 0
      requires AddAll(table, PropNames(PropList(props, Sorted(props.Keys))) + more) == final
      modifies this
      ensures var ps := PropList(props, Sorted(props.Keys));
              && (ok ==> Valid() && AddAll(table, more) == final
                         && st == old(st) + PropsBytes(ps, final) && |st| % 4 == 0)
              && (!ok ==> TWO32 <= |PropsBytes(ps, final)| + |Flat(final)|)
    {
      hide DtbWriter.Valid, AddAll, Flat, PropBytes, PropsBytes, PropNames, PropList, Offset, Padding, Sorted, Min,
        IsMin, Leq;
      var names := Sorted(props.Keys);
      ghost var ps := PropList(props, names);
      NoProps(final);
      assert ps[0..] == ps && ps[..0] == [];
      var i := 0;
      while i < |names|
        invariant 0 <= i <= |names| && |st| % 4 == 0 && Valid()
        invariant AddAll(table, PropNames(ps[i..]) + more) == final
        invariant st == old(st) + PropsBytes(ps[..i], final)
      {
        PropListAt(props, names, i);
        PropsCut(ps, i, final);
        Regroup3(ps[i].name, PropNames(ps[i + 1..]), more);
        PropAligned(ps[i], final);
        ok := EmitProp(Prop(names[i], props[names[i]]), PropNames(ps[i + 1..]) + more, final);
        if !ok { return; }
        Regroup(old(st), PropsBytes(ps[..i], final), PropBytes(ps[i], final));
        i := i + 1;
      }
      assert ps[i..] == [] && ps[..i] == ps;
      assert PropNames([]) + more == more;
      ok := true;
    }

    method Emit(t: PathTree, path: Path) returns (ok: bool)
      requires Valid() && |st| % 4 == 0 && Closed(t) && path in t
      modifies this
      ensures ok ==> Valid() && strings == Flat(table) && table == AddAll(old(table), NodeNames(Emitted(t, path)))
                     && st == old(st) + NodeBytes(Emitted(t, path), table)
      ensures !ok ==> TWO32 <= Weight(Emitted(t, path), old(table))
      decreases Deeper(t, path), 1
    {
      hide NodeBytes, NodeNames, Emitted, EmittedAll, Closed, NodeHead, PropList, PropNames, KidsNames, KidsBytes,
        PropsBytes, AddAll, Padding, Reachable, ReachableAll, Flat, Offset, Sorted;
      ghost var n := Emitted(t, path);
      ghost var final := AddAll(table, NodeNames(n));
      NodeNamesParts(n);
      EmittedParts(t, path);
      NodeAssembled(st, n, final);
      HeadWritten(st, n.name);
      HeadAligned(n.name);

      var name := if path != [] then Basename(path) else [];
      st := st + U32(BEGIN_NODE);
      st := st + (name + [0]);
      Align();
      ok := EmitProps(t[path].props, KidsNames(n.kids), final);
      if !ok { return; }
      ok := EmitKids(t, path, final);
      if !ok { return; }
      st := st + U32(END_NODE);
    }

    method EmitKids(t: PathTree, path: Path, ghost final: seq<Name>) returns (ok: bool)
      requires Valid() && |st| % 4 == 0 && Closed(t) && path in t
      requires AddAll(table, KidsNames(EmittedAll(t, path, Sorted(t[path].children)))) == final
      modifies this
      ensures var kids := EmittedAll(t, path, Sorted(t[path].children));
              && (ok ==> Valid() && table == final && st == old(st) + KidsBytes(kids, final))
              && (!ok ==> TWO32 <= |KidsBytes(kids, final)| + |Flat(final)|)
      decreases Deeper(t, path), 0
    {
      hide DtbWriter.Valid, Emitted, EmittedAll, NodeBytes, NodeNames, KidsNames, KidsBytes, AddAll, Flat, Closed,
        Sorted, Reachable, ReachableAll, Deeper, IsChild;
      var cs := Sorted(t[path].children);
      assert forall i :: 0 <= i < |cs| ==> cs[i] in t[path].children;
      ghost var kids := EmittedAll(t, path, cs);
      NoKids(final, table);
      assert kids[0..] == kids && kids[..0] == [];
      var j := 0;
      while j < |cs|
        invariant 0 <= j <= |cs| && |st| % 4 == 0 && Valid()
        invariant AddAll(table, KidsNames(kids[j..])) == final
        invariant st == old(st) + KidsBytes(kids[..j], final)
      {
        ChildIsDeeper(t, path, cs[j]);
        EmittedAllAt(t, path, cs, j);
        KidsCut(kids, j, final);
        PlanNode(table, kids[j], KidsNames(kids[j + 1..]), final);
        NodeAligned(kids[j], final);
        ok := Emit(t, cs[j]);
        if !ok { return; }
        Regroup(old(st), KidsBytes(kids[..j], final), NodeBytes(kids[j], final));
        j := j + 1;
      }
      assert kids[j..] == [] && kids[..j] == kids;
      NoKids(final, table);
      ok := true;
    }
  }

  lemma NoProps(table: seq<Name>)
    ensures PropsBytes([], table) == [] && PropNames([]) == []
  {
  }

  lemma NoKids(final: seq<Name>, table: seq<Name>)
    ensures KidsBytes([], final) == [] && AddAll(table, KidsNames([])) == table
  {
  }

  lemma Regroup3(name: Name, names: seq<Name>, more: seq<Name>)
    ensures ([name] + names) + more == [name] + (names + more)
  {
  }

  /** The blob, or None where struct.pack raises because a size does not fit 32 bits. */
  method Build(t: PathTree) returns (blob: Option<Bytes>)
    requires Closed(t)
    ensures var b := Blob(Emitted(t, [])); blob == if |b| < TWO32 then Some(b) else None
  {
    assert [] in t;
    hide DtbWriter.Valid, Blob, Emitted, NodeBytes, NodeNames, Closed, AddAll, HeaderBytes, Flat, Table, Weight;
    ghost var root := Emitted(t, []);
    var w := new DtbWriter();
    var ok := w.Emit(t, []);
    RootWeight(root);
    if !ok { return None; }
    NothingBefore(NodeBytes(root, w.table));
    w.st := w.st + U32(END);
    BlobAssembled(root, w.st, w.strings);
    var total := HEADER_SIZE + RESERVE_SIZE + |w.st| + |w.strings|;
    if total >= TWO32 { return None; }
    blob := Some(HeaderBytes(|w.st|, |w.strings|) + Zeros(RESERVE_SIZE) + w.st + w.strings);
  }

  lemma NothingBefore(b: Bytes)
    ensures [] + b == b
  {
  }

  lemma RootWeight(root: Node)
    ensures Table(root) == AddAll([], NodeNames(root))
    ensures |Blob(root)| == 60 + Weight(root, [])
  {
    hide NodeBytes, Flat, HeaderBytes;
  }

  lemma BlobAssembled(root: Node, st: Bytes, strings: Bytes)
    requires st == NodeBytes(root, Table(root)) + U32(END) && strings == Flat(Table(root))
    ensures |Blob(root)| == 56 + |st| + |strings|
    ensures Blob(root) == HeaderBytes(|st|, |strings|) + Zeros(RESERVE_SIZE) + st + strings
  {
    hide NodeBytes, Flat, HeaderBytes, Table;
  }

  // ----------------------------------------------------------------- round trip

  lemma {:induction false} PropListNulFree(props: map<Name, Bytes>, names: seq<Name>)
    requires forall n :: n in names ==> n in props && NulFree(n)
    ensures AllNulFree(PropNames(PropList(props, names)))
  {
    if names != [] {
      assert names[0] in names;
      assert forall n :: n in names[1..] ==> n in names;
      PropListNulFree(props, names[1..]);
      assert PropList(props, names)[1..] == PropList(props, names[1..]);
    }
  }

  lemma {:induction false} EmittedNulFree(t: PathTree, p: Path)
    requires Closed(t) && p in t && NulFree(Basename(p))
    ensures NamesNulFree(Emitted(t, p)) && AllNulFree(NodeNames(Emitted(t, p)))
    decreases Deeper(t, p), 1, 0
  {
    var names, cs := Sorted(t[p].props.Keys), Sorted(t[p].children);
    PropListNulFree(t[p].props, names);
    hide Emitted, EmittedAll, Closed, Sorted, PropList, PropNames, KidsNames, Reachable, ReachableAll;
    assert forall i :: 0 <= i < |cs| ==> cs[i] in t[p].children;
    EmittedAllNulFree(t, p, cs);
    EmittedParts(t, p);
  }

  lemma KidsNulFreeStep(kids: seq<Node>, first: Node, rest: seq<Node>)
    requires kids == [first] + rest
    requires NamesNulFree(first) && AllNulFree(NodeNames(first))
    requires (forall i :: 0 <= i < |rest| ==> NamesNulFree(rest[i])) && AllNulFree(KidsNames(rest))
    ensures (forall i :: 0 <= i < |kids| ==> NamesNulFree(kids[i])) && AllNulFree(KidsNames(kids))
  {
    hide NamesNulFree, NodeNames, NulFree;
    assert kids[1..] == rest;
  }

  lemma {:induction false} EmittedAllNulFree(t: PathTree, p: Path, cs: seq<Path>)
    requires Closed(t) && p in t && forall i :: 0 <= i < |cs| ==> cs[i] in t[p].children
    ensures forall i :: 0 <= i < |cs| ==> NamesNulFree(EmittedAll(t, p, cs)[i])
    ensures AllNulFree(KidsNames(EmittedAll(t, p, cs)))
    decreases Deeper(t, p), 0, |cs|
  {
    if cs != [] {
      ChildIsDeeper(t, p, cs[0]);
      EmittedNulFree(t, cs[0]);
      EmittedAllNulFree(t, p, cs[1..]);
      hide Emitted, EmittedAll, Closed, NodeNames, Reachable, ReachableAll, NamesNulFree, AllNulFree, KidsNames;
      EmittedAllStep(t, p, cs);
      KidsNulFreeStep(EmittedAll(t, p, cs), Emitted(t, cs[0]), EmittedAll(t, p, cs[1..]));
    }
  }

  /** The blob of a closed tree parses to exactly the part of the tree that is reachable from the root. */
  lemma BuiltBlobParses(t: PathTree)
    requires Closed(t) && |Blob(Emitted(t, []))| < TWO32
    ensures ParseBlob(Blob(Emitted(t, []))) == Some(Devicetree(Emitted(t, []), [], 0))
    ensures Index(Emitted(t, []), []) == Restrict(t, Reachable(t, []))
  {
    EmittedName(t, []);
    EmittedNulFree(t, []);
    BlobParses(Emitted(t, []));
    EmittedIndexesBack(t);
  }

  /** Properties are written in the byte order of their names. */
  lemma PropsInOrder(t: PathTree, p: Path, i: nat, j: nat)
    requires Closed(t) && p in t && i < j < |Emitted(t, p).props|
    ensures var ps := Emitted(t, p).props; ps[i].name != ps[j].name && Leq(ps[i].name, ps[j].name)
  {
    hide Emitted, EmittedAll, Sorted, Leq, Closed, PropList, Reachable, ReachableAll;
    var names := Sorted(t[p].props.Keys);
    EmittedParts(t, p);
    SortedIsAscending(t[p].props.Keys);
    PropListAt(t[p].props, names, i);
    PropListAt(t[p].props, names, j);
  }

  /** Children are written in the byte order of their paths. */
  lemma KidsInOrder(t: PathTree, p: Path, i: nat, j: nat)
    requires Closed(t) && p in t && i < j < |Emitted(t, p).kids|
    ensures var a, b := Join(p, Emitted(t, p).kids[i].name), Join(p, Emitted(t, p).kids[j].name); a != b && Leq(a, b)
  {
    hide Emitted, EmittedAll, Sorted, Leq, Closed, PropList, Join, Reachable, ReachableAll;
    var paths := Sorted(t[p].children);
    EmittedParts(t, p);
    SortedIsAscending(t[p].children);
    assert |EmittedAll(t, p, paths)| == |paths|;
    assert paths[i] in paths && paths[j] in paths;
    EmittedAllAt(t, p, paths, i);
    EmittedAllAt(t, p, paths, j);
    ChildName(t, p, paths[i]);
    ChildName(t, p, paths[j]);
  }

  /** The whole tree comes back exactly when every node but the root is listed by its parent. */
  lemma WholeTreeComesBack(t: PathTree)
    requires Closed(t) && |Blob(Emitted(t, []))| < TWO32
    ensures ParseBlob(Blob(Emitted(t, []))).Some?
    ensures Index(ParseBlob(Blob(Emitted(t, []))).value.root, []) == t <==> Linked(t)
  {
    assert [] in t;
    hide Blob, Emitted, ParseBlob, Reachable, Index, Linked, Closed, Restrict;
    BuiltBlobParses(t);
    AllReachableIffLinked(t);
    RestrictIsAll(t, Reachable(t, []));
  }

  lemma RestrictIsAll(t: PathTree, keys: set<Path>)
    ensures Restrict(t, keys) == t <==> forall k :: k in t ==> k in keys
  {
    if Restrict(t, keys) == t {
      forall k | k in t ensures k in keys { assert k in Restrict(t, keys); }
    }
  }

  /** After edits of a linked tree, all of it comes back exactly when every property set is of a node the deletions left. */
  lemma EditedTreeComesBack(t: PathTree, dels: seq<Path>, sets: seq<Setting>, edited: PathTree)
    requires Closed(t) && Linked(t) && Edit(t, dels, sets) == Edited(edited, true)
    requires forall i :: 0 <= i < |sets| ==> NulFree(sets[i].path)
    requires Closed(edited) ==> |Blob(Emitted(edited, []))| < TWO32
    ensures Closed(edited) && ParseBlob(Blob(Emitted(edited, []))).Some?
    ensures Index(ParseBlob(Blob(Emitted(edited, []))).value.root, []) == edited <==>
            forall i :: 0 <= i < |sets| ==> Dirname(sets[i].path) in DeleteAll(t, dels).tree
  {
    hide Blob, Emitted, ParseBlob, Index, Linked, Closed, Edit, DeleteAll, Dirname;
    EditKeepsClosed(t, dels, sets);
    EditKeepsLinked(t, dels, sets);
    WholeTreeComesBack(edited);
  }

  /** Different reachable trees give different blobs. */
  lemma BuildIsInjective(t: PathTree, u: PathTree)
    requires Closed(t) && Closed(u) && |Blob(Emitted(t, []))| < TWO32
    requires Blob(Emitted(t, [])) == Blob(Emitted(u, []))
    ensures Restrict(t, Reachable(t, [])) == Restrict(u, Reachable(u, []))
  {
    BuiltBlobParses(t);
    BuiltBlobParses(u);
    hide Blob, Emitted, ParseBlob, Reachable, Index;
  }
}
