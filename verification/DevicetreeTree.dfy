/**
 The path-indexed tree of fs2dtb.py, its edits, and the ordered tree that the
 writer emits: the part that is reachable from the root.
 */
module DevicetreeTree {
  import opened ByteStrings
  import opened DevicetreeFormat

  type Path = Bytes

  datatype Entry = Entry(props: map<Name, Bytes>, children: set<Path>)
  type PathTree = map<Path, Entry>

  const SLASH: byte := 47
  const EMPTY: Entry := Entry(map[], {})

  // --------------------------------------------------------------------- paths

  /** os.path.basename: what follows the last slash. */
  function Basename(p: Path): Bytes {
    if p == [] || p[|p| - 1] == SLASH then [] else Basename(p[..|p| - 1]) + [p[|p| - 1]]
  }

  function StripSlashes(p: Path): (r: Path)
    ensures r <= p
    ensures r != [] ==> r[|r| - 1] != SLASH
  {
    if p != [] && p[|p| - 1] == SLASH then StripSlashes(p[..|p| - 1]) else p
  }

  lemma {:induction false} BasenameLength(p: Path)
    ensures |Basename(p)| <= |p|
  {
    if p != [] && p[|p| - 1] != SLASH { BasenameLength(p[..|p| - 1]); }
  }

  /** os.path.dirname: what precedes the last slash, without trailing slashes unless it has nothing else. */
  function Dirname(p: Path): (d: Path)
    ensures |d| <= |p|
  {
    BasenameLength(p);
    var head := p[..|p| - |Basename(p)|];
    if StripSlashes(head) == [] then head else StripSlashes(head)
  }

  function Join(p: Path, name: Bytes): Path {
    if p == [] then name else p + [SLASH] + name
  }

  predicate SlashFree(s: Bytes) { forall i :: 0 <= i < |s| ==> s[i] != SLASH }

  predicate ValidName(name: Bytes) { name != [] && SlashFree(name) && NulFree(name) }

  predicate Proper(p: Path) { p == [] || p[|p| - 1] != SLASH }

  /** c is the path of a node right below the node at p. */
  predicate IsChild(p: Path, c: Path) {
    Proper(p) && ValidName(Basename(c)) && c == Join(p, Basename(c))
  }

  lemma {:induction false} BasenameOfJoin(p: Path, name: Bytes)
    requires SlashFree(name)
    ensures Basename(Join(p, name)) == name
  {
    var j := Join(p, name);
    if name != [] {
      var front := name[..|name| - 1];
      assert j[|j| - 1] == name[|name| - 1];
      BasenameOfJoin(p, front);
      if p == [] || front != [] {
        assert j[..|j| - 1] == Join(p, front);
      } else {
        assert j[..|j| - 1] == p + [SLASH];
      }
      assert name == front + [name[|name| - 1]];
    }
  }

  /** Cutting a joined path gives its two parts back. */
  lemma JoinSplits(p: Path, name: Bytes)
    requires Proper(p) && SlashFree(name) && (p == [] ==> name != [])
    ensures Basename(Join(p, name)) == name && Dirname(Join(p, name)) == p
  {
    BasenameOfJoin(p, name);
    var j := Join(p, name);
    if p == [] {
      assert j[..0] == [];
    } else {
      assert j[..|j| - |name|] == p + [SLASH];
      assert (p + [SLASH])[..|p|] == p;
      assert StripSlashes(p + [SLASH]) == StripSlashes(p) == p;
    }
  }

  lemma DirnameOfChild(p: Path, c: Path)
    requires IsChild(p, c)
    ensures Dirname(c) == p && |p| < |c| && c != []
  {
    JoinSplits(p, Basename(c));
  }

  // ---------------------------------------------------------------- well-formed trees

  /** Closed: the root exists, and every listed child exists right below its parent. */
  predicate Closed(t: PathTree) {
    && [] in t
    && (forall p, c :: p in t && c in t[p].children ==> c in t && IsChild(p, c))
    && (forall p, n :: p in t && n in t[p].props ==> NulFree(n))
  }

  /** Every node but the root is listed by its parent, as in a tree loaded from a directory. */
  predicate Linked(t: PathTree) {
    forall k :: k in t && k != [] ==> Dirname(k) in t && k in t[Dirname(k)].children
  }

  /** The termination measure of the descent: the nodes with longer paths. */
  function Deeper(t: PathTree, p: Path): set<Path> {
    set k | k in t && |k| > |p|
  }

  lemma ChildIsDeeper(t: PathTree, p: Path, c: Path)
    requires Closed(t) && p in t && c in t[p].children
    ensures c in t && IsChild(p, c)
    ensures Deeper(t, c) < Deeper(t, p)
  {
    DirnameOfChild(p, c);
    assert c in Deeper(t, p) && c !in Deeper(t, c);
  }

  // -------------------------------------------------------------- Python's sorted()

  predicate Leq(a: Bytes, b: Bytes) {
    if a == [] then true
    else if b == [] then false
    else a[0] < b[0] || (a[0] == b[0] && Leq(a[1..], b[1..]))
  }

  /** The bytes at the first difference, if there is one, decide. */
  predicate DiffersUpwards(a: Bytes, b: Bytes, i: nat) {
    i < |a| && i < |b| && a[..i] == b[..i] && a[i] < b[i]
  }

  lemma {:induction false} LeqIsByteOrder(a: Bytes, b: Bytes)
    ensures Leq(a, b) <==> a <= b || exists i: nat :: DiffersUpwards(a, b, i)
  {
    if a != [] && b != [] {
      LeqIsByteOrder(a[1..], b[1..]);
      if a[0] == b[0] {
        assert a <= b <==> a[1..] <= b[1..];
        forall i: nat ensures DiffersUpwards(a[1..], b[1..], i) <==> DiffersUpwards(a, b, i + 1) {
          if i < |a| - 1 && i < |b| - 1 {
            assert a[..i + 1] == [a[0]] + a[1..][..i] && b[..i + 1] == [b[0]] + b[1..][..i];
            assert a[..i + 1][1..] == a[1..][..i] && b[..i + 1][1..] == b[1..][..i];
          }
        }
        if i: nat :| DiffersUpwards(a[1..], b[1..], i) { assert DiffersUpwards(a, b, i + 1); }
        if i: nat :| DiffersUpwards(a, b, i) { assert i != 0 && DiffersUpwards(a[1..], b[1..], i - 1); }
      } else {
        if a[0] < b[0] { assert DiffersUpwards(a, b, 0); }
        if i: nat :| DiffersUpwards(a, b, i) { assert i != 0 ==> a[..i][0] == b[..i][0]; }
      }
    }
  }

  lemma {:induction false} LeqAntisymmetric(a: Bytes, b: Bytes)
    requires Leq(a, b) && Leq(b, a)
    ensures a == b
  {
    if a != [] {
      LeqAntisymmetric(a[1..], b[1..]);
      assert a == [a[0]] + a[1..] && b == [b[0]] + b[1..];
    }
  }

  lemma {:induction false} LeqTotal(a: Bytes, b: Bytes)
    ensures Leq(a, b) || Leq(b, a)
  {
    if a != [] && b != [] { LeqTotal(a[1..], b[1..]); }
  }

  lemma {:induction false} LeqTransitive(a: Bytes, b: Bytes, c: Bytes)
    requires Leq(a, b) && Leq(b, c)
    ensures Leq(a, c)
  {
    if a != [] && a[0] == b[0] == c[0] { LeqTransitive(a[1..], b[1..], c[1..]); }
  }

  predicate IsMin(s: set<Bytes>, m: Bytes) {
    m in s && forall x :: x in s ==> Leq(m, x)
  }

  lemma {:induction false} MinExists(s: set<Bytes>)
    requires s != {}
    ensures exists m :: IsMin(s, m)
  {
    var x :| x in s;
    var rest := s - {x};
    LeqTotal(x, x);
    if rest == {} {
      assert s == {x};
      assert IsMin(s, x);
    } else {
      MinExists(rest);
      var m :| IsMin(rest, m);
      LeqTotal(x, m);
      if Leq(m, x) {
        assert IsMin(s, m);
      } else {
        forall y | y in s ensures Leq(x, y) {
          if y != x { LeqTransitive(x, m, y); }
        }
        assert IsMin(s, x);
      }
    }
  }

  function Min(s: set<Bytes>): (m: Bytes)
    requires s != {}
    ensures IsMin(s, m)
  {
    MinExists(s);
    assert forall a, b | IsMin(s, a) && IsMin(s, b) :: a == b by {
      forall a, b | IsMin(s, a) && IsMin(s, b) ensures a == b { LeqAntisymmetric(a, b); }
    }
    var m :| m in s && IsMin(s, m);
    m
  }

  function Sorted(s: set<Bytes>): (q: seq<Bytes>)
    ensures |q| == |s|
    ensures forall x :: x in q <==> x in s
    decreases |s|
  {
    if s == {} then [] else var m := Min(s); [m] + Sorted(s - {m})
  }

  predicate Ascending(q: seq<Bytes>) {
    forall i, j :: 0 <= i < j < |q| ==> q[i] != q[j] && Leq(q[i], q[j])
  }

  lemma AscendingPrepend(m: Bytes, rest: seq<Bytes>)
    requires Ascending(rest) && m !in rest && forall x :: x in rest ==> Leq(m, x)
    ensures Ascending([m] + rest)
  {
    hide Leq;
  }

  lemma {:induction false} SortedIsAscending(s: set<Bytes>)
    ensures Ascending(Sorted(s))
    decreases |s|
  {
    if s != {} {
      var m := Min(s);
      SortedIsAscending(s - {m});
      hide Ascending, Leq;
      AscendingPrepend(m, Sorted(s - {m}));
    }
  }

  // -------------------------------------------------------- the tree that is emitted

  function PropList(props: map<Name, Bytes>, names: seq<Name>): (ps: seq<Prop>)
    requires forall n :: n in names ==> n in props
    ensures |ps| == |names|
  {
    if names == [] then []
    else
      assert names[0] in names;
      assert forall n :: n in names[1..] ==> n in names;
      [Prop(names[0], props[names[0]])] + PropList(props, names[1..])
  }

  function Emitted(t: PathTree, p: Path): Node
    requires Closed(t) && p in t
    decreases Deeper(t, p), 1, 0
  {
    var children := Sorted(t[p].children);
    Node(Basename(p), PropList(t[p].props, Sorted(t[p].props.Keys)), EmittedAll(t, p, children))
  }

  function EmittedAll(t: PathTree, p: Path, cs: seq<Path>): (kids: seq<Node>)
    requires Closed(t) && p in t && forall i :: 0 <= i < |cs| ==> cs[i] in t[p].children
    ensures |kids| == |cs|
    decreases Deeper(t, p), 0, |cs|
  {
    if cs == [] then []
    else
      ChildIsDeeper(t, p, cs[0]);
      [Emitted(t, cs[0])] + EmittedAll(t, p, cs[1..])
  }

  /** The nodes at or below p. */
  function Reachable(t: PathTree, p: Path): set<Path>
    requires Closed(t) && p in t
    decreases Deeper(t, p), 1, 0
  {
    {p} + ReachableAll(t, p, Sorted(t[p].children))
  }

  function ReachableAll(t: PathTree, p: Path, cs: seq<Path>): set<Path>
    requires Closed(t) && p in t && forall i :: 0 <= i < |cs| ==> cs[i] in t[p].children
    decreases Deeper(t, p), 0, |cs|
  {
    if cs == [] then {}
    else
      ChildIsDeeper(t, p, cs[0]);
      Reachable(t, cs[0]) + ReachableAll(t, p, cs[1..])
  }

  function Restrict(t: PathTree, keys: set<Path>): PathTree {
    map k | k in t && k in keys :: t[k]
  }

  // -------------------------------------------- from the emitted tree back to paths

  function PropMap(ps: seq<Prop>): map<Name, Bytes> {
    if ps == [] then map[] else PropMap(ps[1..])[ps[0].name := ps[0].value]
  }

  function ChildPaths(p: Path, kids: seq<Node>): set<Path> {
    if kids == [] then {} else {Join(p, kids[0].name)} + ChildPaths(p, kids[1..])
  }

  /** The path index of an ordered tree whose root sits at p. */
  function Index(n: Node, p: Path): PathTree
    decreases n, 1
  {
    map[p := Entry(PropMap(n.props), ChildPaths(p, n.kids))] + IndexAll(n.kids, p)
  }

  function IndexAll(kids: seq<Node>, p: Path): PathTree
    decreases kids, 0
  {
    if kids == [] then map[] else Index(kids[0], Join(p, kids[0].name)) + IndexAll(kids[1..], p)
  }

  lemma {:induction false} PropMapOfList(props: map<Name, Bytes>, names: seq<Name>)
    requires forall n :: n in names ==> n in props
    ensures PropMap(PropList(props, names)) == map n | n in props && n in names :: props[n]
  {
    if names != [] {
      assert names[0] in names;
      assert forall n :: n in names[1..] ==> n in names;
      PropMapOfList(props, names[1..]);
      assert PropList(props, names)[1..] == PropList(props, names[1..]);
      assert forall n :: n in names <==> n == names[0] || n in names[1..];
    }
  }

  lemma EmittedAllStep(t: PathTree, p: Path, cs: seq<Path>)
    requires Closed(t) && p in t && cs != [] && forall i :: 0 <= i < |cs| ==> cs[i] in t[p].children
    ensures cs[0] in t
    ensures EmittedAll(t, p, cs) == [Emitted(t, cs[0])] + EmittedAll(t, p, cs[1..])
    ensures ReachableAll(t, p, cs) == Reachable(t, cs[0]) + ReachableAll(t, p, cs[1..])
  {
    ChildIsDeeper(t, p, cs[0]);
    hide Emitted, Reachable, Closed;
  }

  lemma ChildName(t: PathTree, p: Path, c: Path)
    requires Closed(t) && p in t && c in t[p].children
    ensures c in t && Join(p, Emitted(t, c).name) == c
  {
    ChildIsDeeper(t, p, c);
    EmittedName(t, c);
    hide Closed, Emitted;
  }

  lemma EmittedName(t: PathTree, p: Path)
    requires Closed(t) && p in t
    ensures Emitted(t, p).name == Basename(p)
  {
    hide Closed, EmittedAll, Sorted, PropList;
  }

  lemma SetOfSequence(cs: seq<Path>)
    requires cs != []
    ensures (set c | c in cs) == {cs[0]} + set c | c in cs[1..]
  {
    assert cs == [cs[0]] + cs[1..];
  }

  lemma ChildPathsStep(p: Path, kids: seq<Node>, first: Node, rest: seq<Node>)
    requires kids == [first] + rest
    ensures ChildPaths(p, kids) == {Join(p, first.name)} + ChildPaths(p, rest)
  {
    assert kids[1..] == rest;
  }

  lemma {:induction false} ChildPathsOfEmitted(t: PathTree, p: Path, cs: seq<Path>)
    requires Closed(t) && p in t && forall i :: 0 <= i < |cs| ==> cs[i] in t[p].children
    ensures ChildPaths(p, EmittedAll(t, p, cs)) == set c | c in cs
  {
    if cs != [] {
      ChildPathsOfEmitted(t, p, cs[1..]);
      hide Closed, EmittedAll, Emitted, Join, ChildPaths, Reachable, ReachableAll;
      EmittedAllStep(t, p, cs);
      ChildName(t, p, cs[0]);
      ChildPathsStep(p, EmittedAll(t, p, cs), Emitted(t, cs[0]), EmittedAll(t, p, cs[1..]));
      SetOfSequence(cs);
    }
  }

  predicate PartOf(part: PathTree, t: PathTree, keys: set<Path>) {
    part.Keys == keys && forall k :: k in part ==> k in t && part[k] == t[k]
  }

  lemma EmittedParts(t: PathTree, p: Path)
    requires Closed(t) && p in t
    ensures Emitted(t, p) ==
            Node(Basename(p), PropList(t[p].props, Sorted(t[p].props.Keys)), EmittedAll(t, p, Sorted(t[p].children)))
    ensures Reachable(t, p) == {p} + ReachableAll(t, p, Sorted(t[p].children))
  {
    hide Closed, EmittedAll, ReachableAll, Sorted, PropList;
  }

  lemma IndexParts(n: Node, p: Path)
    ensures Index(n, p) == map[p := Entry(PropMap(n.props), ChildPaths(p, n.kids))] + IndexAll(n.kids, p)
  {
    hide IndexAll, PropMap, ChildPaths;
  }

  lemma PartOfSum(a: PathTree, b: PathTree, t: PathTree, ka: set<Path>, kb: set<Path>)
    requires PartOf(a, t, ka) && PartOf(b, t, kb)
    ensures PartOf(a + b, t, ka + kb)
  {
  }

  lemma PropsRebuilt(props: map<Name, Bytes>)
    ensures PropMap(PropList(props, Sorted(props.Keys))) == props
  {
    hide PropMap, PropList;
    var names := Sorted(props.Keys);
    PropMapOfList(props, names);
    hide Sorted;
    assert (map n | n in props && n in names :: props[n]) == props;
  }

  lemma ChildrenRebuilt(t: PathTree, p: Path)
    requires Closed(t) && p in t
    ensures ChildPaths(p, EmittedAll(t, p, Sorted(t[p].children))) == t[p].children
  {
    hide Closed, ChildPaths, EmittedAll;
    var cs := Sorted(t[p].children);
    ChildPathsOfEmitted(t, p, cs);
    hide Sorted;
    assert (set c | c in cs) == t[p].children;
  }

  /** The emitted node carries the entry it came from. */
  lemma EntryRebuilt(t: PathTree, p: Path)
    requires Closed(t) && p in t
    ensures Entry(PropMap(Emitted(t, p).props), ChildPaths(p, Emitted(t, p).kids)) == t[p]
  {
    hide Closed, PropMap, PropList, ChildPaths, Emitted, EmittedAll, Sorted, Reachable, ReachableAll;
    EmittedParts(t, p);
    PropsRebuilt(t[p].props);
    ChildrenRebuilt(t, p);
  }

  lemma PartOfEntry(p: Path, e: Entry, t: PathTree)
    requires p in t && t[p] == e
    ensures PartOf(map[p := e], t, {p})
  {
  }

  lemma {:induction false} IndexOfEmitted(t: PathTree, p: Path)
    requires Closed(t) && p in t
    ensures PartOf(Index(Emitted(t, p), p), t, Reachable(t, p))
    decreases Deeper(t, p), 1, 0
  {
    hide Closed, PropMap, PropList, ChildPaths, Emitted, EmittedAll, Reachable, ReachableAll, Index, IndexAll, PartOf;
    var n, cs := Emitted(t, p), Sorted(t[p].children);
    assert forall i :: 0 <= i < |cs| ==> cs[i] in t[p].children;
    IndexOfEmittedAll(t, p, cs);
    hide Sorted, Deeper;
    EmittedParts(t, p);
    EntryRebuilt(t, p);
    IndexParts(n, p);
    PartOfEntry(p, t[p], t);
    PartOfSum(map[p := t[p]], IndexAll(n.kids, p), t, {p}, ReachableAll(t, p, cs));
  }

  lemma IndexAllStep(kids: seq<Node>, p: Path, first: Node, rest: seq<Node>)
    requires kids == [first] + rest
    ensures IndexAll(kids, p) == Index(first, Join(p, first.name)) + IndexAll(rest, p)
  {
    hide Index;
    assert kids[1..] == rest;
  }

  lemma {:induction false} IndexOfEmittedAll(t: PathTree, p: Path, cs: seq<Path>)
    requires Closed(t) && p in t && forall i :: 0 <= i < |cs| ==> cs[i] in t[p].children
    ensures PartOf(IndexAll(EmittedAll(t, p, cs), p), t, ReachableAll(t, p, cs))
    decreases Deeper(t, p), 0, |cs|
  {
    if cs != [] {
      ChildIsDeeper(t, p, cs[0]);
      IndexOfEmitted(t, cs[0]);
      IndexOfEmittedAll(t, p, cs[1..]);
      hide Emitted, EmittedAll, Reachable, ReachableAll, Index, IndexAll, Closed, Join, PartOf, Deeper;
      EmittedAllStep(t, p, cs);
      ChildName(t, p, cs[0]);
      var first, rest := Emitted(t, cs[0]), EmittedAll(t, p, cs[1..]);
      IndexAllStep(EmittedAll(t, p, cs), p, first, rest);
      PartOfSum(Index(first, cs[0]), IndexAll(rest, p), t, Reachable(t, cs[0]), ReachableAll(t, p, cs[1..]));
    }
  }

  lemma EmittedIndexesBack(t: PathTree)
    requires Closed(t)
    ensures Index(Emitted(t, []), []) == Restrict(t, Reachable(t, []))
  {
    IndexOfEmitted(t, []);
  }

  // ---------------------------------------------------------- what reachable means

  lemma {:induction false} ReachableAllIsUnion(t: PathTree, p: Path, cs: seq<Path>, k: Path)
    requires Closed(t) && p in t && forall i :: 0 <= i < |cs| ==> cs[i] in t[p].children
    ensures forall c :: c in cs ==> c in t
    ensures k in ReachableAll(t, p, cs) <==> exists c :: c in cs && k in Reachable(t, c)
  {
    if cs != [] {
      EmittedAllStep(t, p, cs);
      ReachableAllIsUnion(t, p, cs[1..], k);
      hide Reachable, ReachableAll, Closed, EmittedAll;
      assert forall c :: c in cs <==> c == cs[0] || c in cs[1..];
    }
  }

  lemma ReachableStep(t: PathTree, p: Path, k: Path)
    requires Closed(t) && p in t
    ensures forall c :: c in t[p].children ==> c in t
    ensures k in Reachable(t, p) <==> k == p || exists c :: c in t[p].children && k in Reachable(t, c)
  {
    var cs := Sorted(t[p].children);
    ReachableAllIsUnion(t, p, cs, k);
    EmittedParts(t, p);
    hide Reachable, ReachableAll, Emitted, EmittedAll, Sorted, Closed;
    assert forall c :: c in cs <==> c in t[p].children;
  }

  /** Reachable sets are closed under children. */
  lemma {:induction false} ReachableHasChildren(t: PathTree, p: Path, k: Path, c: Path)
    requires Closed(t) && p in t && k in Reachable(t, p) && k in t && c in t[k].children
    ensures c in Reachable(t, p)
    decreases Deeper(t, p)
  {
    ReachableStep(t, p, k);
    ReachableStep(t, p, c);
    ReachableStep(t, c, c) by { ChildIsDeeper(t, k, c); }
    hide Reachable;
    if k != p {
      var d :| d in t[p].children && k in Reachable(t, d);
      ChildIsDeeper(t, p, d);
      ReachableHasChildren(t, d, k, c);
    }
  }

  /** k is path itself or spelled like something below it: the test of the deletion loop. */
  predicate Under(k: Path, path: Path) {
    k == path || path + [SLASH] <= k
  }

  lemma SlashInJoin(p: Path, name: Bytes, i: nat)
    requires SlashFree(name) && i < |Join(p, name)|
    ensures Join(p, name)[i] == SLASH ==> i <= |p| && p != []
  {
    if p == [] || i > |p| {
      assert Join(p, name)[i] == name[if p == [] then i else i - |p| - 1];
    }
  }

  /** A child that is under a path has its parent there too, unless it is that path. */
  lemma ParentUnder(p: Path, c: Path, path: Path)
    requires IsChild(p, c) && path != []
    ensures Under(c, path) <==> c == path || Under(p, path)
  {
    var name := Basename(c);
    if path + [SLASH] <= c {
      assert c[|path|] == SLASH && c[..|path|] == path;
      SlashInJoin(p, name, |path|);
      assert p[..|path|] == c[..|path|];
      if |path| < |p| { assert p[..|path| + 1] == c[..|path| + 1] == path + [SLASH]; }
    }
    if Under(p, path) { assert path + [SLASH] <= p + [SLASH] <= c; }
  }

  /** In a linked tree the deletion loop's test finds exactly the descendants. */
  lemma {:induction false} UnderIsReachable(t: PathTree, path: Path, k: Path)
    requires Closed(t) && Linked(t) && path in t && path != [] && k in t
    ensures Under(k, path) <==> k in Reachable(t, path)
    decreases |k|
  {
    if Under(k, path) {
      if k == path {
        ReachableStep(t, path, path);
      } else {
        var p := Dirname(k);
        DirnameOfChild(p, k);
        ParentUnder(p, k, path);
        UnderIsReachable(t, path, p);
        ReachableHasChildren(t, path, p, k);
      }
    }
    if k in Reachable(t, path) { ReachableIsUnder(t, path, path, k); }
  }

  lemma {:induction false} ReachableIsUnder(t: PathTree, path: Path, p: Path, k: Path)
    requires Closed(t) && path != [] && p in t && Under(p, path) && k in Reachable(t, p)
    ensures Under(k, path)
    decreases Deeper(t, p)
  {
    ReachableStep(t, p, k);
    if k != p {
      var c :| c in t[p].children && k in Reachable(t, c);
      ParentUnder(p, c, path);
      ChildIsDeeper(t, p, c);
      ReachableIsUnder(t, path, c, k);
    }
  }

  /** In a linked tree every node is reachable, so nothing is lost. */
  lemma {:induction false} LinkedIsReachable(t: PathTree, k: Path)
    requires Closed(t) && Linked(t) && k in t
    ensures k in Reachable(t, [])
    decreases |k|
  {
    if k == [] {
      ReachableStep(t, [], []);
    } else {
      var p := Dirname(k);
      DirnameOfChild(p, k);
      LinkedIsReachable(t, p);
      ReachableHasChildren(t, [], p, k);
    }
  }

  /** A node is listed by some reachable node, or it is the root. */
  lemma {:induction false} ReachableIsListed(t: PathTree, p: Path, k: Path) returns (q: Path)
    requires Closed(t) && p in t && k in Reachable(t, p) && k != p
    ensures q in t && k in t[q].children
    decreases Deeper(t, p)
  {
    ReachableStep(t, p, k);
    var c :| c in t[p].children && k in Reachable(t, c);
    ChildIsDeeper(t, p, c);
    if k == c { q := p; } else { q := ReachableIsListed(t, c, k); }
  }

  /** Nothing is lost exactly when the tree is linked. */
  lemma AllReachableIffLinked(t: PathTree)
    requires Closed(t)
    ensures Linked(t) <==> forall k :: k in t ==> k in Reachable(t, [])
  {
    if Linked(t) {
      forall k | k in t ensures k in Reachable(t, []) { LinkedIsReachable(t, k); }
    }
    if forall k :: k in t ==> k in Reachable(t, []) {
      forall k | k in t && k != [] ensures Dirname(k) in t && k in t[Dirname(k)].children {
        var q := ReachableIsListed(t, [], k);
        DirnameOfChild(q, k);
      }
    }
  }
}
