/** apply_edits of fs2dtb.py: deletions, then property settings, in place. */
module DevicetreeEdits {
  import opened ByteStrings
  import opened DevicetreeFormat
  import opened DevicetreeTree

  /** The tree after an edit; ok is false when the script stopped with an error at that point. */
  datatype Edited = Edited(tree: PathTree, ok: bool)

  /** A value that is not valid hex is None. */
  datatype Setting = Setting(path: Path, value: Option<Bytes>)

  function Without(t: PathTree, path: Path): PathTree {
    map k | k in t && !Under(k, path) :: t[k]
  }

  function Delete(t: PathTree, path: Path): Edited {
    var parent := Dirname(path);
    if path in t then
      var left := Without(t, path);
      if parent !in left then Edited(left, false)
      else Edited(left[parent := Entry(left[parent].props, left[parent].children - {path})], true)
    else if parent !in t then Edited(t, false)
    else Edited(t[parent := Entry(t[parent].props - {Basename(path)}, t[parent].children)], true)
  }

  function SetProp(t: PathTree, s: Setting): Edited {
    var node := Dirname(s.path);
    var t1 := if node in t then t else t[node := EMPTY];
    match s.value
    case None => Edited(t1, false)
    case Some(v) => Edited(t1[node := Entry(t1[node].props[Basename(s.path) := v], t1[node].children)], true)
  }

  function DeleteAll(t: PathTree, dels: seq<Path>): Edited
    decreases |dels|
  {
    if dels == [] then Edited(t, true)
    else
      var e := Delete(t, dels[0]);
      if e.ok then DeleteAll(e.tree, dels[1..]) else e
  }

  function SetAll(t: PathTree, sets: seq<Setting>): Edited
    decreases |sets|
  {
    if sets == [] then Edited(t, true)
    else
      var e := SetProp(t, sets[0]);
      if e.ok then SetAll(e.tree, sets[1..]) else e
  }

  function Edit(t: PathTree, dels: seq<Path>, sets: seq<Setting>): Edited {
    var e := DeleteAll(t, dels);
    if e.ok then SetAll(e.tree, sets) else e
  }

  /** The value of a property, None when the node or the property is missing. */
  function PropAt(t: PathTree, node: Path, name: Name): Option<Bytes> {
    if node in t && name in t[node].props then Some(t[node].props[name]) else None
  }

  /** The path of a setting or a deletion names this property. */
  predicate NamesProp(path: Path, node: Path, name: Name) {
    Dirname(path) == node && Basename(path) == name
  }

  /** The value the last setting of a property gives it, None when there is none. */
  function LastSetting(sets: seq<Setting>, node: Path, name: Name): Option<Bytes> {
    if sets == [] then None
    else if LastSetting(sets[1..], node, name).Some? then LastSetting(sets[1..], node, name)
    else if NamesProp(sets[0].path, node, name) then sets[0].value
    else None
  }

  class EditableTree {
    var tree: PathTree

    constructor (tree: PathTree)
      ensures this.tree == tree
    {
      this.tree := tree;
    }

    method RemoveSubtree(path: Path)
      modifies this
      ensures tree == Without(old(tree), path)
    {
      ghost var start := tree;
      var all := set k | k in tree && Under(k, path);
      var doomed := all;
      while doomed != {}
        invariant doomed <= all
        invariant tree == map k | k in start && k !in all - doomed :: start[k]
        decreases doomed
      {
        var k :| k in doomed;
        tree := tree - {k};
        doomed := doomed - {k};
      }
    }

    method DeleteOne(path: Path) returns (ok: bool)
      modifies this
      ensures Edited(tree, ok) == Delete(old(tree), path)
    {
      var parent := Dirname(path);
      if path in tree {
        RemoveSubtree(path);
        if parent !in tree { return false; }
        tree := tree[parent := Entry(tree[parent].props, tree[parent].children - {path})];
      } else {
        if parent !in tree { return false; }
        tree := tree[parent := Entry(tree[parent].props - {Basename(path)}, tree[parent].children)];
      }
      ok := true;
    }

    method ApplyEdits(dels: seq<Path>, sets: seq<Setting>) returns (ok: bool)
      modifies this
      ensures Edited(tree, ok) == Edit(old(tree), dels, sets)
      ensures ok ==> forall node, name :: LastSetting(sets, node, name).Some? ==>
                PropAt(tree, node, name) == LastSetting(sets, node, name)
    {
      var i := 0;
      while i < |dels|
        invariant 0 <= i <= |dels|
        invariant DeleteAll(tree, dels[i..]) == DeleteAll(old(tree), dels)
      {
        ok := DeleteOne(dels[i]);
        if !ok { return; }
        i := i + 1;
      }
      var j := 0;
      while j < |sets|
        invariant 0 <= j <= |sets|
        invariant SetAll(tree, sets[j..]) == Edit(old(tree), dels, sets)
      {
        var node := Dirname(sets[j].path);
        if node !in tree { tree := tree[node := EMPTY]; }
        if sets[j].value.None? { return false; }
        var props := tree[node].props[Basename(sets[j].path) := sets[j].value.value];
        tree := tree[node := Entry(props, tree[node].children)];
        j := j + 1;
      }
      ok := true;
      EditSets(old(tree), dels, sets);
    }
  }

  // ------------------------------------------------------------ what an edit of a property does

  /** A setting gives one property its value, creates its node if need be, and changes nothing else. */
  lemma SetPropSets(t: PathTree, s: Setting)
    ensures SetProp(t, s).ok <==> s.value.Some?
    ensures var t', node := SetProp(t, s).tree, Dirname(s.path);
            && t'.Keys == t.Keys + {node}
            && (forall k :: k in t' ==> t'[k].children == if k in t then t[k].children else {})
            && (forall k, n :: PropAt(t', k, n) ==
                  if s.value.Some? && NamesProp(s.path, k, n) then s.value else PropAt(t, k, n))
  {
    hide Dirname, Basename;
  }

  function NodesSet(sets: seq<Setting>): set<Path> {
    set s | s in sets :: Dirname(s.path)
  }

  lemma {:induction false} SetAllProp(t: PathTree, sets: seq<Setting>, k: Path, n: Name)
    requires SetAll(t, sets).ok
    ensures PropAt(SetAll(t, sets).tree, k, n) ==
            if LastSetting(sets, k, n).Some? then LastSetting(sets, k, n) else PropAt(t, k, n)
    decreases |sets|
  {
    if sets != [] {
      SetPropSets(t, sets[0]);
      SetAllProp(SetProp(t, sets[0]).tree, sets[1..], k, n);
      hide SetProp, PropAt, NamesProp, Dirname;
    }
  }

  lemma {:induction false} SetAllNode(t: PathTree, sets: seq<Setting>, k: Path)
    requires SetAll(t, sets).ok
    ensures var t' := SetAll(t, sets).tree;
            && (k in t' <==> k in t || k in NodesSet(sets))
            && (k in t' ==> t'[k].children == if k in t then t[k].children else {})
    decreases |sets|
  {
    if sets != [] {
      SetPropSets(t, sets[0]);
      SetAllNode(SetProp(t, sets[0]).tree, sets[1..], k);
      hide SetProp, PropAt, Dirname;
      assert forall s :: s in sets <==> s == sets[0] || s in sets[1..];
    }
  }

  lemma {:induction false} SetAllSucceeds(t: PathTree, sets: seq<Setting>)
    ensures SetAll(t, sets).ok <==> forall i :: 0 <= i < |sets| ==> sets[i].value.Some?
    decreases |sets|
  {
    if sets != [] {
      SetPropSets(t, sets[0]);
      SetAllSucceeds(SetProp(t, sets[0]).tree, sets[1..]);
      hide SetProp;
      assert forall i :: 0 < i < |sets| ==> sets[i] == sets[1..][i - 1];
    }
  }

  /** Settings succeed exactly when every value is hex; then each property holds its last setting, and that is all. */
  lemma SetAllSets(t: PathTree, sets: seq<Setting>)
    ensures SetAll(t, sets).ok <==> forall i :: 0 <= i < |sets| ==> sets[i].value.Some?
    ensures SetAll(t, sets).ok ==>
              var t' := SetAll(t, sets).tree;
              && t'.Keys == t.Keys + NodesSet(sets)
              && (forall k :: k in t' ==> t'[k].children == if k in t then t[k].children else {})
              && (forall k, n :: PropAt(t', k, n) ==
                    if LastSetting(sets, k, n).Some? then LastSetting(sets, k, n) else PropAt(t, k, n))
  {
    hide SetAll, PropAt, LastSetting, NodesSet;
    SetAllSucceeds(t, sets);
    if SetAll(t, sets).ok {
      var t' := SetAll(t, sets).tree;
      forall k ensures k in t' <==> k in t || k in NodesSet(sets) { SetAllNode(t, sets, k); }
      forall k | k in t' ensures t'[k].children == if k in t then t[k].children else {} { SetAllNode(t, sets, k); }
      forall k, n ensures PropAt(t', k, n) ==
                          if LastSetting(sets, k, n).Some? then LastSetting(sets, k, n) else PropAt(t, k, n) {
        SetAllProp(t, sets, k, n);
      }
    }
  }

  /** A deletion whose path is no node removes one property, or fails without a change when the node is missing. */
  lemma DeletePropRemoves(t: PathTree, path: Path)
    requires path !in t
    ensures Delete(t, path).ok <==> Dirname(path) in t
    ensures var t' := Delete(t, path).tree;
            && t'.Keys == t.Keys && (forall k :: k in t ==> t'[k].children == t[k].children)
            && (forall k, n :: PropAt(t', k, n) == if NamesProp(path, k, n) then None else PropAt(t, k, n))
  {
    hide Dirname, Basename;
  }

  /** After edits that succeed, each property holds its last setting, or what the deletions left of it. */
  lemma EditSets(t: PathTree, dels: seq<Path>, sets: seq<Setting>)
    requires Edit(t, dels, sets).ok
    ensures forall node, name :: PropAt(Edit(t, dels, sets).tree, node, name) ==
              if LastSetting(sets, node, name).Some? then LastSetting(sets, node, name)
              else PropAt(DeleteAll(t, dels).tree, node, name)
  {
    SetAllSets(DeleteAll(t, dels).tree, sets);
  }

  // ------------------------------------------------------------- edits keep the tree closed

  lemma {:induction false} BasenameNulFree(p: Path)
    requires NulFree(p)
    ensures NulFree(Basename(p))
  {
    if p != [] && p[|p| - 1] != SLASH { BasenameNulFree(p[..|p| - 1]); }
  }

  /** What remains lists the deleted path only at its parent. */
  lemma ListedAfterDeletion(t: PathTree, path: Path, p: Path, c: Path)
    requires Closed(t) && path != [] && p in Without(t, path) && c in t[p].children
    ensures c == path <==> c !in Without(t, path)
    ensures c == path ==> p == Dirname(path)
  {
    ChildIsDeeper(t, p, c);
    ParentUnder(p, c, path);
    DirnameOfChild(p, c);
  }

  lemma DeleteKeepsClosed(t: PathTree, path: Path)
    requires Closed(t) && Delete(t, path).ok
    ensures Closed(Delete(t, path).tree)
    ensures path != [] || path !in t
  {
    assert Dirname([]) == [];
    var t' := Delete(t, path).tree;
    if path in t {
      var left := Without(t, path);
      assert [] in left;
      forall p, c | p in t' && c in t'[p].children ensures c in t' && IsChild(p, c) {
        ChildIsDeeper(t, p, c);
        ListedAfterDeletion(t, path, p, c);
      }
    }
  }

  lemma SetKeepsClosed(t: PathTree, s: Setting)
    requires Closed(t) && NulFree(s.path)
    ensures Closed(SetProp(t, s).tree)
  {
    BasenameNulFree(s.path);
  }

  lemma {:induction false} DeleteAllKeepsClosed(t: PathTree, dels: seq<Path>)
    requires Closed(t) && DeleteAll(t, dels).ok
    ensures Closed(DeleteAll(t, dels).tree)
  {
    if dels != [] {
      DeleteKeepsClosed(t, dels[0]);
      DeleteAllKeepsClosed(Delete(t, dels[0]).tree, dels[1..]);
    }
  }

  lemma {:induction false} SetAllKeepsClosed(t: PathTree, sets: seq<Setting>)
    requires Closed(t) && forall i :: 0 <= i < |sets| ==> NulFree(sets[i].path)
    ensures Closed(SetAll(t, sets).tree)
    decreases |sets|
  {
    if sets != [] {
      SetKeepsClosed(t, sets[0]);
      if SetProp(t, sets[0]).ok { SetAllKeepsClosed(SetProp(t, sets[0]).tree, sets[1..]); }
    }
  }

  /** Edits that succeed keep the tree closed, so the writer can descend it. */
  lemma EditKeepsClosed(t: PathTree, dels: seq<Path>, sets: seq<Setting>)
    requires Closed(t) && Edit(t, dels, sets).ok
    requires forall i :: 0 <= i < |sets| ==> NulFree(sets[i].path)
    ensures Closed(Edit(t, dels, sets).tree)
  {
    DeleteAllKeepsClosed(t, dels);
    SetAllKeepsClosed(DeleteAll(t, dels).tree, sets);
  }

  // ------------------------------------------------------------ what a deletion removes

  lemma ParentSurvives(t: PathTree, path: Path)
    requires Closed(t) && Linked(t) && path in t && path != []
    ensures var parent := Dirname(path);
            parent in t && parent in Without(t, path) && IsChild(parent, path) && Delete(t, path).ok
  {
    var parent := Dirname(path);
    ChildIsDeeper(t, parent, path);
    DirnameOfChild(parent, path);
  }

  lemma DeletedKeys(t: PathTree, path: Path)
    requires Closed(t) && Linked(t) && path in t && path != []
    ensures Without(t, path).Keys == t.Keys - Reachable(t, path)
  {
    forall k | k in t ensures Under(k, path) <==> k in Reachable(t, path) { UnderIsReachable(t, path, k); }
    hide Under, Reachable, Closed;
  }

  lemma SurvivorsParent(t: PathTree, path: Path, k: Path)
    requires Closed(t) && Linked(t) && path in t && path != [] && k in Without(t, path) && k != []
    ensures Dirname(k) in Without(t, path) && k in t[Dirname(k)].children && k != path
  {
    ChildIsDeeper(t, Dirname(k), k);
    ParentUnder(Dirname(k), k, path);
  }

  lemma DeleteKeepsLinked(t: PathTree, path: Path)
    requires Closed(t) && Linked(t) && path in t && path != []
    ensures Linked(Delete(t, path).tree)
  {
    ParentSurvives(t, path);
    var left, t' := Without(t, path), Delete(t, path).tree;
    assert t'.Keys == left.Keys;
    hide Under, Closed, Dirname;
    forall k | k in t' && k != [] ensures Dirname(k) in t' && k in t'[Dirname(k)].children {
      SurvivorsParent(t, path, k);
    }
  }

  /**
   Deleting a node of a linked tree succeeds exactly when it is not the root,
   removes exactly that node and its descendants, unlists it at its parent,
   changes nothing else, and leaves a closed linked tree.
   */
  lemma DeleteRemovesSubtree(t: PathTree, path: Path)
    requires Closed(t) && Linked(t) && path in t
    ensures Delete(t, path).ok <==> path != []
    ensures path != [] ==>
              var t' := Delete(t, path).tree;
              var parent := Dirname(path);
              && Closed(t') && Linked(t')
              && t'.Keys == t.Keys - Reachable(t, path)
              && parent in t && parent in t'
              && t'[parent] == Entry(t[parent].props, t[parent].children - {path})
              && forall k :: k in t' && k != parent ==> t'[k] == t[k]
  {
    assert Dirname([]) == [];
    if path != [] {
      ParentSurvives(t, path);
      DeletedKeys(t, path);
      DeleteKeepsLinked(t, path);
      DeleteKeepsClosed(t, path);
      hide Closed, Linked, Under, Reachable, Dirname;
    }
  }

  /** Setting a property of a missing node creates the node, but the writer never reaches it. */
  lemma SetOnMissingNodeIsUnreachable(t: PathTree, s: Setting)
    requires Closed(t) && NulFree(s.path) && Dirname(s.path) !in t
    ensures Closed(SetProp(t, s).tree) && Dirname(s.path) in SetProp(t, s).tree
    ensures Dirname(s.path) !in Reachable(SetProp(t, s).tree, [])
  {
    SetKeepsClosed(t, s);
    var t', node := SetProp(t, s).tree, Dirname(s.path);
    forall q | q in t' ensures node !in t'[q].children {
      if q in t { assert t'[q] == t[q]; }
    }
    if node in Reachable(t', []) {
      var q := ReachableIsListed(t', [], node);
      assert false;
    }
  }

  /** So a property setting keeps a linked tree linked exactly when its node exists. */
  lemma SetKeepsLinked(t: PathTree, s: Setting)
    requires Closed(t) && NulFree(s.path)
    ensures Linked(SetProp(t, s).tree) <==> Linked(t) && Dirname(s.path) in t
  {
    var t', node := SetProp(t, s).tree, Dirname(s.path);
    if node in t {
      assert t'.Keys == t.Keys && forall k :: k in t ==> t'[k].children == t[k].children;
    } else if Linked(t') {
      SetOnMissingNodeIsUnreachable(t, s);
      LinkedIsReachable(t', node);
    }
  }

  /** Deletions that succeed keep a linked tree linked. */
  lemma {:induction false} DeleteAllKeepsLinked(t: PathTree, dels: seq<Path>)
    requires Closed(t) && Linked(t) && DeleteAll(t, dels).ok
    ensures Linked(DeleteAll(t, dels).tree)
  {
    if dels != [] {
      DeleteKeepsClosed(t, dels[0]);
      if dels[0] in t { DeleteKeepsLinked(t, dels[0]); }
      DeleteAllKeepsLinked(Delete(t, dels[0]).tree, dels[1..]);
    }
  }

  lemma {:induction false} SetAllKeepsLinked(t: PathTree, sets: seq<Setting>)
    requires Closed(t) && SetAll(t, sets).ok
    requires forall i :: 0 <= i < |sets| ==> NulFree(sets[i].path)
    ensures Linked(SetAll(t, sets).tree) <==>
            Linked(t) && forall i :: 0 <= i < |sets| ==> Dirname(sets[i].path) in t
    decreases |sets|
  {
    if sets != [] {
      var s, t1 := sets[0], SetProp(t, sets[0]).tree;
      SetKeepsLinked(t, s);
      SetKeepsClosed(t, s);
      assert Dirname(s.path) in t ==> t1.Keys == t.Keys;
      hide Closed, Linked, Dirname;
      SetAllKeepsLinked(t1, sets[1..]);
      assert forall i :: 0 < i < |sets| ==> sets[i] == sets[1..][i - 1];
    }
  }

  /** Edits that succeed keep a linked tree linked exactly when every property set is of a node the deletions left. */
  lemma EditKeepsLinked(t: PathTree, dels: seq<Path>, sets: seq<Setting>)
    requires Closed(t) && Linked(t) && Edit(t, dels, sets).ok
    requires forall i :: 0 <= i < |sets| ==> NulFree(sets[i].path)
    ensures Linked(Edit(t, dels, sets).tree) <==>
            forall i :: 0 <= i < |sets| ==> Dirname(sets[i].path) in DeleteAll(t, dels).tree
  {
    DeleteAllKeepsClosed(t, dels);
    DeleteAllKeepsLinked(t, dels);
    SetAllKeepsLinked(DeleteAll(t, dels).tree, sets);
  }
}
