/**
 Where the tokens of the structure block stand (Devicetree Specification v0.4,
 section 5.4): all of them aligned, and the nodes properly nested.
 */
module DevicetreeTokens {
  import opened ByteStrings
  import opened DevicetreeFormat

  datatype Token = Token(at: nat, kind: nat)

  function PropsTokens(ps: seq<Prop>, table: seq<Name>, at: nat): seq<Token> {
    if ps == [] then [] else [Token(at, PROP)] + PropsTokens(ps[1..], table, at + |PropBytes(ps[0], table)|)
  }

  /** The tokens of a node whose bytes start at the given offset. */
  function NodeTokens(n: Node, table: seq<Name>, at: nat): seq<Token>
    decreases n, 1
  {
    var props := at + |NodeHead(n.name)|;
    var kids := props + |PropsBytes(n.props, table)|;
    [Token(at, BEGIN_NODE)] + PropsTokens(n.props, table, props) + KidsTokens(n.kids, table, kids)
    + [Token(kids + |KidsBytes(n.kids, table)|, END_NODE)]
  }

  function KidsTokens(kids: seq<Node>, table: seq<Name>, at: nat): seq<Token>
    decreases kids, 0
  {
    if kids == [] then []
    else NodeTokens(kids[0], table, at) + KidsTokens(kids[1..], table, at + |NodeBytes(kids[0], table)|)
  }

  /** The tokens of a blob: the structure block starts at 56. */
  function BlobTokens(root: Node): seq<Token> {
    NodeTokens(root, Table(root), 56) + [Token(56 + |NodeBytes(root, Table(root))|, END)]
  }

  // -------------------------------------------------------------------- alignment

  /** The bytes from the offset on start with the given ones. */
  predicate StandsAt(b: Bytes, at: nat, part: Bytes) {
    at + |part| <= |b| && b[at..at + |part|] == part
  }

  predicate TokenStands(b: Bytes, t: Token) {
    t.at % 4 == 0 && StandsAt(b, t.at, U32(t.kind))
  }

  ghost predicate TokensStand(b: Bytes, ts: seq<Token>) {
    forall i :: 0 <= i < |ts| ==> TokenStands(b, ts[i])
  }

  lemma StandsParts(b: Bytes, at: nat, x: Bytes, y: Bytes)
    ensures StandsAt(b, at, x + y) ==> StandsAt(b, at, x) && StandsAt(b, at + |x|, y)
  {
    if StandsAt(b, at, x + y) {
      var whole := b[at..at + |x + y|];
      assert whole[..|x|] == x && whole[|x|..] == y;
      assert b[at..at + |x|] == whole[..|x|] && b[at + |x|..at + |x| + |y|] == whole[|x|..];
    }
  }

  lemma JoinStands(b: Bytes, xs: seq<Token>, ys: seq<Token>)
    requires TokensStand(b, xs) && TokensStand(b, ys)
    ensures TokensStand(b, xs + ys)
  {
  }

  /** A property whose bytes stand at an aligned offset begins with its token. */
  lemma PropBegins(b: Bytes, at: nat, p: Prop, table: seq<Name>)
    requires at % 4 == 0 && StandsAt(b, at, PropBytes(p, table))
    ensures TokenStands(b, Token(at, PROP))
  {
    var rest := U32(|p.value|) + U32(Offset(table, p.name)) + Padded(p.value);
    assert PropBytes(p, table) == U32(PROP) + rest;
    hide PropBytes, StandsAt, Padded, Offset;
    StandsParts(b, at, U32(PROP), rest);
  }

  lemma PropsCut(ps: seq<Prop>, table: seq<Name>) returns (first: Bytes, rest: Bytes)
    requires ps != []
    ensures first == PropBytes(ps[0], table) && rest == PropsBytes(ps[1..], table)
    ensures PropsBytes(ps, table) == first + rest && |first| % 4 == 0
  {
    hide PropBytes;
    first, rest := PropBytes(ps[0], table), PropsBytes(ps[1..], table);
    PropAligned(ps[0], table);
  }

  lemma {:induction false} PropsTokensStand(ps: seq<Prop>, table: seq<Name>, b: Bytes, at: nat)
    requires at % 4 == 0 && StandsAt(b, at, PropsBytes(ps, table))
    ensures TokensStand(b, PropsTokens(ps, table, at))
  {
    hide PropBytes, PropsBytes, StandsAt, TokenStands;
    if ps != [] {
      var first, rest := PropsCut(ps, table);
      StandsParts(b, at, first, rest);
      PropBegins(b, at, ps[0], table);
      PropsTokensStand(ps[1..], table, b, at + |first|);
      JoinStands(b, [Token(at, PROP)], PropsTokens(ps[1..], table, at + |first|));
    }
  }

  /** The four parts of a node, and the alignment of the first three. */
  lemma NodeCut(n: Node, table: seq<Name>) returns (head: Bytes, ps: Bytes, ks: Bytes)
    ensures head == NodeHead(n.name) && ps == PropsBytes(n.props, table) && ks == KidsBytes(n.kids, table)
    ensures NodeBytes(n, table) == head + (ps + (ks + U32(END_NODE)))
    ensures |head| % 4 == 0 && |ps| % 4 == 0 && |ks| % 4 == 0
  {
    head, ps, ks := NodeHead(n.name), PropsBytes(n.props, table), KidsBytes(n.kids, table);
    HeadAligned(n.name);
    PropsAligned(n.props, table);
    KidsAligned(n.kids, table);
  }

  lemma FourStand(b: Bytes, at: nat, x: Bytes, y: Bytes, z: Bytes, e: Bytes)
    requires StandsAt(b, at, x + (y + (z + e)))
    ensures StandsAt(b, at, x) && StandsAt(b, at + |x|, y) && StandsAt(b, at + |x| + |y|, z)
    ensures StandsAt(b, at + |x| + |y| + |z|, e)
  {
    StandsParts(b, at, x, y + (z + e));
    StandsParts(b, at + |x|, y, z + e);
    StandsParts(b, at + |x| + |y|, z, e);
  }

  lemma HeadBegins(b: Bytes, at: nat, name: Name)
    requires at % 4 == 0 && StandsAt(b, at, NodeHead(name))
    ensures TokenStands(b, Token(at, BEGIN_NODE))
  {
    StandsParts(b, at, U32(BEGIN_NODE), Padded(name + [0]));
  }

  lemma JoinFour(b: Bytes, begin: Token, ps: seq<Token>, ks: seq<Token>, end: Token)
    requires TokenStands(b, begin) && TokensStand(b, ps) && TokensStand(b, ks) && TokenStands(b, end)
    ensures TokensStand(b, [begin] + ps + ks + [end])
  {
    hide TokenStands;
    JoinStands(b, [begin], ps);
    JoinStands(b, [begin] + ps, ks);
    JoinStands(b, [begin] + ps + ks, [end]);
  }

  lemma {:induction false} NodeTokensStand(n: Node, table: seq<Name>, b: Bytes, at: nat)
    requires at % 4 == 0 && StandsAt(b, at, NodeBytes(n, table))
    ensures TokensStand(b, NodeTokens(n, table, at))
    decreases n, 1
  {
    hide NodeHead, PropsBytes, KidsBytes, NodeBytes, StandsAt, PropsTokens, KidsTokens, TokensStand;
    var head, ps, ks := NodeCut(n, table);
    FourStand(b, at, head, ps, ks, U32(END_NODE));
    HeadBegins(b, at, n.name);
    PropsTokensStand(n.props, table, b, at + |head|);
    KidsTokensStand(n.kids, table, b, at + |head| + |ps|);
    JoinFour(b, Token(at, BEGIN_NODE), PropsTokens(n.props, table, at + |head|),
      KidsTokens(n.kids, table, at + |head| + |ps|), Token(at + |head| + |ps| + |ks|, END_NODE));
  }

  lemma KidsCut(kids: seq<Node>, table: seq<Name>) returns (first: Bytes, rest: Bytes)
    requires kids != []
    ensures first == NodeBytes(kids[0], table) && rest == KidsBytes(kids[1..], table)
    ensures KidsBytes(kids, table) == first + rest && |first| % 4 == 0
  {
    hide NodeBytes;
    first, rest := NodeBytes(kids[0], table), KidsBytes(kids[1..], table);
    NodeAligned(kids[0], table);
  }

  lemma {:induction false} KidsTokensStand(kids: seq<Node>, table: seq<Name>, b: Bytes, at: nat)
    requires at % 4 == 0 && StandsAt(b, at, KidsBytes(kids, table))
    ensures TokensStand(b, KidsTokens(kids, table, at))
    decreases kids, 0
  {
    hide NodeBytes, KidsBytes, StandsAt, NodeTokens, TokenStands;
    if kids != [] {
      var first, rest := KidsCut(kids, table);
      StandsParts(b, at, first, rest);
      NodeTokensStand(kids[0], table, b, at);
      KidsTokensStand(kids[1..], table, b, at + |first|);
      hide TokensStand;
      JoinStands(b, NodeTokens(kids[0], table, at), KidsTokens(kids[1..], table, at + |first|));
    }
  }

  lemma StructStands(root: Node)
    requires |Blob(root)| < TWO32
    ensures StandsAt(Blob(root), 56, NodeBytes(root, Table(root)) + U32(END))
  {
    HeaderTiles(root);
    hide NodeBytes, Table, Blob, Field;
  }

  /** Every token of a blob stands at an offset divisible by four. */
  lemma BlobTokensAligned(root: Node)
    requires |Blob(root)| < TWO32
    ensures TokensStand(Blob(root), BlobTokens(root))
  {
    hide Blob, NodeBytes, StandsAt, NodeTokens, Table;
    var b, node := Blob(root), NodeBytes(root, Table(root));
    StructStands(root);
    NodeAligned(root, Table(root));
    StandsParts(b, 56, node, U32(END));
    NodeTokensStand(root, Table(root), b, 56);
    var end := Token(56 + |node|, END);
    assert TokenStands(b, end);
    hide TokenStands;
    JoinStands(b, NodeTokens(root, Table(root), 56), [end]);
  }

  // --------------------------------------------------------------------- nesting

  /** How many nodes are open after the tokens, or None if one was closed that was not open. */
  function DepthAfter(ts: seq<Token>, open: nat): Option<nat> {
    if ts == [] then Some(open)
    else if ts[0].kind == BEGIN_NODE then DepthAfter(ts[1..], open + 1)
    else if ts[0].kind != END_NODE then DepthAfter(ts[1..], open)
    else if open == 0 then None
    else DepthAfter(ts[1..], open - 1)
  }

  lemma {:induction false} DepthOfJoin(xs: seq<Token>, ys: seq<Token>, open: nat)
    ensures DepthAfter(xs + ys, open) ==
            if DepthAfter(xs, open).Some? then DepthAfter(ys, DepthAfter(xs, open).value) else None
  {
    if xs == [] {
      assert xs + ys == ys;
    } else {
      assert (xs + ys)[0] == xs[0] && (xs + ys)[1..] == xs[1..] + ys;
      if xs[0].kind == BEGIN_NODE { DepthOfJoin(xs[1..], ys, open + 1); }
      else if xs[0].kind != END_NODE { DepthOfJoin(xs[1..], ys, open); }
      else if open > 0 { DepthOfJoin(xs[1..], ys, open - 1); }
    }
  }

  lemma {:induction false} PropsNest(ps: seq<Prop>, table: seq<Name>, at: nat, open: nat)
    ensures DepthAfter(PropsTokens(ps, table, at), open) == Some(open)
  {
    if ps != [] {
      var rest := PropsTokens(ps[1..], table, at + |PropBytes(ps[0], table)|);
      PropsNest(ps[1..], table, at + |PropBytes(ps[0], table)|, open);
      hide PropBytes;
      assert PropsTokens(ps, table, at) == [Token(at, PROP)] + rest;
      assert PropsTokens(ps, table, at)[1..] == rest;
    }
  }

  lemma DepthOfFour(begin: Token, ps: seq<Token>, ks: seq<Token>, end: Token, open: nat)
    requires begin.kind == BEGIN_NODE && end.kind == END_NODE
    requires DepthAfter(ps, open + 1) == Some(open + 1) && DepthAfter(ks, open + 1) == Some(open + 1)
    ensures DepthAfter([begin] + ps + ks + [end], open) == Some(open)
  {
    assert [begin][1..] == [] && [end][1..] == [];
    assert DepthAfter([begin], open) == Some(open + 1) && DepthAfter([end], open + 1) == Some(open) by {
      assert DepthAfter([], open + 1) == Some(open + 1);
    }
    hide DepthAfter;
    DepthOfJoin([begin], ps, open);
    DepthOfJoin([begin] + ps, ks, open);
    DepthOfJoin([begin] + ps + ks, [end], open);
  }

  /** Each node closes exactly what it opens, below whatever is already open. */
  lemma {:induction false} NodeNests(n: Node, table: seq<Name>, at: nat, open: nat)
    ensures DepthAfter(NodeTokens(n, table, at), open) == Some(open)
    decreases n, 1
  {
    hide PropsTokens, KidsTokens, DepthAfter, NodeHead, PropsBytes, KidsBytes;
    var at1 := at + |NodeHead(n.name)|;
    var at2 := at1 + |PropsBytes(n.props, table)|;
    PropsNest(n.props, table, at1, open + 1);
    KidsNest(n.kids, table, at2, open + 1);
    DepthOfFour(Token(at, BEGIN_NODE), PropsTokens(n.props, table, at1), KidsTokens(n.kids, table, at2),
      Token(at2 + |KidsBytes(n.kids, table)|, END_NODE), open);
  }

  lemma {:induction false} KidsNest(kids: seq<Node>, table: seq<Name>, at: nat, open: nat)
    ensures DepthAfter(KidsTokens(kids, table, at), open) == Some(open)
    decreases kids, 0
  {
    if kids != [] {
      var next := at + |NodeBytes(kids[0], table)|;
      NodeNests(kids[0], table, at, open);
      KidsNest(kids[1..], table, next, open);
      hide NodeTokens, DepthAfter;
      DepthOfJoin(NodeTokens(kids[0], table, at), KidsTokens(kids[1..], table, next), open);
    }
  }

  /** BEGIN and END are balanced: no prefix closes more than it opened, and in the end nothing is open. */
  lemma BlobTokensBalanced(root: Node)
    ensures DepthAfter(BlobTokens(root), 0) == Some(0)
  {
    NodeNests(root, Table(root), 56, 0);
    var end := [Token(56 + |NodeBytes(root, Table(root))|, END)];
    assert end[1..] == [];
    DepthOfJoin(NodeTokens(root, Table(root), 56), end, 0);
  }
}
