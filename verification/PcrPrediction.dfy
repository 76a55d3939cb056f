/**
 Host-side prediction of PCR0 and PCR1, the text substitution behind PCR1, and
 the golden record made from them (agents/server/rp5.py). Text is UTF-8 bytes.
 */
module PcrPrediction {
  import opened ByteStrings
  import opened Hashing

  datatype Slot = A | B

  function Ascii(s: string): (b: Bytes)
    requires forall i :: 0 <= i < |s| ==> s[i] as int < 128
    ensures |b| == |s|
    ensures forall i :: 0 <= i < |s| ==> b[i] == s[i] as int
  {
    seq(|s|, i requires 0 <= i < |s| => s[i] as int)
  }

  const SEPARATOR: Bytes := [0xff, 0xff, 0xff, 0xff]
  const PLACEHOLDER: Bytes := Ascii("@ROOTDEV@")
  const TEMPLATE_WORD: Bytes := Ascii("dwc_otg")

  const PCR9_NO_INITRD: Digest := BigEndian(0xcfc7d8042593e188c59d2fd523f07a95d06dd3160f0955d8c34b0eb067f517b6, 32)

  function RootDevice(slot: Slot): Bytes {
    if slot.A? then Ascii("/dev/mmcblk0p3") else Ascii("/dev/mmcblk0p4")
  }

  // ---------------------------------------------------------------- substitution

  /** Left-to-right replacement of every non-overlapping occurrence. */
  function Replace(t: Bytes, pat: Bytes, sub: Bytes): Bytes
    requires pat != []
    decreases |t|
  {
    if t == [] then []
    else if pat <= t then sub + Replace(t[|pat|..], pat, sub)
    else [t[0]] + Replace(t[1..], pat, sub)
  }

  ghost predicate OccursAt(t: Bytes, pat: Bytes, i: nat) {
    i <= |t| && pat <= t[i..]
  }

  ghost predicate Contains(t: Bytes, pat: Bytes) {
    exists i: nat :: OccursAt(t, pat, i)
  }

  /** Index of the first occurrence. */
  function Find(t: Bytes, pat: Bytes): Option<nat> {
    if pat <= t then Some(0)
    else if t == [] then None
    else match Find(t[1..], pat)
      case None => None
      case Some(i) => Some(i + 1)
  }

  lemma {:induction false} FindIsFirst(t: Bytes, pat: Bytes)
    ensures match Find(t, pat)
            case None => !Contains(t, pat)
            case Some(i) => OccursAt(t, pat, i) && forall j: nat | j < i :: !OccursAt(t, pat, j)
  {
    assert t[0..] == t;
    if pat <= t {
    } else if t == [] {
    } else {
      FindIsFirst(t[1..], pat);
      forall j: nat | 0 < j <= |t| ensures OccursAt(t, pat, j) == OccursAt(t[1..], pat, j - 1) {
        assert t[1..][j - 1..] == t[j..];
      }
    }
  }

  lemma ContainsTail(t: Bytes, pat: Bytes)
    requires t != [] && !(pat <= t)
    ensures Contains(t, pat) == Contains(t[1..], pat)
  {
    assert t[0..] == t;
    forall j: nat | 0 < j <= |t| ensures OccursAt(t, pat, j) == OccursAt(t[1..], pat, j - 1) {
      assert t[1..][j - 1..] == t[j..];
    }
    if Contains(t, pat) {
      var i: nat :| OccursAt(t, pat, i);
      assert i != 0;
      assert OccursAt(t[1..], pat, i - 1);
    }
    if Contains(t[1..], pat) {
      var i: nat :| OccursAt(t[1..], pat, i);
      assert OccursAt(t, pat, i + 1);
    }
  }

  /** r has the substitute at i, what precedes it, and the rest replaced. */
  predicate ReplacesAt(t: Bytes, pat: Bytes, sub: Bytes, r: Bytes, i: nat)
    requires pat != []
  {
    && i + |pat| <= |t| && t[i..i + |pat|] == pat
    && r == t[..i] + sub + Replace(t[i + |pat|..], pat, sub)
  }

  /** Replacing starts at the first occurrence and goes on behind it. */
  lemma {:induction false} ReplaceByFind(t: Bytes, pat: Bytes, sub: Bytes)
    requires pat != []
    ensures match Find(t, pat)
            case None => Replace(t, pat, sub) == t
            case Some(i) => ReplacesAt(t, pat, sub, Replace(t, pat, sub), i)
    decreases |t|
  {
    if t != [] {
      if pat <= t {
        assert t[..0] + sub == sub;
      } else {
        ReplaceSkips(t, pat, sub);
        hide Replace, ReplacesAt;
        ReplaceByFind(t[1..], pat, sub);
        if Find(t[1..], pat).Some? {
          ReplacesLater(t, pat, sub, Replace(t[1..], pat, sub), Find(t[1..], pat).value);
        } else {
          assert t == [t[0]] + t[1..];
        }
      }
    }
  }

  lemma ReplaceSkips(t: Bytes, pat: Bytes, sub: Bytes)
    requires pat != [] && t != [] && !(pat <= t)
    ensures Replace(t, pat, sub) == [t[0]] + Replace(t[1..], pat, sub)
  {
  }

  lemma ReplacesLater(t: Bytes, pat: Bytes, sub: Bytes, r: Bytes, i: nat)
    requires pat != [] && t != [] && ReplacesAt(t[1..], pat, sub, r, i)
    ensures ReplacesAt(t, pat, sub, [t[0]] + r, i + 1)
  {
    hide Replace;
    ShiftedCut(t, i, |pat|);
    Regroup([t[0]], t[1..][..i], sub, Replace(t[i + 1 + |pat|..], pat, sub));
  }

  lemma ShiftedCut(t: Bytes, i: nat, n: nat)
    requires 1 + i + n <= |t|
    ensures t[i + 1..i + 1 + n] == t[1..][i..i + n] && t[1..][i + n..] == t[i + 1 + n..]
    ensures t[..i + 1] == [t[0]] + t[1..][..i]
  {
  }

  lemma Regroup(a: Bytes, b: Bytes, c: Bytes, d: Bytes)
    ensures a + (b + c + d) == (a + b) + c + d
  {
  }

  /** The pieces with the separator between them. */
  function Joined(pieces: seq<Bytes>, sep: Bytes): Bytes {
    if pieces == [] then []
    else if |pieces| == 1 then pieces[0]
    else pieces[0] + (sep + Joined(pieces[1..], sep))
  }

  /** A piece that lacks the placeholder's first letter is kept. */
  lemma {:induction false} PieceKept(piece: Bytes, rest: Bytes, sub: Bytes)
    requires PLACEHOLDER[0] !in piece
    requires rest == [] || PLACEHOLDER <= rest
    ensures Replace(piece + rest, PLACEHOLDER, sub) == piece + Replace(rest, PLACEHOLDER, sub)
    decreases |piece|
  {
    var t := piece + rest;
    if piece == [] {
      assert t == rest;
    } else {
      PieceKept(piece[1..], rest, sub);
      assert t[0] == piece[0] && t[1..] == piece[1..] + rest;
      assert !(PLACEHOLDER <= t);
      hide Replace;
      ConsKept(piece, Replace(rest, PLACEHOLDER, sub));
    }
  }

  lemma ConsKept(piece: Bytes, rest: Bytes)
    requires piece != []
    ensures [piece[0]] + (piece[1..] + rest) == piece + rest
  {
  }

  lemma PlaceholderReplaced(rest: Bytes, sub: Bytes)
    ensures Replace(PLACEHOLDER + rest, PLACEHOLDER, sub) == sub + Replace(rest, PLACEHOLDER, sub)
  {
    assert (PLACEHOLDER + rest)[|PLACEHOLDER|..] == rest;
  }

  /** Every placeholder of a template is replaced, and nothing else. */
  lemma {:induction false} EveryPlaceholderReplaced(pieces: seq<Bytes>, sub: Bytes)
    requires forall i :: 0 <= i < |pieces| ==> '@' as int !in pieces[i]
    ensures Replace(Joined(pieces, Ascii("@ROOTDEV@")), PLACEHOLDER, sub) == Joined(pieces, sub)
  {
    if |pieces| == 1 {
      PieceKept(pieces[0], [], sub);
      assert pieces[0] + [] == pieces[0];
    } else if |pieces| > 1 {
      hide Replace;
      var rest := Joined(pieces[1..], PLACEHOLDER);
      PieceKept(pieces[0], PLACEHOLDER + rest, sub);
      PlaceholderReplaced(rest, sub);
      EveryPlaceholderReplaced(pieces[1..], sub);
    }
  }

  /** Two replacements of one length give the same text exactly when there was nothing to replace. */
  lemma {:induction false} ReplacementsDiffer(t: Bytes, pat: Bytes, x: Bytes, y: Bytes)
    requires pat != [] && |x| == |y| && x != y
    ensures Replace(t, pat, x) == Replace(t, pat, y) <==> !Contains(t, pat)
    decreases |t|
  {
    if t == [] {
    } else if pat <= t {
      assert OccursAt(t, pat, 0) by { assert t[0..] == t; }
      assert Replace(t, pat, x)[..|x|] == x && Replace(t, pat, y)[..|x|] == y;
    } else {
      ReplacementsDiffer(t[1..], pat, x, y);
      ContainsTail(t, pat);
      assert Replace(t, pat, x)[1..] == Replace(t[1..], pat, x);
      assert Replace(t, pat, y)[1..] == Replace(t[1..], pat, y);
    }
  }

  function CommandLine(prefix: Bytes, template: Bytes, slot: Slot): Bytes {
    prefix + Replace(template, PLACEHOLDER, RootDevice(slot))
  }

  lemma SlotLinesDiffer(prefix: Bytes, template: Bytes)
    ensures CommandLine(prefix, template, A) == CommandLine(prefix, template, B) <==> !Contains(template, PLACEHOLDER)
  {
    var a, b := RootDevice(A), RootDevice(B);
    assert a[13] != b[13];
    ReplacementsDiffer(template, PLACEHOLDER, a, b);
    assert CommandLine(prefix, template, A)[|prefix|..] == Replace(template, PLACEHOLDER, a);
    assert CommandLine(prefix, template, B)[|prefix|..] == Replace(template, PLACEHOLDER, b);
  }

  /** An occurrence before the end of the prefix lies inside it: the word's first letter does not recur in it. */
  lemma NoStraddle(prefix: Bytes, rest: Bytes, j: nat)
    requires !OccursAt(prefix, TEMPLATE_WORD, j) && j < |prefix| && TEMPLATE_WORD <= rest
    ensures !OccursAt(prefix + rest, TEMPLATE_WORD, j)
  {
    var tail := (prefix + rest)[j..];
    var k := |prefix| - j;
    assert tail[k] == rest[0] == TEMPLATE_WORD[0];
    assert forall i :: 0 < i < 7 ==> TEMPLATE_WORD[i] != TEMPLATE_WORD[0];
    if k >= 7 {
      assert tail[..7] == prefix[j..][..7];
    } else {
      assert |tail| >= 7 ==> tail[..7][k] == tail[k];
    }
  }

  lemma CutAtWord(prefix: Bytes, rest: Bytes)
    requires !Contains(prefix, Ascii("dwc_otg")) && Ascii("dwc_otg") <= rest
    ensures Find(prefix + rest, TEMPLATE_WORD) == Some(|prefix|)
  {
    FindIsFirst(prefix + rest, TEMPLATE_WORD);
    assert (prefix + rest)[|prefix|..] == rest;
    assert OccursAt(prefix + rest, TEMPLATE_WORD, |prefix|);
    forall j: nat | j < |prefix| ensures !OccursAt(prefix + rest, TEMPLATE_WORD, j) {
      NoStraddle(prefix, rest, j);
    }
  }

  // ------------------------------------------------------------------ prediction

  function PredictPcr0(h: HashFn, version: Bytes, dtDigest: Bytes): Digest {
    var v := h(ZERO32 + h(version + [0]));
    var d := h(v + h(dtDigest));
    h(d + h(SEPARATOR))
  }

  function PredictPcr1(h: HashFn, prefix: Bytes, template: Bytes, slot: Slot): Digest {
    var s := CommandLine(prefix, template, slot) + [0];
    h(h(ZERO32 + h(s)) + h(SEPARATOR))
  }

  /** What U-Boot measures into PCR0 and PCR1 before the kernel starts. */
  function BootEvents0(version: Bytes, dtDigest: Bytes): seq<Bytes> {
    [version + [0], dtDigest, SEPARATOR]
  }

  function BootEvents1(bootargs: Bytes): seq<Bytes> {
    [bootargs + [0], SEPARATOR]
  }

  lemma ChainStep(h: HashFn, ds: seq<Digest>, d: Digest)
    ensures Chain(h, ds + [d]) == h(Chain(h, ds) + d)
  {
    assert (ds + [d])[..|ds|] == ds;
  }

  lemma PredictionsAreFolds(h: HashFn, version: Bytes, dtDigest: Bytes, prefix: Bytes, template: Bytes, slot: Slot)
    ensures PredictPcr0(h, version, dtDigest) == Pcr(h, BootEvents0(version, dtDigest))
    ensures PredictPcr1(h, prefix, template, slot) == Pcr(h, BootEvents1(CommandLine(prefix, template, slot)))
    ensures BootEvents0(version, dtDigest) == [version + [0], dtDigest, [0xff, 0xff, 0xff, 0xff]]
    ensures BootEvents1(CommandLine(prefix, template, slot)) ==
            [prefix + Replace(template, PLACEHOLDER, RootDevice(slot)) + [0], [0xff, 0xff, 0xff, 0xff]]
  {
    var a, b, c: Digest := h(version + [0]), h(dtDigest), h(SEPARATOR);
    assert Digests(h, BootEvents0(version, dtDigest)) == [a] + [b] + [c];
    ChainStep(h, [], a); ChainStep(h, [a], b); ChainStep(h, [a] + [b], c);
    assert [] + [a] == [a];
    var l: Digest := h(CommandLine(prefix, template, slot) + [0]);
    assert Digests(h, BootEvents1(CommandLine(prefix, template, slot))) == [l] + [c];
    ChainStep(h, [], l); ChainStep(h, [l], c);
    assert [] + [l] == [l];
  }

  /** PCR0 and PCR1 that equal the predictions were produced by the predicted events. */
  lemma PredictionPinsBoot(h: HashFn, version: Bytes, dtDigest: Bytes, prefix: Bytes, template: Bytes, slot: Slot,
                           events0: seq<Bytes>, events1: seq<Bytes>)
    requires Pcr(h, events0) == PredictPcr0(h, version, dtDigest)
    requires Pcr(h, events1) == PredictPcr1(h, prefix, template, slot)
    ensures events0 == BootEvents0(version, dtDigest)
            || Genuine(h, EventsFinding(h, events0, BootEvents0(version, dtDigest)))
    ensures events1 == BootEvents1(CommandLine(prefix, template, slot))
            || Genuine(h, EventsFinding(h, events1, BootEvents1(CommandLine(prefix, template, slot))))
  {
    PredictionsAreFolds(h, version, dtDigest, prefix, template, slot);
    PcrInjective(h, events0, BootEvents0(version, dtDigest));
    PcrInjective(h, events1, BootEvents1(CommandLine(prefix, template, slot)));
  }

  function SlotFinding(h: HashFn, prefix: Bytes, template: Bytes): Finding {
    EventsFinding(h, BootEvents1(CommandLine(prefix, template, A)), BootEvents1(CommandLine(prefix, template, B)))
  }

  /** A template with the placeholder gives the two slots different PCR1 values; one without gives them the same. */
  lemma SlotGoldensDiffer(h: HashFn, prefix: Bytes, template: Bytes)
    ensures Contains(template, PLACEHOLDER) ==>
              PredictPcr1(h, prefix, template, A) != PredictPcr1(h, prefix, template, B)
              || Genuine(h, SlotFinding(h, prefix, template))
    ensures !Contains(template, PLACEHOLDER) ==>
              PredictPcr1(h, prefix, template, A) == PredictPcr1(h, prefix, template, B)
  {
    var a, b := CommandLine(prefix, template, A), CommandLine(prefix, template, B);
    SlotLinesDiffer(prefix, template);
    PredictionsAreFolds(h, [], [], prefix, template, A);
    PredictionsAreFolds(h, [], [], prefix, template, B);
    assert a == (a + [0])[..|a|] && b == (b + [0])[..|b|];
    assert BootEvents1(a)[0] == a + [0] && BootEvents1(b)[0] == b + [0];
    if Pcr(h, BootEvents1(a)) == Pcr(h, BootEvents1(b)) {
      PcrInjective(h, BootEvents1(a), BootEvents1(b));
    }
  }

  // ------------------------------------------------------------------ enrollment

  /** enroll-dt: the boot arguments up to the first occurrence of the word, if there is one. */
  function EnrolledPrefix(bootargs: Bytes): Option<Bytes> {
    match Find(bootargs, TEMPLATE_WORD)
    case None => None
    case Some(i) => FindIsFirst(bootargs, TEMPLATE_WORD); Some(bootargs[..i])
  }

  lemma ReplaceKeepsWord(template: Bytes, slot: Slot)
    requires TEMPLATE_WORD <= template
    ensures TEMPLATE_WORD <= Replace(template, PLACEHOLDER, RootDevice(slot))
  {
    ReplaceKeepsPrefix(template, RootDevice(slot), 7);
    assert template[..7] == TEMPLATE_WORD;
  }

  /** Replacement leaves a leading part without the placeholder's first letter alone. */
  lemma {:induction false} ReplaceKeepsPrefix(t: Bytes, sub: Bytes, n: nat)
    requires n <= |t| && forall i :: 0 <= i < n ==> t[i] != PLACEHOLDER[0]
    ensures n <= |Replace(t, PLACEHOLDER, sub)| && Replace(t, PLACEHOLDER, sub)[..n] == t[..n]
    decreases n
  {
    if n > 0 {
      assert t[0] != PLACEHOLDER[0];
      ReplaceKeepsPrefix(t[1..], sub, n - 1);
      var r := Replace(t, PLACEHOLDER, sub);
      assert r == [t[0]] + Replace(t[1..], PLACEHOLDER, sub);
      assert r[..n] == [t[0]] + t[1..][..n - 1] == t[..n];
    }
  }

  /**
   Enrolling a board from the boot arguments of one slot recovers its firmware
   prefix, and predicting from that prefix gives the PCR1 this board measures
   when it boots either slot.
   */
  lemma EnrollThenPredict(h: HashFn, prefix: Bytes, template: Bytes, enrolled: Slot, booted: Slot)
    requires !Contains(prefix, TEMPLATE_WORD) && TEMPLATE_WORD <= template
    ensures EnrolledPrefix(CommandLine(prefix, template, enrolled)) == Some(prefix)
    ensures PredictPcr1(h, EnrolledPrefix(CommandLine(prefix, template, enrolled)).value, template, booted)
            == Pcr(h, BootEvents1(CommandLine(prefix, template, booted)))
  {
    ReplaceKeepsWord(template, enrolled);
    CutAtWord(prefix, Replace(template, PLACEHOLDER, RootDevice(enrolled)));
    assert CommandLine(prefix, template, enrolled)[..|prefix|] == prefix;
    PredictionsAreFolds(h, [], [], prefix, template, booted);
  }

  // -------------------------------------------------------------------- goldens

  datatype Goldens = Goldens(pcr0: Digest, pcr1a: Digest, pcr1b: Digest, pcr8: Digest, pcr9: Digest)

  datatype ReleaseGoldens =
    ReleaseGoldens(cmdline: Option<Bytes>, pcr1a: Digest, pcr1b: Digest, pcr8: Digest, pcr9: Option<Digest>)

  /** An absent entry and an empty text both count as missing. */
  predicate Present(text: Option<Bytes>) {
    text.Some? && text.value != []
  }

  function GoldensFor(h: HashFn, prefix: Option<Bytes>, man: ReleaseGoldens, pcr0: Digest): Goldens {
    var (a, b) :=
      if Present(prefix) && Present(man.cmdline) then
        (PredictPcr1(h, prefix.value, man.cmdline.value, A), PredictPcr1(h, prefix.value, man.cmdline.value, B))
      else (man.pcr1a, man.pcr1b);
    Goldens(pcr0, a, b, man.pcr8, if man.pcr9.Some? then man.pcr9.value else PCR9_NO_INITRD)
  }

  function GoldenPcr1(g: Goldens, slot: Slot): Digest {
    if slot.A? then g.pcr1a else g.pcr1b
  }
}
