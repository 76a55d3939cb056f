/**
 SHA-256 is a parameter: every statement holds for every function from byte
 strings to 32 bytes. Such a function always has collisions, so a statement
 "equal, or some collision exists" would say nothing. The lemmas below name
 the colliding inputs instead: a Finding is computed from the two inputs that
 are being compared, and the lemma says that this very finding is genuine.
 */
module Hashing {
  import opened ByteStrings

  type Digest = d: Bytes | |d| == 32 witness Zeros(32)
  type HashFn = Bytes -> Digest

  const ZERO32: Digest := Zeros(32)

  datatype Finding =
    | Nothing
    | Collision(x: Bytes, y: Bytes)
    | ZeroPreimage(x: Bytes)

  /** The finding is a real weakness of h. */
  predicate Genuine(h: HashFn, f: Finding) {
    match f
    case Nothing => false
    case Collision(x, y) => x != y && h(x) == h(y)
    case ZeroPreimage(x) => h(x) == ZERO32
  }

  function CollisionOf(x: Bytes, y: Bytes): Finding {
    if x == y then Nothing else Collision(x, y)
  }

  function Either(f: Finding, g: Finding): Finding {
    if f == Nothing then g else f
  }

  /** A register that starts at zero and is extended by the digests in turn. */
  function Chain(h: HashFn, ds: seq<Digest>): Digest {
    if ds == [] then ZERO32 else h(Chain(h, ds[..|ds| - 1]) + ds[|ds| - 1])
  }

  function Digests(h: HashFn, events: seq<Bytes>): (ds: seq<Digest>)
    ensures |ds| == |events|
    ensures forall i :: 0 <= i < |events| ==> ds[i] == h(events[i])
  {
    seq(|events|, i requires 0 <= i < |events| => h(events[i]))
  }

  /** A PCR after the given events have been measured into it. */
  function Pcr(h: HashFn, events: seq<Bytes>): Digest {
    Chain(h, Digests(h, events))
  }

  /** TPM2_PCR_Extend from the reset value: a new PCR is the hash of the old one and the event's digest. */
  lemma PcrSteps(h: HashFn, events: seq<Bytes>, event: Bytes)
    ensures Pcr(h, []) == seq(32, _ => 0)
    ensures Pcr(h, events + [event]) == h(Pcr(h, events) + h(event))
  {
    var ds := Digests(h, events + [event]);
    assert ds[..|events|] == Digests(h, events) && ds[|events|] == h(event);
  }

  /** Where two chains with the same end part company. */
  function ChainFinding(h: HashFn, a: seq<Digest>, b: seq<Digest>): Finding
    decreases |a|
  {
    if a == b then Nothing
    else if a == [] then ZeroPreimage(Chain(h, b[..|b| - 1]) + b[|b| - 1])
    else if b == [] then ZeroPreimage(Chain(h, a[..|a| - 1]) + a[|a| - 1])
    else
      var u := Chain(h, a[..|a| - 1]) + a[|a| - 1];
      var v := Chain(h, b[..|b| - 1]) + b[|b| - 1];
      if u != v then Collision(u, v) else ChainFinding(h, a[..|a| - 1], b[..|b| - 1])
  }

  lemma {:induction false} ChainInjective(h: HashFn, a: seq<Digest>, b: seq<Digest>)
    requires Chain(h, a) == Chain(h, b)
    ensures a == b || Genuine(h, ChainFinding(h, a, b))
    decreases |a|
  {
    if a != b && a != [] && b != [] {
      var a', b' := a[..|a| - 1], b[..|b| - 1];
      var u := Chain(h, a') + a[|a| - 1];
      var v := Chain(h, b') + b[|b| - 1];
      if u == v {
        assert Chain(h, a') == u[..32] && a[|a| - 1] == u[32..];
        assert Chain(h, b') == v[..32] && b[|b| - 1] == v[32..];
        ChainInjective(h, a', b');
        assert a == a' + [a[|a| - 1]] && b == b' + [b[|b| - 1]];
      }
    }
  }

  function EventsFinding(h: HashFn, a: seq<Bytes>, b: seq<Bytes>): Finding {
    if Digests(h, a) != Digests(h, b) then ChainFinding(h, Digests(h, a), Digests(h, b))
    else FirstDifference(a, b)
  }

  function FirstDifference(a: seq<Bytes>, b: seq<Bytes>): Finding {
    if a == [] || b == [] then Nothing
    else if a[0] != b[0] then Collision(a[0], b[0])
    else FirstDifference(a[1..], b[1..])
  }

  lemma {:induction false} FirstDifferenceIsCollision(h: HashFn, a: seq<Bytes>, b: seq<Bytes>)
    requires |a| == |b| && a != b
    requires forall i :: 0 <= i < |a| ==> h(a[i]) == h(b[i])
    ensures Genuine(h, FirstDifference(a, b))
  {
    if a[0] == b[0] {
      assert a == [a[0]] + a[1..] && b == [b[0]] + b[1..];
      FirstDifferenceIsCollision(h, a[1..], b[1..]);
    } else {
      assert h(a[0]) == h(b[0]);
    }
  }

  /** Equal PCRs mean equal event lists, whatever their lengths. */
  lemma PcrInjective(h: HashFn, a: seq<Bytes>, b: seq<Bytes>)
    requires Pcr(h, a) == Pcr(h, b)
    ensures a == b || Genuine(h, EventsFinding(h, a, b))
  {
    ChainInjective(h, Digests(h, a), Digests(h, b));
    if Digests(h, a) == Digests(h, b) && a != b {
      forall i | 0 <= i < |a| ensures h(a[i]) == h(b[i]) {
        assert Digests(h, a)[i] == Digests(h, b)[i];
      }
      FirstDifferenceIsCollision(h, a, b);
    }
  }
}
