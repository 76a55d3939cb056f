/**
 agents/rp5-provision-priv: the TPM state that provision_fwkey builds command by
 command, the anti-rollback counter over every run of commands, and the Name of
 an NV index that is computed before the index is written.
 */
module Provisioning {
  import opened ByteStrings
  import opened Hashing
  import Attestation
  import Verdict

  // ----------------------------------------------------- NV indices and their Names

  /** Attribute bits of TPMA_NV (TPM 2.0 Part 2, section 13.4). */
  const POLICYWRITE: bv32 := 0x0000_0008
  const NT_COUNTER: bv32 := 0x0000_0010
  const NT_EXTEND: bv32 := 0x0000_0040
  const PPREAD: bv32 := 0x0001_0000
  const OWNERREAD: bv32 := 0x0002_0000
  const AUTHREAD: bv32 := 0x0004_0000
  const NO_DA: bv32 := 0x0200_0000
  const CLEAR_STCLEAR: bv32 := 0x0800_0000
  const WRITTEN: bv32 := 0x2000_0000

  const ATTR_MEAS: bv32 := NT_EXTEND | POLICYWRITE | PPREAD | AUTHREAD | OWNERREAD | NO_DA | CLEAR_STCLEAR
  const ATTR_CTR: bv32 := NT_COUNTER | POLICYWRITE | PPREAD | OWNERREAD | AUTHREAD | NO_DA

  /** The attributes as the verifier documents them, and that only the measured-boot index is cleared by a restart. */
  lemma AttributeWords()
    ensures ATTR_MEAS == 0x0A07_0048 && ATTR_CTR == 0x0207_0018
    ensures ATTR_MEAS & CLEAR_STCLEAR != 0 && ATTR_CTR & CLEAR_STCLEAR == 0
  {
  }

  const MEAS_INDEX: nat := 0x0180_0000
  const COUNTER_INDEX: nat := 0x0180_0002

  /** TPMS_NV_PUBLIC with a SHA-256 Name (TPM 2.0 Part 2, section 13.5). */
  datatype NvPublic = NvPublic(index: nat, attrs: bv32, policy: Bytes, size: nat)

  predicate Encodable(p: NvPublic) {
    p.index < TWO32 && |p.policy| < 0x1_0000 && p.size < 0x1_0000
  }

  function Marshal(p: NvPublic): Bytes {
    U32(p.index) + U16(0x000B) + U32(p.attrs as nat) + U16(|p.policy|) + p.policy + U16(p.size)
  }

  function Name(h: HashFn, p: NvPublic): Bytes {
    [0x00, 0x0B] + h(Marshal(p))
  }

  /** written_name: its own packing, with the written attribute set, of the public area as it is now. */
  function WrittenName(h: HashFn, p: NvPublic): Bytes {
    [0x00, 0x0b] + h(U32(p.index) + U16(0x000B) + U32((p.attrs | 0x2000_0000) as nat)
                     + U16(|p.policy|) + p.policy + U16(p.size))
  }

  lemma WrittenNameIsName(h: HashFn, p: NvPublic)
    ensures WrittenName(h, p) == Name(h, p.(attrs := p.attrs | WRITTEN))
  {
  }

  /** TPMS_NV_PUBLIC, field by field: index, Name algorithm, attributes, policy with its length, size. */
  lemma MarshalParts(p: NvPublic)
    ensures var m, k := Marshal(p), |p.policy|;
            && |m| == 14 + k && m[..4] == U32(p.index) && m[4..6] == [0x00, 0x0B] && m[6..10] == U32(p.attrs as nat)
            && m[10..12] == U16(k) && m[12..12 + k] == p.policy && m[12 + k..] == U16(p.size)
  {
    U16Bytes(0x000B);
  }

  lemma U16Injective(a: nat, b: nat)
    requires a < 0x1_0000 && b < 0x1_0000 && U16(a) == U16(b)
    ensures a == b
  {
    Pow256Values();
    ValueOfBigEndian(a, 2);
    ValueOfBigEndian(b, 2);
  }

  lemma MarshalInjective(p: NvPublic, q: NvPublic)
    requires Encodable(p) && Encodable(q) && Marshal(p) == Marshal(q)
    ensures p == q
  {
    MarshalParts(p);
    MarshalParts(q);
    U16Injective(|p.policy|, |q.policy|);
    U16Injective(p.size, q.size);
    U32RoundTrip(p.index);
    U32RoundTrip(q.index);
    U32RoundTrip(p.attrs as nat);
    U32RoundTrip(q.attrs as nat);
    hide Marshal, U32, U16;
    assert p.attrs == (p.attrs as nat) as bv32 == q.attrs;
  }

  /** A Name pins the index number, the attributes, the policy and the size. */
  lemma NamePinsPublicArea(h: HashFn, p: NvPublic, q: NvPublic)
    requires Encodable(p) && Encodable(q) && Name(h, p) == Name(h, q)
    ensures p == q || Genuine(h, CollisionOf(Marshal(p), Marshal(q)))
  {
    assert Name(h, p)[2..] == h(Marshal(p)) && Name(h, q)[2..] == h(Marshal(q));
    if Marshal(p) == Marshal(q) { MarshalInjective(p, q); }
  }

  // -------------------------------------------------------------------- TPM commands

  /** `attrs` is without the written attribute, which is the flag `written`. */
  datatype Nv = Nv(attrs: bv32, policy: Bytes, size: nat, written: bool, value: nat)

  datatype Which = Meas | Ctr
  datatype Hierarchy = Owner | Endorsement | Lockout

  /** An empty authorisation value is the one a cleared TPM has. */
  datatype Tpm = Tpm(owner: Bytes, endorsement: Bytes, lockout: Bytes, ak: bool,
                     meas: Option<Nv>, ctr: Option<Nv>, highWater: nat)

  datatype Command =
    | StoreAk
    | RemoveAk(auth: Bytes)
    | Undefine(which: Which, auth: Bytes)
    | Define(which: Which, auth: Bytes, attrs: bv32, policy: Bytes, size: nat)
    | Increment
    | Extend
    | ChangeAuth(hierarchy: Hierarchy, value: Bytes)
    | Startup
    | Clear
    | OtherCounter(reached: nat)

  function NvOf(t: Tpm, w: Which): Option<Nv> {
    if w == Meas then t.meas else t.ctr
  }

  function WithNv(t: Tpm, w: Which, nv: Option<Nv>): Tpm {
    if w == Meas then t.(meas := nv) else t.(ctr := nv)
  }

  function AuthOf(t: Tpm, hier: Hierarchy): Bytes {
    match hier
    case Owner => t.owner
    case Endorsement => t.endorsement
    case Lockout => t.lockout
  }

  predicate Permitted(t: Tpm, c: Command) {
    match c
    case StoreAk => t.owner == [] && !t.ak
    case RemoveAk(auth) => auth == t.owner && t.ak
    case Undefine(w, auth) => auth == t.owner && NvOf(t, w).Some?
    case Define(w, auth, attrs, _, _) => auth == t.owner && NvOf(t, w).None? && attrs & WRITTEN == 0
    case Increment => t.ctr.Some?
    case Extend => t.meas.Some?
    case ChangeAuth(hier, _) => AuthOf(t, hier) == []
    case OtherCounter(reached) => reached >= t.highWater
    case _ => true
  }

  function Most(a: nat, b: nat): nat { if a < b then b else a }

  /**
   `above` is how far the first increment of a new counter goes beyond the highest
   value any counter has held; that value survives a clear.
   */
  function Exec(above: nat, t: Tpm, c: Command): Tpm
    requires Permitted(t, c)
  {
    match c
    case StoreAk => t.(ak := true)
    case RemoveAk(_) => t.(ak := false)
    case Undefine(w, _) => WithNv(t, w, None)
    case Define(w, _, attrs, policy, size) => WithNv(t, w, Some(Nv(attrs, policy, size, false, 0)))
    case Increment =>
      var v := if t.ctr.value.written then t.ctr.value.value + 1 else t.highWater + above;
      t.(ctr := Some(t.ctr.value.(written := true, value := v)), highWater := Most(t.highWater, v))
    case Extend => t.(meas := Some(t.meas.value.(written := true)))
    case ChangeAuth(hier, v) =>
      (match hier
       case Owner => t.(owner := v)
       case Endorsement => t.(endorsement := v)
       case Lockout => t.(lockout := v))
    case Startup => t.(meas := Restarted(t.meas), ctr := Restarted(t.ctr))
    case Clear => Tpm([], [], [], false, None, None, t.highWater)
    case OtherCounter(reached) => t.(highWater := reached)
  }

  /** TPM2_Startup(CLEAR) unsets the written attribute of an index that asks for it. */
  function Restarted(nv: Option<Nv>): Option<Nv> {
    if nv.Some? && nv.value.attrs & CLEAR_STCLEAR != 0 then Some(nv.value.(written := false)) else nv
  }

  ghost predicate Ran(above: nat, t: Tpm, cs: seq<Command>)
    decreases |cs|
  {
    cs == [] || (Permitted(t, cs[0]) && Ran(above, Exec(above, t, cs[0]), cs[1..]))
  }

  ghost function After(above: nat, t: Tpm, cs: seq<Command>): Tpm
    requires Ran(above, t, cs)
    decreases |cs|
  {
    if cs == [] then t else After(above, Exec(above, t, cs[0]), cs[1..])
  }

  lemma {:induction false} RunSplits(above: nat, t: Tpm, a: seq<Command>, b: seq<Command>)
    ensures Ran(above, t, a + b) <==> Ran(above, t, a) && Ran(above, After(above, t, a), b)
    ensures Ran(above, t, a + b) ==> After(above, t, a + b) == After(above, After(above, t, a), b)
    decreases |a|
  {
    hide Permitted, Exec;
    if a == [] {
      assert a + b == b;
    } else {
      assert (a + b)[0] == a[0] && (a + b)[1..] == a[1..] + b;
      if Permitted(t, a[0]) { RunSplits(above, Exec(above, t, a[0]), a[1..], b); }
    }
  }

  lemma RunOfOne(above: nat, t: Tpm, c: Command)
    ensures Ran(above, t, [c]) <==> Permitted(t, c)
    ensures Permitted(t, c) ==> After(above, t, [c]) == Exec(above, t, c)
  {
    hide Permitted, Exec;
    assert [c][1..] == [];
    if Permitted(t, c) { assert Ran(above, Exec(above, t, c), []); }
  }

  // ------------------------------------------------------------------- the counter

  predicate Readable(t: Tpm) {
    t.ctr.Some? && t.ctr.value.written
  }

  /** The counter is not one that a restart clears, and is no higher than the highest value ever held. */
  predicate CounterOk(t: Tpm) {
    t.ctr.Some? ==> t.ctr.value.attrs & CLEAR_STCLEAR == 0
                    && (t.ctr.value.written ==> t.ctr.value.value <= t.highWater)
  }

  /** Nobody defines the counter index with attributes that let a restart clear it. */
  predicate Keeps(c: Command) {
    c.Define? && c.which == Ctr ==> c.attrs & CLEAR_STCLEAR == 0
  }

  /** What the next reading cannot fall below. */
  function Floor(t: Tpm): nat {
    if Readable(t) then t.ctr.value.value else t.highWater
  }

  lemma ExecKeepsFloor(above: nat, t: Tpm, c: Command)
    requires CounterOk(t) && Permitted(t, c) && Keeps(c)
    ensures CounterOk(Exec(above, t, c)) && Floor(Exec(above, t, c)) >= Floor(t)
  {
  }

  lemma {:induction false} FloorNeverFalls(above: nat, t: Tpm, cs: seq<Command>)
    requires CounterOk(t) && Ran(above, t, cs)
    requires forall i :: 0 <= i < |cs| ==> Keeps(cs[i])
    ensures CounterOk(After(above, t, cs)) && Floor(After(above, t, cs)) >= Floor(t)
    decreases |cs|
  {
    if cs != [] {
      ExecKeepsFloor(above, t, cs[0]);
      FloorNeverFalls(above, Exec(above, t, cs[0]), cs[1..]);
    }
  }

  /**
   Over any run of commands - provisioning attempts that stop anywhere, boots,
   clears, redefinitions - the counter never reads lower than it once did.
   */
  lemma CounterNeverReadsLower(above: nat, t: Tpm, cs: seq<Command>, i: nat, j: nat)
    requires CounterOk(t) && Ran(above, t, cs) && i <= j <= |cs|
    requires forall k :: 0 <= k < |cs| ==> Keeps(cs[k])
    ensures Ran(above, t, cs[..i]) && Ran(above, t, cs[..j])
    ensures var a, b := After(above, t, cs[..i]), After(above, t, cs[..j]);
            Readable(a) && Readable(b) ==> a.ctr.value.value <= b.ctr.value.value
  {
    hide Permitted, Exec, Readable, CounterOk, Keeps;
    assert cs[..j] + cs[j..] == cs && cs[..i] + cs[i..j] == cs[..j];
    RunSplits(above, t, cs[..j], cs[j..]);
    RunSplits(above, t, cs[..i], cs[i..j]);
    FloorNeverFalls(above, t, cs[..i]);
    FloorNeverFalls(above, After(above, t, cs[..i]), cs[i..j]);
  }

  // --------------------------------------------------------------- Names over a run

  function IndexOf(w: Which): nat {
    if w == Meas then MEAS_INDEX else COUNTER_INDEX
  }

  /** The public area the TPM shows, written attribute included. */
  function Public(w: Which, nv: Nv): NvPublic {
    NvPublic(IndexOf(w), if nv.written then nv.attrs | WRITTEN else nv.attrs, nv.policy, nv.size)
  }

  predicate Replaces(c: Command, w: Which) {
    (c.Undefine? && c.which == w) || c.Clear?
  }

  lemma {:induction false} IndexIsKept(above: nat, t: Tpm, cs: seq<Command>, w: Which)
    requires Ran(above, t, cs) && NvOf(t, w).Some?
    requires forall i :: 0 <= i < |cs| ==> !Replaces(cs[i], w)
    ensures NvOf(After(above, t, cs), w).Some?
    ensures var a, b := NvOf(t, w).value, NvOf(After(above, t, cs), w).value;
            b.attrs == a.attrs && b.policy == a.policy && b.size == a.size
    decreases |cs|
  {
    if cs != [] {
      assert NvOf(Exec(above, t, cs[0]), w).Some? by { assert !Replaces(cs[0], w); }
      IndexIsKept(above, Exec(above, t, cs[0]), cs[1..], w);
    }
  }

  /**
   The Name computed at provisioning time is the Name the TPM gives the index in
   every later state in which it is written, restarts and rewrites included, for
   as long as the index is not undefined or the TPM cleared.
   */
  lemma WrittenNameHolds(h: HashFn, above: nat, t: Tpm, cs: seq<Command>, w: Which)
    requires Ran(above, t, cs) && NvOf(t, w).Some?
    requires forall i :: 0 <= i < |cs| ==> !Replaces(cs[i], w)
    ensures NvOf(After(above, t, cs), w).Some?
    ensures var nv := NvOf(After(above, t, cs), w).value;
            nv.written ==> Name(h, Public(w, nv)) == WrittenName(h, Public(w, NvOf(t, w).value))
  {
    hide Name, WrittenName, Ran, After, Replaces;
    IndexIsKept(above, t, cs, w);
    WrittenNameIsName(h, Public(w, NvOf(t, w).value));
    WrittenAgain(NvOf(t, w).value.attrs);
  }

  lemma WrittenAgain(attrs: bv32)
    ensures (attrs | WRITTEN) | WRITTEN == attrs | WRITTEN
  {
  }

  // ------------------------------------------------------------------- provision_fwkey

  /** The authorisation values of the request; None stands for one that is not 32 bytes of hex. */
  datatype Request = Request(owner: Option<Digest>, endorsement: Option<Digest>, lockout: Option<Digest>)

  datatype Reply = Refused | Provisioned(reprovisioned: bool, measName: Bytes, ctrName: Bytes, counter: nat)

  /** The policies the firmware key yields for the two indices. */
  datatype Anchor = Anchor(h: HashFn, measPolicy: Digest, ctrPolicy: Digest)

  function FreshMeas(a: Anchor): Nv {
    Nv(ATTR_MEAS, a.measPolicy, 32, false, 0)
  }

  function FreshCtr(a: Anchor, value: nat): Nv {
    Nv(ATTR_CTR, a.ctrPolicy, 8, true, value)
  }

  /** When nothing outside fails: a well-formed request, and either the right owner value or an open TPM without a key. */
  predicate Accepts(t: Tpm, r: Request) {
    if t.owner != [] then r.owner == Some(t.owner)
    else r.owner.Some? && r.endorsement.Some? && r.lockout.Some?
         && t.endorsement == [] && t.lockout == [] && !t.ak
  }

  function Outcome(a: Anchor, above: nat, t: Tpm, r: Request): Tpm
    requires Accepts(t, r)
  {
    var v := t.highWater + above;
    var t' := t.(meas := Some(FreshMeas(a)), ctr := Some(FreshCtr(a, v)), highWater := v);
    if t.owner != [] then t'
    else t'.(ak := true, owner := r.owner.value, endorsement := r.endorsement.value, lockout := r.lockout.value)
  }

  // ------------------------------------------------------- an attempt, call by call

  /** Outside leaves the TPM alone; MakeKey uses the endorsement hierarchy without a value. */
  datatype Call = Outside | MakeKey | Do(command: Command)

  predicate Goes(t: Tpm, c: Call) {
    (c.MakeKey? ==> t.endorsement == []) && (c.Do? ==> Permitted(t, c.command))
  }

  /** Where an attempt is: the TPM, whether every call went through so far, and how many more can. */
  datatype Progress = Progress(tpm: Tpm, ok: bool, left: nat)

  /** One call; after a failed one nothing more happens. */
  function Step(above: nat, p: Progress, c: Call): Progress {
    if !p.ok then p
    else if p.left == 0 then p.(ok := false)
    else if !Goes(p.tpm, c) then p.(ok := false, left := p.left - 1)
    else p.(tpm := if c.Do? then Exec(above, p.tpm, c.command) else p.tpm, left := p.left - 1)
  }

  function Keyed(above: nat, p: Progress): Progress {
    Step(above, Step(above, p, MakeKey), Do(StoreAk))
  }

  function RemovedOne(above: nat, p: Progress, w: Which, auth: Bytes): Progress {
    if NvOf(p.tpm, w).Some? then Step(above, p, Do(Undefine(w, auth))) else p
  }

  function Removed(above: nat, p: Progress, auth: Bytes): Progress {
    RemovedOne(above, RemovedOne(above, p, Meas, auth), Ctr, auth)
  }

  function Defined(a: Anchor, above: nat, p: Progress, auth: Bytes): Progress {
    var p1 := Step(above, p, Do(Define(Meas, auth, ATTR_MEAS, a.measPolicy, 32)));
    var p2 := Step(above, p1, Do(Define(Ctr, auth, ATTR_CTR, a.ctrPolicy, 8)));
    Step(above, Step(above, p2, Outside), Do(Increment))
  }

  function Closed(above: nat, p: Progress, r: Request): Progress
    requires r.owner.Some? && r.endorsement.Some? && r.lockout.Some?
  {
    var p1 := Step(above, p, Do(ChangeAuth(Owner, r.owner.value)));
    var p2 := Step(above, p1, Do(ChangeAuth(Endorsement, r.endorsement.value)));
    Step(above, p2, Do(ChangeAuth(Lockout, r.lockout.value)))
  }

  predicate WellFormed(t: Tpm, r: Request) {
    r.owner.Some? && (t.owner == [] ==> r.endorsement.Some? && r.lockout.Some?)
  }

  /** The whole attempt, of which `calls` calls work; a malformed request fails before the first one. */
  function Attempt(a: Anchor, above: nat, t: Tpm, r: Request, calls: nat): Progress {
    var p := Progress(t, true, calls);
    if !WellFormed(t, r) then p.(ok := false)
    else if t.owner != [] then
      Defined(a, above, Removed(above, Step(above, p, Outside), r.owner.value), r.owner.value)
    else
      Closed(above, Defined(a, above, Removed(above, Keyed(above, Step(above, p, Outside)), []), []), r)
  }

  /** How many indices a former provisioning left. */
  function Old(t: Tpm): nat {
    (if t.meas.Some? then 1 else 0) + (if t.ctr.Some? then 1 else 0)
  }

  /** The calls of a whole attempt. */
  function Needed(t: Tpm): nat {
    if t.owner != [] then 5 + Old(t) else 10 + Old(t)
  }

  lemma KeyedExact(above: nat, p: Progress)
    ensures var q := Keyed(above, p);
            && (q.ok <==> p.ok && p.left >= 2 && p.tpm.endorsement == [] && p.tpm.owner == [] && !p.tpm.ak)
            && q.tpm == (if q.ok then p.tpm.(ak := true) else p.tpm)
            && (q.ok ==> q.left == p.left - 2)
  {
  }

  lemma RemovedExact(above: nat, p: Progress, auth: Bytes)
    ensures var q, u := Removed(above, p, auth), Old(p.tpm);
            && (q.ok <==> p.ok && p.left >= u && (u == 0 || auth == p.tpm.owner))
            && q.tpm == p.tpm.(meas := q.tpm.meas, ctr := q.tpm.ctr)
            && (q.ok ==> q.left == p.left - u && q.tpm.meas == None && q.tpm.ctr == None)
  {
  }

  lemma DefinedExact(a: Anchor, above: nat, p: Progress, auth: Bytes)
    requires p.ok ==> p.tpm.meas == None && p.tpm.ctr == None
    ensures var q, v := Defined(a, above, p, auth), p.tpm.highWater + above;
            && (q.ok <==> p.ok && p.left >= 4 && auth == p.tpm.owner)
            && q.tpm == p.tpm.(meas := q.tpm.meas, ctr := q.tpm.ctr, highWater := q.tpm.highWater)
            && (q.ok ==> q.left == p.left - 4 && q.tpm.meas == Some(FreshMeas(a))
                         && q.tpm.ctr == Some(FreshCtr(a, v)) && q.tpm.highWater == v)
  {
  }

  lemma ClosedExact(above: nat, p: Progress, r: Request)
    requires r.owner.Some? && r.endorsement.Some? && r.lockout.Some?
    requires p.ok ==> p.tpm.owner == [] && p.tpm.endorsement == [] && p.tpm.lockout == []
    ensures var q := Closed(above, p, r);
            && (q.ok <==> p.ok && p.left >= 3)
            && q.tpm == p.tpm.(owner := if p.ok && p.left >= 1 then r.owner.value else p.tpm.owner,
                               endorsement := if p.ok && p.left >= 2 then r.endorsement.value else p.tpm.endorsement,
                               lockout := if q.ok then r.lockout.value else p.tpm.lockout)
  {
  }

  /** An attempt succeeds exactly when Accepts says so and enough calls work; then its outcome is the specified TPM. */
  lemma AttemptExact(a: Anchor, above: nat, t: Tpm, r: Request, calls: nat)
    ensures Attempt(a, above, t, r, calls).ok <==> Accepts(t, r) && calls >= Needed(t)
    ensures Attempt(a, above, t, r, calls).ok ==> Attempt(a, above, t, r, calls).tpm == Outcome(a, above, t, r)
  {
    hide Keyed, Removed, Defined;
    if WellFormed(t, r) {
      var p := Step(above, Progress(t, true, calls), Outside);
      var auth := if t.owner != [] then r.owner.value else [];
      KeyedExact(above, p);
      var k := if t.owner != [] then p else Keyed(above, p);
      RemovedExact(above, k, auth);
      var m := Removed(above, k, auth);
      DefinedExact(a, above, m, auth);
      var d := Defined(a, above, m, auth);
      if t.owner == [] && t.endorsement == [] && t.lockout == [] {
        hide Closed;
        ClosedExact(above, d, r);
      }
    }
  }

  /**
   Where a first provisioning stops: the key is stored from the third call on, and
   the three authorisation values are set by the last three calls.
   */
  lemma OpenAttempt(a: Anchor, above: nat, t: Tpm, r: Request, calls: nat)
    requires t.owner == [] && Accepts(t, r)
    ensures var t', u := Attempt(a, above, t, r, calls).tpm, Old(t);
            && t'.ak == (calls >= 3)
            && t'.owner == (if calls >= 8 + u then r.owner.value else [])
            && t'.endorsement == (if calls >= 9 + u then r.endorsement.value else [])
            && t'.lockout == (if calls >= 10 + u then r.lockout.value else [])
  {
    hide Keyed, Removed, Defined, Closed;
    var p := Step(above, Progress(t, true, calls), Outside);
    KeyedExact(above, p);
    var k := Keyed(above, p);
    RemovedExact(above, k, []);
    var m := Removed(above, k, []);
    DefinedExact(a, above, m, []);
    ClosedExact(above, Defined(a, above, m, []), r);
  }

  class Board {
    const anchor: Anchor
    const above: nat
    /** The TPM when the log began, and the commands it has executed since. */
    ghost const start: Tpm
    ghost var log: seq<Command>
    var tpm: Tpm
    /** How many more calls go through before the next one fails or the power goes. */
    var calls: nat

    constructor (anchor: Anchor, above: nat, tpm: Tpm, calls: nat)
      ensures Valid() && this.anchor == anchor && this.above == above
      ensures this.tpm == tpm == start && this.calls == calls && log == []
    {
      this.anchor, this.above, this.tpm, this.calls := anchor, above, tpm, calls;
      start, log := tpm, [];
    }

    ghost predicate Valid()
      reads this
    {
      Ran(above, start, log) && tpm == After(above, start, log)
    }

    /** Only commands that keep the counter's attributes were added. */
    ghost predicate Extends(before: seq<Command>)
      reads this
    {
      before <= log && forall i :: |before| <= i < |log| ==> Keeps(log[i])
    }

    /** This board before an attempt, or after calls that all went through. */
    function Now(): Progress
      reads this
    {
      Progress(tpm, true, calls)
    }

    method Run(c: Call) returns (ok: bool)
      requires Valid() && (c.Do? ==> Keeps(c.command))
      modifies this
      ensures Valid() && Extends(old(log))
      ensures Now().(ok := ok) == Step(above, old(Now()), c)
    {
      hide Exec, Permitted, Ran, After;
      if calls == 0 { return false; }
      calls := calls - 1;
      if !Goes(tpm, c) { return false; }
      if c.Do? {
        RunOfOne(above, tpm, c.command);
        RunSplits(above, start, log, [c.command]);
        log := log + [c.command];
        tpm := Exec(above, tpm, c.command);
      }
      ok := true;
    }

    /** EK and AK under the empty endorsement authorisation; the AK becomes persistent. */
    method MakeAk() returns (ok: bool)
      requires Valid()
      modifies this
      ensures Valid() && Extends(old(log))
      ensures Now().(ok := ok) == Keyed(above, old(Now()))
    {
      hide Exec, Goes, Ran, After;
      ok := Run(MakeKey);
      if !ok { return; }
      ok := Run(Do(StoreAk));
    }

    /** The loop that removes what a former provisioning left. */
    method RemoveIndices(auth: Bytes) returns (ok: bool)
      requires Valid()
      modifies this
      ensures Valid() && Extends(old(log))
      ensures Now().(ok := ok) == Removed(above, old(Now()), auth)
    {
      hide Exec, Goes, Ran, After;
      var indices := [Meas, Ctr];
      ok := true;
      var n := 0;
      while n < |indices| && ok
        invariant 0 <= n <= 2 && Valid() && Extends(old(log))
        invariant Now().(ok := ok) ==
                  if n == 0 then old(Now())
                  else if n == 1 then RemovedOne(above, old(Now()), Meas, auth)
                  else Removed(above, old(Now()), auth)
        decreases 2 - n
      {
        if NvOf(tpm, indices[n]).Some? { ok := Run(Do(Undefine(indices[n], auth))); }
        n := n + 1;
      }
    }

    /** Both indices from nothing, and the first increment. */
    method DefineIndices(auth: Bytes) returns (ok: bool)
      requires Valid()
      modifies this
      ensures Valid() && Extends(old(log))
      ensures Now().(ok := ok) == Defined(anchor, above, old(Now()), auth)
    {
      hide Exec, Goes, Ran, After;
      ok := Run(Do(Define(Meas, auth, ATTR_MEAS, anchor.measPolicy, 32)));
      if !ok { return; }
      ok := Run(Do(Define(Ctr, auth, ATTR_CTR, anchor.ctrPolicy, 8)));
      if !ok { return; }
      ok := Run(Outside);
      if !ok { return; }
      ok := Run(Do(Increment));
    }

    /** The hierarchy authorisations, last. */
    method CloseHierarchies(r: Request) returns (ok: bool)
      requires Valid() && r.owner.Some? && r.endorsement.Some? && r.lockout.Some?
      modifies this
      ensures Valid() && Extends(old(log))
      ensures Now().(ok := ok) == Closed(above, old(Now()), r)
    {
      hide Exec, Goes, Ran, After;
      ok := Run(Do(ChangeAuth(Owner, r.owner.value)));
      if !ok { return; }
      ok := Run(Do(ChangeAuth(Endorsement, r.endorsement.value)));
      if !ok { return; }
      ok := Run(Do(ChangeAuth(Lockout, r.lockout.value)));
    }

    /**
     provision_fwkey, stopping at whichever call fails: the TPM is always the one
     that Attempt describes. It succeeds exactly when Accepts says so and enough
     calls go through; then both indices are fresh, the counter reads at least the
     highest value ever held, and a TPM that was already closed keeps its key and
     its authorisations.
     */
    method ProvisionFwkey(r: Request) returns (reply: Reply)
      requires Valid()
      modifies this
      ensures Valid() && Extends(old(log))
      ensures Now().(ok := reply.Provisioned?) == Attempt(anchor, above, old(tpm), r, old(calls))
      ensures reply.Provisioned? <==> Accepts(old(tpm), r) && old(calls) >= Needed(old(tpm))
      ensures reply.Provisioned? ==>
                && tpm == Outcome(anchor, above, old(tpm), r)
                && reply.reprovisioned == (old(tpm).owner != [])
                && reply.counter == old(tpm).highWater + above
                && tpm.meas == Some(Nv(0x0A07_0048, anchor.measPolicy, 32, false, 0))
                && tpm.ctr == Some(Nv(0x0207_0018, anchor.ctrPolicy, 8, true, reply.counter))
                && reply.measName == WrittenName(anchor.h, NvPublic(0x0180_0000, 0x0A07_0048, anchor.measPolicy, 32))
                && reply.ctrName ==
                   WrittenName(anchor.h, NvPublic(0x0180_0002, 0x0207_0018 | 0x2000_0000, anchor.ctrPolicy, 8))
    {
      AttemptExact(anchor, above, tpm, r, calls);
      if Accepts(tpm, r) { OutcomeIndices(anchor, above, tpm, r); }
      hide Attempt, Outcome, Accepts, Needed, Ran, After, WrittenName, Public;
      var closed := tpm.owner != [];
      var ok := RunCalls(r);
      if !ok { return Refused; }
      var counter := ReadCounter();
      reply := Provisioned(closed, WrittenName(anchor.h, Public(Meas, tpm.meas.value)),
                           WrittenName(anchor.h, Public(Ctr, tpm.ctr.value)), counter.value);
    }

    /** The calls of provision_fwkey in their order, up to the record it returns. */
    method RunCalls(r: Request) returns (ok: bool)
      requires Valid()
      modifies this
      ensures Valid() && Extends(old(log))
      ensures Now().(ok := ok) == Attempt(anchor, above, old(tpm), r, old(calls))
    {
      FailuresLast(anchor, above, r);
      hide Step, Keyed, Removed, Defined, Closed, Ran, After;
      var closed := tpm.owner != [];
      if r.owner.None? { return false; }
      if !closed && (r.endorsement.None? || r.lockout.None?) { return false; }
      var auth := if closed then r.owner.value else [];
      ok := Run(Outside);
      if !ok { return; }
      if !closed {
        ok := MakeAk();
        if !ok { return; }
      }
      ok := RemoveIndices(auth);
      if !ok { return; }
      ok := DefineIndices(auth);
      if !ok { return; }
      if !closed { ok := CloseHierarchies(r); }
    }

    /** The reading of the counter, or the failure of an index that is absent or was never incremented. */
    method ReadCounter() returns (v: Option<nat>)
      ensures v == if Readable(tpm) then Some(tpm.ctr.value.value) else None
    {
      v := if tpm.ctr.Some? && tpm.ctr.value.written then Some(tpm.ctr.value.value) else None;
    }
  }

  lemma OutcomeIndices(a: Anchor, above: nat, t: Tpm, r: Request)
    requires Accepts(t, r)
    ensures var t' := Outcome(a, above, t, r);
            && t'.meas == Some(Nv(0x0A07_0048, a.measPolicy, 32, false, 0))
            && t'.ctr == Some(Nv(0x0207_0018, a.ctrPolicy, 8, true, t.highWater + above))
            && Public(Meas, t'.meas.value) == NvPublic(0x0180_0000, 0x0A07_0048, a.measPolicy, 32)
            && Public(Ctr, t'.ctr.value) == NvPublic(0x0180_0002, 0x0207_0018 | 0x2000_0000, a.ctrPolicy, 8)
  {
    AttributeWords();
  }

  /** After a failed call the rest of an attempt does nothing. */
  lemma FailuresLast(a: Anchor, above: nat, r: Request)
    ensures forall p: Progress :: !p.ok ==> Keyed(above, p) == p
    ensures forall p: Progress, auth :: !p.ok ==> Removed(above, p, auth) == p
    ensures forall p: Progress, auth :: !p.ok ==> Defined(a, above, p, auth) == p
    ensures r.owner.Some? && r.endorsement.Some? && r.lockout.Some? ==>
              forall p: Progress :: !p.ok ==> Closed(above, p, r) == p
  {
  }

  /** A provisioned counter is at least every reading in the run that led to it. */
  lemma ProvisionedAboveAll(a: Anchor, above: nat, t: Tpm, cs: seq<Command>, i: nat, r: Request)
    requires CounterOk(t) && Ran(above, t, cs) && i <= |cs|
    requires forall k :: 0 <= k < |cs| ==> Keeps(cs[k])
    requires Accepts(After(above, t, cs), r)
    ensures Ran(above, t, cs[..i])
    ensures Readable(After(above, t, cs[..i])) ==>
              After(above, t, cs[..i]).ctr.value.value
              <= Outcome(a, above, After(above, t, cs), r).ctr.value.value
  {
    hide Permitted, Exec, Keeps;
    assert cs[..i] + cs[i..] == cs;
    RunSplits(above, t, cs[..i], cs[i..]);
    FloorNeverFalls(above, t, cs[..i]);
    FloorNeverFalls(above, After(above, t, cs[..i]), cs[i..]);
  }

  /**
   A provisioned board after a restart: the measured-boot index is unwritten until
   the boot loader extends it, the counter still reads what it read.
   */
  lemma RestartAfterProvisioning(a: Anchor, above: nat, t: Tpm, r: Request, extended: bool)
    requires Accepts(t, r)
    ensures var t1 := Outcome(a, above, t, r);
            var t2 := if extended then Exec(above, t1, Extend) else t1;
            var t3 := Exec(above, t2, Startup);
            && t3.meas.Some? && !t3.meas.value.written && t3.ctr == t1.ctr && Readable(t3)
            && Exec(above, t3, Extend).meas.value.written
  {
    AttributeWords();
  }

  // ------------------------------------------------- attempts that stopped, repeated

  /** Some request is accepted. */
  ghost predicate Repeatable(t: Tpm) {
    exists r :: Accepts(t, r)
  }

  /** The key is stored but the owner value is not set. */
  predicate Stranded(t: Tpm) {
    t.ak && t.owner == []
  }

  /** Changes the key or an authorisation value; no boot and no stranded attempt issues one. */
  predicate Intervenes(c: Command) {
    c.Clear? || c.ChangeAuth? || c.StoreAk? || c.RemoveAk?
  }

  lemma {:induction false} AuthsStay(above: nat, t: Tpm, cs: seq<Command>)
    requires Ran(above, t, cs) && forall i :: 0 <= i < |cs| ==> !Intervenes(cs[i])
    ensures var t' := After(above, t, cs);
            t'.ak == t.ak && t'.owner == t.owner && t'.endorsement == t.endorsement && t'.lockout == t.lockout
    decreases |cs|
  {
    if cs != [] {
      assert !Intervenes(cs[0]);
      AuthsStay(above, Exec(above, t, cs[0]), cs[1..]);
    }
  }

  lemma RepeatableExact(t: Tpm)
    requires t.owner == [] ==> t.endorsement == [] && t.lockout == []
    requires |t.owner| == 0 || |t.owner| == 32
    ensures Repeatable(t) <==> !Stranded(t)
  {
    if t.owner != [] {
      assert Accepts(t, Request(Some(t.owner), None, None));
    } else if !t.ak {
      assert Accepts(t, Request(Some(ZERO32), Some(ZERO32), Some(ZERO32)));
    }
  }

  /**
   When a first provisioning of an open TPM that stopped after `calls` calls can be
   repeated, whatever boots and redefinitions follow: exactly when it stopped before
   the key was stored or after the owner value was set.
   */
  lemma StoppedAttempt(a: Anchor, above: nat, t: Tpm, r: Request, calls: nat, cs: seq<Command>)
    requires t.owner == [] && Accepts(t, r)
    requires Ran(above, Attempt(a, above, t, r, calls).tpm, cs)
    requires forall i :: 0 <= i < |cs| ==> !Intervenes(cs[i])
    ensures var t' := Attempt(a, above, t, r, calls).tpm;
            && (Repeatable(After(above, t', cs)) <==> !Stranded(t'))
            && (Stranded(t') <==> 3 <= calls < 8 + Old(t))
  {
    OpenAttempt(a, above, t, r, calls);
    hide Attempt, Ran, After, Accepts, Repeatable;
    var t' := Attempt(a, above, t, r, calls).tpm;
    AuthsStay(above, t', cs);
    RepeatableExact(After(above, t', cs));
  }

  /** A stopping input: from a cleared TPM, a power loss right after the key is stored. */
  lemma StrandingInput(a: Anchor, above: nat, r: Request)
    requires r.owner.Some? && r.endorsement.Some? && r.lockout.Some?
    ensures var cleared := Tpm([], [], [], false, None, None, 0);
            && Accepts(cleared, r)
            && Attempt(a, above, cleared, r, 3) == Progress(cleared.(ak := true), false, 0)
            && !Repeatable(cleared.(ak := true))
  {
  }

  /** A repeated attempt on a stranded TPM fails and changes nothing, whatever the request. */
  lemma StrandedStaysStranded(a: Anchor, above: nat, t: Tpm, r: Request, calls: nat)
    requires Stranded(t)
    ensures !Attempt(a, above, t, r, calls).ok && Attempt(a, above, t, r, calls).tpm == t
  {
    FailuresLast(a, above, r);
    var p := Step(above, Progress(t, true, calls), Outside);
    KeyedExact(above, p);
    hide Keyed, Removed, Defined, Closed;
  }

  /** What ends it: clearing the TPM, removing the key, or setting the owner value by hand. */
  lemma WaysOut(above: nat, t: Tpm, c: Command)
    requires Stranded(t) && t.endorsement == [] && t.lockout == [] && Permitted(t, c)
    requires c.ChangeAuth? ==> |c.value| == 32
    ensures Repeatable(Exec(above, t, c)) <==>
            c.Clear? || c.RemoveAk? || (c.ChangeAuth? && c.hierarchy == Owner)
  {
    var t' := Exec(above, t, c);
    if c.ChangeAuth? && c.hierarchy == Owner { assert Accepts(t', Request(Some(c.value), None, None)); }
    if c.Clear? || c.RemoveAk? { assert Accepts(t', Request(Some(ZERO32), Some(ZERO32), Some(ZERO32))); }
  }

  // ------------------------------------------------------------- hierarchies left open

  predicate AllClosed(t: Tpm) {
    t.owner != [] && t.endorsement != [] && t.lockout != []
  }

  /** A success leaves all hierarchies closed exactly on the first-time path, or if the other two were closed before. */
  lemma SuccessClosesAll(a: Anchor, above: nat, t: Tpm, r: Request)
    requires Accepts(t, r)
    ensures AllClosed(Outcome(a, above, t, r)) <==> t.owner == [] || (t.endorsement != [] && t.lockout != [])
  {
    if t.owner == [] { assert |r.owner.value| == |r.endorsement.value| == |r.lockout.value| == 32; }
  }

  /**
   So a first provisioning that stopped between its last three calls, and is then
   repeated, reports success with a hierarchy open; stopped anywhere else it does not.
   */
  lemma RepeatedSuccessClosesAll(a: Anchor, above: nat, t: Tpm, r: Request, calls: nat, again: Request)
    requires t.owner == [] && Accepts(t, r)
    requires Accepts(Attempt(a, above, t, r, calls).tpm, again)
    ensures AllClosed(Outcome(a, above, Attempt(a, above, t, r, calls).tpm, again)) <==>
            calls < 3 || calls >= 10 + Old(t)
  {
    OpenAttempt(a, above, t, r, calls);
    SuccessClosesAll(a, above, Attempt(a, above, t, r, calls).tpm, again);
    hide Attempt, Outcome;
  }

  // -------------------------------------------------------------------- attestation

  /**
   A passed round whose certificate a TPM made for one of its indices: that index
   has the number, attributes, policy and size of the measured-boot index that was
   provisioned, and is written; or two public areas collide.
   */
  lemma PassPinsIndex(e: Verdict.Enrolled, nonce: Bytes, ev: Verdict.Evidence, last: Option<nat>, requireReboot: bool,
                      v: Attestation.NvCertify, rest: Bytes, actual: NvPublic, enrolled: NvPublic)
    requires e.measName == WrittenName(e.h, enrolled) && Encodable(enrolled) && Encodable(actual)
    requires Verdict.Passed(Verdict.Judge(e, nonce, ev, last, requireReboot))
    requires Attestation.IsNvCertify(ev.cert, v, rest) && v.name == Name(e.h, actual)
    ensures var golden := enrolled.(attrs := enrolled.attrs | WRITTEN);
            actual == golden || Genuine(e.h, CollisionOf(Marshal(actual), Marshal(golden)))
  {
    Attestation.NvParses(v, rest);
    Attestation.OneName(ev.cert, v.name, e.measName);
    WrittenNameIsName(e.h, enrolled);
    NamePinsPublicArea(e.h, actual, enrolled.(attrs := enrolled.attrs | WRITTEN));
  }
}
