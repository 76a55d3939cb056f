/**
 One attestation round of attestation/attest-server.py, the reset count it
 carries to the next round, and what a passed round says about the board.
 Signature verification is a foreign call: the predicate `signed`.
 */
module Verdict {
  import opened ByteStrings
  import opened Hashing
  import opened Bitmaps
  import opened Attestation
  import opened PcrPrediction

  const PCR_SET: seq<nat> := [0, 1, 8, 9]

  datatype Enrolled = Enrolled(h: HashFn, signed: (Bytes, Bytes) -> bool, goldens: Goldens, measName: Bytes)

  datatype Evidence = Evidence(quote: Bytes, quoteSig: Bytes, cert: Bytes, certSig: Bytes)

  /** Ended: the verifier stopped without a verdict (no enrolled Name, or a parser crashed). */
  datatype Round = Ended | Judged(ok: bool, slot: Option<Slot>, count: Option<nat>)

  function Last256(sig: Bytes): Bytes {
    if |sig| <= 256 then sig else sig[|sig| - 256..]
  }

  function GoldenText(g: Goldens, slot: Slot): Bytes {
    g.pcr0 + GoldenPcr1(g, slot) + g.pcr8 + g.pcr9
  }

  predicate SlotMatches(e: Enrolled, digest: Bytes, slot: Slot) {
    digest == e.h(GoldenText(e.goldens, slot))
  }

  function MatchingSlot(e: Enrolled, digest: Bytes): Option<Slot> {
    if SlotMatches(e, digest, B) then Some(B)
    else if SlotMatches(e, digest, A) then Some(A)
    else None
  }

  /** The value of the measured-boot index after one extend with the quote's digest. */
  function BootRecord(h: HashFn, digest: Bytes): Digest {
    h(ZERO32 + digest)
  }

  /** The TPM restarted since the round that recorded `last`. */
  predicate RestartShown(last: Option<nat>, count: nat) {
    last.Some? && count > last.value
  }

  function Judge(e: Enrolled, nonce: Bytes, ev: Evidence, last: Option<nat>, requireReboot: bool): Round {
    var q := PcrDigest(ev.quote, PCR_SET);
    var c := NvContents(ev.cert, e.measName);
    if e.measName == [] || q.Crashed? || c.Crashed? then Ended
    else
      var slot := if q.Parsed? then MatchingSlot(e, q.value.payload) else None;
      var ok :=
        && e.signed(ev.quote, Last256(ev.quoteSig))
        && e.signed(ev.cert, ev.certSig)
        && q.Parsed? && q.value.extra == nonce && slot.Some?
        && c.Parsed? && c.value.extra == nonce
        && c.value.payload == BootRecord(e.h, q.value.payload)
        && (requireReboot ==> RestartShown(last, q.value.clock.resetCount));
      Judged(ok, slot, if q.Parsed? then Some(q.value.clock.resetCount) else None)
  }

  /** What happens to the state file when it is written: done, refused, or left unreadable. */
  datatype Write = Written | Refused | Damaged

  function Recorded(last: Option<nat>, round: Round, write: Write): Option<nat> {
    if round.Judged? && round.count.Some? then
      match write
      case Written => round.count
      case Refused => last
      case Damaged => None
    else last
  }

  /** attest-server.py with its state file. */
  class Verifier {
    const enrolled: Enrolled
    var lastReset: Option<nat>

    constructor (enrolled: Enrolled, lastReset: Option<nat>)
      ensures this.enrolled == enrolled && this.lastReset == lastReset
    {
      this.enrolled := enrolled;
      this.lastReset := lastReset;
    }

    method Attest(nonce: Bytes, ev: Evidence, requireReboot: bool, write: Write) returns (round: Round)
      modifies this
      ensures round == Judge(enrolled, nonce, ev, old(lastReset), requireReboot)
      ensures lastReset == Recorded(old(lastReset), round, write)
    {
      if enrolled.measName == [] { return Ended; }
      var ok := enrolled.signed(ev.quote, Last256(ev.quoteSig));
      ok := ok && enrolled.signed(ev.cert, ev.certSig);

      var q := CheckQuote(ev.quote, PCR_SET);
      if q.Crashed? { return Ended; }
      ok := ok && q.Parsed? && q.value.extra == nonce;

      var slot := None;
      if q.Parsed? {
        var slots := [A, B];
        var n := 0;
        while n < |slots|
          invariant 0 <= n <= 2
          invariant slot == if n == 2 then MatchingSlot(enrolled, q.value.payload)
                            else if n == 1 && SlotMatches(enrolled, q.value.payload, A) then Some(A) else None
        {
          if SlotMatches(enrolled, q.value.payload, slots[n]) { slot := Some(slots[n]); }
          n := n + 1;
        }
      }
      ok := ok && slot.Some?;

      var c := NvContents(ev.cert, enrolled.measName);
      if c.Crashed? { return Ended; }
      ok := ok && c.Parsed? && c.value.extra == nonce;
      ok := ok && slot.Some? && c.value.payload == BootRecord(enrolled.h, q.value.payload);

      if q.Parsed? {
        var count := q.value.clock.resetCount;
        if requireReboot { ok := ok && lastReset.Some? && count > lastReset.value; }
        match write {
          case Written => lastReset := Some(count);
          case Refused =>
          case Damaged => lastReset := None;
        }
        round := Judged(ok, slot, Some(count));
      } else {
        round := Judged(ok, slot, None);
      }
    }
  }

  predicate Passed(round: Round) {
    round.Judged? && round.ok
  }

  // ------------------------------------------------------- what a pass means

  /** The evidence is what a genuine board in a golden state produces for this nonce. */
  ghost predicate Convincing(e: Enrolled, nonce: Bytes, ev: Evidence, last: Option<nat>, requireReboot: bool,
                             q: Quote, qRest: Bytes, v: NvCertify, vRest: Bytes) {
    && e.signed(ev.quote, Last256(ev.quoteSig)) && e.signed(ev.cert, ev.certSig)
    && IsQuote(ev.quote, q, qRest) && q.common.extra == nonce
    && Bits(q.sel) == {0, 1, 8, 9}
    && (SlotMatches(e, q.digest, A) || SlotMatches(e, q.digest, B))
    && IsNvCertify(ev.cert, v, vRest) && v.common.extra == nonce
    && v.name == e.measName != []
    && v.contents == BootRecord(e.h, q.digest)
    && (requireReboot ==> RestartShown(last, q.common.clock.resetCount))
  }

  lemma PcrSetElements()
    ensures (set p | p in PCR_SET) == {0, 1, 8, 9}
  {
    forall p: nat ensures p in PCR_SET <==> p in {0, 1, 8, 9} {
      assert PCR_SET[0] == 0 && PCR_SET[1] == 1 && PCR_SET[2] == 8 && PCR_SET[3] == 9;
    }
  }

  lemma ConvincingPasses(e: Enrolled, nonce: Bytes, ev: Evidence, last: Option<nat>, requireReboot: bool,
                         q: Quote, qRest: Bytes, v: NvCertify, vRest: Bytes)
    requires Convincing(e, nonce, ev, last, requireReboot, q, qRest, v, vRest)
    ensures Passed(Judge(e, nonce, ev, last, requireReboot))
  {
    PcrSetElements();
    QuoteParses(q, qRest, PCR_SET);
    NvParses(v, vRest);
  }

  lemma PassIsConvincing(e: Enrolled, nonce: Bytes, ev: Evidence, last: Option<nat>, requireReboot: bool)
    returns (q: Quote, qRest: Bytes, v: NvCertify, vRest: Bytes)
    requires Passed(Judge(e, nonce, ev, last, requireReboot))
    ensures Convincing(e, nonce, ev, last, requireReboot, q, qRest, v, vRest)
    ensures Judge(e, nonce, ev, last, requireReboot).slot == MatchingSlot(e, q.digest)
    ensures Judge(e, nonce, ev, last, requireReboot).count == Some(q.common.clock.resetCount)
  {
    PcrSetElements();
    q, qRest := QuoteAccepted(ev.quote, PCR_SET);
    v, vRest := NvAccepted(ev.cert, e.measName);
  }

  /** A round passes exactly when some quote and some certificate make the evidence convincing. */
  lemma PassExact(e: Enrolled, nonce: Bytes, ev: Evidence, last: Option<nat>, requireReboot: bool)
    ensures Passed(Judge(e, nonce, ev, last, requireReboot)) <==>
            exists q, qRest, v, vRest :: Convincing(e, nonce, ev, last, requireReboot, q, qRest, v, vRest)
  {
    if Passed(Judge(e, nonce, ev, last, requireReboot)) {
      var q, qRest, v, vRest := PassIsConvincing(e, nonce, ev, last, requireReboot);
    }
    forall q, qRest, v, vRest | Convincing(e, nonce, ev, last, requireReboot, q, qRest, v, vRest)
      ensures Passed(Judge(e, nonce, ev, last, requireReboot))
    {
      ConvincingPasses(e, nonce, ev, last, requireReboot, q, qRest, v, vRest);
    }
  }

  /**
   Any genuine quote over the wanted PCRs is judged and its reset count reported,
   however the signatures, the nonce, the PCRs, the certificate or the restart turn
   out; only a certificate that crashes its parser ends the round.
   */
  lemma QuoteIsCounted(e: Enrolled, nonce: Bytes, ev: Evidence, last: Option<nat>, requireReboot: bool,
                       q: Quote, rest: Bytes)
    requires e.measName != [] && IsQuote(ev.quote, q, rest) && Bits(q.sel) == {0, 1, 8, 9}
    requires !NvContents(ev.cert, e.measName).Crashed?
    ensures Judge(e, nonce, ev, last, requireReboot).Judged?
    ensures Judge(e, nonce, ev, last, requireReboot).count == Some(q.common.clock.resetCount)
    ensures forall write :: Recorded(last, Judge(e, nonce, ev, last, requireReboot), write) ==
              match write
              case Written => Some(q.common.clock.resetCount)
              case Refused => last
              case Damaged => None
  {
    hide PcrDigest, NvContents, IsQuote, Bits;
    PcrSetElements();
    QuoteDigest(ev.quote, q, rest);
  }

  /** A quote that is no quote over the wanted PCRs leaves the record alone. */
  lemma NoQuoteNoRecord(e: Enrolled, nonce: Bytes, ev: Evidence, last: Option<nat>, requireReboot: bool, write: Write)
    requires forall q, rest :: IsQuote(ev.quote, q, rest) ==> Bits(q.sel) != {0, 1, 8, 9}
    ensures Recorded(last, Judge(e, nonce, ev, last, requireReboot), write) == last
    ensures !Passed(Judge(e, nonce, ev, last, requireReboot))
  {
    hide PcrDigest, NvContents, IsQuote, Bits;
    PcrSetElements();
    if PcrDigest(ev.quote, PCR_SET).Parsed? {
      var q, rest := QuoteAccepted(ev.quote, PCR_SET);
    }
  }

  /** The signature behind the header of the quote's signature structure: its last 256 bytes. */
  lemma RawSignature(header: Bytes, raw: Bytes)
    requires |raw| == 256
    ensures Last256(header + raw) == raw
  {
  }

  /** The bitmap that pcr_digest builds for the wanted PCRs. */
  lemma WantedBytes()
    ensures WantedMask(PCR_SET) == [3, 3]
  {
    var s: seq<nat> := PCR_SET;
    assert s[..3] == [0, 1, 8] && s[..3][..2] == [0, 1] && s[..3][..2][..1] == [0] && s[..3][..2][..1][..0] == [];
    SetBitAddsWeight(0, 0);
    SetBitAddsWeight(1, 1);
    assert !Bit(0, 0) && !Bit(1, 1) && Pow2(0) == 1 && Pow2(1) == 2;
    var m0 := Mask([], 2);
    var m1 := Mask([0], 2);
    assert m0 == [0, 0] && m1 == [1, 0];
    var m2 := Mask([0, 1], 2);
    assert [0, 1][..1] == [0] && m2 == [3, 0];
    var m3 := Mask([0, 1, 8], 2);
    assert [0, 1, 8][..2] == [0, 1] && m3 == [3, 1];
    assert Mask(s, 2) == [3, 3];
  }

  // --------------------------------------------------- from the quote to the boot

  /** The selected PCR values below n, lowest PCR first: what a quote digests (TPM 2.0 Part 1, section 17). */
  function SelectedValues(bits: set<nat>, pcr: nat -> Digest, n: nat): Bytes {
    if n == 0 then [] else SelectedValues(bits, pcr, n - 1) + (if n - 1 in bits then pcr(n - 1) else [])
  }

  ghost predicate QuotesPcrs(h: HashFn, q: Quote, pcr: nat -> Digest) {
    q.digest == h(SelectedValues(Bits(q.sel), pcr, 8 * |q.sel|))
  }

  lemma {:induction false} NothingSelectedAbove(pcr: nat -> Digest, n: nat)
    requires 10 <= n
    ensures SelectedValues({0, 1, 8, 9}, pcr, n) == pcr(0) + pcr(1) + pcr(8) + pcr(9)
  {
    var s: set<nat> := {0, 1, 8, 9};
    if n == 10 {
      assert SelectedValues(s, pcr, 2) == pcr(0) + pcr(1);
      assert SelectedValues(s, pcr, 4) == SelectedValues(s, pcr, 2);
      assert SelectedValues(s, pcr, 6) == SelectedValues(s, pcr, 4);
      assert SelectedValues(s, pcr, 8) == SelectedValues(s, pcr, 6);
      assert SelectedValues(s, pcr, 10) == SelectedValues(s, pcr, 8) + pcr(8) + pcr(9);
    } else {
      NothingSelectedAbove(pcr, n - 1);
    }
  }

  datatype Release = Release(version: Bytes, dtDigest: Bytes, prefix: Bytes, template: Bytes)

  /** The goldens are predicted on the host from the enrollment and the release. */
  ghost predicate HostPredicted(e: Enrolled, rel: Release) {
    && e.goldens.pcr0 == PredictPcr0(e.h, rel.version, rel.dtDigest)
    && e.goldens.pcr1a == PredictPcr1(e.h, rel.prefix, rel.template, A)
    && e.goldens.pcr1b == PredictPcr1(e.h, rel.prefix, rel.template, B)
  }

  lemma GoldensForIsHostPredicted(e: Enrolled, rel: Release, man: ReleaseGoldens)
    requires rel.prefix != [] && rel.template != [] && man.cmdline == Some(rel.template)
    requires e.goldens == GoldensFor(e.h, Some(rel.prefix), man, PredictPcr0(e.h, rel.version, rel.dtDigest))
    ensures HostPredicted(e, rel)
  {
  }

  function MeasuredText(pcr: nat -> Digest): Bytes {
    pcr(0) + pcr(1) + pcr(8) + pcr(9)
  }

  lemma {:induction false} NoDifference(a: seq<Bytes>)
    ensures FirstDifference(a, a) == Nothing
  {
    if a != [] { NoDifference(a[1..]); }
  }

  /** The weakness of the hash that a wrong conclusion from a passed round exhibits. */
  function PassFinding(e: Enrolled, rel: Release, slot: Slot, pcr: nat -> Digest,
                       events0: seq<Bytes>, events1: seq<Bytes>): Finding {
    Either(CollisionOf(MeasuredText(pcr), GoldenText(e.goldens, slot)),
      Either(EventsFinding(e.h, events0, BootEvents0(rel.version, rel.dtDigest)),
        EventsFinding(e.h, events1, BootEvents1(CommandLine(rel.prefix, rel.template, slot)))))
  }

  lemma QuoteMatchesSlot(e: Enrolled, q: Quote, slot: Slot, pcr: nat -> Digest)
    requires Bits(q.sel) == {0, 1, 8, 9} && QuotesPcrs(e.h, q, pcr) && SlotMatches(e, q.digest, slot)
    ensures MeasuredText(pcr) == GoldenText(e.goldens, slot)
            || Genuine(e.h, CollisionOf(MeasuredText(pcr), GoldenText(e.goldens, slot)))
    ensures MeasuredText(pcr) == GoldenText(e.goldens, slot) ==>
              pcr(0) == e.goldens.pcr0 && pcr(1) == GoldenPcr1(e.goldens, slot)
              && pcr(8) == e.goldens.pcr8 && pcr(9) == e.goldens.pcr9
  {
    assert 9 in Bits(q.sel);
    NothingSelectedAbove(pcr, 8 * |q.sel|);
    var m, g := MeasuredText(pcr), GoldenText(e.goldens, slot);
    assert m[..32] == pcr(0) && m[32..64] == pcr(1) && m[64..96] == pcr(8) && m[96..] == pcr(9);
    assert g[..32] == e.goldens.pcr0 && g[32..64] == GoldenPcr1(e.goldens, slot);
    assert g[64..96] == e.goldens.pcr8 && g[96..] == e.goldens.pcr9;
  }

  /** The slot a passed round names is one that the quote's digest matches, and the quote selects the wanted PCRs. */
  lemma PassNamesSlot(e: Enrolled, nonce: Bytes, ev: Evidence, last: Option<nat>, requireReboot: bool,
                      q: Quote, qRest: Bytes)
    requires Passed(Judge(e, nonce, ev, last, requireReboot)) && IsQuote(ev.quote, q, qRest)
    ensures Bits(q.sel) == {0, 1, 8, 9}
    ensures Judge(e, nonce, ev, last, requireReboot).slot.Some?
    ensures SlotMatches(e, q.digest, Judge(e, nonce, ev, last, requireReboot).slot.value)
  {
    hide PcrDigest, NvContents, SlotMatches, IsQuote, Bits;
    PcrSetElements();
    QuoteSelects(ev.quote, PCR_SET, q, qRest);
    QuoteDigest(ev.quote, q, qRest);
  }

  lemma QuoteDigest(m: Bytes, q: Quote, qRest: Bytes)
    requires IsQuote(m, q, qRest) && Bits(q.sel) == {0, 1, 8, 9}
    ensures PcrDigest(m, PCR_SET) == Parsed(QuoteResult(q))
  {
    hide PcrDigest, Bits, QuoteBytes;
    PcrSetElements();
    QuoteParses(q, qRest, PCR_SET);
  }

  /**
   A passed round with host-predicted goldens, a quote made by the TPM over its
   PCRs, and PCRs that arose by extends: the version string, the devicetree
   digest and the command line of the slot the verifier names are the ones that
   were measured, and PCR8 and PCR9 are golden, or PassFinding is genuine.
   */
  lemma PassPinsBoot(e: Enrolled, rel: Release, nonce: Bytes, ev: Evidence, last: Option<nat>, requireReboot: bool,
                     q: Quote, qRest: Bytes, pcr: nat -> Digest, events0: seq<Bytes>, events1: seq<Bytes>)
    requires HostPredicted(e, rel)
    requires Passed(Judge(e, nonce, ev, last, requireReboot))
    requires IsQuote(ev.quote, q, qRest) && QuotesPcrs(e.h, q, pcr)
    requires pcr(0) == Pcr(e.h, events0) && pcr(1) == Pcr(e.h, events1)
    ensures Judge(e, nonce, ev, last, requireReboot).slot.Some?
    ensures var slot := Judge(e, nonce, ev, last, requireReboot).slot.value;
            || Genuine(e.h, PassFinding(e, rel, slot, pcr, events0, events1))
            || (&& events0 == BootEvents0(rel.version, rel.dtDigest)
                && events1 == BootEvents1(CommandLine(rel.prefix, rel.template, slot))
                && pcr(8) == e.goldens.pcr8 && pcr(9) == e.goldens.pcr9)
  {
    hide Judge, MatchingSlot, MeasuredText, GoldenText, PredictPcr0, PredictPcr1, Pcr, IsQuote, Bits, SlotMatches,
      QuotesPcrs;
    PassNamesSlot(e, nonce, ev, last, requireReboot, q, qRest);
    var slot := Judge(e, nonce, ev, last, requireReboot).slot.value;
    QuoteMatchesSlot(e, q, slot, pcr);
    if MeasuredText(pcr) == GoldenText(e.goldens, slot) {
      PredictionPinsBoot(e.h, rel.version, rel.dtDigest, rel.prefix, rel.template, slot, events0, events1);
      NoDifference(events0);
      NoDifference(events1);
    }
  }

  /**
   Conversely a genuine board passes: goldens_for the release and the enrolled
   prefix, a board that measured that release from one of its slots, and evidence
   made from what it measured. The verifier names that slot, or slot B if both match.
   */
  lemma GenuineBoardPasses(e: Enrolled, nonce: Bytes, ev: Evidence, last: Option<nat>, requireReboot: bool,
                           q: Quote, qRest: Bytes, v: NvCertify, vRest: Bytes, pcr: nat -> Digest,
                           header: Bytes, raw: Bytes, rel: Release, man: ReleaseGoldens, slot: Slot)
    requires rel.prefix != [] && rel.template != [] && man.cmdline == Some(rel.template)
    requires e.goldens == GoldensFor(e.h, Some(rel.prefix), man, PredictPcr0(e.h, rel.version, rel.dtDigest))
    requires pcr(0) == Pcr(e.h, [rel.version + [0], rel.dtDigest, [0xff, 0xff, 0xff, 0xff]])
    requires pcr(1) == Pcr(e.h, [CommandLine(rel.prefix, rel.template, slot) + [0], [0xff, 0xff, 0xff, 0xff]])
    requires pcr(8) == man.pcr8 && pcr(9) == (if man.pcr9.Some? then man.pcr9.value else PCR9_NO_INITRD)
    requires ev.quoteSig == header + raw && |raw| == 256 && e.signed(ev.quote, raw) && e.signed(ev.cert, ev.certSig)
    requires IsQuote(ev.quote, q, qRest) && q.common.extra == nonce && Bits(q.sel) == {0, 1, 8, 9}
    requires QuotesPcrs(e.h, q, pcr)
    requires IsNvCertify(ev.cert, v, vRest) && v.common.extra == nonce && v.name == e.measName != []
    requires v.contents == Chain(e.h, [e.h(SelectedValues(Bits(q.sel), pcr, 8 * |q.sel|))])
    requires requireReboot ==> RestartShown(last, q.common.clock.resetCount)
    ensures Passed(Judge(e, nonce, ev, last, requireReboot))
    ensures Judge(e, nonce, ev, last, requireReboot).slot in {Some(slot), Some(B)}
  {
    GenuineDigest(e, q, pcr, rel, man, slot);
    var digest: Digest := q.digest;
    ChainStep(e.h, [], digest);
    assert [] + [digest] == [digest];
    RawSignature(header, raw);
    hide Judge, Bits, IsQuote, IsNvCertify, QuotesPcrs, GoldensFor, PredictPcr0, Pcr, Chain, Last256, SelectedValues;
    assert SlotMatches(e, q.digest, A) || SlotMatches(e, q.digest, B) by { if slot.A? {} else {} }
    ConvincingPasses(e, nonce, ev, last, requireReboot, q, qRest, v, vRest);
    PassNamesMatching(e, nonce, ev, last, requireReboot, q, qRest);
  }

  /** The manifest's own pair of PCR1 values is used when there is nothing to predict from, slot by slot. */
  lemma GoldensWithoutPrediction(h: HashFn, prefix: Option<Bytes>, man: ReleaseGoldens, pcr0: Digest, slot: Slot)
    requires prefix == None || prefix == Some([]) || man.cmdline == None || man.cmdline == Some([])
    ensures var g := GoldensFor(h, prefix, man, pcr0);
            && g.pcr0 == pcr0 && GoldenPcr1(g, slot) == (match slot case A => man.pcr1a case B => man.pcr1b)
            && g.pcr8 == man.pcr8 && (man.pcr9.Some? ==> g.pcr9 == man.pcr9.value)
  {
  }

  lemma GenuineDigest(e: Enrolled, q: Quote, pcr: nat -> Digest, rel: Release, man: ReleaseGoldens, slot: Slot)
    requires rel.prefix != [] && rel.template != [] && man.cmdline == Some(rel.template)
    requires e.goldens == GoldensFor(e.h, Some(rel.prefix), man, PredictPcr0(e.h, rel.version, rel.dtDigest))
    requires pcr(0) == Pcr(e.h, [rel.version + [0], rel.dtDigest, [0xff, 0xff, 0xff, 0xff]])
    requires pcr(1) == Pcr(e.h, [CommandLine(rel.prefix, rel.template, slot) + [0], [0xff, 0xff, 0xff, 0xff]])
    requires pcr(8) == man.pcr8 && pcr(9) == (if man.pcr9.Some? then man.pcr9.value else PCR9_NO_INITRD)
    requires Bits(q.sel) == {0, 1, 8, 9} && QuotesPcrs(e.h, q, pcr)
    ensures SlotMatches(e, q.digest, slot)
  {
    assert 9 in Bits(q.sel);
    PredictionsAreFolds(e.h, rel.version, rel.dtDigest, rel.prefix, rel.template, slot);
    hide Pcr, PredictPcr0, PredictPcr1, Bits, PCR9_NO_INITRD;
    NothingSelectedAbove(pcr, 8 * |q.sel|);
  }

  lemma PassNamesMatching(e: Enrolled, nonce: Bytes, ev: Evidence, last: Option<nat>, requireReboot: bool,
                          q: Quote, qRest: Bytes)
    requires Passed(Judge(e, nonce, ev, last, requireReboot)) && IsQuote(ev.quote, q, qRest)
    ensures var slot := Judge(e, nonce, ev, last, requireReboot).slot;
            slot == if SlotMatches(e, q.digest, B) then Some(B) else Some(A)
    ensures SlotMatches(e, q.digest, A) || SlotMatches(e, q.digest, B)
  {
    PassNamesSlot(e, nonce, ev, last, requireReboot, q, qRest);
    hide PcrDigest, NvContents, IsQuote, Bits, SlotMatches;
    QuoteDigest(ev.quote, q, qRest);
  }

  /** With different PCR1 goldens, one digest cannot match both slots. */
  lemma AtMostOneSlot(e: Enrolled, digest: Bytes)
    requires e.goldens.pcr1a != e.goldens.pcr1b
    requires SlotMatches(e, digest, A) && SlotMatches(e, digest, B)
    ensures Genuine(e.h, Collision(GoldenText(e.goldens, A), GoldenText(e.goldens, B)))
  {
    assert GoldenText(e.goldens, A)[32..64] == e.goldens.pcr1a;
    assert GoldenText(e.goldens, B)[32..64] == e.goldens.pcr1b;
  }

  /**
   Board binding: if the certified index holds what a sequence of extends left
   in it since the TPM restarted, then in a passed round that sequence is the
   quoted composite, once.
   */
  lemma PassPinsBootRecord(e: Enrolled, nonce: Bytes, ev: Evidence, last: Option<nat>, requireReboot: bool,
                           extended: seq<Digest>)
    requires Passed(Judge(e, nonce, ev, last, requireReboot))
    requires NvContents(ev.cert, e.measName).value.payload == Chain(e.h, extended)
    ensures var digest := PcrDigest(ev.quote, PCR_SET).value.payload;
            |digest| == 32 && (extended == [digest] || Genuine(e.h, ChainFinding(e.h, extended, [digest])))
  {
    var digest: Digest := PcrDigest(ev.quote, PCR_SET).value.payload;
    ChainStep(e.h, [], digest);
    assert [] + [digest] == [digest];
    ChainInjective(e.h, extended, [digest]);
  }

  // ------------------------------------------------------------ rounds in sequence

  datatype Request = Request(nonce: Bytes, ev: Evidence, requireReboot: bool, write: Write)

  /** The recorded count after a sequence of rounds. */
  function LastAfter(e: Enrolled, start: Option<nat>, rs: seq<Request>): Option<nat> {
    if rs == [] then start
    else
      var last := LastAfter(e, start, rs[..|rs| - 1]);
      var r := rs[|rs| - 1];
      Recorded(last, Judge(e, r.nonce, r.ev, last, r.requireReboot), r.write)
  }

  function RoundAt(e: Enrolled, start: Option<nat>, rs: seq<Request>, n: nat): Round
    requires n < |rs|
  {
    Judge(e, rs[n].nonce, rs[n].ev, LastAfter(e, start, rs[..n]), rs[n].requireReboot)
  }

  /** The reset count in the round's quote, if the blobs let the round get that far. */
  function Observed(e: Enrolled, r: Request): Option<nat> {
    var q := PcrDigest(r.ev.quote, PCR_SET);
    if e.measName != [] && q.Parsed? && !NvContents(r.ev.cert, e.measName).Crashed?
    then Some(q.value.clock.resetCount) else None
  }

  function LatestObserved(e: Enrolled, start: Option<nat>, rs: seq<Request>): Option<nat> {
    if rs == [] then start
    else
      var c := Observed(e, rs[|rs| - 1]);
      if c.Some? then c else LatestObserved(e, start, rs[..|rs| - 1])
  }

  ghost predicate AllWritten(rs: seq<Request>) {
    forall i :: 0 <= i < |rs| ==> rs[i].write == Written
  }

  /** The TPM's reset count never falls from one observed quote to a later one. */
  ghost predicate CountsNeverFall(e: Enrolled, rs: seq<Request>) {
    forall i, j :: 0 <= i <= j < |rs| && Observed(e, rs[i]).Some? && Observed(e, rs[j]).Some? ==>
      Observed(e, rs[i]).value <= Observed(e, rs[j]).value
  }

  /** What the state file says after a sequence of rounds: the count of the latest one whose write was not refused. */
  function LatestRecorded(e: Enrolled, start: Option<nat>, rs: seq<Request>): Option<nat> {
    if rs == [] then start
    else
      var r := rs[|rs| - 1];
      if Observed(e, r).None? || r.write == Refused then LatestRecorded(e, start, rs[..|rs| - 1])
      else if r.write == Written then Observed(e, r)
      else None
  }

  lemma {:induction false} RecordsLatest(e: Enrolled, start: Option<nat>, rs: seq<Request>)
    ensures LastAfter(e, start, rs) == LatestRecorded(e, start, rs)
    ensures AllWritten(rs) ==> LatestRecorded(e, start, rs) == LatestObserved(e, start, rs)
  {
    if rs != [] { RecordsLatest(e, start, rs[..|rs| - 1]); }
  }

  /**
   Passing with a required reboot: the count exceeds the last recorded one, even if
   that round failed, whatever became of the writes; and the last observed one if
   every write succeeded.
   */
  lemma {:induction false} PassExceedsRecorded(e: Enrolled, start: Option<nat>, rs: seq<Request>, n: nat)
    requires n < |rs| && rs[n].requireReboot && Passed(RoundAt(e, start, rs, n))
    ensures RoundAt(e, start, rs, n).count == Observed(e, rs[n]) && Observed(e, rs[n]).Some?
    ensures RestartShown(LatestRecorded(e, start, rs[..n]), Observed(e, rs[n]).value)
    ensures AllWritten(rs[..n]) ==> RestartShown(LatestObserved(e, start, rs[..n]), Observed(e, rs[n]).value)
  {
    RecordsLatest(e, start, rs[..n]);
  }

  lemma {:induction false} LatestIsHighest(e: Enrolled, start: Option<nat>, rs: seq<Request>, i: nat)
    requires CountsNeverFall(e, rs) && i < |rs| && Observed(e, rs[i]).Some?
    ensures LatestObserved(e, start, rs).Some?
    ensures Observed(e, rs[i]).value <= LatestObserved(e, start, rs).value
  {
    hide Observed;
    if Observed(e, rs[|rs| - 1]).None? {
      assert rs[..|rs| - 1][i] == rs[i];
      LatestIsHighest(e, start, rs[..|rs| - 1], i);
    }
  }

  /**
   With a TPM whose count never falls and with every record written, a pass with
   a required reboot exceeds every earlier observed count, so the board
   restarted after each of those quotes.
   */
  lemma {:induction false} PassExceedsAllEarlier(e: Enrolled, start: Option<nat>, rs: seq<Request>, n: nat, i: nat)
    requires i < n < |rs| && AllWritten(rs) && CountsNeverFall(e, rs)
    requires rs[n].requireReboot && Passed(RoundAt(e, start, rs, n))
    requires Observed(e, rs[i]).Some?
    ensures Observed(e, rs[n]).Some? && Observed(e, rs[n]).value > Observed(e, rs[i]).value
  {
    hide Observed, Judge, RoundAt, LatestRecorded, LatestObserved;
    PassExceedsRecorded(e, start, rs, n);
    assert rs[..n][i] == rs[i];
    LatestIsHighest(e, start, rs[..n], i);
  }
}
