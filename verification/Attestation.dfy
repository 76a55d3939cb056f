/**
 TPMS_ATTEST blobs (TPM 2.0 Part 2, sections 10.11.1 and 10.12) and the
 parsers of attestation/attest-server.py. An offset into a blob is represented
 by the bytes that are still unread.

 A parser has three outcomes. AttestError is caught by the caller and makes the
 round fail (Rejected); struct.error and IndexError on short input are not
 caught and end the verifier (Crashed).
 */
module Attestation {
  import opened ByteStrings
  import opened Bitmaps

  datatype Outcome<+T> = Parsed(value: T) | Rejected | Crashed {
    predicate IsFailure() { !Parsed? }

    function PropagateFailure<U>(): Outcome<U>
      requires IsFailure()
    {
      if Rejected? then Rejected else Crashed
    }

    function Extract(): T
      requires !IsFailure()
    {
      value
    }
  }

  datatype ClockInfo = ClockInfo(clock: nat, resetCount: nat, restartCount: nat, safe: byte)

  const ST_ATTEST_NV: nat := 0x8014
  const ST_ATTEST_QUOTE: nat := 0x8018
  const ALG_SHA256: nat := 0x000B
  const TPM_GENERATED: Bytes := [0xff, 0x54, 0x43, 0x47]

  // ------------------------------------------------------------------ parsers

  function ReadU8(r: Bytes): Outcome<(nat, Bytes)> {
    if r == [] then Crashed else Parsed((r[0], r[1..]))
  }

  function ReadU16(r: Bytes): Outcome<(nat, Bytes)> {
    if |r| < 2 then Crashed else Parsed((Value(r[..2]), r[2..]))
  }

  function ReadU32(r: Bytes): Outcome<(nat, Bytes)> {
    if |r| < 4 then Crashed else Parsed((Value(r[..4]), r[4..]))
  }

  function ReadTpm2b(r: Bytes): Outcome<(Bytes, Bytes)> {
    var (n, r1) :- ReadU16(r);
    if n > |r1| then Rejected else Parsed((r1[..n], r1[n..]))
  }

  datatype Header = Header(extra: Bytes, clock: ClockInfo)

  function ParseClock(r: Bytes): Outcome<(ClockInfo, Bytes)> {
    if 17 + 8 > |r| then Rejected
    else Parsed((ClockInfo(Value(r[..8]), Value(r[8..12]), Value(r[12..16]), r[16]), r[25..]))
  }

  function ParseAttest(m: Bytes, expectedType: nat): Outcome<(Header, Bytes)> {
    if |m| < 6 then Rejected
    else if m[..4] != TPM_GENERATED then Rejected
    else
      var (typ, r0) :- ReadU16(m[4..]);
      if typ != expectedType then Rejected
      else
        var (_, r1) :- ReadTpm2b(r0);
        var (extra, r2) :- ReadTpm2b(r1);
        var (clock, tail) :- ParseClock(r2);
        Parsed((Header(extra, clock), tail))
  }

  datatype Certified = Certified(extra: Bytes, payload: Bytes, clock: ClockInfo)

  /** The body of TPMS_NV_CERTIFY_INFO. */
  function ParseNvInfo(tail: Bytes, expectedName: Bytes): Outcome<Bytes> {
    var (name, r1) :- ReadTpm2b(tail);
    if expectedName == [] then Rejected
    else if name != expectedName then Rejected
    else
      var (_, r2) :- ReadU16(r1);
      var (contents, _) :- ReadTpm2b(r2);
      Parsed(contents)
  }

  function NvContents(m: Bytes, expectedName: Bytes): Outcome<Certified> {
    var (header, tail) :- ParseAttest(m, ST_ATTEST_NV);
    var contents :- ParseNvInfo(tail, expectedName);
    Parsed(Certified(header.extra, contents, header.clock))
  }

  /** The count, bank and bitmap of a quote's single PCR selection. */
  function ParseSelection(tail: Bytes): Outcome<(Bytes, Bytes)> {
    var (count, r1) :- ReadU32(tail);
    if count != 1 then Rejected
    else
      var (alg, r2) :- ReadU16(r1);
      if alg != ALG_SHA256 then Rejected
      else
        var (n, r3) :- ReadU8(r2);
        if n > |r3| then Rejected else Parsed((r3[..n], r3[n..]))
  }

  /** The body of TPMS_QUOTE_INFO. */
  function ParseQuoteInfo(tail: Bytes, pcrs: seq<nat>): Outcome<Bytes>
    requires pcrs != []
  {
    var (sel, rest) :- ParseSelection(tail);
    if Rstrip(sel) != Rstrip(WantedMask(pcrs)) then Rejected
    else
      var (digest, _) :- ReadTpm2b(rest);
      Parsed(digest)
  }

  function PcrDigest(m: Bytes, pcrs: seq<nat>): Outcome<Certified>
    requires pcrs != []
  {
    var (header, tail) :- ParseAttest(m, ST_ATTEST_QUOTE);
    var digest :- ParseQuoteInfo(tail, pcrs);
    Parsed(Certified(header.extra, digest, header.clock))
  }

  /** pcr_digest, which fills the wanted bitmap in a loop after reading the selection. */
  method CheckQuote(m: Bytes, pcrs: seq<nat>) returns (r: Outcome<Certified>)
    requires pcrs != []
    ensures r == PcrDigest(m, pcrs)
  {
    var parsed := ParseAttest(m, ST_ATTEST_QUOTE);
    if parsed.IsFailure() { return parsed.PropagateFailure(); }
    var (header, tail) := parsed.value;
    var selection := ParseSelection(tail);
    if selection.IsFailure() { return selection.PropagateFailure(); }
    var (sel, rest) := selection.value;
    var want := BuildWanted(pcrs);
    if Rstrip(sel) != Rstrip(want) { return Rejected; }
    var digest := ReadTpm2b(rest);
    if digest.IsFailure() { return digest.PropagateFailure(); }
    r := Parsed(Certified(header.extra, digest.value.0, header.clock));
  }

  // ------------- the structures, as the TPM writes them: the numbers are the standard's own

  datatype Attested = Attested(signer: Bytes, extra: Bytes, clock: ClockInfo, firmware: Bytes)
  datatype Quote = Quote(common: Attested, sel: Bytes, digest: Bytes)
  datatype NvCertify = NvCertify(common: Attested, name: Bytes, offset: nat, contents: Bytes)

  predicate Fits2b(b: Bytes) { |b| < 0x1_0000 }

  predicate ClockFits(c: ClockInfo) {
    c.clock < 0x1_0000_0000_0000_0000 && c.resetCount < TWO32 && c.restartCount < TWO32
  }

  predicate CommonFits(a: Attested) {
    Fits2b(a.signer) && Fits2b(a.extra) && ClockFits(a.clock) && |a.firmware| == 8
  }

  predicate QuoteFits(q: Quote) {
    CommonFits(q.common) && |q.sel| < 0x100 && Fits2b(q.digest)
  }

  predicate NvFits(v: NvCertify) {
    CommonFits(v.common) && Fits2b(v.name) && v.offset < 0x1_0000 && Fits2b(v.contents)
  }

  function Tpm2b(b: Bytes): Bytes { U16(|b|) + b }

  function ClockBytes(c: ClockInfo, firmware: Bytes): Bytes {
    U64(c.clock) + U32(c.resetCount) + U32(c.restartCount) + [c.safe] + firmware
  }

  function CommonBytes(typ: nat, a: Attested): Bytes {
    [0xff, 0x54, 0x43, 0x47] + (U16(typ) + (Tpm2b(a.signer) + (Tpm2b(a.extra) + ClockBytes(a.clock, a.firmware))))
  }

  function SelectionBytes(sel: Bytes): Bytes
    requires |sel| < 0x100
  {
    U32(1) + (U16(0x000B) + ([|sel|] + sel))
  }

  function QuoteInfoBytes(sel: Bytes, digest: Bytes): Bytes
    requires |sel| < 0x100
  {
    SelectionBytes(sel) + Tpm2b(digest)
  }

  function NvInfoBytes(name: Bytes, offset: nat, contents: Bytes): Bytes {
    Tpm2b(name) + (U16(offset) + Tpm2b(contents))
  }

  function QuoteBytes(q: Quote): Bytes
    requires QuoteFits(q)
  {
    CommonBytes(0x8018, q.common) + QuoteInfoBytes(q.sel, q.digest)
  }

  function NvBytes(v: NvCertify): Bytes {
    CommonBytes(0x8014, v.common) + NvInfoBytes(v.name, v.offset, v.contents)
  }

  // ------------------------------------------------------ pieces, both directions

  lemma Regroup2(a: Bytes, b: Bytes, t: Bytes)
    ensures (a + b) + t == a + (b + t)
  {
  }

  lemma Regroup3(a: Bytes, b: Bytes, c: Bytes, t: Bytes)
    ensures (a + (b + c)) + t == a + (b + (c + t))
  {
    Regroup2(a, b + c, t);
    Regroup2(b, c, t);
  }

  lemma Regroup4(a: Bytes, b: Bytes, c: Bytes, d: Bytes, t: Bytes)
    ensures (a + (b + (c + d))) + t == a + (b + (c + (d + t)))
  {
    Regroup2(a, b + (c + d), t);
    Regroup3(b, c, d, t);
  }

  lemma Regroup5(a: Bytes, b: Bytes, c: Bytes, d: Bytes, e: Bytes, t: Bytes)
    ensures (a + (b + (c + (d + e)))) + t == a + (b + (c + (d + (e + t))))
  {
    Regroup2(a, b + (c + (d + e)), t);
    Regroup4(b, c, d, e, t);
  }

  lemma U16ThenRest(n: nat, rest: Bytes)
    requires n < 0x1_0000
    ensures ReadU16(U16(n) + rest) == Parsed((n, rest))
  {
    Pow256Values();
    ValueOfBigEndian(n, 2);
    assert (U16(n) + rest)[..2] == U16(n) && (U16(n) + rest)[2..] == rest;
  }

  lemma U16Reads(r: Bytes)
    requires ReadU16(r).Parsed?
    ensures var (n, rest) := ReadU16(r).value; n < 0x1_0000 && r == U16(n) + rest && rest == r[2..]
  {
    Pow256Values();
    BigEndianOfValue(r[..2]);
    assert r == r[..2] + r[2..];
  }

  lemma U32ThenRest(n: nat, rest: Bytes)
    requires n < TWO32
    ensures ReadU32(U32(n) + rest) == Parsed((n, rest))
  {
    U32RoundTrip(n);
    assert (U32(n) + rest)[..4] == U32(n) && (U32(n) + rest)[4..] == rest;
  }

  lemma U32Reads(r: Bytes)
    requires ReadU32(r).Parsed?
    ensures var (n, rest) := ReadU32(r).value; n < TWO32 && r == U32(n) + rest
  {
    Pow256Values();
    BigEndianOfValue(r[..4]);
    assert r == r[..4] + r[4..];
  }

  lemma Tpm2bThenRest(b: Bytes, rest: Bytes)
    requires Fits2b(b)
    ensures ReadTpm2b(Tpm2b(b) + rest) == Parsed((b, rest))
  {
    U16ThenRest(|b|, b + rest);
    hide ReadU16, U16;
    assert Tpm2b(b) + rest == U16(|b|) + (b + rest);
    assert (b + rest)[..|b|] == b && (b + rest)[|b|..] == rest;
  }

  lemma Tpm2bReads(r: Bytes)
    requires ReadTpm2b(r).Parsed?
    ensures var (b, rest) := ReadTpm2b(r).value; Fits2b(b) && r == Tpm2b(b) + rest
  {
    U16Reads(r);
    hide ReadU16, U16;
    var (b, rest) := ReadTpm2b(r).value;
    assert ReadU16(r).value.1 == b + rest;
  }

  lemma ClockThenRest(c: ClockInfo, firmware: Bytes, rest: Bytes)
    requires ClockFits(c) && |firmware| == 8
    ensures ParseClock(ClockBytes(c, firmware) + rest) == Parsed((c, rest))
  {
    Pow256Values();
    ValueOfBigEndian(c.clock, 8);
    ValueOfBigEndian(c.resetCount, 4);
    ValueOfBigEndian(c.restartCount, 4);
    var r := ClockBytes(c, firmware) + rest;
    assert r[..8] == U64(c.clock);
    assert r[8..12] == U32(c.resetCount);
    assert r[12..16] == U32(c.restartCount);
    assert r[25..] == rest;
  }

  lemma ClockReads(r: Bytes)
    requires ParseClock(r).Parsed?
    ensures var (c, rest) := ParseClock(r).value; ClockFits(c) && r == ClockBytes(c, r[17..25]) + rest
  {
    Pow256Values();
    BigEndianOfValue(r[..8]);
    BigEndianOfValue(r[8..12]);
    BigEndianOfValue(r[12..16]);
    assert r == r[..8] + r[8..12] + r[12..16] + [r[16]] + r[17..25] + r[25..];
  }

  lemma CommonThenRest(typ: nat, a: Attested, rest: Bytes)
    requires typ < 0x1_0000 && CommonFits(a)
    ensures ParseAttest(CommonBytes(typ, a) + rest, typ) == Parsed((Header(a.extra, a.clock), rest))
  {
    var clock := ClockBytes(a.clock, a.firmware) + rest;
    var r1 := Tpm2b(a.extra) + clock;
    var r0 := Tpm2b(a.signer) + r1;
    var m := TPM_GENERATED + (U16(typ) + r0);
    U16ThenRest(typ, r0);
    Tpm2bThenRest(a.signer, r1);
    Tpm2bThenRest(a.extra, clock);
    ClockThenRest(a.clock, a.firmware, rest);
    hide ReadU16, U16, Tpm2b, ReadTpm2b, ClockBytes, ParseClock;
    Regroup5(TPM_GENERATED, U16(typ), Tpm2b(a.signer), Tpm2b(a.extra), ClockBytes(a.clock, a.firmware), rest);
    assert m[..4] == TPM_GENERATED && m[4..] == U16(typ) + r0;
  }

  lemma MagicReads(m: Bytes, typ: nat)
    requires ParseAttest(m, typ).Parsed?
    ensures typ < 0x1_0000 && m == TPM_GENERATED + (U16(typ) + m[6..])
  {
    Pow256Values();
    BigEndianOfValue(m[4..][..2]);
    assert m == m[..4] + (m[4..][..2] + m[6..]);
  }

  lemma CommonReads(m: Bytes, typ: nat) returns (a: Attested)
    requires ParseAttest(m, typ).Parsed?
    ensures CommonFits(a)
    ensures var (header, tail) := ParseAttest(m, typ).value;
            header == Header(a.extra, a.clock) && m == CommonBytes(typ, a) + tail
  {
    MagicReads(m, typ);
    hide Value, BigEndian, Pow256, ClockBytes, Tpm2b, ReadTpm2b, ParseClock;
    var r0 := m[6..];
    assert m[4..][2..] == r0;
    var (signer, r1) := ReadTpm2b(r0).value;
    var (extra, r2) := ReadTpm2b(r1).value;
    var (clock, tail) := ParseClock(r2).value;
    Tpm2bReads(r0);
    Tpm2bReads(r1);
    ClockReads(r2);
    ClockLength(r2);
    a := Attested(signer, extra, clock, r2[17..25]);
    Regroup5(TPM_GENERATED, U16(typ), Tpm2b(signer), Tpm2b(extra), ClockBytes(clock, a.firmware), tail);
  }

  lemma ClockLength(r: Bytes)
    requires ParseClock(r).Parsed?
    ensures |r| >= 25
  {
  }

  lemma SelectionThenRest(sel: Bytes, rest: Bytes)
    requires |sel| < 0x100
    ensures ParseSelection(SelectionBytes(sel) + rest) == Parsed((sel, rest))
  {
    var r3 := sel + rest;
    var r2 := [|sel|] + r3;
    var r1 := U16(ALG_SHA256) + r2;
    U32ThenRest(1, r1);
    U16ThenRest(ALG_SHA256, r2);
    hide ReadU16, ReadU32, U16, U32;
    Regroup4(U32(1), U16(ALG_SHA256), [|sel|], sel, rest);
    assert r2[1..] == r3;
    assert r3[..|sel|] == sel && r3[|sel|..] == rest;
  }

  lemma SelectionReads(r: Bytes)
    requires ParseSelection(r).Parsed?
    ensures var (sel, rest) := ParseSelection(r).value; |sel| < 0x100 && r == SelectionBytes(sel) + rest
  {
    U32Reads(r);
    var r1 := ReadU32(r).value.1;
    U16Reads(r1);
    hide ReadU16, ReadU32, U16, U32;
    var r2 := ReadU16(r1).value.1;
    var (sel, rest) := ParseSelection(r).value;
    assert r2[1..] == sel + rest;
    assert r2 == [|sel|] + r2[1..];
    Regroup4(U32(1), U16(ALG_SHA256), [|sel|], sel, rest);
  }

  lemma QuoteInfoThenRest(sel: Bytes, digest: Bytes, rest: Bytes, pcrs: seq<nat>)
    requires |sel| < 0x100 && Fits2b(digest)
    requires pcrs != [] && Bits(sel) == set p | p in pcrs
    ensures ParseQuoteInfo(QuoteInfoBytes(sel, digest) + rest, pcrs) == Parsed(digest)
  {
    SelectionThenRest(sel, Tpm2b(digest) + rest);
    Tpm2bThenRest(digest, rest);
    WantedMaskSelects(pcrs);
    StrippedEqualIffSameBits(sel, WantedMask(pcrs));
    hide SelectionBytes, Tpm2b, ReadTpm2b, ParseSelection, WantedMask, Rstrip, Bits;
    Regroup2(SelectionBytes(sel), Tpm2b(digest), rest);
  }

  lemma QuoteInfoReads(tail: Bytes, pcrs: seq<nat>) returns (sel: Bytes, trailing: Bytes)
    requires pcrs != [] && ParseQuoteInfo(tail, pcrs).Parsed?
    ensures |sel| < 0x100 && Bits(sel) == set p | p in pcrs
    ensures var digest := ParseQuoteInfo(tail, pcrs).value;
            Fits2b(digest) && tail == QuoteInfoBytes(sel, digest) + trailing
  {
    SelectionReads(tail);
    var rest;
    sel, rest := ParseSelection(tail).value.0, ParseSelection(tail).value.1;
    Tpm2bReads(rest);
    WantedMaskSelects(pcrs);
    StrippedEqualIffSameBits(sel, WantedMask(pcrs));
    hide SelectionBytes, Tpm2b, ReadTpm2b, ParseSelection, WantedMask, Rstrip, Bits;
    trailing := ReadTpm2b(rest).value.1;
    Regroup2(SelectionBytes(sel), Tpm2b(ParseQuoteInfo(tail, pcrs).value), trailing);
  }

  lemma NvInfoThenRest(name: Bytes, offset: nat, contents: Bytes, rest: Bytes)
    requires Fits2b(name) && name != [] && offset < 0x1_0000 && Fits2b(contents)
    ensures ParseNvInfo(NvInfoBytes(name, offset, contents) + rest, name) == Parsed(contents)
  {
    var r2 := Tpm2b(contents) + rest;
    var r1 := U16(offset) + r2;
    Tpm2bThenRest(name, r1);
    U16ThenRest(offset, r2);
    Tpm2bThenRest(contents, rest);
    hide ReadU16, U16, Tpm2b, ReadTpm2b;
    Regroup3(Tpm2b(name), U16(offset), Tpm2b(contents), rest);
  }

  lemma NvInfoReads(tail: Bytes, name: Bytes) returns (offset: nat, trailing: Bytes)
    requires ParseNvInfo(tail, name).Parsed?
    ensures Fits2b(name) && name != [] && offset < 0x1_0000
    ensures var contents := ParseNvInfo(tail, name).value;
            Fits2b(contents) && tail == NvInfoBytes(name, offset, contents) + trailing
  {
    Tpm2bReads(tail);
    var r1 := ReadTpm2b(tail).value.1;
    U16Reads(r1);
    var r2 := ReadU16(r1).value.1;
    Tpm2bReads(r2);
    hide ReadU16, U16, Tpm2b, ReadTpm2b;
    var contents := ParseNvInfo(tail, name).value;
    offset, trailing := ReadU16(r1).value.0, ReadTpm2b(r2).value.1;
    Regroup3(Tpm2b(name), U16(offset), Tpm2b(contents), trailing);
  }

  // ------------------------------------------------------------------ exactness

  ghost predicate IsQuote(m: Bytes, q: Quote, trailing: Bytes) {
    QuoteFits(q) && m == QuoteBytes(q) + trailing
  }

  ghost predicate IsNvCertify(m: Bytes, v: NvCertify, trailing: Bytes) {
    NvFits(v) && m == NvBytes(v) + trailing
  }

  function QuoteResult(q: Quote): Certified { Certified(q.common.extra, q.digest, q.common.clock) }

  function NvResult(v: NvCertify): Certified { Certified(v.common.extra, v.contents, v.common.clock) }

  lemma QuoteParses(q: Quote, trailing: Bytes, pcrs: seq<nat>)
    requires QuoteFits(q) && pcrs != [] && Bits(q.sel) == set p | p in pcrs
    ensures PcrDigest(QuoteBytes(q) + trailing, pcrs) == Parsed(QuoteResult(q))
  {
    var tail := QuoteInfoBytes(q.sel, q.digest) + trailing;
    CommonThenRest(ST_ATTEST_QUOTE, q.common, tail);
    QuoteInfoThenRest(q.sel, q.digest, trailing, pcrs);
    hide CommonBytes, QuoteInfoBytes, ParseAttest, ParseQuoteInfo;
    Regroup2(CommonBytes(ST_ATTEST_QUOTE, q.common), QuoteInfoBytes(q.sel, q.digest), trailing);
  }

  lemma QuoteAccepted(m: Bytes, pcrs: seq<nat>) returns (q: Quote, trailing: Bytes)
    requires pcrs != [] && PcrDigest(m, pcrs).Parsed?
    ensures IsQuote(m, q, trailing) && Bits(q.sel) == set p | p in pcrs
    ensures PcrDigest(m, pcrs).value == QuoteResult(q)
  {
    var common := CommonReads(m, ST_ATTEST_QUOTE);
    var tail := ParseAttest(m, ST_ATTEST_QUOTE).value.1;
    var sel, rest := QuoteInfoReads(tail, pcrs);
    q, trailing := Quote(common, sel, ParseQuoteInfo(tail, pcrs).value), rest;
    hide CommonBytes, QuoteInfoBytes, ParseAttest, ParseQuoteInfo;
    Regroup2(CommonBytes(ST_ATTEST_QUOTE, common), QuoteInfoBytes(sel, q.digest), trailing);
  }

  /** The selection of an accepted quote is the wanted one, whichever way the blob is read as a quote. */
  lemma QuoteSelects(m: Bytes, pcrs: seq<nat>, q: Quote, trailing: Bytes)
    requires pcrs != [] && PcrDigest(m, pcrs).Parsed? && IsQuote(m, q, trailing)
    ensures Bits(q.sel) == set p | p in pcrs
  {
    var rest := Tpm2b(q.digest) + trailing;
    var tail := QuoteInfoBytes(q.sel, q.digest) + trailing;
    CommonThenRest(ST_ATTEST_QUOTE, q.common, tail);
    SelectionThenRest(q.sel, rest);
    WantedMaskSelects(pcrs);
    StrippedEqualIffSameBits(q.sel, WantedMask(pcrs));
    hide CommonBytes, SelectionBytes, Tpm2b, ParseAttest, ParseSelection, Bits, Rstrip, WantedMask, ReadTpm2b;
    Regroup2(CommonBytes(ST_ATTEST_QUOTE, q.common), QuoteInfoBytes(q.sel, q.digest), trailing);
    Regroup2(SelectionBytes(q.sel), Tpm2b(q.digest), trailing);
  }

  /** pcr_digest accepts exactly the quotes over the wanted PCRs, and returns their fields. */
  lemma PcrDigestExact(m: Bytes, pcrs: seq<nat>, c: Certified)
    requires pcrs != []
    ensures PcrDigest(m, pcrs) == Parsed(c) <==>
            exists q, trailing :: IsQuote(m, q, trailing) && Bits(q.sel) == (set p | p in pcrs) && c == QuoteResult(q)
  {
    if PcrDigest(m, pcrs) == Parsed(c) {
      var q, trailing := QuoteAccepted(m, pcrs);
    }
    forall q, trailing | IsQuote(m, q, trailing) && Bits(q.sel) == (set p | p in pcrs)
      ensures PcrDigest(m, pcrs) == Parsed(QuoteResult(q))
    {
      QuoteParses(q, trailing, pcrs);
    }
  }

  lemma NvParses(v: NvCertify, trailing: Bytes)
    requires NvFits(v) && v.name != []
    ensures NvContents(NvBytes(v) + trailing, v.name) == Parsed(NvResult(v))
  {
    var tail := NvInfoBytes(v.name, v.offset, v.contents) + trailing;
    CommonThenRest(ST_ATTEST_NV, v.common, tail);
    NvInfoThenRest(v.name, v.offset, v.contents, trailing);
    hide CommonBytes, NvInfoBytes, ParseAttest, ParseNvInfo;
    Regroup2(CommonBytes(ST_ATTEST_NV, v.common), NvInfoBytes(v.name, v.offset, v.contents), trailing);
  }

  lemma NvAccepted(m: Bytes, name: Bytes) returns (v: NvCertify, trailing: Bytes)
    requires NvContents(m, name).Parsed?
    ensures IsNvCertify(m, v, trailing) && v.name == name != []
    ensures NvContents(m, name).value == NvResult(v)
  {
    var common := CommonReads(m, ST_ATTEST_NV);
    var tail := ParseAttest(m, ST_ATTEST_NV).value.1;
    var offset, rest := NvInfoReads(tail, name);
    v, trailing := NvCertify(common, name, offset, ParseNvInfo(tail, name).value), rest;
    hide CommonBytes, NvInfoBytes, ParseAttest, ParseNvInfo;
    Regroup2(CommonBytes(ST_ATTEST_NV, common), NvInfoBytes(name, offset, v.contents), trailing);
  }

  /** A certificate is accepted for one expected Name only. */
  lemma OneName(m: Bytes, a: Bytes, b: Bytes)
    requires NvContents(m, a).Parsed? && NvContents(m, b).Parsed?
    ensures a == b
  {
    hide ParseAttest, ReadTpm2b;
  }

  /** nv_contents accepts exactly the certificates of the index with the enrolled Name. */
  lemma NvContentsExact(m: Bytes, name: Bytes, c: Certified)
    ensures NvContents(m, name) == Parsed(c) <==>
            name != [] && exists v, trailing :: IsNvCertify(m, v, trailing) && v.name == name && c == NvResult(v)
  {
    if NvContents(m, name) == Parsed(c) {
      var v, trailing := NvAccepted(m, name);
    }
    if name != [] {
      forall v, trailing | IsNvCertify(m, v, trailing) && v.name == name
        ensures NvContents(m, name) == Parsed(NvResult(v))
      {
        NvParses(v, trailing);
      }
    }
  }

  /** No blob passes for both a quote and an NV certificate. */
  lemma NoTypeConfusion(m: Bytes, pcrs: seq<nat>, name: Bytes)
    requires pcrs != []
    ensures !(PcrDigest(m, pcrs).Parsed? && NvContents(m, name).Parsed?)
  {
  }
}
