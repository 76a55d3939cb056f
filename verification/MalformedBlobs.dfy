/**
 Blobs on which the parsers of attestation/attest-server.py neither return nor
 reject: they end inside a field that is read without a bounds check, and the
 exception that follows is not the one that the verifier catches.
 */
module MalformedBlobs {
  import opened ByteStrings
  import opened Bitmaps
  import opened Attestation
  import Verdict

  predicate IsAttest(m: Bytes, typ: nat) {
    |m| >= 6 && m[..4] == TPM_GENERATED && Value(m[4..6]) == typ
  }

  /** Where the byte after the length-prefixed field at o is, if that field is whole. */
  function FieldEnd(m: Bytes, o: nat): Option<nat> {
    if o + 2 <= |m| && o + 2 + Value(m[o..o + 2]) <= |m| then Some(o + 2 + Value(m[o..o + 2])) else None
  }

  /** The blob stops in the length of the field at o. */
  predicate StopsAt(m: Bytes, o: nat) { o <= |m| < o + 2 }

  /** Where the quote or NV information starts in a blob with a whole header. */
  function BodyStart(m: Bytes): Option<nat> {
    var signer := FieldEnd(m, 6);
    if signer.None? then None
    else
      var extra := FieldEnd(m, signer.value);
      if extra.Some? && extra.value + 25 <= |m| then Some(extra.value + 25) else None
  }

  predicate HeaderStops(m: Bytes) {
    StopsAt(m, 6) || (FieldEnd(m, 6).Some? && StopsAt(m, FieldEnd(m, 6).value))
  }

  predicate QuoteStops(m: Bytes, pcrs: seq<nat>) {
    IsAttest(m, ST_ATTEST_QUOTE)
    && (HeaderStops(m) || (BodyStart(m).Some? && SelectionStops(m, BodyStart(m).value, pcrs)))
  }

  /** Inside the count, the bank, the bitmap's size, or, after a right bitmap, the digest's length. */
  predicate SelectionStops(m: Bytes, o: nat, pcrs: seq<nat>)
    requires o <= |m|
  {
    || |m| < o + 4
    || (Value(m[o..o + 4]) == 1
        && (|m| < o + 6
            || (Value(m[o + 4..o + 6]) == ALG_SHA256
                && (|m| < o + 7
                    || (var end := o + 7 + m[o + 6];
                        end <= |m| && Bits(m[o + 7..end]) == (set p | p in pcrs) && StopsAt(m, end))))))
  }

  predicate NvStops(m: Bytes, name: Bytes) {
    IsAttest(m, ST_ATTEST_NV)
    && (HeaderStops(m) || (BodyStart(m).Some? && NvInfoStops(m, BodyStart(m).value, name)))
  }

  /** Inside the length of the Name or, after the right Name, the offset or the length of the contents. */
  predicate NvInfoStops(m: Bytes, o: nat, name: Bytes)
    requires o <= |m|
  {
    || StopsAt(m, o)
    || (FieldEnd(m, o).Some?
        && var end := FieldEnd(m, o).value;
           m[o + 2..end] == name != [] && |m| < end + 4)
  }

  lemma FieldReads(m: Bytes, o: nat)
    requires o <= |m|
    ensures ReadTpm2b(m[o..]) == Crashed <==> StopsAt(m, o)
    ensures ReadTpm2b(m[o..]).Parsed? <==> FieldEnd(m, o).Some?
    ensures FieldEnd(m, o).Some? ==>
              ReadTpm2b(m[o..]).value == (m[o + 2..FieldEnd(m, o).value], m[FieldEnd(m, o).value..])
  {
    if o + 2 <= |m| { assert m[o..][..2] == m[o..o + 2] && m[o..][2..] == m[o + 2..]; }
    if FieldEnd(m, o).Some? {
      var end := FieldEnd(m, o).value;
      assert m[o + 2..][..end - o - 2] == m[o + 2..end] && m[o + 2..][end - o - 2..] == m[end..];
    }
  }

  lemma ClockReads(m: Bytes, o: nat)
    requires o <= |m|
    ensures ParseClock(m[o..]).Parsed? <==> o + 25 <= |m|
    ensures ParseClock(m[o..]) != Crashed
    ensures o + 25 <= |m| ==> ParseClock(m[o..]).value.1 == m[o + 25..]
  {
    if o + 25 <= |m| { assert m[o..][25..] == m[o + 25..]; }
  }

  lemma HeaderReads(m: Bytes, typ: nat)
    ensures ParseAttest(m, typ) == Crashed <==> IsAttest(m, typ) && HeaderStops(m)
    ensures ParseAttest(m, typ).Parsed? <==> IsAttest(m, typ) && BodyStart(m).Some?
    ensures ParseAttest(m, typ).Parsed? ==> ParseAttest(m, typ).value.1 == m[BodyStart(m).value..]
  {
    hide ReadTpm2b, ParseClock, FieldEnd;
    if IsAttest(m, typ) {
      assert m[4..][..2] == m[4..6] && m[4..][2..] == m[6..];
      FieldReads(m, 6);
      if FieldEnd(m, 6).Some? {
        var a := EndInside(m, 6);
        FieldReads(m, a);
        if FieldEnd(m, a).Some? {
          var b := EndInside(m, a);
          ClockReads(m, b);
        }
      }
    } else if |m| >= 6 {
      assert m[4..][..2] == m[4..6];
    }
  }

  lemma EndInside(m: Bytes, o: nat) returns (end: nat)
    requires FieldEnd(m, o).Some?
    ensures end == FieldEnd(m, o).value && o + 2 <= end <= |m|
  {
    end := FieldEnd(m, o).value;
  }

  /** The bitmap and what follows it. */
  lemma BitmapReads(m: Bytes, o: nat, n: nat, pcrs: seq<nat>)
    requires o + n <= |m| && pcrs != []
    ensures m[o..][..n] == m[o..o + n] && m[o..][n..] == m[o + n..]
    ensures Rstrip(m[o..o + n]) == Rstrip(WantedMask(pcrs)) <==> Bits(m[o..o + n]) == set p | p in pcrs
  {
    WantedMaskSelects(pcrs);
    StrippedEqualIffSameBits(m[o..o + n], WantedMask(pcrs));
  }

  lemma SelectionReads(m: Bytes, o: nat, pcrs: seq<nat>)
    requires o <= |m| && pcrs != []
    ensures ParseQuoteInfo(m[o..], pcrs) == Crashed <==> SelectionStops(m, o, pcrs)
  {
    hide Rstrip, WantedMask, Bits, ReadTpm2b;
    var tail := m[o..];
    if o + 4 <= |m| {
      assert tail[..4] == m[o..o + 4] && tail[4..] == m[o + 4..];
    }
    if o + 6 <= |m| {
      assert m[o + 4..][..2] == m[o + 4..o + 6] && m[o + 4..][2..] == m[o + 6..];
    }
    if o + 7 <= |m| {
      assert m[o + 6..][0] == m[o + 6] && m[o + 6..][1..] == m[o + 7..];
      var n := m[o + 6];
      if o + 7 + n <= |m| {
        BitmapReads(m, o + 7, n, pcrs);
        FieldReads(m, o + 7 + n);
      }
    }
  }

  lemma NvInfoReads(m: Bytes, o: nat, name: Bytes)
    requires o <= |m|
    ensures ParseNvInfo(m[o..], name) == Crashed <==> NvInfoStops(m, o, name)
  {
    FieldReads(m, o);
    if FieldEnd(m, o).Some? {
      var end := FieldEnd(m, o).value;
      if end + 2 <= |m| {
        assert m[end..][2..] == m[end + 2..];
        FieldReads(m, end + 2);
      }
    }
  }

  /** pcr_digest crashes exactly on blobs that stop inside such a field after a right beginning. */
  lemma QuoteCrashExact(m: Bytes, pcrs: seq<nat>)
    requires pcrs != []
    ensures PcrDigest(m, pcrs) == Crashed <==> QuoteStops(m, pcrs)
  {
    HeaderReads(m, ST_ATTEST_QUOTE);
    if BodyStart(m).Some? { SelectionReads(m, BodyStart(m).value, pcrs); }
    hide ParseAttest, ParseQuoteInfo, SelectionStops;
  }

  lemma NvCrashExact(m: Bytes, name: Bytes)
    ensures NvContents(m, name) == Crashed <==> NvStops(m, name)
  {
    HeaderReads(m, ST_ATTEST_NV);
    if BodyStart(m).Some? { NvInfoReads(m, BodyStart(m).value, name); }
    hide ParseAttest, ParseNvInfo, NvInfoStops;
  }

  /** Six bytes, the magic and the type of a quote, already do it. */
  lemma MalformedBlobCrashes()
    ensures PcrDigest(TPM_GENERATED + U16(ST_ATTEST_QUOTE), Verdict.PCR_SET) == Crashed
  {
    var m := TPM_GENERATED + U16(ST_ATTEST_QUOTE);
    Pow256Values();
    ValueOfBigEndian(ST_ATTEST_QUOTE, 2);
    assert m[..4] == TPM_GENERATED && m[4..6] == U16(ST_ATTEST_QUOTE);
    QuoteCrashExact(m, Verdict.PCR_SET);
  }

  /** What remains true of the claim: such evidence ends the round, and nothing else but a missing Name does. */
  lemma CrashIsNeverAccepted(e: Verdict.Enrolled, nonce: Bytes, ev: Verdict.Evidence, last: Option<nat>,
                             requireReboot: bool)
    ensures Verdict.Judge(e, nonce, ev, last, requireReboot) == Verdict.Ended <==>
            e.measName == [] || QuoteStops(ev.quote, Verdict.PCR_SET) || NvStops(ev.cert, e.measName)
  {
    QuoteCrashExact(ev.quote, Verdict.PCR_SET);
    NvCrashExact(ev.cert, e.measName);
    hide PcrDigest, NvContents, QuoteStops, NvStops;
  }
}
