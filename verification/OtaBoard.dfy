/**
 The device side of an update: file loops, the staging half (agents/rp5-ota)
 and the privileged half (agents/rp5-ota-priv), on the board's storage.
 */
module OtaBoard {
  import opened ByteStrings
  import opened Hashing
  import opened Autoboot

  // -------------------------------------------------------------------- storage

  /** The files of a boot partition; autoboot.txt is only read from the first one. */
  datatype BootFs = BootFs(img: Bytes, sig: Bytes, autoboot: string, draft: string)

  /** /dev/mmcblk0p1 to p4. */
  datatype Disk = Disk(p1: BootFs, p2: BootFs, p3: Bytes, p4: Bytes)

  predicate IsPair(pair: int) { pair == 1 || pair == 2 }

  function BootOf(d: Disk, pair: int): BootFs
    requires IsPair(pair)
  {
    if pair == 1 then d.p1 else d.p2
  }

  function RootOf(d: Disk, pair: int): Bytes
    requires IsPair(pair)
  {
    if pair == 1 then d.p3 else d.p4
  }

  /** Only the image, the signature and the root slot of the pair may differ. */
  predicate OnlyPair(d: Disk, d': Disk, pair: int)
    requires IsPair(pair)
  {
    && BootOf(d', Other(pair)) == BootOf(d, Other(pair)) && RootOf(d', Other(pair)) == RootOf(d, Other(pair))
    && BootOf(d', pair).autoboot == BootOf(d, pair).autoboot
    && BootOf(d', pair).draft == BootOf(d, pair).draft
  }

  /** The two states write_autoboot leaves behind: the draft is complete; the draft has replaced the file. */
  function Drafted(d: Disk, committed: int): Disk
    requires IsPair(committed)
  {
    d.(p1 := d.p1.(draft := AutobootText(committed)))
  }

  function Rewritten(d: Disk, committed: int): Disk
    requires IsPair(committed)
  {
    d.(p1 := d.p1.(autoboot := AutobootText(committed), draft := ""))
  }

  // ------------------------------------------------------------------ file loops

  class Hasher {
    const h: HashFn
    var fed: Bytes

    constructor (h: HashFn)
      ensures this.h == h && fed == []
    {
      this.h := h;
      fed := [];
    }

    method Update(chunk: Bytes)
      modifies this
      ensures fed == old(fed) + chunk
    {
      fed := fed + chunk;
    }

    method Finish() returns (d: Digest)
      ensures d == h(fed)
    {
      d := h(fed);
    }
  }

  function Least(a: nat, b: nat): nat { if a < b then a else b }

  function Limited(content: Bytes, limit: Option<nat>): Bytes {
    content[..if limit.None? then |content| else Least(limit.value, |content|)]
  }

  /** sha256_file: chunked hashing of the first `limit` bytes, or of everything. */
  method Sha256File(h: HashFn, content: Bytes, limit: Option<nat>, bs: nat) returns (d: Digest)
    requires bs > 0
    ensures d == h(Limited(content, limit))
  {
    var hasher := new Hasher(h);
    var n := 0;
    var reading := true;
    while reading
      invariant 0 <= n <= |content| && (limit.Some? ==> n <= limit.value)
      invariant hasher.h == h && hasher.fed == content[..n]
      invariant !reading ==> content[..n] == Limited(content, limit)
      decreases reading, |content| - n
    {
      var want := if limit.None? then bs else Least(bs, limit.value - n);
      var chunk := content[n..Least(n + want, |content|)];
      if chunk == [] {
        reading := false;
      } else {
        hasher.Update(chunk);
        assert content[..n] + chunk == content[..n + |chunk|];
        n := n + |chunk|;
        if limit.Some? && n >= limit.value { reading := false; }
      }
    }
    d := hasher.Finish();
  }

  /** How far dd gets from n: whole chunks until `size` is reached or the source ends. */
  function DdEnd(n: nat, length: nat, size: nat, bs: nat): nat
    requires bs > 0 && n <= length
    decreases length - n
  {
    if n >= size || n == length then n else DdEnd(Least(n + bs, length), length, size, bs)
  }

  /** dd copies at least min(size, length) bytes, less than one chunk more than size, and all of a source of that size. */
  lemma {:induction false} DdEndBounds(n: nat, length: nat, size: nat, bs: nat)
    requires bs > 0 && n <= length && n < size + bs
    ensures Least(size, length) <= DdEnd(n, length, size, bs) <= length
    ensures n <= DdEnd(n, length, size, bs) < size + bs
    decreases length - n
  {
    if n < size && n < length { DdEndBounds(Least(n + bs, length), length, size, bs); }
  }

  function Overlay(src: Bytes, n: nat, before: Bytes): Bytes
    requires n <= |src| && n <= |before|
  {
    src[..n] + before[n..]
  }

  lemma OverlayEnds(src: Bytes, before: Bytes)
    ensures Overlay(src, 0, before) == before
    ensures |before| <= |src| ==> Overlay(src, |before|, before) == src[..|before|]
  {
  }

  lemma OverlayIs(src: Bytes, n: nat, before: Bytes)
    requires n <= |src| && n <= |before|
    ensures Overlay(src, n, before) == src[..n] + before[n..]
  {
  }

  /** Writes the next chunk of the source into the device, in place. */
  method WriteChunk(src: Bytes, dev: array<byte>, n: nat, k: nat, ghost before: Bytes)
    requires n <= k <= |src| && k <= dev.Length == |before| && dev[..] == Overlay(src, n, before)
    modifies dev
    ensures dev[..] == Overlay(src, k, before)
  {
    forall i | n <= i < k { dev[i] := src[i]; }
  }

  /**
   Copies a file to a block device in place. ok is false when the device is too
   small; `trace` lists the contents of the device after every write.
   */
  method Dd(src: Bytes, dev: array<byte>, size: nat, bs: nat) returns (n: nat, ok: bool, ghost trace: seq<Bytes>)
    requires bs > 0
    modifies dev
    ensures ok <==> DdEnd(0, |src|, size, bs) <= dev.Length
    ensures ok ==> n == DdEnd(0, |src|, size, bs) && n <= |src| && dev[..] == src[..n] + old(dev[..])[n..]
    ensures !ok ==> dev.Length <= |src| && dev[..] == src[..dev.Length]
    ensures forall i :: 0 <= i < |trace| ==> |trace[i]| == dev.Length
    ensures if trace == [] then dev[..] == old(dev[..]) else trace[|trace| - 1] == dev[..]
  {
    hide Overlay;
    ghost var before := dev[..];
    OverlayEnds(src, before);
    trace := [];
    n := 0;
    while n < size
      invariant n <= |src| && n <= dev.Length
      invariant DdEnd(n, |src|, size, bs) == DdEnd(0, |src|, size, bs)
      invariant dev[..] == Overlay(src, n, before)
      invariant forall i :: 0 <= i < |trace| ==> |trace[i]| == dev.Length
      invariant if trace == [] then dev[..] == before else trace[|trace| - 1] == dev[..]
      decreases |src| - n
    {
      var chunk := src[n..Least(n + bs, |src|)];
      if chunk == [] { break; }
      var k := n + |chunk|;
      DdEndGrows(k, |src|, size, bs);
      if k > dev.Length {
        WriteChunk(src, dev, n, dev.Length, before);
        trace := trace + [dev[..]];
        ok := false;
        return;
      }
      WriteChunk(src, dev, n, k, before);
      trace := trace + [dev[..]];
      n := k;
    }
    ok := true;
    OverlayIs(src, n, before);
  }

  /** Exactly: as many whole chunks as it takes to reach size, or the whole source. */
  lemma {:induction false} DdEndExact(k: nat, length: nat, size: nat, bs: nat)
    requires bs > 0 && k * bs <= length && (k == 0 || (k - 1) * bs < size)
    ensures DdEnd(k * bs, length, size, bs) == length < size
            || exists m: nat :: size <= m * bs && (m == 0 || (m - 1) * bs < size)
                                && DdEnd(k * bs, length, size, bs) == Least(m * bs, length)
    decreases length - k * bs
  {
    if k * bs >= size {
      assert DdEnd(k * bs, length, size, bs) == Least(k * bs, length);
    } else if k * bs < length {
      assert (k + 1) * bs == k * bs + bs;
      if (k + 1) * bs <= length {
        DdEndExact(k + 1, length, size, bs);
      } else if length >= size {
        assert DdEnd(k * bs, length, size, bs) == length == Least((k + 1) * bs, length);
      }
    }
  }

  lemma {:induction false} DdEndGrows(n: nat, length: nat, size: nat, bs: nat)
    requires bs > 0 && n <= length
    ensures n <= DdEnd(n, length, size, bs) <= length
    decreases length - n
  {
    if n < size && n < length { DdEndGrows(Least(n + bs, length), length, size, bs); }
  }

  // --------------------------------------------------------------- the environment

  datatype Manifest = Manifest(version: Option<int>, sha256: map<string, Digest>, factory: bool)

  /**
   What the code cannot see: the hash, the JSON reader, and the firmware's and
   the kernel's judgement of a boot image and a root slot.
   */
  datatype Env = Env(h: HashFn, manifest: Bytes -> Option<Manifest>, signed: (Bytes, Bytes) -> bool,
                     rootMatches: (Bytes, Bytes) -> bool, version: Bytes -> nat)

  /** What the storage gives back for what was written; the identity on good media. */
  datatype Medium = Medium(root: Bytes -> Bytes, file: Bytes -> Bytes)

  /** Fail is a refusal; any other exception is an internal error. Both are negative replies. */
  datatype Reply<+T> = Done(value: T) | Refused | Error

  datatype Reboot = Trial | Plain

  const MANIFEST_NAME: string := "MANIFEST.json"
  const BOOT_IMG: string := "boot.img"
  const BOOT_SIG: string := "boot.sig"
  const ROOT_IMG: string := "rootfs.img"
  const CHUNK: nat := 0x10_0000
  const DD_CHUNK: nat := 0x40_0000

  type Staging = map<string, Bytes>

  /** The pair holds exactly what the manifest promises; the root slot may be longer than the image. */
  predicate MatchesManifest(h: HashFn, d: Disk, pair: int, man: Manifest, rootSize: nat)
    requires IsPair(pair)
  {
    && BOOT_IMG in man.sha256 && BOOT_SIG in man.sha256 && ROOT_IMG in man.sha256
    && h(BootOf(d, pair).img) == man.sha256[BOOT_IMG]
    && h(BootOf(d, pair).sig) == man.sha256[BOOT_SIG]
    && rootSize <= |RootOf(d, pair)| && h(RootOf(d, pair)[..rootSize]) == man.sha256[ROOT_IMG]
  }

  /** The image fits the slot and what the medium keeps of it reads back with the wanted digest. */
  predicate RootVerifies(h: HashFn, image: Bytes, want: Digest, slot: Bytes, medium: Medium) {
    && |image| <= |slot|
    && h(Kept(medium, Overlay(image, |image|, slot))[..|image|]) == want
  }

  predicate FileVerifies(h: HashFn, staging: Staging, man: Manifest, name: string, medium: Medium) {
    name in staging && name in man.sha256 && h(medium.file(staging[name])) == man.sha256[name]
  }

  /** The target pair after an install that succeeded. */
  function Installed(d: Disk, pair: int, staging: Staging, medium: Medium): Disk
    requires IsPair(pair) && BOOT_IMG in staging && BOOT_SIG in staging && ROOT_IMG in staging
    requires |staging[ROOT_IMG]| <= |RootOf(d, pair)|
  {
    var image := staging[ROOT_IMG];
    var root := Kept(medium, Overlay(image, |image|, RootOf(d, pair)));
    var boot := BootOf(d, pair).(img := medium.file(staging[BOOT_IMG]), sig := medium.file(staging[BOOT_SIG]));
    if pair == 1 then d.(p1 := boot, p3 := root) else d.(p2 := boot, p4 := root)
  }

  function WithFile(b: BootFs, isImg: bool, data: Bytes): BootFs {
    if isImg then b.(img := data) else b.(sig := data)
  }

  /** What a block device holds after `data` was written to it. */
  function Kept(medium: Medium, data: Bytes): (kept: Bytes)
    ensures |kept| == |data|
  {
    if |medium.root(data)| == |data| then medium.root(data) else data
  }

  function FileOf(b: BootFs, isImg: bool): Bytes {
    if isImg then b.img else b.sig
  }

  lemma OnlyPairRefl(d: Disk, pair: int)
    requires IsPair(pair)
    ensures OnlyPair(d, d, pair)
  {
  }

  /** The board during one boot session; the firmware's report does not change within it. */
  class Board {
    const env: Env
    const partition: int
    const trying: bool
    const counter: Option<nat>
    const p3: array<byte>
    const p4: array<byte>
    var p1: BootFs
    var p2: BootFs
    var pending: set<Reboot>
    /** Every state of the storage since the session began: where a power loss can leave it. */
    ghost var disks: seq<Disk>

    constructor (env: Env, partition: int, trying: bool, counter: Option<nat>,
                 p1: BootFs, p2: BootFs, p3: array<byte>, p4: array<byte>)
      requires p3 != p4
      ensures Valid() && Now() == Disk(p1, p2, p3[..], p4[..]) && disks == [Now()] && pending == {}
      ensures this.env == env && this.partition == partition && this.trying == trying && this.counter == counter
      ensures this.p3 == p3 && this.p4 == p4
    {
      this.env, this.partition, this.trying, this.counter := env, partition, trying, counter;
      this.p1, this.p2, this.p3, this.p4 := p1, p2, p3, p4;
      pending := {};
      disks := [Disk(p1, p2, p3[..], p4[..])];
    }

    function Now(): Disk
      reads this, p3, p4
    {
      Disk(p1, p2, p3[..], p4[..])
    }

    ghost predicate Valid()
      reads this, p3, p4
    {
      p3 != p4 && disks != [] && disks[|disks| - 1] == Now()
    }

    /** From the state number `from` on, only the given pair differs from the state at the start. */
    ghost predicate OnlyPairSince(start: Disk, from: nat, pair: int)
      requires IsPair(pair)
      reads this
    {
      forall i :: from <= i < |disks| ==> OnlyPair(start, disks[i], pair)
    }

    method StoreBoot(pair: int, b: BootFs)
      requires Valid() && IsPair(pair)
      modifies this`p1, this`p2, this`disks
      ensures Valid() && disks == old(disks) + [Now()]
      ensures BootOf(Now(), pair) == b && BootOf(Now(), Other(pair)) == BootOf(old(Now()), Other(pair))
      ensures Now().p3 == old(Now().p3) && Now().p4 == old(Now().p4)
    {
      if pair == 1 { p1 := b; } else { p2 := b; }
      disks := disks + [Now()];
    }

    /** The copy loop of install: truncate, write chunk by chunk, and end up with what the medium kept. */
    method CopyBootFile(pair: int, isImg: bool, src: Bytes, medium: Medium, ghost start: Disk, ghost from: nat)
      requires Valid() && IsPair(pair) && from < |disks| && OnlyPairSince(start, from, pair)
      modifies this`p1, this`p2, this`disks
      ensures Valid() && old(disks) <= disks && OnlyPairSince(start, from, pair)
      ensures BootOf(Now(), pair) == WithFile(old(BootOf(Now(), pair)), isImg, medium.file(src))
      ensures BootOf(Now(), Other(pair)) == old(BootOf(Now(), Other(pair)))
      ensures Now().p3 == old(Now().p3) && Now().p4 == old(Now().p4)
    {
      var base := if pair == 1 then p1 else p2;
      var dst := [];
      StoreBoot(pair, WithFile(base, isImg, dst));
      while |dst| < |src|
        invariant dst <= src
        invariant Valid() && old(disks) <= disks && OnlyPairSince(start, from, pair)
        invariant BootOf(Now(), pair) == WithFile(base, isImg, dst)
        invariant BootOf(Now(), Other(pair)) == old(BootOf(Now(), Other(pair)))
        invariant Now().p3 == old(Now().p3) && Now().p4 == old(Now().p4)
        decreases |src| - |dst|
      {
        var chunk := src[|dst|..Least(|dst| + CHUNK, |src|)];
        dst := dst + chunk;
        StoreBoot(pair, WithFile(base, isImg, dst));
      }
      assert dst == src;
      StoreBoot(pair, WithFile(base, isImg, medium.file(dst)));
    }

    /** dd to the root slot of the pair, and what the medium kept of it. */
    method WriteRoot(pair: int, src: Bytes, medium: Medium, ghost start: Disk, ghost from: nat) returns (ok: bool)
      requires Valid() && IsPair(pair) && from < |disks| && OnlyPairSince(start, from, pair)
      modifies this`disks, p3, p4
      ensures Valid() && old(disks) <= disks && OnlyPairSince(start, from, pair)
      ensures RootOf(Now(), Other(pair)) == old(RootOf(Now(), Other(pair)))
      ensures ok <==> |src| <= |RootOf(old(Now()), pair)|
      ensures ok ==> RootOf(Now(), pair) == Kept(medium, Overlay(src, |src|, RootOf(old(Now()), pair)))
    {
      hide Overlay, DdEnd;
      var dev := if pair == 1 then p3 else p4;
      ghost var before := Now();
      var n;
      ghost var trace;
      n, ok, trace := Dd(src, dev, |src|, DD_CHUNK);
      ghost var written := seq(|trace|, i requires 0 <= i < |trace| =>
        if pair == 1 then before.(p3 := trace[i]) else before.(p4 := trace[i]));
      disks := disks + written;
      DdEndBounds(0, |src|, |src|, DD_CHUNK);
      if ok { OverlayIs(src, n, RootOf(before, pair)); }
      var kept := medium.root(dev[..]);
      if |kept| == dev.Length {
        forall i | 0 <= i < dev.Length { dev[i] := kept[i]; }
      }
      disks := disks + [Now()];
    }

    // ------------------------------------------------------------- the four verbs

    /** The session runs the committed pair and is not a trial. */
    predicate OnCommittedPair()
      reads this
    {
      !trying && IsPair(partition) && ReadText(p1.autoboot) == Pairs(partition, Other(partition))
    }

    /** The staging directory has a manifest that is JSON. */
    predicate Manifested(staging: Staging) {
      "MANIFEST.json" in staging && env.manifest(staging["MANIFEST.json"]).Some?
    }

    /** The staged file has the digest the manifest gives for it. */
    predicate HasDigest(staging: Staging, man: Manifest, name: string) {
      name in staging && name in man.sha256 && env.h(staging[name]) == man.sha256[name]
    }

    predicate MayInstall(staging: Staging)
      reads this
    {
      && MANIFEST_NAME in staging && env.manifest(staging[MANIFEST_NAME]).Some?
      && OnCommittedPair()
      && var man := env.manifest(staging[MANIFEST_NAME]).value;
         && man.version.Some? && counter.Some? && man.version.value >= counter.value
         && ROOT_IMG in staging && ROOT_IMG in man.sha256 && env.h(staging[ROOT_IMG]) == man.sha256[ROOT_IMG]
    }

    /** Everything that is read back has the digest in the manifest. */
    predicate Verifies(staging: Staging, d: Disk, medium: Medium)
      requires IsPair(partition) && MANIFEST_NAME in staging && env.manifest(staging[MANIFEST_NAME]).Some?
    {
      var man := env.manifest(staging[MANIFEST_NAME]).value;
      && ROOT_IMG in staging && ROOT_IMG in man.sha256
      && RootVerifies(env.h, staging[ROOT_IMG], man.sha256[ROOT_IMG], RootOf(d, Other(partition)), medium)
      && FileVerifies(env.h, staging, man, BOOT_IMG, medium)
      && FileVerifies(env.h, staging, man, BOOT_SIG, medium)
    }

    /** install of rp5-ota-priv, up to the first write: the pair to write and the manifest. */
    method CheckInstall(staging: Staging) returns (r: Reply<(int, Manifest)>)
      requires Valid()
      ensures r.Done? <==> MayInstall(staging)
      ensures r.Done? <==>
                && !trying && IsPair(partition) && ReadText(p1.autoboot) == Pairs(partition, Other(partition))
                && Manifested(staging)
                && var man := env.manifest(staging["MANIFEST.json"]).value;
                   && man.version.Some? && counter.Some? && counter.value <= man.version.value
                   && HasDigest(staging, man, "rootfs.img")
      ensures r.Error? <==>
                || !Manifested(staging)
                || (!trying && ReadText(p1.autoboot) == BadNumber)
                || (!trying && IsPair(partition) && ReadText(p1.autoboot) == Pairs(partition, Other(partition))
                    && var man := env.manifest(staging["MANIFEST.json"]).value;
                       || man.version.None?
                       || (counter.Some? && counter.value <= man.version.value
                           && ("rootfs.img" !in staging || "rootfs.img" !in man.sha256)))
      ensures r.Done? ==> r.value == (Other(partition), env.manifest(staging[MANIFEST_NAME]).value)
    {
      if MANIFEST_NAME !in staging { return Error; }
      var parsed := env.manifest(staging[MANIFEST_NAME]);
      if parsed.None? { return Error; }
      var man := parsed.value;
      if trying { return Refused; }
      var ab := ReadAutoboot(p1.autoboot);
      hide ReadText;
      if ab.BadNumber? { return Error; }
      if ab.NotAb? { return Refused; }
      if ab.target == partition || ab.committed != partition { return Refused; }
      AbPairs(p1.autoboot);
      if man.version.None? { return Error; }
      if counter.None? || man.version.value < counter.value { return Refused; }
      if ROOT_IMG !in staging || ROOT_IMG !in man.sha256 { return Error; }
      var have := Sha256File(env.h, staging[ROOT_IMG], None, CHUNK);
      assert Limited(staging[ROOT_IMG], None) == staging[ROOT_IMG];
      if have != man.sha256[ROOT_IMG] { return Refused; }
      r := Done((ab.target, man));
    }

    /** Writes the root slot and compares it with the manifest. */
    method InstallRoot(pair: int, image: Bytes, want: Digest, medium: Medium, ghost start: Disk, ghost from: nat)
      returns (r: Reply<()>)
      requires Valid() && IsPair(pair) && from < |disks| && OnlyPairSince(start, from, pair)
      modifies this`disks, p3, p4
      ensures Valid() && old(disks) <= disks && OnlyPairSince(start, from, pair)
      ensures RootOf(Now(), Other(pair)) == old(RootOf(Now(), Other(pair)))
      ensures r.Done? <==> RootVerifies(env.h, image, want, old(RootOf(Now(), pair)), medium)
      ensures r.Done? ==> RootOf(Now(), pair) == Kept(medium, Overlay(image, |image|, old(RootOf(Now(), pair))))
    {
      var room := WriteRoot(pair, image, medium, start, from);
      if !room { return Error; }
      var dev := if pair == 1 then p3 else p4;
      var back := Sha256File(env.h, dev[..], Some(|image|), CHUNK);
      r := if back == want then Done(()) else Refused;
    }

    /** Copies one file of the boot slot and compares it with the manifest. */
    method InstallFile(pair: int, isImg: bool, staging: Staging, man: Manifest, medium: Medium,
                       ghost start: Disk, ghost from: nat) returns (r: Reply<()>)
      requires Valid() && IsPair(pair) && from < |disks| && OnlyPairSince(start, from, pair)
      modifies this`p1, this`p2, this`disks
      ensures Valid() && old(disks) <= disks && OnlyPairSince(start, from, pair)
      ensures Now().p3 == old(Now().p3) && Now().p4 == old(Now().p4)
      ensures BootOf(Now(), Other(pair)) == old(BootOf(Now(), Other(pair)))
      ensures r.Done? <==> FileVerifies(env.h, staging, man, if isImg then BOOT_IMG else BOOT_SIG, medium)
      ensures r.Done? ==> BootOf(Now(), pair) == WithFile(old(BootOf(Now(), pair)), isImg,
                            medium.file(staging[if isImg then BOOT_IMG else BOOT_SIG]))
    {
      var name := if isImg then BOOT_IMG else BOOT_SIG;
      if name !in staging { return Error; }
      CopyBootFile(pair, isImg, staging[name], medium, start, from);
      if name !in man.sha256 { return Error; }
      var copy := FileOf(if pair == 1 then p1 else p2, isImg);
      var back := Sha256File(env.h, copy, None, CHUNK);
      assert Limited(copy, None) == copy;
      r := if back == man.sha256[name] then Done(()) else Refused;
    }

    /**
     install: refused without a write unless MayInstall. On success the target
     pair matches the manifest. Whatever the outcome, and in every state on the
     way, only the target pair has changed.
     */
    method Install(staging: Staging, medium: Medium) returns (r: Reply<int>)
      requires Valid()
      modifies this`p1, this`p2, this`disks, p3, p4
      ensures Valid() && old(disks) <= disks
      ensures !old(MayInstall(staging)) ==> !r.Done? && Now() == old(Now()) && disks == old(disks)
      ensures old(MayInstall(staging)) ==> OnlyPairSince(old(Now()), |old(disks)| - 1, Other(partition))
      ensures r.Done? <==> old(MayInstall(staging)) && Verifies(staging, old(Now()), medium)
      ensures r.Done? ==> r.value == Other(partition)
                          && Now() == Installed(old(Now()), Other(partition), staging, medium)
    {
      hide Limited, ReadText, OnlyPair;
      var checked := CheckInstall(staging);
      if checked.Refused? { return Refused; }
      if checked.Error? { return Error; }
      var (target, man) := checked.value;
      ghost var start, from := Now(), |disks| - 1;
      OnlyPairRefl(start, target);
      var step := InstallRoot(target, staging[ROOT_IMG], man.sha256[ROOT_IMG], medium, start, from);
      if !step.Done? { return if step.Refused? then Refused else Error; }
      step := InstallFile(target, true, staging, man, medium, start, from);
      if !step.Done? { return if step.Refused? then Refused else Error; }
      step := InstallFile(target, false, staging, man, medium, start, from);
      if !step.Done? { return if step.Refused? then Refused else Error; }
      r := Done(target);
    }

    /** tryboot: the reboot is scheduled before the reply reads the target, so it happens even if that fails. */
    method TryBoot() returns (r: Reply<int>)
      requires Valid()
      modifies this`pending
      ensures Valid() && pending == if trying then old(pending) else old(pending) + {Trial}
      ensures trying ==> r == Refused
      ensures r.Done? <==> !trying && ReadText(p1.autoboot).Pairs?
      ensures r.Done? ==> r.value == ReadText(p1.autoboot).target
    {
      if trying { return Refused; }
      pending := pending + {Trial};
      var ab := ReadAutoboot(p1.autoboot);
      match ab {
        case Pairs(_, target) => r := Done(target);
        case NotAb => r := Refused;
        case BadNumber => r := Error;
      }
    }

    predicate MayCommit()
      reads this
    {
      trying && ReadText(p1.autoboot).Pairs? && ReadText(p1.autoboot).target == partition
    }

    /**
     commit: succeeds exactly on a trial boot of the pair that autoboot.txt names
     as the target. Then that pair is the committed one; on the way there is one
     state with the old file and one with the new one, and nothing else changes.
     */
    method Commit() returns (r: Reply<int>)
      requires Valid()
      modifies this`p1, this`disks
      ensures Valid()
      ensures r.Done? <==> old(MayCommit())
      ensures !r.Done? ==> disks == old(disks)
      ensures r.Done? ==> IsPair(partition) && r.value == partition
                          && disks == old(disks) + [Drafted(old(Now()), partition), Rewritten(old(Now()), partition)]
      ensures r.Done? ==> ReadText(p1.autoboot) == Pairs(partition, Other(partition))
    {
      if !trying { return Refused; }
      var ab := ReadAutoboot(p1.autoboot);
      hide ReadText, AutobootText;
      if ab.BadNumber? { return Error; }
      if ab.NotAb? { return Refused; }
      if ab.target != partition { return Refused; }
      AbPairs(p1.autoboot);
      WrittenTextReadsBack(partition);
      WriteAutoboot(partition);
      r := Done(partition);
    }

    /** write_autoboot: a draft beside the file, then one atomic rename. */
    method WriteAutoboot(committed: int)
      requires Valid() && IsPair(committed)
      modifies this`p1, this`disks
      ensures Valid() && Now() == Rewritten(old(Now()), committed)
      ensures disks == old(disks) + [Drafted(old(Now()), committed), Rewritten(old(Now()), committed)]
    {
      hide AutobootText;
      p1 := p1.(draft := AutobootText(committed));
      disks := disks + [Now()];
      p1 := p1.(autoboot := p1.draft, draft := "");
      disks := disks + [Now()];
    }

    method RebootPlain() returns (r: Reply<int>)
      requires Valid()
      modifies this`pending
      ensures Valid() && pending == old(pending) + {Plain} && r.Done?
    {
      pending := pending + {Plain};
      r := Done(0);
    }
  }

  lemma AbPairs(text: string)
    requires ReadText(text).Pairs?
    ensures var ab := ReadText(text); IsPair(ab.committed) && ab.target == Other(ab.committed) && IsPair(ab.target)
  {
  }
}
