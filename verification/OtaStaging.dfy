/**
 agents/rp5-ota, install: the network-facing half. It unpacks a stream into the
 staging directory, checks it against the manifest in it, and hands over to the
 privileged half, which checks again and writes.
 */
module OtaStaging {
  import opened ByteStrings
  import opened Hashing
  import opened Autoboot
  import opened OtaBoard

  /** One member of the archive that arrives. */
  datatype Member = Member(path: string, isFile: bool, data: Bytes)

  const FILES: seq<string> := [BOOT_IMG, BOOT_SIG, ROOT_IMG]

  /** The part of a path after its last slash. */
  function Basename(path: string): string {
    if path == [] then []
    else if path[|path| - 1] == '/' then []
    else Basename(path[..|path| - 1]) + [path[|path| - 1]]
  }

  /** The base name of a path is what follows the directory, however deep; a bare name is its own. */
  lemma {:induction false} BasenameOfPath(directory: string, name: string)
    requires '/' !in name && (directory == [] || directory[|directory| - 1] == '/')
    ensures Basename(directory + name) == name
    decreases |name|
  {
    var path := directory + name;
    if name != [] {
      var front, last := name[..|name| - 1], name[|name| - 1];
      BasenameOfPath(directory, front);
      assert path[..|path| - 1] == directory + front && path[|path| - 1] == last;
      assert name == front + [last] && last in name;
    } else {
      assert path == directory;
    }
  }

  predicate Expected(name: string) {
    name in FILES || name == MANIFEST_NAME
  }

  predicate Fills(m: Member, name: string) {
    m.isFile && Basename(m.path) == name && Expected(name)
  }

  /** The last member with this name decides; members in subdirectories count, other names do not. */
  function LastMember(stream: seq<Member>, name: string): Option<Bytes> {
    if stream == [] then None
    else if Fills(stream[|stream| - 1], name) then Some(stream[|stream| - 1].data)
    else LastMember(stream[..|stream| - 1], name)
  }

  /** Member i has the name, is a file that is wanted, and no later one is. */
  predicate IsLast(stream: seq<Member>, name: string, i: nat) {
    && i < |stream| && stream[i].isFile && Basename(stream[i].path) == name
    && forall j :: i < j < |stream| && stream[j].isFile ==> Basename(stream[j].path) != name
  }

  lemma ExpectedNames(name: string)
    ensures Expected(name) <==> name in {"boot.img", "boot.sig", "rootfs.img", "MANIFEST.json"}
  {
    FilesAre(0);
    FilesAre(1);
    FilesAre(2);
    if name in FILES {
      var k :| 0 <= k < |FILES| && FILES[k] == name;
      FilesAre(k);
    }
    assert FILES[0] in FILES && FILES[1] in FILES && FILES[2] in FILES;
  }

  lemma {:induction false} LastMemberIsLast(stream: seq<Member>, name: string, data: Bytes)
    ensures LastMember(stream, name) == Some(data) <==>
            && name in {"boot.img", "boot.sig", "rootfs.img", "MANIFEST.json"}
            && exists i: nat :: IsLast(stream, name, i) && stream[i].data == data
  {
    ExpectedNames(name);
    hide Expected, Basename;
    if stream != [] {
      var n := |stream| - 1;
      var front := stream[..n];
      LastMemberIsLast(front, name, data);
      if Fills(stream[n], name) {
        assert IsLast(stream, name, n);
        forall i: nat | IsLast(stream, name, i) ensures i == n { }
      } else if Expected(name) {
        forall i: nat ensures IsLast(stream, name, i) <==> IsLast(front, name, i) {
          if i < n { assert stream[i] == front[i]; }
          assert forall j :: 0 <= j < n ==> stream[j] == front[j];
        }
        if i: nat :| IsLast(stream, name, i) && stream[i].data == data { assert IsLast(front, name, i); }
        if i: nat :| IsLast(front, name, i) && front[i].data == data { assert IsLast(stream, name, i); }
      }
    }
  }

  /** The directory holds for every name the last member with it, and nothing of an earlier attempt. */
  ghost predicate Unpacks(staging: Staging, stream: seq<Member>) {
    forall name :: match LastMember(stream, name)
                   case None => name !in staging
                   case Some(data) => name in staging && staging[name] == data
  }

  method Unpack(before: Staging, stream: seq<Member>) returns (staging: Staging)
    ensures Unpacks(staging, stream)
  {
    staging := before;
    while staging != map[]
      decreases |staging|
    {
      var name :| name in staging;
      var smaller := staging - {name};
      assert staging.Keys == smaller.Keys + {name};
      staging := smaller;
    }
    var n := 0;
    while n < |stream|
      invariant 0 <= n <= |stream|
      invariant Unpacks(staging, stream[..n])
    {
      var m := stream[n];
      var name := Basename(m.path);
      assert stream[..n + 1][..n] == stream[..n];
      if m.isFile && Expected(name) { staging := staging[name := m.data]; }
      n := n + 1;
    }
    assert stream[..n] == stream;
  }

  predicate DigestOk(h: HashFn, staging: Staging, man: Manifest, name: string) {
    name in staging && name in man.sha256 && h(staging[name]) == man.sha256[name]
  }

  /** Everything the unprivileged half asks for. */
  predicate Acceptable(env: Env, counter: Option<nat>, staging: Staging) {
    && MANIFEST_NAME in staging && env.manifest(staging[MANIFEST_NAME]).Some?
    && var man := env.manifest(staging[MANIFEST_NAME]).value;
       && (forall i :: 0 <= i < |FILES| ==> DigestOk(env.h, staging, man, FILES[i]))
       && !man.factory
       && counter.Some? && (if man.version.Some? then man.version.value else 0) >= counter.value
  }

  method CheckDigests(h: HashFn, staging: Staging, man: Manifest) returns (ok: bool)
    ensures ok <==> forall i :: 0 <= i < |FILES| ==> DigestOk(h, staging, man, FILES[i])
  {
    var n := 0;
    while n < |FILES|
      invariant 0 <= n <= |FILES|
      invariant forall i :: 0 <= i < n ==> DigestOk(h, staging, man, FILES[i])
    {
      if FILES[n] !in staging || FILES[n] !in man.sha256 { return false; }
      var have := Sha256File(h, staging[FILES[n]], None, CHUNK);
      assert Limited(staging[FILES[n]], None) == staging[FILES[n]];
      if have != man.sha256[FILES[n]] { return false; }
      n := n + 1;
    }
    ok := true;
  }

  /**
   The whole install request. It succeeds exactly when both halves accept the
   staged files and the readback agrees; then the target pair is the installed
   one. Otherwise the running pair and autoboot.txt are untouched in every state
   on the way.
   */
  method Install(board: Board, before: Staging, stream: seq<Member>, medium: Medium)
    returns (staging: Staging, r: Reply<int>)
    requires board.Valid()
    modifies board`p1, board`p2, board`disks, board.p3, board.p4
    ensures board.Valid() && old(board.disks) <= board.disks
    ensures !board.trying ==> Unpacks(staging, stream)
    ensures r.Done? <==> Acceptable(board.env, board.counter, staging)
                         && old(board.MayInstall(staging)) && board.Verifies(staging, old(board.Now()), medium)
    ensures (forall data :: medium.root(data) == data) && (forall data :: medium.file(data) == data) ==>
              (r.Done? <==>
               && GoodRelease(board.env, board.counter, staging)
               && !board.trying && IsPair(board.partition)
               && ReadText(old(board.p1.autoboot)) == Pairs(board.partition, Other(board.partition))
               && |staging["rootfs.img"]| <= |RootOf(old(board.Now()), Other(board.partition))|)
    ensures r.Done? ==> IsPair(board.partition) && r.value == Other(board.partition)
                        && board.Now() == Installed(old(board.Now()), Other(board.partition), staging, medium)
    ensures board.disks == old(board.disks)
            || (IsPair(board.partition)
                && board.OnlyPairSince(old(board.Now()), |old(board.disks)| - 1, Other(board.partition)))
  {
    hide Installed, OnlyPair, Unpacks, RootVerifies, FileVerifies, ReadText;
    staging := before;
    if board.trying { return staging, Refused; }
    staging := Unpack(before, stream);
    GoodReleasesAccepted(board, staging);
    GoodMediaInstall(board, staging, medium);
    if MANIFEST_NAME !in staging || board.env.manifest(staging[MANIFEST_NAME]).None? { return staging, Refused; }
    var man := board.env.manifest(staging[MANIFEST_NAME]).value;
    var ok := CheckDigests(board.env.h, staging, man);
    if !ok { return staging, Refused; }
    if man.factory { return staging, Refused; }
    var version := if man.version.Some? then man.version.value else 0;
    if board.counter.None? || version < board.counter.value { return staging, Refused; }
    r := board.Install(staging, medium);
    if !r.Done? { return staging, Refused; }
  }

  /** Which inputs collide if the installed pair is not the staged one. */
  function ReadbackFinding(d: Disk, pair: int, staging: Staging): Finding
    requires IsPair(pair) && BOOT_IMG in staging && BOOT_SIG in staging && ROOT_IMG in staging
    requires |staging[ROOT_IMG]| <= |RootOf(d, pair)|
  {
    Either(CollisionOf(RootOf(d, pair)[..|staging[ROOT_IMG]|], staging[ROOT_IMG]),
      Either(CollisionOf(BootOf(d, pair).img, staging[BOOT_IMG]), CollisionOf(BootOf(d, pair).sig, staging[BOOT_SIG])))
  }

  /** The pair holds the staged files; the root slot may be longer than the image. */
  predicate HoldsStaged(d: Disk, pair: int, staging: Staging)
    requires IsPair(pair) && BOOT_IMG in staging && BOOT_SIG in staging && ROOT_IMG in staging
  {
    && BootOf(d, pair).img == staging[BOOT_IMG] && BootOf(d, pair).sig == staging[BOOT_SIG]
    && staging[ROOT_IMG] <= RootOf(d, pair)
  }

  lemma FilesAre(i: nat)
    requires i < 3
    ensures |FILES| == 3
    ensures FILES[i] == if i == 0 then "boot.img" else if i == 1 then "boot.sig" else "rootfs.img"
  {
  }

  /** What the design asks of a release: a manifest, the right digests, not the factory image, no lower version. */
  ghost predicate GoodRelease(env: Env, counter: Option<nat>, staging: Staging) {
    && "MANIFEST.json" in staging && counter.Some?
    && exists man :: env.manifest(staging["MANIFEST.json"]) == Some(man) && GoodManifest(env.h, counter.value, staging, man)
  }

  predicate GoodManifest(h: HashFn, counter: nat, staging: Staging, man: Manifest) {
    && !man.factory && man.version.Some? && counter <= man.version.value
    && (forall name :: name in {"boot.img", "boot.sig", "rootfs.img"} ==>
          name in staging && name in man.sha256 && h(staging[name]) == man.sha256[name])
  }

  /** Both halves together accept exactly the good releases, on a plain session of the committed pair. */
  lemma GoodReleasesAccepted(board: Board, staging: Staging)
    ensures Acceptable(board.env, board.counter, staging) && board.MayInstall(staging) <==>
            && GoodRelease(board.env, board.counter, staging)
            && !board.trying && IsPair(board.partition)
            && ReadText(board.p1.autoboot) == Pairs(board.partition, Other(board.partition))
  {
    hide ReadText;
    if MANIFEST_NAME in staging && board.env.manifest(staging[MANIFEST_NAME]).Some? {
      var man := board.env.manifest(staging[MANIFEST_NAME]).value;
      AllDigests(board.env.h, staging, man);
      assert Acceptable(board.env, board.counter, staging) <==>
             board.counter.Some? && !man.factory
             && (forall i :: 0 <= i < |FILES| ==> DigestOk(board.env.h, staging, man, FILES[i]))
             && (if man.version.Some? then man.version.value else 0) >= board.counter.value;
      if board.counter.Some? { GoodManifestDigests(board.env.h, board.counter.value, staging, man); }
      assert "rootfs.img" in {"boot.img", "boot.sig", "rootfs.img"};
      hide GoodManifest;
      assert GoodRelease(board.env, board.counter, staging) <==>
             board.counter.Some? && GoodManifest(board.env.h, board.counter.value, staging, man);
    }
  }

  lemma GoodManifestDigests(h: HashFn, counter: nat, staging: Staging, man: Manifest)
    ensures GoodManifest(h, counter, staging, man) <==>
            && !man.factory && man.version.Some? && counter <= man.version.value
            && forall name :: name in {"boot.img", "boot.sig", "rootfs.img"} ==> DigestOk(h, staging, man, name)
  {
    if forall name :: name in {"boot.img", "boot.sig", "rootfs.img"} ==> DigestOk(h, staging, man, name) {
      forall name | name in {"boot.img", "boot.sig", "rootfs.img"}
        ensures name in staging && name in man.sha256 && h(staging[name]) == man.sha256[name]
      {
        assert DigestOk(h, staging, man, name);
      }
    }
  }

  lemma AllDigests(h: HashFn, staging: Staging, man: Manifest)
    ensures (forall i :: 0 <= i < |FILES| ==> DigestOk(h, staging, man, FILES[i])) <==>
            forall name :: name in {"boot.img", "boot.sig", "rootfs.img"} ==> DigestOk(h, staging, man, name)
  {
    FilesAre(0);
    FilesAre(1);
    FilesAre(2);
    if forall name :: name in {"boot.img", "boot.sig", "rootfs.img"} ==> DigestOk(h, staging, man, name) {
      forall i | 0 <= i < |FILES| ensures DigestOk(h, staging, man, FILES[i]) { FilesAre(i); }
    }
    if forall i :: 0 <= i < |FILES| ==> DigestOk(h, staging, man, FILES[i]) {
      forall name | name in {"boot.img", "boot.sig", "rootfs.img"} ensures DigestOk(h, staging, man, name) {
        var i := if name == "boot.img" then 0 else if name == "boot.sig" then 1 else 2;
        assert FILES[i] == name;
      }
    }
  }

  /**
   A successful install left exactly the staged files in the target pair and the
   manifest matches them, or two different files have the same digest.
   */
  lemma SuccessMeansStaged(board: Board, start: Disk, staging: Staging, medium: Medium)
    requires IsPair(board.partition) && Acceptable(board.env, board.counter, staging)
    requires board.Verifies(staging, start, medium)
    ensures BOOT_IMG in staging && BOOT_SIG in staging && ROOT_IMG in staging
    ensures |staging[ROOT_IMG]| <= |RootOf(start, Other(board.partition))|
    ensures var d, target := Installed(start, Other(board.partition), staging, medium), Other(board.partition);
            && MatchesManifest(board.env.h, d, target, board.env.manifest(staging[MANIFEST_NAME]).value,
                               |staging[ROOT_IMG]|)
            && (HoldsStaged(d, target, staging)
                || Genuine(board.env.h, ReadbackFinding(d, target, staging)))
  {
    FilesAre(0);
    FilesAre(1);
    FilesAre(2);
    var man := board.env.manifest(staging[MANIFEST_NAME]).value;
    assert DigestOk(board.env.h, staging, man, FILES[0]) && DigestOk(board.env.h, staging, man, FILES[1])
           && DigestOk(board.env.h, staging, man, FILES[2]);
    var d, target := Installed(start, Other(board.partition), staging, medium), Other(board.partition);
    assert RootOf(d, target)[..|staging[ROOT_IMG]|] == staging[ROOT_IMG] ==> staging[ROOT_IMG] <= RootOf(d, target);
  }

  lemma GoodMediaInstall(board: Board, staging: Staging, medium: Medium)
    ensures GoodRelease(board.env, board.counter, staging) ==> "rootfs.img" in staging
    ensures IsPair(board.partition) && Acceptable(board.env, board.counter, staging)
            && (forall data :: medium.root(data) == data) && (forall data :: medium.file(data) == data) ==>
              (board.Verifies(staging, board.Now(), medium) <==>
               "rootfs.img" in staging && |staging["rootfs.img"]| <= |RootOf(board.Now(), Other(board.partition))|)
  {
    if IsPair(board.partition) && Acceptable(board.env, board.counter, staging)
       && (forall data :: medium.root(data) == data) && (forall data :: medium.file(data) == data) {
      GoodMediaAlwaysVerify(board, board.Now(), staging, medium);
    }
  }

  /** On a medium that keeps what is written, files that match the manifest and fit are always installed. */
  lemma GoodMediaAlwaysVerify(board: Board, start: Disk, staging: Staging, medium: Medium)
    requires IsPair(board.partition) && Acceptable(board.env, board.counter, staging)
    requires forall data :: medium.root(data) == data
    requires forall data :: medium.file(data) == data
    ensures ROOT_IMG in staging
    ensures board.Verifies(staging, start, medium) <==> |staging[ROOT_IMG]| <= |RootOf(start, Other(board.partition))|
  {
    FilesAre(0);
    FilesAre(1);
    FilesAre(2);
    var man := board.env.manifest(staging[MANIFEST_NAME]).value;
    assert DigestOk(board.env.h, staging, man, FILES[0]) && DigestOk(board.env.h, staging, man, FILES[1])
           && DigestOk(board.env.h, staging, man, FILES[2]);
    var image, slot := staging[ROOT_IMG], RootOf(start, Other(board.partition));
    if |image| <= |slot| {
      assert Kept(medium, Overlay(image, |image|, slot))[..|image|] == image;
    }
  }
}
