/**
 The verbs of OtaBoard.Board, as they are written, are runs of the protocol: so
 what Protocol proves about every run holds for the code, and a power loss in
 the middle of a verb leaves a state of such a run.
 */
module BoardRuns {
  import opened ByteStrings
  import opened Autoboot
  import opened OtaBoard
  import opened Protocol

  /** The board object is this node of the protocol, between two verbs of a session. */
  ghost predicate Represents(board: Board, n: Node)
    reads board, board.p3, board.p4
  {
    && board.Valid() && n.disk == board.Now() && n.unsynced.None?
    && n.session == On(board.partition, board.trying, Idle, board.pending)
    && board.counter == Some(n.counter)
  }

  function WriteActs(ds: seq<Disk>): (acts: seq<Action>)
    ensures |acts| == |ds|
  {
    if ds == [] then [] else [InstallWrite(ds[0])] + WriteActs(ds[1..])
  }

  /** The last of the states, or the one before them. */
  function LastOf(d: Disk, ds: seq<Disk>): Disk {
    if ds == [] then d else ds[|ds| - 1]
  }

  lemma {:induction false} WritesAreRun(env: Env, n: Node, ds: seq<Disk>)
    requires Running(n, Writing)
    requires forall i :: 0 <= i < |ds| ==> OnlyPair(n.disk, ds[i], Other(n.session.partition))
    ensures Feasible(env, n, WriteActs(ds)) && After(env, n, WriteActs(ds)) == n.(disk := LastOf(n.disk, ds))
    decreases |ds|
  {
    if ds != [] {
      var n1 := n.(disk := ds[0]);
      OtherPair(n.session.partition);
      assert Enabled(env, n, InstallWrite(ds[0])) && Next(env, n, InstallWrite(ds[0])) == n1;
      WritesAreRun(env, n1, ds[1..]);
      assert WriteActs(ds)[1..] == WriteActs(ds[1..]);
    }
  }

  lemma {:induction false} RunsJoin(env: Env, n: Node, a: seq<Action>, b: seq<Action>)
    requires Feasible(env, n, a) && Feasible(env, After(env, n, a), b)
    ensures Feasible(env, n, a + b) && After(env, n, a + b) == After(env, After(env, n, a), b)
    decreases |a|
  {
    hide Enabled, Next;
    if a == [] {
      assert a + b == b;
    } else {
      assert (a + b)[0] == a[0] && (a + b)[1..] == a[1..] + b;
      RunsJoin(env, Next(env, n, a[0]), a[1..], b);
    }
  }

  lemma RunOfOne(env: Env, n: Node, a: Action)
    requires Enabled(env, n, a)
    ensures Feasible(env, n, [a]) && After(env, n, [a]) == Next(env, n, a)
  {
    hide Enabled, Next;
    assert [a][1..] == [];
    assert Feasible(env, Next(env, n, a), []);
  }

  /** An install that wrote the states ds, and every moment of it. */
  function InstallActs(ds: seq<Disk>): seq<Action> {
    [InstallBegin] + WriteActs(ds) + [InstallEnd]
  }

  lemma InstallIsRun(env: Env, n: Node, ds: seq<Disk>)
    requires Running(n, Idle) && !n.session.tryboot && n.unsynced.None?
    requires InFile(n) == Pairs(n.session.partition, Other(n.session.partition))
    requires forall i :: 0 <= i < |ds| ==> OnlyPair(n.disk, ds[i], Other(n.session.partition))
    ensures Feasible(env, n, InstallActs(ds)) && After(env, n, InstallActs(ds)) == n.(disk := LastOf(n.disk, ds))
  {
    hide ReadText, OnlyPair;
    var n1 := WithVerb(n, Writing);
    var n2 := n1.(disk := LastOf(n.disk, ds));
    RunOfOne(env, n, InstallBegin);
    WritesAreRun(env, n1, ds);
    RunsJoin(env, n, [InstallBegin], WriteActs(ds));
    RunOfOne(env, n2, InstallEnd);
    RunsJoin(env, n, [InstallBegin] + WriteActs(ds), [InstallEnd]);
  }

  lemma MomentIsReached(env: Env, n: Node, ds: seq<Disk>, i: nat)
    requires Running(n, Idle) && !n.session.tryboot && n.unsynced.None? && i < |ds|
    requires InFile(n) == Pairs(n.session.partition, Other(n.session.partition))
    requires forall j :: 0 <= j < |ds| ==> OnlyPair(n.disk, ds[j], Other(n.session.partition))
    ensures var acts := [InstallBegin] + WriteActs(ds[..i + 1]);
            Feasible(env, n, acts) && After(env, n, acts) == WithVerb(n, Writing).(disk := ds[i])
  {
    hide ReadText, OnlyPair;
    RunOfOne(env, n, InstallBegin);
    WritesAreRun(env, WithVerb(n, Writing), ds[..i + 1]);
    RunsJoin(env, n, [InstallBegin], WriteActs(ds[..i + 1]));
  }

  /** The storage holds d at some moment of a run from n, and the board is safe there: a power loss then recovers. */
  ghost predicate IsSafeMoment(env: Env, n: Node, d: Disk) {
    exists acts :: Feasible(env, n, acts) && After(env, n, acts).disk == d
                   && Safe(env, After(env, n, acts))
  }

  /** A plain session of the committed pair, and a release not below the counter whose root image has its digest. */
  ghost predicate MayWrite(env: Env, n: Node, staging: Staging) {
    && n.session.On? && !n.session.tryboot && IsPair(n.session.partition)
    && InFile(n) == Pairs(n.session.partition, Other(n.session.partition))
    && "MANIFEST.json" in staging && env.manifest(staging["MANIFEST.json"]).Some?
    && var man := env.manifest(staging["MANIFEST.json"]).value;
       && man.version.Some? && n.counter <= man.version.value
       && "rootfs.img" in staging && "rootfs.img" in man.sha256 && env.h(staging["rootfs.img"]) == man.sha256["rootfs.img"]
  }

  method Install(board: Board, ghost n: Node, staging: Staging, medium: Medium)
    returns (r: Reply<int>, ghost acts: seq<Action>)
    requires Represents(board, n) && Safe(board.env, n)
    modifies board`p1, board`p2, board`disks, board.p3, board.p4
    ensures Feasible(board.env, n, acts) && Represents(board, After(board.env, n, acts))
    ensures r.Done? <==> MayWrite(board.env, n, staging) && board.Verifies(staging, n.disk, medium)
    ensures r.Done? ==> board.Now() == Installed(n.disk, Other(n.session.partition), staging, medium)
    ensures old(board.disks) <= board.disks
    ensures forall i :: |old(board.disks)| <= i < |board.disks| ==> IsSafeMoment(board.env, n, board.disks[i])
  {
    hide Installed, OnlyPair, ReadText, RootVerifies, FileVerifies, Safe, Feasible, After;
    ghost var before := board.disks;
    ghost var may := board.MayInstall(staging);
    assert may <==> MayWrite(board.env, n, staging);
    r := board.Install(staging, medium);
    ghost var ds := board.disks[|before|..];
    assert board.disks == before + ds;
    if may {
      acts := InstallActs(ds);
      InstallIsRun(board.env, n, ds);
      forall i | |before| <= i < |board.disks| ensures IsSafeMoment(board.env, n, board.disks[i]) {
        MomentIsReached(board.env, n, ds, i - |before|);
        AlwaysSafe(board.env, n, [InstallBegin] + WriteActs(ds[..i - |before| + 1]));
        assert ds[i - |before|] == board.disks[i];
      }
    } else {
      acts := [];
      EmptyRun(board.env, n);
    }
  }

  lemma EmptyRun(env: Env, n: Node)
    ensures Feasible(env, n, []) && After(env, n, []) == n
  {
  }

  function CommitActs(pair: int): seq<Action>
    requires IsPair(pair)
  {
    [CommitBegin] + [CommitDraft(AutobootText(pair))] + [CommitRename] + [Sync] + [CommitEnd]
  }

  lemma StepJoins(env: Env, n: Node, acts: seq<Action>, n1: Node, a: Action, n2: Node)
    requires Feasible(env, n, acts) && After(env, n, acts) == n1 && StepsTo(env, n1, a, n2)
    ensures Feasible(env, n, acts + [a]) && After(env, n, acts + [a]) == n2
  {
    RunOfOne(env, n1, a);
    hide Enabled, Next, Feasible, After;
    RunsJoin(env, n, acts, [a]);
  }

  lemma CommitIsRun(env: Env, n: Node)
    requires Running(n, Idle) && n.session.tryboot && n.unsynced.None?
    requires InFile(n).Pairs? && InFile(n).target == n.session.partition
    ensures var pair := n.session.partition;
            && Feasible(env, n, CommitActs(pair))
            && After(env, n, CommitActs(pair)) == n.(disk := Rewritten(n.disk, pair))
            && Feasible(env, n, CommitActs(pair)[..2])
            && After(env, n, CommitActs(pair)[..2]).disk == Drafted(n.disk, pair)
  {
    CommitSteps(env, n);
    EmptyRun(env, n);
    var pair := n.session.partition;
    var text, n1 := AutobootText(pair), WithVerb(n, Committing);
    hide ReadText, AutobootText, Enabled, Next, Feasible, After;
    var n2 := n1.(disk := Drafted(n.disk, pair));
    var n3, n4 := n2.(unsynced := Some(text)), n1.(disk := Rewritten(n.disk, pair));
    assert [] + [CommitBegin] == [CommitBegin];
    StepJoins(env, n, [], n, CommitBegin, n1);
    var a2 := [CommitBegin] + [CommitDraft(text)];
    StepJoins(env, n, [CommitBegin], n1, CommitDraft(text), n2);
    StepJoins(env, n, a2, n2, CommitRename, n3);
    StepJoins(env, n, a2 + [CommitRename], n3, Sync, n4);
    StepJoins(env, n, a2 + [CommitRename] + [Sync], n4, CommitEnd, n.(disk := Rewritten(n.disk, pair)));
    assert CommitActs(pair)[..2] == a2;
  }

  method Commit(board: Board, ghost n: Node) returns (r: Reply<int>, ghost acts: seq<Action>)
    requires Represents(board, n) && Safe(board.env, n)
    modifies board`p1, board`disks
    ensures Feasible(board.env, n, acts) && Represents(board, After(board.env, n, acts))
    ensures r.Done? <==> InFile(n).Pairs? && n.session.tryboot && InFile(n).target == n.session.partition
    ensures r.Done? ==> InFile(After(board.env, n, acts)) == Pairs(board.partition, Other(board.partition))
    ensures old(board.disks) <= board.disks
    ensures forall i :: |old(board.disks)| <= i < |board.disks| ==> IsSafeMoment(board.env, n, board.disks[i])
  {
    hide ReadText, AutobootText, Safe, Feasible, After;
    EmptyRun(board.env, n);
    acts := [];
    ghost var before := board.disks;
    r := board.Commit();
    if r.Done? {
      acts := CommitActs(board.partition);
      AbPairs(n.disk.p1.autoboot);
      CommitIsRun(board.env, n);
      AlwaysSafe(board.env, n, acts);
      AlwaysSafe(board.env, n, acts[..2]);
      assert board.disks[|before|] == Drafted(n.disk, board.partition);
      assert board.disks[|before| + 1] == Rewritten(n.disk, board.partition);
    }
  }

  method TryBoot(board: Board, ghost n: Node) returns (r: Reply<int>, ghost acts: seq<Action>)
    requires Represents(board, n) && Safe(board.env, n)
    modifies board`pending
    ensures Feasible(board.env, n, acts) && Represents(board, After(board.env, n, acts))
    ensures r.Done? <==> !n.session.tryboot
    ensures r.Done? ==> acts == [RequestTry]
    ensures r.Done? ==> r.value == Other(n.session.partition)
  {
    hide ReadText, Safe, Feasible, After;
    EmptyRun(board.env, n);
    acts := [];
    assert !n.session.tryboot ==> IsPair(n.session.partition)
                                  && InFile(n) == Pairs(n.session.partition, Other(n.session.partition)) by {
      PlainSessionIsAtCounter(board.env, n, []);
    }
    r := board.TryBoot();
    if r.Done? {
      acts := [RequestTry];
      RunOfOne(board.env, n, RequestTry);
    }
  }

  method RebootPlain(board: Board, ghost n: Node) returns (r: Reply<int>, ghost acts: seq<Action>)
    requires Represents(board, n) && Safe(board.env, n)
    modifies board`pending
    ensures Feasible(board.env, n, acts) && Represents(board, After(board.env, n, acts))
    ensures acts == [RequestPlain] && r.Done?
  {
    hide Feasible, After;
    r := board.RebootPlain();
    acts := [RequestPlain];
    RunOfOne(board.env, n, RequestPlain);
  }
}
