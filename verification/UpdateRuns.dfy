/**
 The guards of the server's steps are earned: when the board's code answers a
 request of update() with success, the run of the protocol that it went through
 leads the server to its next phase.
 */
module UpdateRuns {
  import opened ByteStrings
  import opened Autoboot
  import opened OtaBoard
  import opened Protocol
  import opened BoardRuns
  import OtaStaging
  import Update

  lemma {:induction false} LeadsRun(env: Env, rel: Update.Release, start: Update.World, w: Update.World, acts: seq<Action>)
    requires Update.Leads(env, rel, start, w) && w.phase != Update.Stopped && w.phase != Update.Passed
    requires Feasible(env, w.node, acts) && forall i :: 0 <= i < |acts| ==> Update.Free(acts[i])
    ensures Update.Leads(env, rel, start, w.(node := After(env, w.node, acts)))
    decreases |acts|
  {
    hide Update.Leads, Enabled, Next;
    if acts != [] {
      assert Update.Free(acts[0]);
      var n := Next(env, w.node, acts[0]);
      Update.LeadsBoard(env, rel, start, w, acts[0], n);
      LeadsRun(env, rel, start, w.(node := n), acts[1..]);
    }
  }

  lemma {:induction false} WritesAreFree(ds: seq<Disk>)
    ensures forall i :: 0 <= i < |ds| ==> Update.Free(WriteActs(ds)[i])
  {
    if ds != [] {
      WritesAreFree(ds[1..]);
      assert WriteActs(ds)[0] == InstallWrite(ds[0]) && WriteActs(ds)[1..] == WriteActs(ds[1..]);
    }
  }

  /** What the server knows of the release that was staged. */
  function ReleaseOf(env: Env, staging: Staging): Update.Release
    requires MANIFEST_NAME in staging && env.manifest(staging[MANIFEST_NAME]).Some? && ROOT_IMG in staging
  {
    Update.Release(env.manifest(staging[MANIFEST_NAME]).value, |staging[ROOT_IMG]|)
  }

  /** The world when install has answered: the target pair has become d's. */
  function Answered(w: Update.World, d: Disk, pair: int): Update.World {
    w.(phase := Update.Installed, pair := pair, node := w.node.(disk := d))
  }

  /** An install whose last state holds the manifest's contents is an install request and its reply. */
  lemma InstallIsAnswered(env: Env, rel: Update.Release, w: Update.World, ds: seq<Disk>)
    requires w.phase == Update.Ready && Running(w.node, Idle) && !w.node.session.tryboot && w.node.unsynced.None?
    requires InFile(w.node) == Pairs(w.node.session.partition, Other(w.node.session.partition))
    requires forall i :: 0 <= i < |ds| ==> OnlyPair(w.node.disk, ds[i], Other(w.node.session.partition))
    requires rel.man.version.Some? && rel.man.version.value >= w.node.counter
    requires MatchesManifest(env.h, LastOf(w.node.disk, ds), Other(w.node.session.partition), rel.man, rel.rootSize)
    ensures Update.Leads(env, rel, w, Answered(w, LastOf(w.node.disk, ds), Other(w.node.session.partition)))
  {
    OtherPair(w.node.session.partition);
    hide ReadText, OnlyPair, MatchesManifest, Update.Leads, Feasible, After;
    var n1 := WithVerb(w.node, Writing);
    var w1 := w.(phase := Update.AwaitInstall, node := n1);
    Update.LeadsNowhere(env, rel, w);
    Update.LeadsOn(env, rel, w, w, Update.AskInstall);
    WritesAreRun(env, n1, ds);
    WritesAreFree(ds);
    LeadsRun(env, rel, w, w1, WriteActs(ds));
    Update.LeadsOn(env, rel, w, w1.(node := n1.(disk := LastOf(w.node.disk, ds))), Update.InstallReply);
  }

  /** A successful install of rp5-ota takes a waiting update() to the phase after install. */
  method Install(board: Board, ghost w: Update.World, before: Staging, stream: seq<OtaStaging.Member>, medium: Medium)
    returns (staging: Staging, r: Reply<int>)
    requires Represents(board, w.node) && Safe(board.env, w.node) && w.phase == Update.Ready
    modifies board`p1, board`p2, board`disks, board.p3, board.p4
    ensures board.Valid()
    ensures r.Done? ==>
              && OtaStaging.Acceptable(board.env, board.counter, staging) && ROOT_IMG in staging
              && var w' := Answered(w, board.Now(), r.value);
                 && Update.Leads(board.env, ReleaseOf(board.env, staging), w, w')
                 && Update.Holds(board.env, ReleaseOf(board.env, staging), w'.node, w'.pair)
                 && Represents(board, w'.node)
  {
    hide Installed, OnlyPair, ReadText, RootVerifies, FileVerifies, Safe, Update.Leads, OtaStaging.Unpacks;
    ghost var old_disks, start := board.disks, board.Now();
    staging, r := OtaStaging.Install(board, before, stream, medium);
    if r.Done? {
      OtaStaging.SuccessMeansStaged(board, start, staging, medium);
      ghost var ds := board.disks[|old_disks|..];
      assert board.disks == old_disks + ds;
      assert LastOf(start, ds) == board.Now();
      OtherPair(board.partition);
      InstallIsAnswered(board.env, ReleaseOf(board.env, staging), w, ds);
    }
  }

  /** A successful tryboot takes it on to waiting for the trial. */
  method TryBoot(board: Board, ghost rel: Update.Release, ghost w: Update.World) returns (r: Reply<int>)
    requires Represents(board, w.node) && Safe(board.env, w.node) && w.phase == Update.Installed
    modifies board`pending
    ensures r.Done? ==>
              var w' := w.(phase := Update.Asked, node := Waiting(w.node, Trial));
              Update.Leads(board.env, rel, w, w') && Represents(board, w'.node)
  {
    hide ReadText, Safe, Update.Leads;
    r := board.TryBoot();
    if r.Done? {
      Update.LeadsNowhere(board.env, rel, w);
      Update.LeadsOn(board.env, rel, w, w, Update.AskTryboot);
    }
  }

  /** A successful commit takes it to the phase after the commit. */
  method Commit(board: Board, ghost rel: Update.Release, ghost w: Update.World) returns (r: Reply<int>)
    requires Represents(board, w.node) && Safe(board.env, w.node) && w.phase == Update.Healthy
    modifies board`p1, board`disks
    ensures board.Valid()
    ensures r.Done? ==>
              && IsPair(board.partition)
              && var w' := w.(phase := Update.Committed, commitBoot := w.node.boots,
                              node := w.node.(disk := Rewritten(w.node.disk, board.partition)));
                 Update.Leads(board.env, rel, w, w') && Represents(board, w'.node)
  {
    hide ReadText, AutobootText, Safe, Update.Leads, Enabled, Next, Update.Possible, Update.Moved;
    r := board.Commit();
    if r.Done? {
      CommitIsAnswered(board.env, rel, w);
    }
  }

  lemma CommitIsAnswered(env: Env, rel: Update.Release, w: Update.World)
    requires w.phase == Update.Healthy && Running(w.node, Idle) && w.node.session.tryboot && w.node.unsynced.None?
    requires InFile(w.node).Pairs? && InFile(w.node).target == w.node.session.partition
    ensures Update.Leads(env, rel, w,
              w.(phase := Update.Committed, commitBoot := w.node.boots,
                 node := w.node.(disk := Rewritten(w.node.disk, w.node.session.partition))))
  {
    var n, pair := w.node, w.node.session.partition;
    CommitSteps(env, n);
    hide ReadText, AutobootText, Update.Leads, Enabled, Next;
    Update.LeadsNowhere(env, rel, w);
    Update.LeadsOn(env, rel, w, w, Update.AskCommit);
    var w1 := w.(phase := Update.AwaitCommit, node := WithVerb(n, Committing));
    Update.CommitIsWritten(env, rel, w, w1, n, pair);
    Update.LeadsOn(env, rel, w, w1.(node := w1.node.(disk := Rewritten(n.disk, pair))), Update.CommitReply);
  }
}
