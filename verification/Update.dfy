/**
 update() of agents/server/rp5.py driving one board: the server's steps
 interleaved with everything the board, its firmware and its power supply may do
 in between. A reply counts at the moment the board produced it; a reply that is
 lost, a refusal and a time-out all end in GiveUp.
 */
module Update {
  import opened ByteStrings
  import opened Autoboot
  import opened OtaBoard
  import opened Protocol
  import Verdict

  datatype Phase =
    | Start | Ready | AwaitInstall | Installed | Asked | OnTrial | Healthy
    | AwaitCommit | Committed | RebootAsked | Back | Passed | Stopped

  /** How far update() has come; a run that stopped has come nowhere. */
  function Rank(p: Phase): nat {
    match p
    case Stopped => 0
    case Start => 0
    case Ready => 1
    case AwaitInstall => 2
    case Installed => 3
    case Asked => 4
    case OnTrial => 5
    case Healthy => 6
    case AwaitCommit => 7
    case Committed => 8
    case RebootAsked => 9
    case Back => 10
    case Passed => 11
  }

  /**
   `expected` is the target the first status named, `pair` the one install wrote and
   `trialPair` the one that ran when the trial was seen; `trial`, `healthBoot`,
   `commitBoot` and `lastBoot` are the boot sessions in which the trial was seen, the
   health check passed, the commit was answered and the last round passed; `count` is
   the resetCount of the health check, `write` what happened to the baseline file
   then, and `last` that file.
   */
  datatype World = World(node: Node, phase: Phase, expected: int, pair: int, trial: nat, trialPair: int,
                         healthBoot: nat, count: nat, write: Verdict.Write, commitBoot: nat, lastBoot: nat, last: Option<nat>)

  datatype Release = Release(man: Manifest, rootSize: nat)

  datatype Move =
    | Board(act: Action)
    | GetStatus | AskInstall | InstallReply | AskTryboot | SeeTrial
    | HealthCheck(write: Verdict.Write) | AskCommit | CommitReply
    | AskReboot(arrives: bool) | SeeBoard | LastRound(write: Verdict.Write) | GiveUp

  /** The verbs are started by the server only. */
  predicate Free(a: Action) {
    !a.InstallBegin? && !a.CommitBegin? && !a.RequestTry? && !a.RequestPlain?
  }

  predicate Holds(env: Env, rel: Release, n: Node, pair: int) {
    IsPair(pair) && MatchesManifest(env.h, n.disk, pair, rel.man, rel.rootSize)
  }

  predicate Possible(env: Env, rel: Release, w: World, m: Move) {
    && w.phase != Stopped && w.phase != Passed
    && match m
       case Board(a) => Free(a) && Enabled(env, w.node, a)
       case GetStatus => w.phase == Start && w.node.session.On? && ReadText(Seen(w.node)).Pairs?
       case AskInstall =>
         && w.phase == Ready && Enabled(env, w.node, InstallBegin)
         && rel.man.version.Some? && rel.man.version.value >= w.node.counter
       case InstallReply =>
         && w.phase == AwaitInstall && Enabled(env, w.node, InstallEnd)
         && Holds(env, rel, w.node, Other(w.node.session.partition))
       case AskTryboot =>
         w.phase == Installed && Enabled(env, w.node, RequestTry) && ReadText(Seen(w.node)).Pairs?
       case SeeTrial =>
         && w.phase == Asked && w.node.session.On?
         && w.node.session.tryboot && w.node.session.partition == w.expected
       case HealthCheck(_) =>
         w.phase == OnTrial && w.node.session.On? && Verdict.RestartShown(w.last, w.node.resets)
       case AskCommit => w.phase == Healthy && Enabled(env, w.node, CommitBegin)
       case CommitReply =>
         && w.phase == AwaitCommit && Enabled(env, w.node, CommitEnd)
         && w.node.unsynced.None? && w.node.disk.p1.autoboot == AutobootText(w.node.session.partition)
       case AskReboot(arrives) => w.phase == Committed && (arrives ==> Enabled(env, w.node, RequestPlain))
       case SeeBoard => w.phase == RebootAsked && w.node.session.On?
       case LastRound(_) =>
         w.phase == Back && w.node.session.On? && Verdict.RestartShown(w.last, w.node.resets)
       case GiveUp => true
  }

  function Baseline(w: World, write: Verdict.Write): Option<nat> {
    Verdict.Recorded(w.last, Verdict.Judged(true, None, Some(w.node.resets)), write)
  }

  function Moved(env: Env, rel: Release, w: World, m: Move): World
    requires Possible(env, rel, w, m)
  {
    match m
    case Board(a) => w.(node := Next(env, w.node, a))
    case GetStatus => w.(phase := Ready, expected := ReadText(Seen(w.node)).target)
    case AskInstall => w.(phase := AwaitInstall, node := Next(env, w.node, InstallBegin))
    case InstallReply =>
      w.(phase := Installed, pair := Other(w.node.session.partition), node := Next(env, w.node, InstallEnd))
    case AskTryboot => w.(phase := Asked, node := Next(env, w.node, RequestTry))
    case SeeTrial => w.(phase := OnTrial, trial := w.node.boots, trialPair := w.node.session.partition)
    case HealthCheck(write) =>
      w.(phase := Healthy, healthBoot := w.node.boots, count := w.node.resets, write := write,
         last := Baseline(w, write))
    case AskCommit => w.(phase := AwaitCommit, node := Next(env, w.node, CommitBegin))
    case CommitReply => w.(phase := Committed, commitBoot := w.node.boots, node := Next(env, w.node, CommitEnd))
    case AskReboot(arrives) =>
      w.(phase := RebootAsked, node := if arrives then Next(env, w.node, RequestPlain) else w.node)
    case SeeBoard => w.(phase := Back)
    case LastRound(write) => w.(phase := Passed, lastBoot := w.node.boots, last := Baseline(w, write))
    case GiveUp => w.(phase := Stopped)
  }

  ghost predicate Feasible(env: Env, rel: Release, w: World, ms: seq<Move>)
    decreases |ms|
  {
    ms == [] || (Possible(env, rel, w, ms[0]) && Feasible(env, rel, Moved(env, rel, w, ms[0]), ms[1..]))
  }

  ghost function After(env: Env, rel: Release, w: World, ms: seq<Move>): World
    requires Feasible(env, rel, w, ms)
    decreases |ms|
  {
    if ms == [] then w else After(env, rel, Moved(env, rel, w, ms[0]), ms[1..])
  }

  // -------------------------------------------------------------------- invariant

  /** Which verb may be running in each phase once the pair is installed. */
  predicate Quiet(w: World) {
    w.node.session.On? ==>
      w.node.session.verb == Idle || (w.phase == AwaitCommit && w.node.session.verb == Committing)
  }

  /** The file names the installed pair as the target, is being rewritten, or names it as committed. */
  predicate FileStage(w: World)
    requires IsPair(w.pair)
  {
    var before, swapped := Pairs(Other(w.pair), w.pair), Pairs(w.pair, Other(w.pair));
    if Rank(w.phase) < 7 then InFile(w.node) == before && w.node.unsynced.None?
    else if w.phase == AwaitCommit then
      && (InFile(w.node) == before || InFile(w.node) == swapped)
      && (w.node.session.On? && w.node.session.verb == Committing ==>
            w.node.session.partition == w.pair && w.node.boots == w.trial)
      && (w.node.unsynced.Some? ==> w.node.session.On? && w.node.session.partition == w.pair)
    else InFile(w.node) == swapped && w.node.unsynced.None?
  }

  /** From the moment the trial was seen, its session is the only trial: no later one follows. */
  predicate OneTrial(w: World) {
    && w.node.boots >= w.trial && !w.node.bit
    && (w.node.session.On? ==> Trial !in w.node.session.pending
                               && (w.node.session.tryboot <==> w.node.boots == w.trial)
                               && (w.node.boots == w.trial ==> w.node.session.partition == w.trialPair))
  }

  /** What the health check recorded. */
  predicate Checked(w: World) {
    && w.trial <= w.healthBoot <= w.node.boots
    && (w.node.session.On? && w.node.boots == w.healthBoot ==> w.node.resets == w.count)
    && (Rank(w.phase) < 11 && w.write != Verdict.Refused ==> w.last == Some(w.count) || w.last == None)
    && (Rank(w.phase) < 11 && w.write == Verdict.Refused ==> Verdict.RestartShown(w.last, w.count))
  }

  predicate Inv(env: Env, rel: Release, w: World) {
    && Safe(env, w.node)
    && (Rank(w.phase) >= 3 ==> Holds(env, rel, w.node, w.pair) && Quiet(w) && FileStage(w))
    && (Rank(w.phase) >= 5 ==> OneTrial(w) && w.trialPair == w.expected)
    && (Rank(w.phase) >= 6 ==> Checked(w))
    && (Rank(w.phase) >= 7 ==> w.healthBoot == w.trial)
    && (Rank(w.phase) >= 8 ==> w.commitBoot == w.trial && w.pair == w.trialPair)
    && (w.phase == Passed ==> w.node.session.On? && w.lastBoot == w.node.boots
                              && (w.write != Verdict.Refused ==> w.lastBoot > w.trial))
  }

  /** Board actions other than install writes leave both pairs alone. */
  lemma FreeKeepsHolds(env: Env, rel: Release, n: Node, a: Action, pair: int)
    requires Enabled(env, n, a) && Holds(env, rel, n, pair)
    requires n.session.On? ==> n.session.verb != Writing
    ensures Holds(env, rel, Next(env, n, a), pair)
  {
    hide ReadText, AutobootText;
  }

  lemma FreeKeepsOneTrial(env: Env, w: World, a: Action)
    requires Safe(env, w.node) && OneTrial(w) && Free(a) && Enabled(env, w.node, a)
    ensures OneTrial(w.(node := Next(env, w.node, a)))
  {
    hide ReadText, AutobootText, OnlyPair, Bootable;
  }

  lemma FreeKeepsChecked(env: Env, w: World, a: Action)
    requires Safe(env, w.node) && Checked(w) && Free(a) && Enabled(env, w.node, a)
    ensures Checked(w.(node := Next(env, w.node, a)))
  {
    hide ReadText, AutobootText, OnlyPair, Bootable;
  }

  lemma FreeKeepsFile(env: Env, w: World, a: Action)
    requires Safe(env, w.node) && IsPair(w.pair) && Quiet(w) && FileStage(w) && Rank(w.phase) >= 3
    requires w.phase == AwaitCommit ==> OneTrial(w)
    requires Free(a) && Enabled(env, w.node, a)
    ensures Quiet(w.(node := Next(env, w.node, a))) && FileStage(w.(node := Next(env, w.node, a)))
  {
    SyncKeepsSafe(env, w.node);
    OtherPair(w.pair);
    hide ReadText, AutobootText, OnlyPair, Bootable;
  }

  lemma BoardKeepsInv(env: Env, rel: Release, w: World, a: Action)
    requires Inv(env, rel, w) && Possible(env, rel, w, Board(a))
    ensures Inv(env, rel, Moved(env, rel, w, Board(a)))
  {
    StepKeepsSafe(env, w.node, a);
    if Rank(w.phase) >= 3 {
      FreeKeepsHolds(env, rel, w.node, a, w.pair);
      FreeKeepsFile(env, w, a);
    }
    if Rank(w.phase) >= 5 { FreeKeepsOneTrial(env, w, a); }
    if Rank(w.phase) >= 6 { FreeKeepsChecked(env, w, a); }
    hide Safe, Holds, Quiet, FileStage, OneTrial, Enabled, Next;
  }

  /** What the six steps that the server causes do. */
  lemma VerbSteps(env: Env, n: Node)
    ensures Enabled(env, n, InstallBegin) ==>
              Running(n, Idle) && !n.session.tryboot && Next(env, n, InstallBegin) == WithVerb(n, Writing)
    ensures Enabled(env, n, InstallEnd) ==> Running(n, Writing) && Next(env, n, InstallEnd) == WithVerb(n, Idle)
    ensures Enabled(env, n, CommitBegin) ==>
              && Running(n, Idle) && n.session.tryboot && Next(env, n, CommitBegin) == WithVerb(n, Committing)
              && ReadText(Seen(n)).Pairs? && ReadText(Seen(n)).target == n.session.partition
    ensures Enabled(env, n, CommitEnd) ==> Running(n, Committing) && Next(env, n, CommitEnd) == WithVerb(n, Idle)
    ensures Enabled(env, n, RequestTry) ==>
              && n.session.On? && !n.session.tryboot
              && Next(env, n, RequestTry) == n.(session := n.session.(pending := n.session.pending + {Trial}))
    ensures Enabled(env, n, RequestPlain) ==>
              && n.session.On?
              && Next(env, n, RequestPlain) == n.(session := n.session.(pending := n.session.pending + {Plain}))
  {
  }

  lemma AskInstallKeepsInv(env: Env, rel: Release, w: World)
    requires Inv(env, rel, w) && Possible(env, rel, w, AskInstall)
    ensures Inv(env, rel, Moved(env, rel, w, AskInstall))
  {
    StepKeepsSafe(env, w.node, InstallBegin);
    hide Safe, Enabled, Next;
  }

  lemma InstallReplyKeepsInv(env: Env, rel: Release, w: World)
    requires Inv(env, rel, w) && Possible(env, rel, w, InstallReply)
    ensures Inv(env, rel, Moved(env, rel, w, InstallReply))
  {
    StepKeepsSafe(env, w.node, InstallEnd);
    VerbSteps(env, w.node);
    OtherPair(w.node.session.partition);
    hide ReadText, AutobootText, Bootable, MatchesManifest, Enabled, Next;
  }

  lemma AskTrybootKeepsInv(env: Env, rel: Release, w: World)
    requires Inv(env, rel, w) && Possible(env, rel, w, AskTryboot)
    ensures Inv(env, rel, Moved(env, rel, w, AskTryboot))
  {
    StepKeepsSafe(env, w.node, RequestTry);
    VerbSteps(env, w.node);
    hide Safe, ReadText, MatchesManifest, Enabled, Next;
  }

  lemma SeeTrialKeepsInv(env: Env, rel: Release, w: World)
    requires Inv(env, rel, w) && Possible(env, rel, w, SeeTrial)
    ensures Inv(env, rel, Moved(env, rel, w, SeeTrial))
  {
    hide ReadText, Bootable, MatchesManifest, Enabled, Next;
  }

  lemma HealthCheckKeepsInv(env: Env, rel: Release, w: World, write: Verdict.Write)
    requires Inv(env, rel, w) && Possible(env, rel, w, HealthCheck(write))
    ensures Inv(env, rel, Moved(env, rel, w, HealthCheck(write)))
  {
    hide Safe, Holds, ReadText, Enabled, Next;
  }

  lemma AskCommitKeepsInv(env: Env, rel: Release, w: World)
    requires Inv(env, rel, w) && Possible(env, rel, w, AskCommit)
    ensures Inv(env, rel, Moved(env, rel, w, AskCommit))
  {
    StepKeepsSafe(env, w.node, CommitBegin);
    VerbSteps(env, w.node);
    hide Safe, ReadText, MatchesManifest, Enabled, Next;
  }

  lemma CommitReplyKeepsInv(env: Env, rel: Release, w: World)
    requires Inv(env, rel, w) && Possible(env, rel, w, CommitReply)
    ensures Inv(env, rel, Moved(env, rel, w, CommitReply))
  {
    StepKeepsSafe(env, w.node, CommitEnd);
    VerbSteps(env, w.node);
    WrittenTextReadsBack(w.node.session.partition);
    hide Safe, ReadText, AutobootText, MatchesManifest, Enabled, Next;
  }

  lemma AskRebootKeepsInv(env: Env, rel: Release, w: World, arrives: bool)
    requires Inv(env, rel, w) && Possible(env, rel, w, AskReboot(arrives))
    ensures Inv(env, rel, Moved(env, rel, w, AskReboot(arrives)))
  {
    if arrives { StepKeepsSafe(env, w.node, RequestPlain); }
    VerbSteps(env, w.node);
    hide Safe, ReadText, MatchesManifest, Enabled, Next;
  }

  lemma LastRoundKeepsInv(env: Env, rel: Release, w: World, write: Verdict.Write)
    requires Inv(env, rel, w) && Possible(env, rel, w, LastRound(write))
    ensures Inv(env, rel, Moved(env, rel, w, LastRound(write)))
  {
    hide Safe, Holds, ReadText, Enabled, Next;
  }

  lemma MoveKeepsInv(env: Env, rel: Release, w: World, m: Move)
    requires Inv(env, rel, w) && Possible(env, rel, w, m)
    ensures Inv(env, rel, Moved(env, rel, w, m))
  {
    match m
    case Board(a) => BoardKeepsInv(env, rel, w, a);
    case AskInstall => AskInstallKeepsInv(env, rel, w);
    case InstallReply => InstallReplyKeepsInv(env, rel, w);
    case AskTryboot => AskTrybootKeepsInv(env, rel, w);
    case SeeTrial => SeeTrialKeepsInv(env, rel, w);
    case HealthCheck(write) => HealthCheckKeepsInv(env, rel, w, write);
    case AskCommit => AskCommitKeepsInv(env, rel, w);
    case CommitReply => CommitReplyKeepsInv(env, rel, w);
    case AskReboot(arrives) => AskRebootKeepsInv(env, rel, w, arrives);
    case LastRound(write) => LastRoundKeepsInv(env, rel, w, write);
    case GetStatus | SeeBoard | GiveUp => hide Safe, Enabled, Next;
  }

  lemma {:induction false} RunKeepsInv(env: Env, rel: Release, w: World, ms: seq<Move>)
    requires Inv(env, rel, w) && Feasible(env, rel, w, ms)
    ensures Inv(env, rel, After(env, rel, w, ms))
    decreases |ms|
  {
    hide Inv, Possible, Moved;
    if ms != [] {
      MoveKeepsInv(env, rel, w, ms[0]);
      RunKeepsInv(env, rel, Moved(env, rel, w, ms[0]), ms[1..]);
    }
  }

  // ----------------------------------------------------------------- main results

  /** The board committed in the session that passed, restarted, and runs the new pair for good. */
  predicate Succeeded(env: Env, rel: Release, w: World) {
    && w.healthBoot == w.commitBoot < w.lastBoot == w.node.boots && w.pair == w.expected
    && w.node.session.On? && !w.node.session.tryboot
    && Holds(env, rel, w.node, w.pair) && w.node.session.partition == w.pair
    && InFile(w.node) == Pairs(w.pair, Other(w.pair))
    && w.node.counter == VersionOf(env, w.node, w.pair)
  }

  /**
   End to end: whatever resets and failures happen on the way, if update()
   returns 0 and the write of the baseline was not silently refused, then the
   session that passed the health check is the one that committed, the board
   restarted after it, and it now runs the pair with the manifest's contents as
   a plain boot with the counter at that image's version.
   */
  lemma UpdateReturningZero(env: Env, rel: Release, w: World, ms: seq<Move>)
    requires Safe(env, w.node) && w.phase == Start
    requires Feasible(env, rel, w, ms) && After(env, rel, w, ms).phase == Passed
    requires After(env, rel, w, ms).write != Verdict.Refused
    ensures Succeeded(env, rel, After(env, rel, w, ms))
    ensures var d, pair := After(env, rel, w, ms).node.disk, After(env, rel, w, ms).node.session.partition;
            && IsPair(pair) && rel.rootSize <= |RootOf(d, pair)|
            && "boot.img" in rel.man.sha256 && env.h(BootOf(d, pair).img) == rel.man.sha256["boot.img"]
            && "boot.sig" in rel.man.sha256 && env.h(BootOf(d, pair).sig) == rel.man.sha256["boot.sig"]
            && "rootfs.img" in rel.man.sha256 && env.h(RootOf(d, pair)[..rel.rootSize]) == rel.man.sha256["rootfs.img"]
  {
    RunKeepsInv(env, rel, w, ms);
    hide Feasible, After, Possible, Moved, Safe;
    InvMeansSuccess(env, rel, After(env, rel, w, ms));
  }

  lemma InvMeansSuccess(env: Env, rel: Release, w: World)
    requires Inv(env, rel, w) && w.phase == Passed && w.write != Verdict.Refused
    ensures Succeeded(env, rel, w)
  {
    hide ReadText, AutobootText, OnlyPair, MatchesManifest;
  }

  // ------------------------------------------------------ runs that do reach the end

  lemma {:induction false} RunThen(env: Env, rel: Release, w: World, ms: seq<Move>, m: Move)
    requires Feasible(env, rel, w, ms) && Possible(env, rel, After(env, rel, w, ms), m)
    ensures Feasible(env, rel, w, ms + [m])
    ensures After(env, rel, w, ms + [m]) == Moved(env, rel, After(env, rel, w, ms), m)
    decreases |ms|
  {
    hide Possible, Moved;
    assert (ms + [m])[0] == (if ms == [] then m else ms[0]);
    if ms == [] {
      assert (ms + [m])[1..] == [];
    } else {
      assert (ms + [m])[1..] == ms[1..] + [m];
      RunThen(env, rel, Moved(env, rel, w, ms[0]), ms[1..], m);
    }
  }

  ghost predicate Leads(env: Env, rel: Release, w: World, w': World) {
    exists ms :: Feasible(env, rel, w, ms) && After(env, rel, w, ms) == w'
  }

  lemma LeadsNowhere(env: Env, rel: Release, w: World)
    ensures Leads(env, rel, w, w)
  {
    assert Feasible(env, rel, w, []) && After(env, rel, w, []) == w;
  }

  lemma LeadsOn(env: Env, rel: Release, w: World, w1: World, m: Move)
    requires Leads(env, rel, w, w1) && Possible(env, rel, w1, m)
    ensures Leads(env, rel, w, Moved(env, rel, w1, m))
  {
    hide Possible, Moved;
    var ms :| Feasible(env, rel, w, ms) && After(env, rel, w, ms) == w1;
    RunThen(env, rel, w, ms, m);
  }

  /** A trial session of the installed pair that passed the health check, in which nothing is going on. */
  predicate ReadyToCommit(env: Env, rel: Release, w: World) {
    && Inv(env, rel, w) && w.phase == Healthy
    && w.node.session == On(w.pair, true, Idle, {})
  }

  /** The world after the commit was answered in the same session. */
  function CommittedWorld(w: World): World
    requires IsPair(w.pair)
  {
    w.(phase := Committed, commitBoot := w.node.boots, node := w.node.(disk := Rewritten(w.node.disk, w.pair)))
  }

  lemma LeadsBoard(env: Env, rel: Release, start: World, w: World, a: Action, n: Node)
    requires Leads(env, rel, start, w) && w.phase != Stopped && w.phase != Passed
    requires Free(a) && StepsTo(env, w.node, a, n)
    ensures Leads(env, rel, start, w.(node := n))
  {
    LeadsOn(env, rel, start, w, Board(a));
  }

  /** The board's part of a commit: draft, rename, sync. */
  lemma CommitIsWritten(env: Env, rel: Release, start: World, w: World, n: Node, pair: int)
    requires Running(n, Idle) && n.session.partition == pair && n.session.tryboot && n.unsynced.None?
    requires Leads(env, rel, start, w) && w.phase == AwaitCommit && w.node == WithVerb(n, Committing)
    requires InFile(n).Pairs? && InFile(n).target == pair
    ensures Leads(env, rel, start, w.(node := w.node.(disk := Rewritten(n.disk, pair))))
    ensures StepsTo(env, w.node.(disk := Rewritten(n.disk, pair)), CommitEnd, n.(disk := Rewritten(n.disk, pair)))
  {
    hide ReadText, AutobootText, Leads, Enabled, Next, Possible, Moved;
    CommitSteps(env, n);
    var text := AutobootText(pair);
    var n2 := w.node.(disk := Drafted(n.disk, pair));
    LeadsBoard(env, rel, start, w, CommitDraft(text), n2);
    var n3 := n2.(unsynced := Some(text));
    LeadsBoard(env, rel, start, w.(node := n2), CommitRename, n3);
    LeadsBoard(env, rel, start, w.(node := n3), Sync, w.node.(disk := Rewritten(n.disk, pair)));
  }

  lemma CommitGoesThrough(env: Env, rel: Release, start: World, w: World)
    requires Leads(env, rel, start, w) && ReadyToCommit(env, rel, w)
    ensures Leads(env, rel, start, CommittedWorld(w))
  {
    OtherPair(w.pair);
    var n := w.node;
    CommitSteps(env, n);
    hide ReadText, AutobootText, Leads, Inv, Enabled, Next;
    LeadsOn(env, rel, start, w, AskCommit);
    var w1 := w.(phase := AwaitCommit, node := WithVerb(n, Committing));
    CommitIsWritten(env, rel, start, w1, n, w.pair);
    LeadsOn(env, rel, start, w1.(node := w1.node.(disk := Rewritten(n.disk, w.pair))), CommitReply);
  }

  lemma LeadsKeepsInv(env: Env, rel: Release, w: World, w': World)
    requires Safe(env, w.node) && w.phase == Start && Leads(env, rel, w, w')
    ensures Inv(env, rel, w')
  {
    var ms :| Feasible(env, rel, w, ms) && After(env, rel, w, ms) == w';
    RunKeepsInv(env, rel, w, ms);
  }

  /** What an update can start from and succeed: an idle plain session and a release that fits. */
  predicate Updatable(env: Env, rel: Release, w: World, d: Disk) {
    && Safe(env, w.node) && w.phase == Start
    && Running(w.node, Idle) && w.node.session == On(w.node.session.partition, false, Idle, {})
    && w.last.Some? && w.last.value <= w.node.resets
    && rel.man.version.Some? && rel.man.version.value >= w.node.counter
    && OnlyPair(w.node.disk, d, Other(w.node.session.partition))
    && Holds(env, rel, w.node.(disk := d), Other(w.node.session.partition))
    && Bootable(env, w.node.(disk := d), Other(w.node.session.partition))
  }

  /** The world in the trial session after the health check. */
  function TrialWorld(w: World, d: Disk, write: Verdict.Write): World
    requires Running(w.node, Idle)
  {
    var n := w.node;
    var t := Other(n.session.partition);
    var n' := n.(disk := d, session := On(t, true, Idle, {}), boots := n.boots + 1, resets := n.resets + 1);
    w.(node := n', phase := Healthy, expected := t, pair := t, trial := n'.boots, trialPair := t, healthBoot := n'.boots,
       count := n'.resets, write := write, last := Baseline(w.(node := n'), write))
  }

  /** The world when install has answered. */
  function InstalledWorld(w: World, d: Disk): World
    requires Running(w.node, Idle)
  {
    var t := Other(w.node.session.partition);
    w.(node := w.node.(disk := d), phase := Installed, expected := t, pair := t)
  }

  lemma InstallGoesThrough(env: Env, rel: Release, w: World, d: Disk)
    requires Updatable(env, rel, w, d)
    ensures Leads(env, rel, w, InstalledWorld(w, d))
  {
    var n := w.node;
    var t := Other(n.session.partition);
    TrialSteps(env, n, d);
    assert ReadText(Seen(n)) == Pairs(n.session.partition, t);
    hide ReadText, AutobootText, Leads, Inv, Enabled, Next, Bootable, MatchesManifest, OnlyPair, Safe;
    var n1 := WithVerb(n, Writing);
    LeadsNowhere(env, rel, w);
    LeadsOn(env, rel, w, w, GetStatus);
    var w1 := w.(phase := Ready, expected := t);
    LeadsOn(env, rel, w, w1, AskInstall);
    var w2 := w1.(phase := AwaitInstall, node := n1);
    LeadsBoard(env, rel, w, w2, InstallWrite(d), n1.(disk := d));
    LeadsOn(env, rel, w, w2.(node := n1.(disk := d)), InstallReply);
  }

  lemma TrialIsBooted(env: Env, rel: Release, start: World, w: World, n: Node, d: Disk)
    requires Safe(env, n) && Running(n, Idle) && n.session == On(n.session.partition, false, Idle, {})
    requires OnlyPair(n.disk, d, Other(n.session.partition))
    requires Bootable(env, n.(disk := d), Other(n.session.partition))
    requires Leads(env, rel, start, w) && w.phase == Asked && w.node == Waiting(n.(disk := d), Trial)
    ensures Leads(env, rel, start, w.(node :=
              n.(disk := d, session := On(Other(n.session.partition), true, Idle, {}),
                 boots := n.boots + 1, resets := n.resets + 1)))
  {
    assert !n.bit;
    hide ReadText, AutobootText, Leads, Enabled, Next, Bootable, OnlyPair, Safe, Possible, Moved;
    TrialSteps(env, n, d);
    var n5 := n.(disk := d, session := Off, bit := true);
    LeadsBoard(env, rel, start, w, RebootTry, n5);
    LeadsBoard(env, rel, start, w.(node := n5), BootTrial(1), Boot(n5, Other(n.session.partition), true, n.counter, 1));
  }

  lemma TrialGoesThrough(env: Env, rel: Release, w: World, d: Disk, write: Verdict.Write)
    requires Updatable(env, rel, w, d)
    ensures Leads(env, rel, w, TrialWorld(w, d, write)) && ReadyToCommit(env, rel, TrialWorld(w, d, write))
  {
    hide ReadText, AutobootText, Leads, Inv, Enabled, Next, Bootable, MatchesManifest, OnlyPair;
    InstallGoesThrough(env, rel, w, d);
    var n, w3 := w.node, InstalledWorld(w, d);
    TrialSteps(env, n, d);
    LeadsOn(env, rel, w, w3, AskTryboot);
    var w4 := w3.(phase := Asked, node := Waiting(n.(disk := d), Trial));
    TrialIsBooted(env, rel, w, w4, n, d);
    var n6 := TrialWorld(w, d, write).node;
    TrialPasses(env, rel, w, w4.(node := n6), n6, write);
    LeadsKeepsInv(env, rel, w, TrialWorld(w, d, write));
  }

  lemma TrialPasses(env: Env, rel: Release, start: World, w: World, n: Node, write: Verdict.Write)
    requires Leads(env, rel, start, w) && w.phase == Asked && w.node == n
    requires n.session == On(w.expected, true, Idle, {}) && Verdict.RestartShown(w.last, n.resets)
    ensures Leads(env, rel, start,
              w.(phase := Healthy, trial := n.boots, trialPair := w.expected, healthBoot := n.boots, count := n.resets,
                 write := write, last := Baseline(w, write)))
  {
    hide Leads, Enabled, Next;
    LeadsOn(env, rel, start, w, SeeTrial);
    LeadsOn(env, rel, start, w.(phase := OnTrial, trial := n.boots, trialPair := w.expected), HealthCheck(write));
  }

  lemma LastRoundPasses(env: Env, rel: Release, start: World, w: World) returns (w': World)
    requires Leads(env, rel, start, w) && w.phase == RebootAsked
    requires w.node.session.On? && Verdict.RestartShown(w.last, w.node.resets)
    ensures Leads(env, rel, start, w')
    ensures w' == w.(phase := Passed, lastBoot := w.node.boots, last := Some(w.node.resets))
  {
    hide Leads, Enabled, Next;
    LeadsOn(env, rel, start, w, SeeBoard);
    LeadsOn(env, rel, start, w.(phase := Back), LastRound(Verdict.Written));
    w' := w.(phase := Passed, lastBoot := w.node.boots, last := Some(w.node.resets));
  }

  lemma PlainIsBooted(env: Env, rel: Release, start: World, w: World, n: Node) returns (n': Node)
    requires Safe(env, n) && n.session.On? && n.unsynced.None?
    requires Leads(env, rel, start, w) && w.phase == RebootAsked && w.node == Waiting(n, Plain)
    ensures n'.session.On? && n'.resets == n.resets + 1
    ensures Leads(env, rel, start, w.(node := n'))
  {
    assert InFile(n).Pairs?;
    hide ReadText, AutobootText, Leads, Enabled, Next, Bootable, Safe, Possible, Moved;
    PlainSteps(env, n);
    var n1 := n.(session := Off);
    LeadsBoard(env, rel, start, w, RebootPlain, n1);
    n' := Boot(n1, InFile(n).committed, false, VersionOf(env, n, InFile(n).committed), 1);
    LeadsBoard(env, rel, start, w.(node := n1), BootPlain(1), n');
  }

  lemma RebootGoesThrough(env: Env, rel: Release, start: World, w: World) returns (w': World)
    requires Leads(env, rel, start, w) && w.phase == Committed && Safe(env, w.node)
    requires w.node.session.On? && w.node.unsynced.None? && w.last == Some(w.node.resets)
    ensures Leads(env, rel, start, w') && w'.phase == Passed && w'.write == w.write
  {
    hide ReadText, AutobootText, Leads, Enabled, Next, Bootable, MatchesManifest, OnlyPair, Safe;
    PlainSteps(env, w.node);
    LeadsOn(env, rel, start, w, AskReboot(true));
    var w1 := w.(phase := RebootAsked, node := Waiting(w.node, Plain));
    var n := PlainIsBooted(env, rel, start, w1, w.node);
    w' := LastRoundPasses(env, rel, start, w1.(node := n));
  }

  /** The success that the main result speaks of does happen: nothing interrupts, and the release fits. */
  lemma UpdateCanSucceed(env: Env, rel: Release, w: World, d: Disk) returns (w': World)
    requires Updatable(env, rel, w, d)
    ensures Leads(env, rel, w, w') && w'.phase == Passed && w'.write == Verdict.Written
  {
    TrialGoesThrough(env, rel, w, d, Verdict.Written);
    var w1 := TrialWorld(w, d, Verdict.Written);
    CommitGoesThrough(env, rel, w, w1);
    var w2 := CommittedWorld(w1);
    assert Safe(env, w2.node) by { LeadsKeepsInv(env, rel, w, w2); }
    w' := RebootGoesThrough(env, rel, w, w2);
  }

  /**
   The condition on the baseline is needed: if its write was silently refused at
   the health check, update() can return 0 although the board never restarted
   after the commit, still runs the trial, and its counter has not moved.
   */
  lemma RefusedWriteSkipsRestart(env: Env, rel: Release, w: World, d: Disk) returns (w': World)
    requires Updatable(env, rel, w, d)
    ensures Leads(env, rel, w, w') && w'.phase == Passed && w'.write == Verdict.Refused
    ensures w'.lastBoot == w'.commitBoot == w'.node.boots && w'.node.counter == w.node.counter
    ensures w'.node.session.On? && w'.node.session.tryboot
  {
    TrialGoesThrough(env, rel, w, d, Verdict.Refused);
    var w1 := TrialWorld(w, d, Verdict.Refused);
    CommitGoesThrough(env, rel, w, w1);
    var w2 := CommittedWorld(w1);
    hide Leads, Inv, Enabled, Next, Updatable;
    LeadsOn(env, rel, w, w2, AskReboot(false));
    w' := LastRoundPasses(env, rel, w, w2.(phase := RebootAsked));
  }

  /** Whatever happens, and wherever update() gives up, the next plain boot succeeds. */
  lemma BoardAlwaysRecovers(env: Env, rel: Release, w: World, ms: seq<Move>, renameKept: bool)
    requires Safe(env, w.node) && w.phase == Start && Feasible(env, rel, w, ms)
    ensures var n, acts := After(env, rel, w, ms).node, [Reset(renameKept), DropBit, BootPlain(1)];
            Protocol.Feasible(env, n, acts) && Recovered(env, n, Protocol.After(env, n, acts))
  {
    RunKeepsInv(env, rel, w, ms);
    hide Feasible, After, Possible, Moved, Recovered, Protocol.Feasible, Protocol.After;
    NextPlainBootSucceeds(env, After(env, rel, w, ms).node, renameKept);
  }

  predicate NamesOldOrNew(env: Env, w: World) {
    && IsPair(w.pair) && InFile(w.node).Pairs? && Bootable(env, w.node, InFile(w.node).committed)
    && (InFile(w.node) == Pairs(Other(w.pair), w.pair)
        || (w.phase == AwaitCommit && InFile(w.node) == Pairs(w.pair, Other(w.pair))))
  }

  lemma InvNamesOldOrNew(env: Env, rel: Release, w: World)
    requires Inv(env, rel, w) && 3 <= Rank(w.phase) <= 7
    ensures NamesOldOrNew(env, w)
  {
    hide ReadText, AutobootText, Bootable, MatchesManifest, SessionSafe, Quiet, OneTrial, Checked;
  }

  /**
   From install's reply until the commit is sent, the file names the old pair as
   committed, and that pair boots; until the commit is answered it names the old or
   the new one, and the one it names boots.
   */
  lemma OldPairStaysCommitted(env: Env, rel: Release, w: World, ms: seq<Move>)
    requires Safe(env, w.node) && w.phase == Start && Feasible(env, rel, w, ms)
    requires 3 <= Rank(After(env, rel, w, ms).phase) <= 7
    ensures NamesOldOrNew(env, After(env, rel, w, ms))
  {
    assert Inv(env, rel, w);
    hide Inv, Safe, Feasible, After, Possible, Moved, NamesOldOrNew;
    RunKeepsInv(env, rel, w, ms);
    InvNamesOldOrNew(env, rel, After(env, rel, w, ms));
  }
}
