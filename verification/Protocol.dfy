/**
 The A/B protocol of one board as a state machine: every write of install and
 commit, the reboots, power loss at any moment, and the boots. Firmware and
 U-Boot appear as the steps DropBit to TrialFallsBack, with the contract of
 docs/ota-update-design.md and docs/anti-rollback-design.md.
 */
module Protocol {
  import opened ByteStrings
  import opened Autoboot
  import opened OtaBoard

  /** The privileged helper runs one verb at a time. */
  datatype Verb = Idle | Writing | Committing

  datatype Session = Off | On(partition: int, tryboot: bool, verb: Verb, pending: set<Reboot>)

  /**
   `unsynced` is a renamed autoboot.txt that is visible but may not survive a
   power loss yet; `bit` is the one-shot tryboot bit; `boots` numbers the boot
   sessions and `resets` is the TPM's resetCount.
   */
  datatype Node = Node(disk: Disk, unsynced: Option<string>, counter: nat, bit: bool, session: Session,
                       boots: nat, resets: nat)

  datatype Action =
    | InstallBegin | InstallWrite(disk: Disk) | InstallEnd
    | CommitBegin | CommitDraft(text: string) | CommitRename | CommitEnd
    | Sync
    | RequestTry | RequestPlain
    | RebootTry | RebootPlain
    | Reset(renameKept: bool)
    | DropBit
    | BootPlain(restarts: nat) | BootInterrupted(reached: nat, restarts: nat)
    | BootTrial(restarts: nat) | TrialFails(restarts: nat) | TrialFallsBack(restarts: nat)

  // ------------------------------------------------------------------------ steps

  function Seen(n: Node): string {
    if n.unsynced.Some? then n.unsynced.value else n.disk.p1.autoboot
  }

  function Synced(n: Node): Node {
    if n.unsynced.None? then n
    else n.(disk := n.disk.(p1 := n.disk.p1.(autoboot := n.unsynced.value, draft := "")), unsynced := None)
  }

  /** What firmware and U-Boot check before they start the pair. */
  predicate Bootable(env: Env, n: Node, pair: int) {
    && IsPair(pair)
    && env.signed(BootOf(n.disk, pair).img, BootOf(n.disk, pair).sig)
    && env.rootMatches(BootOf(n.disk, pair).img, RootOf(n.disk, pair))
    && env.version(BootOf(n.disk, pair).img) >= n.counter
  }

  /** The version compiled into the boot image of the pair. */
  function VersionOf(env: Env, n: Node, pair: int): nat
    requires IsPair(pair)
  {
    env.version(BootOf(n.disk, pair).img)
  }

  function InFile(n: Node): AbResult {
    ReadText(n.disk.p1.autoboot)
  }

  predicate Running(n: Node, verb: Verb) {
    n.session.On? && IsPair(n.session.partition) && n.session.verb == verb
  }

  predicate Enabled(env: Env, n: Node, a: Action) {
    match a
    case InstallBegin =>
      && Running(n, Idle) && !n.session.tryboot
      && ReadText(Seen(n)) == Pairs(n.session.partition, Other(n.session.partition))
    case InstallWrite(d) => Running(n, Writing) && OnlyPair(n.disk, d, Other(n.session.partition))
    case InstallEnd => Running(n, Writing)
    case CommitBegin =>
      && Running(n, Idle) && n.session.tryboot
      && ReadText(Seen(n)).Pairs? && ReadText(Seen(n)).target == n.session.partition
    case CommitDraft(_) => Running(n, Committing)
    case CommitRename => Running(n, Committing) && n.disk.p1.draft == AutobootText(n.session.partition)
    case CommitEnd => Running(n, Committing)
    case Sync => n.unsynced.Some?
    case RequestTry => n.session.On? && !n.session.tryboot
    case RequestPlain => n.session.On?
    case RebootTry => n.session.On? && Trial in n.session.pending
    case RebootPlain => n.session.On? && Plain in n.session.pending
    case Reset(_) => true
    case DropBit => n.session.Off?
    case BootPlain(k) =>
      n.session.Off? && !n.bit && k > 0 && InFile(n).Pairs? && Bootable(env, n, InFile(n).committed)
    case BootInterrupted(reached, k) =>
      && n.session.Off? && !n.bit && k > 0 && InFile(n).Pairs? && Bootable(env, n, InFile(n).committed)
      && n.counter <= reached <= VersionOf(env, n, InFile(n).committed)
    case BootTrial(k) =>
      n.session.Off? && n.bit && k > 0 && InFile(n).Pairs? && Bootable(env, n, InFile(n).target)
    case TrialFails(k) => n.session.Off? && n.bit
    case TrialFallsBack(k) =>
      n.session.Off? && n.bit && k > 0 && InFile(n).Pairs? && Bootable(env, n, InFile(n).committed)
  }

  function Boot(n: Node, pair: int, tryboot: bool, counter: nat, k: nat): Node {
    n.(session := On(pair, tryboot, Idle, {}), bit := false, counter := counter,
       boots := n.boots + 1, resets := n.resets + k)
  }

  function WithVerb(n: Node, verb: Verb): Node
    requires n.session.On?
  {
    n.(session := n.session.(verb := verb))
  }

  function Next(env: Env, n: Node, a: Action): Node
    requires Enabled(env, n, a)
  {
    match a
    case InstallBegin => WithVerb(n, Writing)
    case InstallWrite(d) => n.(disk := d)
    case InstallEnd => WithVerb(n, Idle)
    case CommitBegin => WithVerb(n, Committing)
    case CommitDraft(text) => n.(disk := n.disk.(p1 := n.disk.p1.(draft := text)))
    case CommitRename => n.(unsynced := Some(n.disk.p1.draft))
    case CommitEnd => WithVerb(n, Idle)
    case Sync => Synced(n)
    case RequestTry => n.(session := n.session.(pending := n.session.pending + {Trial}))
    case RequestPlain => n.(session := n.session.(pending := n.session.pending + {Plain}))
    case RebootTry => Synced(n).(session := Off, bit := true)
    case RebootPlain => Synced(n).(session := Off)
    case Reset(kept) => (if kept then Synced(n) else n).(session := Off, unsynced := None)
    case DropBit => n.(bit := false)
    case BootPlain(k) =>
      Boot(n, InFile(n).committed, false, VersionOf(env, n, InFile(n).committed), k)
    case BootInterrupted(reached, k) => n.(counter := reached, resets := n.resets + k)
    case BootTrial(k) => Boot(n, InFile(n).target, true, n.counter, k)
    case TrialFails(k) => n.(bit := false, resets := n.resets + k)
    case TrialFallsBack(k) => Boot(n, InFile(n).committed, true, n.counter, k)
  }

  ghost predicate Feasible(env: Env, n: Node, acts: seq<Action>)
    decreases |acts|
  {
    acts == [] || (Enabled(env, n, acts[0]) && Feasible(env, Next(env, n, acts[0]), acts[1..]))
  }

  ghost function After(env: Env, n: Node, acts: seq<Action>): Node
    requires Feasible(env, n, acts)
    decreases |acts|
  {
    if acts == [] then n else After(env, Next(env, n, acts[0]), acts[1..])
  }

  // ----------------------------------------------------------------------- safety

  /** A provisioned board that is switched off: a valid file and a committed pair that boots. */
  predicate Initial(env: Env, n: Node) {
    && n.session == Off && !n.bit && n.unsynced == None
    && InFile(n).Pairs? && Bootable(env, n, InFile(n).committed)
  }

  predicate SessionSafe(env: Env, n: Node) {
    n.session.On? ==>
      var s := n.session;
      && Bootable(env, n, s.partition) && !n.bit
      && (s.verb == Writing ==> !s.tryboot) && (s.verb == Committing ==> s.tryboot)
      && (s.tryboot ==> Trial !in s.pending)
      && (!s.tryboot ==> n.unsynced.None? && InFile(n) == Pairs(s.partition, Other(s.partition))
                         && VersionOf(env, n, s.partition) == n.counter)
  }

  predicate Safe(env: Env, n: Node) {
    && InFile(n).Pairs? && Bootable(env, n, InFile(n).committed)
    && (n.unsynced.Some? ==> n.session.On? && IsPair(n.session.partition)
                             && n.unsynced.value == AutobootText(n.session.partition))
    && SessionSafe(env, n)
  }

  lemma OtherPair(pair: int)
    requires IsPair(pair)
    ensures IsPair(Other(pair)) && Other(pair) != pair && Other(Other(pair)) == pair
  {
  }

  lemma SyncKeepsSafe(env: Env, n: Node)
    requires Safe(env, n)
    ensures Safe(env, Synced(n))
    ensures n.unsynced.Some? ==> InFile(Synced(n)) == Pairs(n.session.partition, Other(n.session.partition))
    ensures forall pair :: Bootable(env, Synced(n), pair) == Bootable(env, n, pair)
  {
    hide ReadText, AutobootText;
    if n.unsynced.Some? { WrittenTextReadsBack(n.session.partition); }
  }

  lemma WriteKeepsSafe(env: Env, n: Node, d: Disk)
    requires Safe(env, n) && Enabled(env, n, InstallWrite(d))
    ensures Safe(env, Next(env, n, InstallWrite(d)))
    ensures InFile(Next(env, n, InstallWrite(d))) == InFile(n)
  {
    hide ReadText, AutobootText;
    OtherPair(n.session.partition);
  }

  /** A boot of a bootable pair is safe; a plain one must be of the committed pair and raise the counter to its version. */
  lemma BootIsSafe(env: Env, n: Node, pair: int, tryboot: bool, counter: nat, k: nat)
    requires n.unsynced.None? && InFile(n).Pairs? && IsPair(InFile(n).committed)
    requires InFile(n).target == Other(InFile(n).committed)
    requires Bootable(env, n.(counter := counter), InFile(n).committed) && Bootable(env, n.(counter := counter), pair)
    requires !tryboot ==> pair == InFile(n).committed && counter == VersionOf(env, n, pair)
    ensures Safe(env, Boot(n, pair, tryboot, counter, k))
  {
    hide ReadText, AutobootText;
  }

  lemma BootKeepsSafe(env: Env, n: Node, a: Action)
    requires Safe(env, n) && Enabled(env, n, a)
    requires a.BootPlain? || a.BootInterrupted? || a.BootTrial? || a.TrialFails? || a.TrialFallsBack?
    ensures Safe(env, Next(env, n, a))
  {
    AbPairs(n.disk.p1.autoboot);
    hide ReadText, AutobootText;
    match a
    case BootPlain(k) => BootIsSafe(env, n, InFile(n).committed, false, VersionOf(env, n, InFile(n).committed), k);
    case BootTrial(k) => BootIsSafe(env, n, InFile(n).target, true, n.counter, k);
    case TrialFallsBack(k) => BootIsSafe(env, n, InFile(n).committed, true, n.counter, k);
    case _ =>
  }

  lemma StepKeepsSafe(env: Env, n: Node, a: Action)
    requires Safe(env, n) && Enabled(env, n, a)
    ensures Safe(env, Next(env, n, a))
  {
    hide ReadText, AutobootText;
    match a
    case InstallWrite(d) => WriteKeepsSafe(env, n, d);
    case Sync | RebootTry | RebootPlain | Reset(_) => SyncKeepsSafe(env, n);
    case BootPlain(_) | BootInterrupted(_, _) | BootTrial(_) | TrialFails(_) | TrialFallsBack(_) =>
      BootKeepsSafe(env, n, a);
    case _ =>
  }

  /** In every reachable state the file is a valid A/B file and its committed pair boots. */
  lemma {:induction false} AlwaysSafe(env: Env, n: Node, acts: seq<Action>)
    requires Safe(env, n) && Feasible(env, n, acts)
    ensures Safe(env, After(env, n, acts))
    decreases |acts|
  {
    if acts != [] {
      StepKeepsSafe(env, n, acts[0]);
      AlwaysSafe(env, Next(env, n, acts[0]), acts[1..]);
    }
  }

  /** From a provisioned board, in every reachable state, the committed pair is one that firmware and U-Boot accept. */
  lemma InitialIsSafe(env: Env, n: Node, acts: seq<Action>)
    requires Initial(env, n) && Feasible(env, n, acts)
    ensures var n' := After(env, n, acts);
            && Safe(env, n') && ReadText(n'.disk.p1.autoboot).Pairs?
            && var pair := ReadText(n'.disk.p1.autoboot).committed;
               && IsPair(pair) && env.signed(BootOf(n'.disk, pair).img, BootOf(n'.disk, pair).sig)
               && env.rootMatches(BootOf(n'.disk, pair).img, RootOf(n'.disk, pair))
               && env.version(BootOf(n'.disk, pair).img) >= n'.counter
  {
    AlwaysSafe(env, n, acts);
  }

  /**
   What the environment may do to a board: lose power at any moment, with a rename
   that was not synced kept or lost, drop the tryboot bit, stop a plain boot with the
   counter anywhere on its way up, and fail any trial; and an install may leave any
   contents in the other pair.
   */
  lemma AnythingCanFail(env: Env, n: Node, d: Disk, reached: nat, k: nat)
    requires Safe(env, n)
    ensures forall kept :: Enabled(env, n, Reset(kept)) && Next(env, n, Reset(kept)).session == Off
                           && Next(env, n, Reset(kept)).disk.p1.autoboot == if kept then Seen(n) else n.disk.p1.autoboot
    ensures n.session.Off? ==> Enabled(env, n, DropBit) && !Next(env, n, DropBit).bit
    ensures n.session.Off? && n.bit ==>
              Enabled(env, n, TrialFails(k)) && Next(env, n, TrialFails(k)) == n.(bit := false, resets := n.resets + k)
    ensures n.session.Off? && n.bit && k > 0 ==> Enabled(env, n, TrialFallsBack(k))
    ensures n.session.Off? && !n.bit && k > 0 && n.counter <= reached <= VersionOf(env, n, InFile(n).committed) ==>
              Enabled(env, n, BootInterrupted(reached, k)) && Next(env, n, BootInterrupted(reached, k)).counter == reached
    ensures Running(n, Writing) && OnlyPair(n.disk, d, Other(n.session.partition)) ==>
              Enabled(env, n, InstallWrite(d)) && Next(env, n, InstallWrite(d)).disk == d
  {
    hide ReadText, OnlyPair, AutobootText;
  }

  lemma RunOfThree(env: Env, n: Node, a: Action, b: Action, c: Action)
    requires Enabled(env, n, a) && Enabled(env, Next(env, n, a), b)
    requires Enabled(env, Next(env, Next(env, n, a), b), c)
    ensures Feasible(env, n, [a, b, c])
    ensures After(env, n, [a, b, c]) == Next(env, Next(env, Next(env, n, a), b), c)
  {
    hide Enabled, Next;
    var n1 := Next(env, n, a);
    var n2 := Next(env, n1, b);
    assert [a, b, c][1..] == [b, c] && [b, c][1..] == [c] && [c][1..] == [];
    assert Feasible(env, Next(env, n2, c), []);
    assert Feasible(env, n2, [c]) && After(env, n2, [c]) == Next(env, n2, c);
    assert Feasible(env, n1, [b, c]) && After(env, n1, [b, c]) == Next(env, n2, c);
  }

  /**
   Recovery: whatever was going on, cutting the power and switching the board
   on again ends in a plain session of the committed pair.
   */
  lemma NextPlainBootSucceeds(env: Env, n: Node, renameKept: bool)
    requires Safe(env, n)
    ensures var acts := [Reset(renameKept), DropBit, BootPlain(1)];
            && Feasible(env, n, acts)
            && Recovered(env, n, After(env, n, acts))
  {
    hide ReadText, AutobootText, Feasible, After;
    SyncKeepsSafe(env, n);
    StepKeepsSafe(env, n, Reset(renameKept));
    RunOfThree(env, n, Reset(renameKept), DropBit, BootPlain(1));
  }

  /** A plain session of the committed pair; of the same pair as before unless a commit was under way. */
  predicate Recovered(env: Env, n: Node, n': Node) {
    && InFile(n').Pairs? && IsPair(InFile(n').committed)
    && n'.session == On(InFile(n').committed, false, Idle, {})
    && n'.counter == VersionOf(env, n', InFile(n').committed)
    && (n.unsynced.None? ==> n'.disk == n.disk)
    && (n.session.On? && !n.session.tryboot ==> n'.session.partition == n.session.partition)
  }

  predicate StepsTo(env: Env, n: Node, a: Action, n': Node) {
    Enabled(env, n, a) && Next(env, n, a) == n'
  }

  /** The steps of a commit that nothing interrupts. */
  lemma CommitSteps(env: Env, n: Node)
    requires Running(n, Idle) && n.session.tryboot && n.unsynced.None?
    requires InFile(n).Pairs? && InFile(n).target == n.session.partition
    ensures var pair := n.session.partition;
            var n1, text := WithVerb(n, Committing), AutobootText(pair);
            var n2 := n1.(disk := Drafted(n.disk, pair));
            var n3, n4 := n2.(unsynced := Some(text)), n1.(disk := Rewritten(n.disk, pair));
            && StepsTo(env, n, CommitBegin, n1) && StepsTo(env, n1, CommitDraft(text), n2)
            && StepsTo(env, n2, CommitRename, n3) && StepsTo(env, n3, Sync, n4)
            && StepsTo(env, n4, CommitEnd, n.(disk := Rewritten(n.disk, pair)))
  {
    hide ReadText, AutobootText;
  }

  function Waiting(n: Node, r: Reboot): Node
    requires n.session.On?
  {
    n.(session := n.session.(pending := n.session.pending + {r}))
  }

  /** An install that writes the other pair in one go, and the trial boot of it. */
  lemma TrialSteps(env: Env, n: Node, d: Disk)
    requires Safe(env, n) && Running(n, Idle) && n.session == On(n.session.partition, false, Idle, {})
    requires OnlyPair(n.disk, d, Other(n.session.partition))
    requires Bootable(env, n.(disk := d), Other(n.session.partition))
    ensures var n1, n3 := WithVerb(n, Writing), n.(disk := d);
            var n2, n5 := n1.(disk := d), n3.(session := Off, bit := true);
            && StepsTo(env, n, InstallBegin, n1) && StepsTo(env, n1, InstallWrite(d), n2)
            && StepsTo(env, n2, InstallEnd, n3) && StepsTo(env, n3, RequestTry, Waiting(n3, Trial))
            && StepsTo(env, Waiting(n3, Trial), RebootTry, n5)
            && StepsTo(env, n5, BootTrial(1), Boot(n5, Other(n.session.partition), true, n.counter, 1))
            && InFile(n3) == InFile(n)
  {
    OtherPair(n.session.partition);
    assert d.p1.autoboot == n.disk.p1.autoboot;
    hide ReadText, AutobootText, OnlyPair;
  }

  /** The plain reboot after a commit. */
  lemma PlainSteps(env: Env, n: Node)
    requires Safe(env, n) && n.session.On? && n.unsynced.None?
    ensures var n1 := n.(session := Off);
            && StepsTo(env, n, RequestPlain, Waiting(n, Plain)) && StepsTo(env, Waiting(n, Plain), RebootPlain, n1)
            && IsPair(InFile(n).committed)
            && StepsTo(env, n1, BootPlain(1),
                 Boot(n1, InFile(n).committed, false, VersionOf(env, n, InFile(n).committed), 1))
  {
    hide ReadText, AutobootText;
  }

  /** After a failed trial the committed pair may run with the tryboot flag set: every verb that matters refuses. */
  lemma FallbackIsHarmless(env: Env, n: Node, k: nat)
    requires Safe(env, n) && Enabled(env, n, TrialFallsBack(k))
    ensures var n' := Next(env, n, TrialFallsBack(k));
            && n'.session == On(InFile(n).committed, true, Idle, {}) && n'.counter == n.counter && n'.disk == n.disk
            && !Enabled(env, n', CommitBegin) && !Enabled(env, n', InstallBegin) && !Enabled(env, n', RequestTry)
  {
    AbPairs(n.disk.p1.autoboot);
    OtherPair(InFile(n).committed);
    hide ReadText, Bootable;
  }

  // ---------------------------------------------------------------------- counter

  predicate PlainBoot(a: Action) {
    a.BootPlain? || a.BootInterrupted?
  }

  lemma StepKeepsCounter(env: Env, n: Node, a: Action)
    requires Safe(env, n) && Enabled(env, n, a)
    ensures Next(env, n, a).counter >= n.counter
    ensures !PlainBoot(a) ==> Next(env, n, a).counter == n.counter
  {
    hide ReadText, AutobootText;
  }

  /** The counter never falls, and only plain boots move it: no trial does. */
  lemma {:induction false} CounterOverRun(env: Env, n: Node, acts: seq<Action>)
    requires Safe(env, n) && Feasible(env, n, acts)
    ensures After(env, n, acts).counter >= n.counter
    ensures (forall i :: 0 <= i < |acts| ==> !PlainBoot(acts[i])) ==> After(env, n, acts).counter == n.counter
    decreases |acts|
  {
    if acts != [] {
      StepKeepsSafe(env, n, acts[0]);
      StepKeepsCounter(env, n, acts[0]);
      CounterOverRun(env, Next(env, n, acts[0]), acts[1..]);
    }
  }

  /** In every plain session the counter is the version of the running image. */
  lemma PlainSessionIsAtCounter(env: Env, n: Node, acts: seq<Action>)
    requires Safe(env, n) && Feasible(env, n, acts)
    ensures var n' := After(env, n, acts);
            n'.session.On? && !n'.session.tryboot ==>
              && IsPair(n'.session.partition)
              && InFile(n') == Pairs(n'.session.partition, Other(n'.session.partition))
              && n'.counter == VersionOf(env, n', n'.session.partition)
  {
    AlwaysSafe(env, n, acts);
  }

  /** Once the counter has passed the version of an image, no pair that holds it boots or runs, ever again. */
  lemma NoRollback(env: Env, n: Node, acts: seq<Action>, img: Bytes)
    requires Safe(env, n) && Feasible(env, n, acts)
    requires env.version(img) < n.counter
    ensures var n' := After(env, n, acts);
            && (forall pair :: IsPair(pair) && BootOf(n'.disk, pair).img == img ==> !Bootable(env, n', pair))
            && (n'.session.On? ==> IsPair(n'.session.partition)
                                   && BootOf(n'.disk, n'.session.partition).img != img)
  {
    AlwaysSafe(env, n, acts);
    CounterOverRun(env, n, acts);
  }

  // ------------------------------------------------------------------ running pair

  predicate SamePair(d: Disk, d': Disk, pair: int)
    requires IsPair(pair)
  {
    && BootOf(d', pair).img == BootOf(d, pair).img && BootOf(d', pair).sig == BootOf(d, pair).sig
    && RootOf(d', pair) == RootOf(d, pair)
  }

  lemma StepKeepsPair(env: Env, n: Node, a: Action, pair: int)
    requires Safe(env, n) && Enabled(env, n, a) && IsPair(pair)
    requires n.session.On? ==> n.session.partition == pair || n.session.tryboot
    ensures SamePair(n.disk, Next(env, n, a).disk, pair)
    ensures Next(env, n, a).boots >= n.boots
    ensures Next(env, n, a).boots == n.boots && Next(env, n, a).session.On? ==>
              n.session.On? && Next(env, n, a).session.partition == n.session.partition
              && Next(env, n, a).session.tryboot == n.session.tryboot
  {
    hide ReadText, AutobootText;
  }

  lemma {:induction false} BootsGrow(env: Env, n: Node, acts: seq<Action>)
    requires Feasible(env, n, acts)
    ensures After(env, n, acts).boots >= n.boots
    decreases |acts|
  {
    hide ReadText, AutobootText;
    if acts != [] { BootsGrow(env, Next(env, n, acts[0]), acts[1..]); }
  }

  /** Nothing that happens in a session, and no power loss in it, touches the pair that runs. */
  lemma {:induction false} RunningPairUntouched(env: Env, n: Node, acts: seq<Action>, pair: int)
    requires Safe(env, n) && Feasible(env, n, acts) && IsPair(pair)
    requires n.session.On? ==> n.session.partition == pair
    requires After(env, n, acts).boots == n.boots
    ensures SamePair(n.disk, After(env, n, acts).disk, pair)
    decreases |acts|
  {
    if acts != [] {
      var n1 := Next(env, n, acts[0]);
      StepKeepsSafe(env, n, acts[0]);
      StepKeepsPair(env, n, acts[0], pair);
      BootsGrow(env, n1, acts[1..]);
      RunningPairUntouched(env, n1, acts[1..], pair);
    }
  }
}
