/** The worker's failure handling (srworker.py): `run_process` re-enters itself from its own error
    handler. The recursion is shown to run a flat script, whose properties are then proved. */
module Worker {
  import opened Basics

  /** The fourteen launches of a run; `dnsupdater`, `dnscheck` and `pcap` appear once per argument. */
  datatype Stage =
    | Downloader | Unpacker | InfoGatherer | PcapStart | DnsSet | DnsCheck | ArpFixer | Runner
    | DnsRestore | DnsCheckPublic | PcapStop | Collator | Archiver | Uploader

  /** One launched subprocess: its log number and whether it exited cleanly. */
  datatype Launch = Launch(stage: Stage, log: int, ok: bool)

  type Trace = seq<Launch>

  function FailedRestores(tr: Trace): nat {
    if tr == [] then 0
    else FailedRestores(tr[..|tr| - 1]) + (if tr[|tr| - 1].stage.DnsRestore? && !tr[|tr| - 1].ok then 1 else 0)
  }

  /** Which launch fails may depend on everything launched before. */
  datatype Env = Env(fails: (Trace, Stage) -> bool, patience: nat) {
    /** After `patience` failed DNS restores the next restore succeeds. */
    ghost predicate Settles() {
      forall tr :: FailedRestores(tr) >= patience ==> !fails(tr, DnsRestore)
    }

    function After(tr: Trace, stage: Stage): (r: Trace)
      ensures |r| == |tr| + 1 && tr <= r
    {
      tr + [Launch(stage, |tr| + 1, !fails(tr, stage))]
    }
  }

  /** Environments in which DNS restores fail only finitely often: there every run terminates. */
  type World = env: Env | env.Settles() witness Env((_, _) => false, 0)

  // ---------------------------------------------------------------- the flat script

  /** How many more times restoring DNS can fail. */
  function RestoreFailuresLeft(env: World, tr: Trace): nat {
    var n := FailedRestores(tr);
    if n < env.patience then env.patience - n else 0
  }

  lemma FailureUsesPatience(env: World, tr: Trace)
    requires env.fails(tr, DnsRestore)
    ensures RestoreFailuresLeft(env, env.After(tr, DnsRestore)) < RestoreFailuresLeft(env, tr)
  {
    var t := env.After(tr, DnsRestore);
    assert t[..|t| - 1] == tr;
  }

  /** Restores until one succeeds. */
  ghost function UntilRestored(env: World, tr: Trace): (r: Trace)
    ensures |tr| < |r| && tr <= r
    decreases RestoreFailuresLeft(env, tr)
  {
    var t := env.After(tr, DnsRestore);
    if env.fails(tr, DnsRestore) then FailureUsesPatience(env, tr); UntilRestored(env, t) else t
  }

  lemma {:induction false} RestoresOnly(env: World, tr: Trace)
    ensures var r := UntilRestored(env, tr);
      r[|r| - 1].ok && RestoresFrom(r, |tr|)
    decreases RestoreFailuresLeft(env, tr)
  {
    if env.fails(tr, DnsRestore) {
      FailureUsesPatience(env, tr);
      var t := env.After(tr, DnsRestore);
      RestoresOnly(env, t);
      assert UntilRestored(env, tr)[|tr|] == t[|tr|];
    }
  }

  /** A launch; inside the DNS window a failure is followed by restoring DNS. */
  ghost function One(env: World, tr: Trace, stage: Stage, window: bool): (r: Trace)
    ensures |tr| < |r| && tr <= r && r[|tr|].stage == stage && r[|tr|].ok == !env.fails(tr, stage)
  {
    var t := env.After(tr, stage);
    if env.fails(tr, stage) && window then UntilRestored(env, t) else t
  }

  /** A stage and, if it fails, archiver and uploader when each is still due, in that order. */
  ghost function Cascade(env: World, tr: Trace, stage: Stage, window: bool, archive: bool, upload: bool): (r: Trace)
    ensures |tr| < |r| && tr <= r && r[|tr|].stage == stage && r[|tr|].ok == !env.fails(tr, stage)
  {
    var t := One(env, tr, stage, window);
    if !env.fails(tr, stage) then t
    else
      var archived := if archive then One(env, t, Archiver, window) else t;
      if upload then One(env, archived, Uploader, window) else archived
  }

  /** The body of `run_test`: stages, and assignments to the three flags between them. */
  datatype Script =
    | End
    | Run(stage: Stage, next: Script)
    | Window(open: bool, next: Script)
    | ArchiveHandled(next: Script)
    | UploadHandled(next: Script)

  const TEST := Run(Downloader, Run(Unpacker, Run(InfoGatherer, Run(PcapStart, Run(DnsSet, Window(true, IN_WINDOW))))))
  const IN_WINDOW := Run(DnsCheck, Run(ArpFixer, Run(Runner, Window(false, AFTER_WINDOW))))
  const AFTER_WINDOW := Run(DnsRestore, Run(DnsCheckPublic, Run(PcapStop, Run(Collator, SAVING))))
  const SAVING := ArchiveHandled(Run(Archiver, UploadHandled(Run(Uploader, End))))

  ghost function RunScript(env: World, tr: Trace, script: Script, window: bool, archive: bool, upload: bool): (r: Trace)
    ensures |tr| <= |r| && tr <= r
    decreases script
  {
    match script
    case End => tr
    case Run(stage, next) =>
      var t := Cascade(env, tr, stage, window, archive, upload);
      if env.fails(tr, stage) then t else RunScript(env, t, next, window, archive, upload)
    case Window(open, next) => RunScript(env, tr, next, open, archive, upload)
    case ArchiveHandled(next) => RunScript(env, tr, next, window, false, upload)
    case UploadHandled(next) => RunScript(env, tr, next, window, archive, false)
  }

  ghost function TestRun(env: World): Trace
  {
    RunScript(env, [], TEST, false, true, true)
  }

  // ---------------------------------------------------------------- the order of the stages

  const ORDER := [Downloader, Unpacker, InfoGatherer, PcapStart, DnsSet, DnsCheck, ArpFixer, Runner,
                  DnsRestore, DnsCheckPublic, PcapStop, Collator, Archiver, Uploader]

  function Stages(script: Script): seq<Stage> {
    match script
    case End => []
    case Run(stage, next) => [stage] + Stages(next)
    case Window(_, next) => Stages(next)
    case ArchiveHandled(next) => Stages(next)
    case UploadHandled(next) => Stages(next)
  }

  /** The launches from `from` on follow the order up to the first that fails, and all are made if none
      does. */
  predicate Follows(r: Trace, from: nat, order: seq<Stage>)
    decreases |order|
  {
    if order == [] then from == |r|
    else from < |r| && r[from].stage == order[0] && (r[from].ok ==> Follows(r, from + 1, order[1..]))
  }

  lemma {:induction false} ScriptFollows(env: World, tr: Trace, script: Script, window: bool, archive: bool, upload: bool)
    ensures Follows(RunScript(env, tr, script, window, archive, upload), |tr|, Stages(script))
    decreases script
  {
    match script
    case End =>
    case Run(stage, next) =>
      var t := Cascade(env, tr, stage, window, archive, upload);
      hide Cascade;
      var r := RunScript(env, tr, script, window, archive, upload);
      assert r[|tr|] == t[|tr|];
      if !env.fails(tr, stage) {
        LaunchedOnce(env, tr, stage, window, archive, upload);
        ScriptFollows(env, t, next, window, archive, upload);
      }
      assert Stages(script)[1..] == Stages(next);
    case Window(open, next) => ScriptFollows(env, tr, next, open, archive, upload);
    case ArchiveHandled(next) => ScriptFollows(env, tr, next, window, false, upload);
    case UploadHandled(next) => ScriptFollows(env, tr, next, window, archive, false);
  }

  lemma StagesOfRun(env: World)
    ensures Follows(TestRun(env), 0, ORDER)
  {
    ScriptFollows(env, [], TEST, false, true, true);
    StagesBeforeWindow(IN_WINDOW);
    StagesInWindow(AFTER_WINDOW);
    StagesAfterWindow(SAVING);
    StagesSaving();
    hide Stages, RunScript, Follows;
    assert Stages(TEST) == ORDER;
  }

  lemma StagesBeforeWindow(rest: Script)
    ensures Stages(Run(Downloader, Run(Unpacker, Run(InfoGatherer, Run(PcapStart, Run(DnsSet, Window(true, rest)))))))
            == [Downloader, Unpacker, InfoGatherer, PcapStart, DnsSet] + Stages(rest)
  {
    var set_ := Run(DnsSet, Window(true, rest));
    assert Stages(set_) == [DnsSet] + Stages(rest);
    assert Stages(Run(InfoGatherer, Run(PcapStart, set_))) == [InfoGatherer, PcapStart] + Stages(set_);
  }

  lemma StagesInWindow(rest: Script)
    ensures Stages(Run(DnsCheck, Run(ArpFixer, Run(Runner, Window(false, rest)))))
            == [DnsCheck, ArpFixer, Runner] + Stages(rest)
  {
    assert Stages(Run(Runner, Window(false, rest))) == [Runner] + Stages(rest);
  }

  lemma StagesAfterWindow(rest: Script)
    ensures Stages(Run(DnsRestore, Run(DnsCheckPublic, Run(PcapStop, Run(Collator, rest)))))
            == [DnsRestore, DnsCheckPublic, PcapStop, Collator] + Stages(rest)
  {
    assert Stages(Run(PcapStop, Run(Collator, rest))) == [PcapStop, Collator] + Stages(rest);
  }

  lemma StagesSaving()
    ensures Stages(ArchiveHandled(Run(Archiver, UploadHandled(Run(Uploader, End))))) == [Archiver, Uploader]
  {
    assert Stages(Run(Uploader, End)) == [Uploader];
  }

  // ---------------------------------------------------------------- archiving and uploading

  predicate IsSave(stage: Stage) {
    stage.Archiver? || stage.Uploader?
  }

  /** The archiver and uploader launches, in order. */
  function Saves(tr: Trace): seq<Stage> {
    if tr == [] then []
    else Saves(tr[..|tr| - 1]) + (if IsSave(tr[|tr| - 1].stage) then [tr[|tr| - 1].stage] else [])
  }

  lemma SavesMore(tr: Trace, l: Launch)
    ensures Saves(tr + [l]) == Saves(tr) + if IsSave(l.stage) then [l.stage] else []
  {
    assert (tr + [l])[..|tr|] == tr;
  }

  lemma {:induction false} SavesUntilRestored(env: World, tr: Trace)
    ensures Saves(UntilRestored(env, tr)) == Saves(tr)
    decreases RestoreFailuresLeft(env, tr)
  {
    var t := env.After(tr, DnsRestore);
    SavesMore(tr, t[|tr|]);
    if env.fails(tr, DnsRestore) {
      FailureUsesPatience(env, tr);
      SavesUntilRestored(env, t);
    }
  }

  lemma SavesOne(env: World, tr: Trace, stage: Stage, window: bool)
    ensures Saves(One(env, tr, stage, window)) == Saves(tr) + if IsSave(stage) then [stage] else []
  {
    var t := env.After(tr, stage);
    SavesMore(tr, t[|tr|]);
    if env.fails(tr, stage) && window {
      SavesUntilRestored(env, t);
    }
  }

  lemma SavesCascade(env: World, tr: Trace, stage: Stage, window: bool, archive: bool, upload: bool)
    ensures Saves(Cascade(env, tr, stage, window, archive, upload))
            == Saves(tr) + (if IsSave(stage) then [stage] else [])
               + (if env.fails(tr, stage) && archive then [Archiver] else [])
               + (if env.fails(tr, stage) && upload then [Uploader] else [])
  {
    hide One, UntilRestored;
    var t := One(env, tr, stage, window);
    SavesOne(env, tr, stage, window);
    if env.fails(tr, stage) {
      SavesOne(env, t, Archiver, window);
      SavesOne(env, if archive then One(env, t, Archiver, window) else t, Uploader, window);
    }
  }

  /** Only ordinary stages before the closing archiver and uploader. */
  predicate EndsSaving(script: Script) {
    match script
    case Run(stage, next) => !IsSave(stage) && EndsSaving(next)
    case Window(_, next) => EndsSaving(next)
    case ArchiveHandled(_) => script == SAVING
    case _ => false
  }

  lemma {:induction false} SavesOnce(env: World, tr: Trace, script: Script, window: bool)
    requires EndsSaving(script) && Saves(tr) == []
    ensures Saves(RunScript(env, tr, script, window, true, true)) == [Archiver, Uploader]
    decreases script
  {
    hide Cascade, Saves;
    match script
    case Run(stage, next) =>
      SavesCascade(env, tr, stage, window, true, true);
      if !env.fails(tr, stage) {
        SavesOnce(env, Cascade(env, tr, stage, window, true, true), next, window);
      }
    case Window(open, next) => SavesOnce(env, tr, next, open);
    case ArchiveHandled(_) =>
      SavesCascade(env, tr, Archiver, window, false, true);
      var t := Cascade(env, tr, Archiver, window, false, true);
      SavesCascade(env, t, Uploader, window, false, false);
  }

  lemma SavesOfRun(env: World)
    ensures Saves(TestRun(env)) == [Archiver, Uploader]
  {
    assert EndsSaving(AFTER_WINDOW);
    assert EndsSaving(IN_WINDOW);
    SavesOnce(env, [], TEST, false);
  }

  // ---------------------------------------------------------------- log numbers

  predicate Numbered(tr: Trace) {
    forall i :: 0 <= i < |tr| ==> tr[i].log == i + 1
  }

  lemma {:induction false} NumberedUntilRestored(env: World, tr: Trace)
    requires Numbered(tr)
    ensures Numbered(UntilRestored(env, tr))
    decreases RestoreFailuresLeft(env, tr)
  {
    if env.fails(tr, DnsRestore) {
      FailureUsesPatience(env, tr);
      NumberedUntilRestored(env, env.After(tr, DnsRestore));
    }
  }

  lemma NumberedOne(env: World, tr: Trace, stage: Stage, window: bool)
    requires Numbered(tr)
    ensures Numbered(One(env, tr, stage, window))
  {
    if env.fails(tr, stage) && window {
      NumberedUntilRestored(env, env.After(tr, stage));
    }
  }

  lemma NumberedCascade(env: World, tr: Trace, stage: Stage, window: bool, archive: bool, upload: bool)
    requires Numbered(tr)
    ensures Numbered(Cascade(env, tr, stage, window, archive, upload))
  {
    var t := One(env, tr, stage, window);
    NumberedOne(env, tr, stage, window);
    NumberedOne(env, t, Archiver, window);
    NumberedOne(env, t, Uploader, window);
    NumberedOne(env, One(env, t, Archiver, window), Uploader, window);
  }

  lemma {:induction false} NumberedScript(env: World, tr: Trace, script: Script, window: bool, archive: bool, upload: bool)
    requires Numbered(tr)
    ensures Numbered(RunScript(env, tr, script, window, archive, upload))
    decreases script
  {
    match script
    case End =>
    case Run(stage, next) =>
      NumberedCascade(env, tr, stage, window, archive, upload);
      if !env.fails(tr, stage) {
        NumberedScript(env, Cascade(env, tr, stage, window, archive, upload), next, window, archive, upload);
      }
    case Window(open, next) => NumberedScript(env, tr, next, open, archive, upload);
    case ArchiveHandled(next) => NumberedScript(env, tr, next, window, false, upload);
    case UploadHandled(next) => NumberedScript(env, tr, next, window, archive, false);
  }

  lemma LogsOfRun(env: World)
    ensures Numbered(TestRun(env))
  {
    NumberedScript(env, [], TEST, false, true, true);
  }

  /** Outside the DNS window a failing stage launches the archiver and the uploader if they are still
      due and nothing else: at most two further launches. */
  lemma FailureOutsideWindow(env: World, tr: Trace, stage: Stage, archive: bool, upload: bool)
    requires env.fails(tr, stage)
    ensures var r := Cascade(env, tr, stage, false, archive, upload);
      && |r| == |tr| + 1 + (if archive then 1 else 0) + (if upload then 1 else 0)
      && forall i :: |tr| < i < |r| ==> IsSave(r[i].stage)
  {
  }

  // ---------------------------------------------------------------- the DNS window

  ghost predicate RestoredBetween(tr: Trace, from: int, to: int) {
    exists m :: 0 <= from < m < to <= |tr| && tr[m].stage == DnsRestore && tr[m].ok
  }

  /** In the window every archiver and uploader launch a failure causes comes after a restore that
      succeeded, and such a restore is launched in any case. */
  lemma RestoreComesFirst(env: World, tr: Trace, stage: Stage, archive: bool, upload: bool)
    requires env.fails(tr, stage) && !IsSave(stage)
    ensures var r := Cascade(env, tr, stage, true, archive, upload);
      && RestoredBetween(r, |tr|, |r|)
      && forall k :: |tr| <= k < |r| && IsSave(r[k].stage) ==> RestoredBetween(r, |tr|, k)
  {
    var r := Cascade(env, tr, stage, true, archive, upload);
    var restored := UntilRestored(env, env.After(tr, stage));
    var m := |restored| - 1;
    RestoresOnly(env, env.After(tr, stage));
    assert restored <= r;
    assert r[m] == restored[m];
    assert forall k :: |tr| <= k <= m ==> r[k] == restored[k] && !IsSave(restored[k].stage);
    forall k | |tr| <= k < |r| && IsSave(r[k].stage) ensures RestoredBetween(r, |tr|, k) {
      assert m < k;
    }
  }

  predicate InWindow(stage: Stage) {
    stage.DnsCheck? || stage.ArpFixer? || stage.Runner?
  }

  /** A restore follows, and a failed window stage is followed by a successful restore before anything
      is archived or uploaded. */
  ghost predicate CleanedUp(r: Trace, from: nat) {
    && (exists k :: from <= k < |r| && r[k].stage == DnsRestore)
    && (forall j, k :: from <= j < |r| && 0 <= k < |r| && InWindow(r[j].stage) && !r[j].ok && IsSave(r[k].stage)
          ==> RestoredBetween(r, j, k))
  }

  predicate Handler(stage: Stage) {
    stage.DnsRestore? || IsSave(stage)
  }

  predicate Mentions(script: Script, stage: Stage) {
    match script
    case End => false
    case Run(s, next) => s == stage || Mentions(next, stage)
    case Window(_, next) => Mentions(next, stage)
    case ArchiveHandled(next) => Mentions(next, stage)
    case UploadHandled(next) => Mentions(next, stage)
  }

  ghost predicate RestoresFrom(r: Trace, from: nat) {
    forall i :: from <= i < |r| ==> r[i].stage == DnsRestore
  }

  ghost predicate HandlersFrom(r: Trace, from: nat) {
    forall i :: from <= i < |r| ==> Handler(r[i].stage)
  }

  ghost predicate MentionedFrom(r: Trace, from: nat, script: Script) {
    forall i :: from <= i < |r| ==> Handler(r[i].stage) || Mentions(script, r[i].stage)
  }

  lemma CascadeStages(env: World, tr: Trace, stage: Stage, window: bool, archive: bool, upload: bool)
    ensures HandlersFrom(Cascade(env, tr, stage, window, archive, upload), |tr| + 1)
  {
    OneStages(env, tr, stage, window);
    var t := One(env, tr, stage, window);
    OneStages(env, t, Archiver, window);
    OneStages(env, if archive then One(env, t, Archiver, window) else t, Uploader, window);
  }

  lemma OneStages(env: World, tr: Trace, stage: Stage, window: bool)
    ensures RestoresFrom(One(env, tr, stage, window), |tr| + 1)
  {
    RestoresOnly(env, env.After(tr, stage));
  }

  /** A run launches only the stages its script mentions and those of the error handler. */
  lemma {:induction false} ScriptStages(env: World, tr: Trace, script: Script, window: bool, archive: bool, upload: bool)
    ensures MentionedFrom(RunScript(env, tr, script, window, archive, upload), |tr|, script)
    decreases script
  {
    hide Cascade;
    match script
    case End =>
    case Run(stage, next) =>
      var t := Cascade(env, tr, stage, window, archive, upload);
      CascadeStages(env, tr, stage, window, archive, upload);
      if !env.fails(tr, stage) {
        ScriptStages(env, t, next, window, archive, upload);
        var r := RunScript(env, t, next, window, archive, upload);
        assert forall i :: |tr| <= i < |t| ==> r[i] == t[i];
      }
    case Window(open, next) =>
      ScriptStages(env, tr, next, open, archive, upload);
    case ArchiveHandled(next) => ScriptStages(env, tr, next, window, false, upload);
    case UploadHandled(next) => ScriptStages(env, tr, next, window, archive, false);
  }

  /** Window stages, then the end of the window and the normal restore. */
  predicate WindowThenRestore(script: Script) {
    match script
    case Run(stage, next) => InWindow(stage) && WindowThenRestore(next)
    case Window(open, next) =>
      !open && next.Run? && next.stage == DnsRestore
      && !Mentions(next, DnsCheck) && !Mentions(next, ArpFixer) && !Mentions(next, Runner)
    case _ => false
  }

  ghost predicate AllFine(tr: Trace, from: nat) {
    && (forall i :: 0 <= i < |tr| ==> !IsSave(tr[i].stage))
    && (forall i :: from <= i < |tr| ==> tr[i].ok)
  }

  lemma FineMore(env: World, tr: Trace, stage: Stage, window: bool, archive: bool, upload: bool, from: nat)
    requires AllFine(tr, from) && !IsSave(stage) && !env.fails(tr, stage)
    ensures AllFine(Cascade(env, tr, stage, window, archive, upload), from)
  {
  }

  lemma {:induction false} WindowCleansUp(env: World, tr: Trace, script: Script, from: nat)
    requires WindowThenRestore(script) && from <= |tr| && AllFine(tr, from)
    ensures CleanedUp(RunScript(env, tr, script, true, true, true), from)
    decreases script
  {
    hide Cascade;
    match script
    case Run(stage, next) =>
      if env.fails(tr, stage) {
        RestoreComesFirst(env, tr, stage, true, true);
        CascadeStages(env, tr, stage, true, true, true);
      } else {
        FineMore(env, tr, stage, true, true, true, from);
        WindowCleansUp(env, Cascade(env, tr, stage, true, true, true), next, from);
      }
    case Window(_, next) =>
      ScriptStages(env, tr, next, false, true, true);
      var r := RunScript(env, tr, next, false, true, true);
      assert r[|tr|].stage == DnsRestore;
      assert forall j :: |tr| <= j < |r| ==> !InWindow(r[j].stage);
      assert forall j :: from <= j < |tr| ==> r[j] == tr[j];
  }

  /** Ordinary stages up to the DNS change, which opens the window when it succeeds. */
  predicate SetsDns(script: Script) {
    match script
    case Run(stage, next) =>
      if stage == DnsSet then next.Window? && next.open && WindowThenRestore(next.next) && !Mentions(next, DnsSet)
      else !InWindow(stage) && !IsSave(stage) && SetsDns(next)
    case _ => false
  }

  lemma {:induction false} SetThenCleanedUp(env: World, tr: Trace, script: Script, i: nat)
    requires SetsDns(script) && AllFine(tr, 0)
    requires var r := RunScript(env, tr, script, false, true, true);
      |tr| <= i < |r| && r[i].stage == DnsSet && r[i].ok
    ensures CleanedUp(RunScript(env, tr, script, false, true, true), i + 1)
    decreases script
  {
    hide Cascade, WindowThenRestore;
    var stage, next := script.stage, script.next;
    CascadeStages(env, tr, stage, false, true, true);
    if !env.fails(tr, stage) {
      var t := Cascade(env, tr, stage, false, true, true);
      FineMore(env, tr, stage, false, true, true, 0);
      LaunchedOnce(env, tr, stage, false, true, true);
      if stage == DnsSet {
        ScriptStages(env, t, next, false, true, true);
        WindowCleansUp(env, t, next.next, |tr| + 1);
      } else {
        SetThenCleanedUp(env, t, next, i);
      }
    }
  }

  lemma LaunchedOnce(env: World, tr: Trace, stage: Stage, window: bool, archive: bool, upload: bool)
    requires !env.fails(tr, stage)
    ensures |Cascade(env, tr, stage, window, archive, upload)| == |tr| + 1
  {
  }

  ghost predicate Restored(r: Trace, from: nat) {
    exists k :: from <= k < |r| && r[k].stage == DnsRestore && r[k].ok
  }

  ghost predicate WindowFailed(r: Trace, from: nat) {
    exists j :: from <= j < |r| && InWindow(r[j].stage) && !r[j].ok
  }

  /** The launch at `k` is a restore that succeeded. */
  predicate RestoresAt(r: Trace, k: nat) {
    k < |r| && r[k].stage == DnsRestore && r[k].ok
  }

  function WindowSize(script: Script): nat {
    match script
    case Run(_, next) => 1 + WindowSize(next)
    case _ => 0
  }

  /** DNS ends up restored exactly when a window stage failed, or else the one normal restore succeeded. */
  lemma {:induction false} WindowRestores(env: World, tr: Trace, script: Script)
    requires WindowThenRestore(script)
    ensures var r := RunScript(env, tr, script, true, true, true);
      Restored(r, |tr|) <==> WindowFailed(r, |tr|) || RestoresAt(r, |tr| + WindowSize(script))
    decreases script
  {
    hide Cascade;
    var r := RunScript(env, tr, script, true, true, true);
    match script
    case Run(stage, next) =>
      var t := Cascade(env, tr, stage, true, true, true);
      assert r[|tr|] == t[|tr|];
      if env.fails(tr, stage) {
        RestoreComesFirst(env, tr, stage, true, true);
      } else {
        LaunchedOnce(env, tr, stage, true, true, true);
        WindowRestores(env, t, next);
      }
    case Window(_, next) =>
      ScriptStages(env, tr, next, false, true, true);
      assert r[|tr|].stage == DnsRestore && !WindowFailed(r, |tr|);
      if env.fails(tr, DnsRestore) {
        FailureOutsideWindow(env, tr, DnsRestore, true, true);
      }
  }

  function WindowOf(script: Script): Script {
    match script
    case Run(stage, next) => if stage == DnsSet && next.Window? then next.next else WindowOf(next)
    case _ => End
  }

  lemma {:induction false} SetThenRestored(env: World, tr: Trace, script: Script, i: nat)
    requires SetsDns(script)
    requires var r := RunScript(env, tr, script, false, true, true);
      |tr| <= i < |r| && r[i].stage == DnsSet && r[i].ok
    ensures var r := RunScript(env, tr, script, false, true, true);
      Restored(r, i + 1) <==> WindowFailed(r, i + 1) || RestoresAt(r, i + 1 + WindowSize(WindowOf(script)))
    decreases script
  {
    hide Cascade, WindowThenRestore, WindowSize;
    var stage, next := script.stage, script.next;
    CascadeStages(env, tr, stage, false, true, true);
    if !env.fails(tr, stage) {
      var t := Cascade(env, tr, stage, false, true, true);
      LaunchedOnce(env, tr, stage, false, true, true);
      if stage == DnsSet {
        ScriptStages(env, t, next, false, true, true);
        WindowRestores(env, t, next.next);
      } else {
        SetThenRestored(env, t, next, i);
      }
    }
  }

  lemma DnsOfRun(env: World, i: nat)
    requires i < |TestRun(env)| && TestRun(env)[i].stage == DnsSet && TestRun(env)[i].ok
    ensures CleanedUp(TestRun(env), i + 1)
    ensures Restored(TestRun(env), i + 1) <==> WindowFailed(TestRun(env), i + 1) || RestoresAt(TestRun(env), i + 4)
  {
    TestSetsDns();
    TestWindow(IN_WINDOW);
    ThreeStages(AFTER_WINDOW);
    hide SetsDns, RunScript, WindowOf, WindowSize;
    SetThenCleanedUp(env, [], TEST, i);
    SetThenRestored(env, [], TEST, i);
  }

  lemma TestWindow(rest: Script)
    ensures WindowOf(Run(Downloader, Run(Unpacker, Run(InfoGatherer, Run(PcapStart, Run(DnsSet, Window(true, rest)))))))
            == rest
  {
    var set_ := Run(DnsSet, Window(true, rest));
    assert WindowOf(set_) == rest;
    assert WindowOf(Run(InfoGatherer, Run(PcapStart, set_))) == rest;
  }

  lemma ThreeStages(rest: Script)
    ensures WindowSize(Run(DnsCheck, Run(ArpFixer, Run(Runner, Window(false, rest))))) == 3
  {
    assert WindowSize(Run(Runner, Window(false, rest))) == 1;
  }

  lemma TestSetsDns()
    ensures SetsDns(TEST)
  {
    NotAfterWindow(DnsCheck);
    NotAfterWindow(ArpFixer);
    NotAfterWindow(Runner);
    NotAfterWindow(DnsSet);
    WindowShape();
    BeforeSet(IN_WINDOW);
  }

  lemma BeforeSet(rest: Script)
    requires WindowThenRestore(rest) && !Mentions(Window(true, rest), DnsSet)
    ensures SetsDns(Run(Downloader, Run(Unpacker, Run(InfoGatherer, Run(PcapStart, Run(DnsSet, Window(true, rest)))))))
  {
    hide WindowThenRestore, Mentions;
    var set_ := Run(DnsSet, Window(true, rest));
    assert SetsDns(set_);
    assert SetsDns(Run(InfoGatherer, Run(PcapStart, set_)));
  }

  lemma WindowShape()
    requires forall s :: InWindow(s) || s == DnsSet ==> !Mentions(AFTER_WINDOW, s)
    ensures WindowThenRestore(IN_WINDOW) && !Mentions(Window(true, IN_WINDOW), DnsSet)
  {
    var end := Window(false, AFTER_WINDOW);
    assert WindowThenRestore(end) && !Mentions(end, DnsSet);
    assert WindowThenRestore(Run(Runner, end)) && !Mentions(Run(Runner, end), DnsSet);
    assert !Mentions(Run(ArpFixer, Run(Runner, end)), DnsSet);
  }

  lemma NotAfterWindow(stage: Stage)
    requires InWindow(stage) || stage == DnsSet
    ensures !Mentions(AFTER_WINDOW, stage)
  {
    assert !Mentions(SAVING, stage);
  }

  // ---------------------------------------------------------------- when the recursion ends

  /** The launches after `n` further restores, whatever comes of them. */
  function Attempts(env: Env, tr: Trace, n: nat): Trace
    decreases n
  {
    if n == 0 then tr else Attempts(env, env.After(tr, DnsRestore), n - 1)
  }

  /** `r` is where the handler's restoring ends: after the first restore that succeeds. */
  predicate EndsAt(env: Env, tr: Trace, r: Trace)
    decreases |r| - |tr|
  {
    var t := env.After(tr, DnsRestore);
    |t| <= |r| && if env.fails(tr, DnsRestore) then EndsAt(env, t, r) else r == t
  }

  lemma {:induction false} EndsAfterSuccess(env: Env, tr: Trace, n: nat)
    requires !env.fails(Attempts(env, tr, n), DnsRestore)
    ensures exists r :: EndsAt(env, tr, r)
    decreases n
  {
    var t := env.After(tr, DnsRestore);
    if env.fails(tr, DnsRestore) {
      EndsAfterSuccess(env, t, n - 1);
      var r :| EndsAt(env, t, r);
      assert EndsAt(env, tr, r);
    } else {
      assert EndsAt(env, tr, t);
    }
  }

  lemma {:induction false} SuccessWhereEnded(env: Env, tr: Trace, r: Trace)
    requires EndsAt(env, tr, r)
    ensures exists n: nat :: !env.fails(Attempts(env, tr, n), DnsRestore)
    decreases |r| - |tr|
  {
    if env.fails(tr, DnsRestore) {
      SuccessWhereEnded(env, env.After(tr, DnsRestore), r);
      var n: nat :| !env.fails(Attempts(env, env.After(tr, DnsRestore), n), DnsRestore);
      assert Attempts(env, tr, n + 1) == Attempts(env, env.After(tr, DnsRestore), n);
    } else {
      assert Attempts(env, tr, 0) == tr;
    }
  }

  /** With no assumption on the environment: restoring DNS comes to an end if and only if some restore
      among the following ones would succeed. A restore that always fails recurses without bound. */
  lemma RestoringEndsIff(env: Env, tr: Trace)
    ensures (exists r :: EndsAt(env, tr, r)) <==> exists n: nat :: !env.fails(Attempts(env, tr, n), DnsRestore)
  {
    if r :| EndsAt(env, tr, r) {
      SuccessWhereEnded(env, tr, r);
    }
    if n: nat :| !env.fails(Attempts(env, tr, n), DnsRestore) {
      EndsAfterSuccess(env, tr, n);
    }
  }

  /** In a settling environment it ends, where the flat script says. */
  lemma {:induction false} SettlingEnds(env: World, tr: Trace)
    ensures EndsAt(env, tr, UntilRestored(env, tr))
    decreases RestoreFailuresLeft(env, tr)
  {
    if env.fails(tr, DnsRestore) {
      FailureUsesPatience(env, tr);
      SettlingEnds(env, env.After(tr, DnsRestore));
    }
  }

  /** A restore that fails whatever came before it: the handler never gets past it. */
  lemma HopelessRestoreNeverEnds(tr: Trace, r: Trace)
    ensures !EndsAt(Env((_, stage) => stage == DnsRestore, 0), tr, r)
    decreases |r| - |tr|
  {
    var env := Env((_, stage) => stage == DnsRestore, 0);
    var t := env.After(tr, DnsRestore);
    if |t| <= |r| {
      HopelessRestoreNeverEnds(t, r);
    }
  }

  // ---------------------------------------------------------------- runs that terminate, in any environment

  ghost predicate OneEnds(env: Env, tr: Trace, stage: Stage, window: bool, r: Trace) {
    var t := env.After(tr, stage);
    if env.fails(tr, stage) && window then EndsAt(env, t, r) else r == t
  }

  /** A part of the handling that is made only when due. */
  ghost predicate DueEnds(env: Env, tr: Trace, due: bool, stage: Stage, window: bool, r: Trace) {
    if due then OneEnds(env, tr, stage, window, r) else r == tr
  }

  ghost predicate HandlingEnds(env: Env, tr: Trace, window: bool, archive: bool, upload: bool, r: Trace) {
    exists t :: DueEnds(env, tr, archive, Archiver, window, t) && DueEnds(env, t, upload, Uploader, window, r)
  }

  ghost predicate CascadeEnds(env: Env, tr: Trace, stage: Stage, window: bool, archive: bool, upload: bool, r: Trace) {
    exists t :: OneEnds(env, tr, stage, window, t)
                && if env.fails(tr, stage) then HandlingEnds(env, t, window, archive, upload, r) else r == t
  }

  /** The script, run in any environment, terminates with the launches `r`. */
  ghost predicate ScriptEnds(env: Env, tr: Trace, script: Script, window: bool, archive: bool, upload: bool, r: Trace)
    decreases script
  {
    match script
    case End => r == tr
    case Run(stage, next) =>
      if env.fails(tr, stage) then CascadeEnds(env, tr, stage, window, archive, upload, r)
      else exists t :: CascadeEnds(env, tr, stage, window, archive, upload, t)
                       && ScriptEnds(env, t, next, window, archive, upload, r)
    case Window(open, next) => ScriptEnds(env, tr, next, open, archive, upload, r)
    case ArchiveHandled(next) => ScriptEnds(env, tr, next, window, false, upload, r)
    case UploadHandled(next) => ScriptEnds(env, tr, next, window, archive, false, r)
  }

  ghost predicate TestEnds(env: Env, r: Trace) {
    ScriptEnds(env, [], TEST, false, true, true, r)
  }

  /** Two environments in which everything up to the n-th launch happens alike. */
  ghost predicate Alike(env: Env, world: World, n: nat) {
    forall tr, stage :: |tr| < n ==> world.fails(tr, stage) == env.fails(tr, stage)
  }

  lemma {:induction false} RestoringMatches(env: Env, world: World, tr: Trace, r: Trace)
    requires EndsAt(env, tr, r) && Alike(env, world, |r|)
    ensures r == UntilRestored(world, tr) && |tr| < |r|
    decreases |r| - |tr|
  {
    assert world.After(tr, DnsRestore) == env.After(tr, DnsRestore);
    if env.fails(tr, DnsRestore) {
      RestoringMatches(env, world, env.After(tr, DnsRestore), r);
    }
  }

  lemma OneMatches(env: Env, world: World, tr: Trace, stage: Stage, window: bool, r: Trace, n: nat)
    requires OneEnds(env, tr, stage, window, r) && |r| <= n && Alike(env, world, n)
    ensures r == One(world, tr, stage, window) && |tr| < |r|
  {
    EndsLater(env, tr, stage, window, r);
    assert world.After(tr, stage) == env.After(tr, stage);
    if env.fails(tr, stage) && window {
      RestoringMatches(env, world, env.After(tr, stage), r);
    }
  }

  lemma EndsLater(env: Env, tr: Trace, stage: Stage, window: bool, r: Trace)
    requires OneEnds(env, tr, stage, window, r)
    ensures |tr| < |r|
  {
  }

  lemma CascadeLater(env: Env, tr: Trace, stage: Stage, window: bool, archive: bool, upload: bool, r: Trace)
    requires CascadeEnds(env, tr, stage, window, archive, upload, r)
    ensures |tr| < |r|
  {
  }

  lemma CascadeMatches(env: Env, world: World, tr: Trace, stage: Stage, window: bool, archive: bool, upload: bool,
                       r: Trace, n: nat)
    requires CascadeEnds(env, tr, stage, window, archive, upload, r) && |r| <= n && Alike(env, world, n)
    ensures r == Cascade(world, tr, stage, window, archive, upload) && |tr| < |r|
    ensures world.fails(tr, stage) == env.fails(tr, stage)
  {
    hide OneEnds, One, Alike;
    CascadeLater(env, tr, stage, window, archive, upload, r);
    AlikeAt(env, world, tr, stage, n);
    var t :| OneEnds(env, tr, stage, window, t)
             && if env.fails(tr, stage) then HandlingEnds(env, t, window, archive, upload, r) else r == t;
    if env.fails(tr, stage) {
      var u :| DueEnds(env, t, archive, Archiver, window, u) && DueEnds(env, u, upload, Uploader, window, r);
      DueGrows(env, t, archive, Archiver, window, u);
      DueGrows(env, u, upload, Uploader, window, r);
      OneMatches(env, world, tr, stage, window, t, n);
      if archive { OneMatches(env, world, t, Archiver, window, u, n); }
      if upload { OneMatches(env, world, u, Uploader, window, r, n); }
    } else {
      OneMatches(env, world, tr, stage, window, t, n);
    }
  }

  lemma AlikeAt(env: Env, world: World, tr: Trace, stage: Stage, n: nat)
    requires Alike(env, world, n) && |tr| < n
    ensures world.fails(tr, stage) == env.fails(tr, stage)
  {
  }

  lemma DueGrows(env: Env, tr: Trace, due: bool, stage: Stage, window: bool, r: Trace)
    requires DueEnds(env, tr, due, stage, window, r)
    ensures |tr| <= |r|
  {
    if due {
      EndsLater(env, tr, stage, window, r);
    }
  }

  lemma {:induction false} ScriptGrows(env: Env, tr: Trace, script: Script, window: bool, archive: bool, upload: bool, r: Trace)
    requires ScriptEnds(env, tr, script, window, archive, upload, r)
    ensures |tr| <= |r|
    decreases script
  {
    hide CascadeEnds;
    match script
    case End =>
    case Run(stage, next) =>
      if env.fails(tr, stage) {
        CascadeLater(env, tr, stage, window, archive, upload, r);
      } else {
        var t :| CascadeEnds(env, tr, stage, window, archive, upload, t)
                 && ScriptEnds(env, t, next, window, archive, upload, r);
        CascadeLater(env, tr, stage, window, archive, upload, t);
        ScriptGrows(env, t, next, window, archive, upload, r);
      }
    case Window(open, next) => ScriptGrows(env, tr, next, open, archive, upload, r);
    case ArchiveHandled(next) => ScriptGrows(env, tr, next, window, false, upload, r);
    case UploadHandled(next) => ScriptGrows(env, tr, next, window, archive, false, r);
  }

  lemma {:induction false} ScriptMatches(env: Env, world: World, tr: Trace, script: Script, window: bool, archive: bool,
                                         upload: bool, r: Trace, n: nat)
    requires ScriptEnds(env, tr, script, window, archive, upload, r) && |r| <= n && Alike(env, world, n)
    ensures r == RunScript(world, tr, script, window, archive, upload)
    decreases script
  {
    hide CascadeEnds, Cascade, Alike;
    match script
    case End =>
    case Run(stage, next) =>
      if env.fails(tr, stage) {
        CascadeMatches(env, world, tr, stage, window, archive, upload, r, n);
      } else {
        var t :| CascadeEnds(env, tr, stage, window, archive, upload, t)
                 && ScriptEnds(env, t, next, window, archive, upload, r);
        ScriptGrows(env, t, next, window, archive, upload, r);
        CascadeMatches(env, world, tr, stage, window, archive, upload, t, n);
        ScriptMatches(env, world, t, next, window, archive, upload, r, n);
      }
    case Window(open, next) => ScriptMatches(env, world, tr, next, open, archive, upload, r, n);
    case ArchiveHandled(next) => ScriptMatches(env, world, tr, next, window, false, upload, r, n);
    case UploadHandled(next) => ScriptMatches(env, world, tr, next, window, archive, false, r, n);
  }

  lemma {:induction false} FewerFailuresThanLaunches(tr: Trace)
    ensures FailedRestores(tr) <= |tr|
  {
    if tr != [] {
      FewerFailuresThanLaunches(tr[..|tr| - 1]);
    }
  }

  /** The environment up to the n-th launch; everything succeeds afterwards. */
  function UpTo(env: Env, n: nat): World {
    var world := Env((tr: Trace, stage: Stage) => |tr| < n && env.fails(tr, stage), n);
    assert world.Settles() by {
      forall tr | FailedRestores(tr) >= n ensures !world.fails(tr, DnsRestore) {
        FewerFailuresThanLaunches(tr);
      }
    }
    world
  }

  /** A run that terminates, in whatever environment, is the run in one where everything succeeds once it
      is over. So what holds of all runs in settling environments holds of all terminating runs. */
  lemma TerminatingRun(env: Env, r: Trace)
    requires TestEnds(env, r)
    ensures r == TestRun(UpTo(env, |r|)) && Alike(env, UpTo(env, |r|), |r|)
  {
    hide ScriptEnds, RunScript;
    ScriptMatches(env, UpTo(env, |r|), [], TEST, false, true, true, r, |r|);
  }

  /** Whatever fails, every terminating run launches the archiver exactly once and then the uploader
      exactly once. */
  lemma SavedExactlyOnce(env: Env, r: Trace)
    requires TestEnds(env, r)
    ensures Saves(r) == [Archiver, Uploader]
  {
    hide TestEnds, TestRun;
    TerminatingRun(env, r);
    SavesOfRun(UpTo(env, |r|));
  }

  /** The i-th launch of a terminating run writes log number i, however deep in the recursion it is made. */
  lemma LogsInOrder(env: Env, r: Trace)
    requires TestEnds(env, r)
    ensures Numbered(r)
  {
    hide TestEnds, TestRun;
    TerminatingRun(env, r);
    LogsOfRun(UpTo(env, |r|));
  }

  /** Up to and including its first failure a terminating run launches the fourteen stages in order, and
      all of them if none fails. */
  lemma StagesInOrder(env: Env, r: Trace)
    requires TestEnds(env, r)
    ensures Follows(r, 0, ORDER)
  {
    hide TestEnds, TestRun, Follows;
    TerminatingRun(env, r);
    StagesOfRun(UpTo(env, |r|));
  }

  /** A terminating run whose DNS change succeeded launches a restore afterwards, and when a stage between
      the change and the normal restore fails, nothing is archived or uploaded before a restore succeeded.
      DNS ends up restored if and only if such a stage failed or the normal restore, four launches after
      the change and never repeated, succeeded. */
  lemma DnsIsRestored(env: Env, r: Trace, i: nat)
    requires TestEnds(env, r)
    requires i < |r| && r[i].stage == DnsSet && r[i].ok
    ensures CleanedUp(r, i + 1)
    ensures Restored(r, i + 1) <==> WindowFailed(r, i + 1) || RestoresAt(r, i + 4)
  {
    hide TestEnds, TestRun;
    TerminatingRun(env, r);
    DnsOfRun(UpTo(env, |r|), i);
  }

  // ---------------------------------------------------------------- the launch that fails first

  ghost predicate FailsFirst(r: Trace, i: nat) {
    i < |r| && !r[i].ok && forall j :: 0 <= j < i ==> r[j].ok
  }

  /** With the flags at hand, the DNS window is open for exactly the window stages, the archiver is due before
      it has its turn, and so is the uploader. */
  predicate Shaped(script: Script, window: bool, archive: bool, upload: bool) {
    match script
    case End => true
    case Run(stage, next) =>
      window == InWindow(stage) && archive == !IsSave(stage) && upload == !stage.Uploader? && Shaped(next, window, archive, upload)
    case Window(open, next) => Shaped(next, open, archive, upload)
    case ArchiveHandled(next) => Shaped(next, window, false, upload)
    case UploadHandled(next) => Shaped(next, window, archive, false)
  }

  lemma TestIsShaped()
    ensures Shaped(TEST, false, true, true)
  {
    assert Shaped(Run(Archiver, UploadHandled(Run(Uploader, End))), false, false, true);
    ShapedAfter(SAVING);
    ShapedIn(AFTER_WINDOW);
    ShapedBefore(IN_WINDOW);
    hide Shaped;
  }

  lemma ShapedAfter(rest: Script)
    requires Shaped(rest, false, true, true)
    ensures Shaped(Run(DnsRestore, Run(DnsCheckPublic, Run(PcapStop, Run(Collator, rest)))), false, true, true)
  {
    assert Shaped(Run(PcapStop, Run(Collator, rest)), false, true, true);
  }

  lemma ShapedIn(rest: Script)
    requires Shaped(rest, false, true, true)
    ensures Shaped(Run(DnsCheck, Run(ArpFixer, Run(Runner, Window(false, rest)))), true, true, true)
  {
    assert Shaped(Run(Runner, Window(false, rest)), true, true, true);
  }

  lemma ShapedBefore(rest: Script)
    requires Shaped(rest, true, true, true)
    ensures Shaped(Run(Downloader, Run(Unpacker, Run(InfoGatherer, Run(PcapStart, Run(DnsSet, Window(true, rest)))))),
                   false, true, true)
  {
    var set_ := Run(DnsSet, Window(true, rest));
    assert Shaped(set_, false, true, true);
    assert Shaped(Run(InfoGatherer, Run(PcapStart, set_)), false, true, true);
  }

  /** A run ends with the handling of its first failure. */
  lemma {:induction false} EndsHandling(env: World, tr: Trace, script: Script, window: bool, archive: bool, upload: bool, i: nat)
    requires Shaped(script, window, archive, upload)
    requires var r := RunScript(env, tr, script, window, archive, upload);
      |tr| <= i < |r| && !r[i].ok && forall j :: |tr| <= j < i ==> r[j].ok
    ensures var r := RunScript(env, tr, script, window, archive, upload);
      var stage := r[i].stage;
      env.fails(r[..i], stage) && r == Cascade(env, r[..i], stage, InWindow(stage), !IsSave(stage), !stage.Uploader?)
    decreases script
  {
    hide Cascade;
    match script
    case Run(stage, next) =>
      var t := Cascade(env, tr, stage, window, archive, upload);
      var r := RunScript(env, tr, script, window, archive, upload);
      assert r[|tr|] == t[|tr|];
      if env.fails(tr, stage) {
        assert r[..|tr|] == tr;
      } else {
        LaunchedOnce(env, tr, stage, window, archive, upload);
        EndsHandling(env, t, next, window, archive, upload, i);
      }
    case Window(open, next) => EndsHandling(env, tr, next, open, archive, upload, i);
    case ArchiveHandled(next) => EndsHandling(env, tr, next, window, false, upload, i);
    case UploadHandled(next) => EndsHandling(env, tr, next, window, archive, false, i);
  }

  lemma FailureOfRun(env: World, i: nat)
    requires FailsFirst(TestRun(env), i) && !InWindow(TestRun(env)[i].stage)
    ensures var r := TestRun(env);
      && |r| == i + 1 + (if IsSave(r[i].stage) then 0 else 1) + (if r[i].stage.Uploader? then 0 else 1)
      && forall k :: i < k < |r| ==> IsSave(r[k].stage)
  {
    TestIsShaped();
    var r, stage := TestRun(env), TestRun(env)[i].stage;
    hide Shaped;
    EndsHandling(env, [], TEST, false, true, true, i);
    hide RunScript;
    FailureOutsideWindow(env, r[..i], stage, !IsSave(stage), !stage.Uploader?);
  }

  /** A terminating run whose first failing launch is no window stage ends with the launches of archiver and
      uploader that are still due, and nothing else: at most two. */
  lemma FailedRunIsShort(env: Env, r: Trace, i: nat)
    requires TestEnds(env, r) && FailsFirst(r, i) && !InWindow(r[i].stage)
    ensures |r| == i + 1 + (if IsSave(r[i].stage) then 0 else 1) + (if r[i].stage.Uploader? then 0 else 1)
    ensures forall k :: i < k < |r| ==> IsSave(r[k].stage)
  {
    hide TestEnds, TestRun;
    TerminatingRun(env, r);
    FailureOfRun(UpTo(env, |r|), i);
  }

  // ---------------------------------------------------------------- when a run terminates

  lemma {:induction false} RestoringTransfers(env: Env, other: Env, tr: Trace, r: Trace, n: nat)
    requires EndsAt(other, tr, r) && |r| <= n && SameUpTo(env, other, n)
    ensures EndsAt(env, tr, r)
    decreases |r| - |tr|
  {
    assert other.After(tr, DnsRestore) == env.After(tr, DnsRestore);
    if other.fails(tr, DnsRestore) {
      RestoringTransfers(env, other, other.After(tr, DnsRestore), r, n);
    }
  }

  ghost predicate SameUpTo(env: Env, other: Env, n: nat) {
    forall tr, stage :: |tr| < n ==> other.fails(tr, stage) == env.fails(tr, stage)
  }

  lemma OneTransfers(env: Env, other: Env, tr: Trace, stage: Stage, window: bool, r: Trace, n: nat)
    requires OneEnds(other, tr, stage, window, r) && |r| <= n && SameUpTo(env, other, n)
    ensures OneEnds(env, tr, stage, window, r)
  {
    EndsLater(other, tr, stage, window, r);
    assert other.After(tr, stage) == env.After(tr, stage);
    if other.fails(tr, stage) && window {
      RestoringTransfers(env, other, other.After(tr, stage), r, n);
    }
  }

  lemma DueTransfers(env: Env, other: Env, tr: Trace, due: bool, stage: Stage, window: bool, r: Trace, n: nat)
    requires DueEnds(other, tr, due, stage, window, r) && |r| <= n && SameUpTo(env, other, n)
    ensures DueEnds(env, tr, due, stage, window, r)
  {
    if due {
      OneTransfers(env, other, tr, stage, window, r, n);
    }
  }

  lemma CascadeTransfers(env: Env, other: Env, tr: Trace, stage: Stage, window: bool, archive: bool, upload: bool,
                         r: Trace, n: nat)
    requires CascadeEnds(other, tr, stage, window, archive, upload, r) && |r| <= n && SameUpTo(env, other, n)
    ensures CascadeEnds(env, tr, stage, window, archive, upload, r) && env.fails(tr, stage) == other.fails(tr, stage)
  {
    CascadeLater(other, tr, stage, window, archive, upload, r);
    assert env.fails(tr, stage) == other.fails(tr, stage);
    hide OneEnds, DueEnds, SameUpTo;
    var t :| OneEnds(other, tr, stage, window, t)
             && if other.fails(tr, stage) then HandlingEnds(other, t, window, archive, upload, r) else r == t;
    if other.fails(tr, stage) {
      var u :| DueEnds(other, t, archive, Archiver, window, u) && DueEnds(other, u, upload, Uploader, window, r);
      DueGrows(other, t, archive, Archiver, window, u);
      DueGrows(other, u, upload, Uploader, window, r);
      DueTransfers(env, other, t, archive, Archiver, window, u, n);
      DueTransfers(env, other, u, upload, Uploader, window, r, n);
      assert HandlingEnds(env, t, window, archive, upload, r);
    }
    OneTransfers(env, other, tr, stage, window, t, n);
  }

  lemma {:induction false} ScriptTransfers(env: Env, other: Env, tr: Trace, script: Script, window: bool, archive: bool,
                                           upload: bool, r: Trace, n: nat)
    requires ScriptEnds(other, tr, script, window, archive, upload, r) && |r| <= n && SameUpTo(env, other, n)
    ensures ScriptEnds(env, tr, script, window, archive, upload, r)
    decreases script
  {
    hide CascadeEnds, SameUpTo;
    match script
    case End =>
    case Run(stage, next) =>
      if other.fails(tr, stage) {
        CascadeTransfers(env, other, tr, stage, window, archive, upload, r, n);
      } else {
        var t :| CascadeEnds(other, tr, stage, window, archive, upload, t)
                 && ScriptEnds(other, t, next, window, archive, upload, r);
        ScriptGrows(other, t, next, window, archive, upload, r);
        CascadeTransfers(env, other, tr, stage, window, archive, upload, t, n);
        ScriptTransfers(env, other, t, next, window, archive, upload, r, n);
      }
    case Window(open, next) => ScriptTransfers(env, other, tr, next, open, archive, upload, r, n);
    case ArchiveHandled(next) => ScriptTransfers(env, other, tr, next, window, false, upload, r, n);
    case UploadHandled(next) => ScriptTransfers(env, other, tr, next, window, archive, false, r, n);
  }

  /** A run terminates if and only if, for some n, it would make at most n launches were everything to succeed
      from the n-th launch on. */
  lemma RunEndsIff(env: Env)
    ensures (exists r :: TestEnds(env, r)) <==> exists n: nat :: |TestRun(UpTo(env, n))| <= n
  {
    hide TestRun, ScriptEnds;
    if r :| TestEnds(env, r) {
      TerminatingRun(env, r);
      assert |TestRun(UpTo(env, |r|))| <= |r|;
    }
    if n: nat :| |TestRun(UpTo(env, n))| <= n {
      SettlingRunEnds(UpTo(env, n));
      var r := TestRun(UpTo(env, n));
      ScriptTransfers(env, UpTo(env, n), [], TEST, false, true, true, r, n);
      assert TestEnds(env, r);
    }
  }

  /** A run in whose window nothing fails always terminates, even if no restore ever succeeds. */
  lemma QuietWindowEnds(env: Env)
    requires forall tr, stage :: InWindow(stage) ==> !env.fails(tr, stage)
    ensures exists r :: TestEnds(env, r) && |r| <= 14
  {
    var world := UpTo(env, 14);
    var r := TestRun(world);
    FewLaunches(world);
    hide TestRun, ScriptEnds;
    SettlingRunEnds(world);
    ScriptTransfers(env, world, [], TEST, false, true, true, r, 14);
    assert TestEnds(env, r);
  }

  lemma FewLaunches(world: World)
    requires forall tr, stage :: InWindow(stage) ==> !world.fails(tr, stage)
    ensures |TestRun(world)| <= 14
  {
    var r := TestRun(world);
    NoWindowFailure(world, r);
    StagesOfRun(world);
    hide Follows, RunScript;
    forall i: nat | FailsFirst(r, i) ensures ShortAfter(r, i) {
      FailureOfRun(world, i);
    }
    hide TestRun;
    FewIfShort(r);
  }

  /** The run ends with what is due after its launch `i`. */
  ghost predicate ShortAfter(r: Trace, i: nat)
    requires i < |r|
  {
    |r| == i + 1 + (if IsSave(r[i].stage) then 0 else 1) + (if r[i].stage.Uploader? then 0 else 1)
  }

  lemma FewIfShort(r: Trace)
    requires Follows(r, 0, ORDER) && forall i: nat :: FailsFirst(r, i) ==> ShortAfter(r, i)
    ensures |r| <= 14
  {
    hide Follows;
    if i: nat :| FailsFirst(r, i) {
      FollowsAt(r, 0, ORDER, i);
      OrderEnds(i);
    } else {
      NoneFails(r, |r|);
      FollowsAll(r, 0, ORDER);
    }
  }

  lemma NoWindowFailure(world: World, r: Trace)
    requires r == TestRun(world) && forall tr, stage :: InWindow(stage) ==> !world.fails(tr, stage)
    ensures forall i: nat :: FailsFirst(r, i) ==> !InWindow(r[i].stage)
  {
    TestIsShaped();
    hide Shaped;
    forall i: nat | FailsFirst(r, i) ensures !InWindow(r[i].stage) {
      EndsHandling(world, [], TEST, false, true, true, i);
      hide RunScript;
    }
  }

  lemma {:induction false} NoneFails(r: Trace, n: nat)
    requires n <= |r| && forall i: nat :: !FailsFirst(r, i)
    ensures forall j :: 0 <= j < n ==> r[j].ok
  {
    if n > 0 {
      NoneFails(r, n - 1);
      assert !FailsFirst(r, n - 1);
    }
  }

  lemma {:induction false} FollowsAt(r: Trace, from: nat, order: seq<Stage>, i: nat)
    requires Follows(r, from, order) && from <= i < |r| && forall j :: from <= j < i ==> r[j].ok
    ensures i - from < |order| && r[i].stage == order[i - from]
    decreases |order|
  {
    if from < i {
      FollowsAt(r, from + 1, order[1..], i);
    }
  }

  lemma {:induction false} FollowsAll(r: Trace, from: nat, order: seq<Stage>)
    requires Follows(r, from, order) && forall j :: from <= j < |r| ==> r[j].ok
    ensures |r| == from + |order|
    decreases |order|
  {
    if order != [] {
      FollowsAll(r, from + 1, order[1..]);
    }
  }

  lemma OrderEnds(i: nat)
    requires i < |ORDER|
    ensures i >= 12 ==> IsSave(ORDER[i])
    ensures i >= 13 ==> ORDER[i] == Uploader
  {
  }

  // ---------------------------------------------------------------- runs in settling environments terminate

  lemma OneSettles(env: World, tr: Trace, stage: Stage, window: bool)
    ensures OneEnds(env, tr, stage, window, One(env, tr, stage, window))
  {
    if env.fails(tr, stage) && window {
      SettlingEnds(env, env.After(tr, stage));
    }
  }

  lemma CascadeSettles(env: World, tr: Trace, stage: Stage, window: bool, archive: bool, upload: bool)
    ensures CascadeEnds(env, tr, stage, window, archive, upload, Cascade(env, tr, stage, window, archive, upload))
  {
    hide OneEnds, One;
    var t := One(env, tr, stage, window);
    OneSettles(env, tr, stage, window);
    if env.fails(tr, stage) {
      var u := if archive then One(env, t, Archiver, window) else t;
      OneSettles(env, t, Archiver, window);
      OneSettles(env, u, Uploader, window);
      assert DueEnds(env, t, archive, Archiver, window, u);
      assert HandlingEnds(env, t, window, archive, upload, Cascade(env, tr, stage, window, archive, upload));
    }
  }

  lemma {:induction false} ScriptSettles(env: World, tr: Trace, script: Script, window: bool, archive: bool, upload: bool)
    ensures ScriptEnds(env, tr, script, window, archive, upload, RunScript(env, tr, script, window, archive, upload))
    decreases script
  {
    hide CascadeEnds, Cascade;
    match script
    case End =>
    case Run(stage, next) =>
      var t := Cascade(env, tr, stage, window, archive, upload);
      CascadeSettles(env, tr, stage, window, archive, upload);
      if !env.fails(tr, stage) {
        ScriptSettles(env, t, next, window, archive, upload);
      }
    case Window(open, next) => ScriptSettles(env, tr, next, open, archive, upload);
    case ArchiveHandled(next) => ScriptSettles(env, tr, next, window, false, upload);
    case UploadHandled(next) => ScriptSettles(env, tr, next, window, archive, false);
  }

  /** In an environment in which restores fail only finitely often every run terminates. */
  lemma SettlingRunEnds(env: World)
    ensures TestEnds(env, TestRun(env))
  {
    hide ScriptEnds, RunScript;
    ScriptSettles(env, [], TEST, false, true, true);
  }

  // ---------------------------------------------------------------- the worker

  /** Log number of the last failed launch. */
  function LastFailure(tr: Trace): Option<int> {
    if tr == [] then None
    else if !tr[|tr| - 1].ok then Some(tr[|tr| - 1].log)
    else LastFailure(tr[..|tr| - 1])
  }

  lemma LastFailureMore(env: Env, tr: Trace, stage: Stage)
    ensures LastFailure(env.After(tr, stage)) == if env.fails(tr, stage) then Some(|tr| + 1) else LastFailure(tr)
  {
    var t := env.After(tr, stage);
    assert t[..|tr|] == tr;
  }

  lemma {:induction false} LastFailureOf(r: Trace, i: nat)
    requires Numbered(r) && i < |r| && !r[i].ok
    ensures LastFailure(r) == Some(i + 1) <==> forall j :: i < j < |r| ==> r[j].ok
  {
    var last := |r| - 1;
    if i < last {
      LastFailureOf(r[..last], i);
      assert forall j :: i < j < |r| ==> j == last || r[j] == r[..last][j];
    }
  }

  /** The error raised for a failed stage names the log of the last child that failed: its own exactly
      when everything launched to handle the failure succeeded. In any environment, wherever the handling
      terminates. */
  lemma ErrorNamesOwnLog(env: Env, tr: Trace, stage: Stage, window: bool, archive: bool, upload: bool, r: Trace)
    requires Numbered(tr) && env.fails(tr, stage) && CascadeEnds(env, tr, stage, window, archive, upload, r)
    ensures LastFailure(r) == Some(|tr| + 1) <==> forall j :: |tr| < j < |r| ==> r[j].ok
  {
    hide CascadeEnds, Cascade, LastFailure;
    var world := UpTo(env, |r|);
    CascadeMatches(env, world, tr, stage, window, archive, upload, r, |r|);
    NumberedCascade(world, tr, stage, window, archive, upload);
    LastFailureOf(r, |tr|);
  }

  /** So the error that ends a run names the log of its first failing launch exactly when nothing fails
      after it. */
  lemma ErrorOfRun(env: Env, r: Trace, i: nat)
    requires TestEnds(env, r) && FailsFirst(r, i)
    ensures LastFailure(r) == Some(i + 1) <==> forall j :: i < j < |r| ==> r[j].ok
  {
    LogsInOrder(env, r);
    hide LastFailure, TestEnds;
    LastFailureOf(r, i);
  }

  lemma CascadeParts(env: World, tr: Trace, stage: Stage, window: bool, archive: bool, upload: bool)
    ensures var t := One(env, tr, stage, window);
      var archived := if archive then One(env, t, Archiver, window) else t;
      && t == (if env.fails(tr, stage) && window then UntilRestored(env, env.After(tr, stage))
               else env.After(tr, stage))
      && Cascade(env, tr, stage, window, archive, upload)
         == if !env.fails(tr, stage) then t
            else if upload then One(env, archived, Uploader, window) else archived
  {
  }

  lemma CascadeOfRestore(env: World, tr: Trace)
    ensures Cascade(env, tr, DnsRestore, true, false, false) == UntilRestored(env, tr)
  {
  }

  lemma ScriptStep(env: World, tr: Trace, stage: Stage, next: Script, window: bool, archive: bool, upload: bool)
    ensures var t := Cascade(env, tr, stage, window, archive, upload);
      RunScript(env, tr, Run(stage, next), window, archive, upload)
      == if env.fails(tr, stage) then t else RunScript(env, t, next, window, archive, upload)
  {
  }

  lemma FlagSteps(env: World, tr: Trace, next: Script, window: bool, archive: bool, upload: bool)
    ensures RunScript(env, tr, Window(true, next), window, archive, upload)
            == RunScript(env, tr, next, true, archive, upload)
    ensures RunScript(env, tr, Window(false, next), window, archive, upload)
            == RunScript(env, tr, next, false, archive, upload)
    ensures RunScript(env, tr, ArchiveHandled(next), window, archive, upload)
            == RunScript(env, tr, next, window, false, upload)
    ensures RunScript(env, tr, UploadHandled(next), window, archive, upload)
            == RunScript(env, tr, next, window, archive, false)
    ensures RunScript(env, tr, End, window, archive, upload) == tr
  {
  }

  class StoneRidgeWorker {
    const env: World
    var procno: int
    var childlog: Option<int>
    var uploaded: bool
    var archiveOnFailure: bool
    var needDnsReset: bool
    var trace: Trace  // the processes launched so far

    ghost predicate Valid()
      reads this
    {
      procno == |trace| + 1 && childlog == LastFailure(trace)
    }

    constructor (env: World)
      ensures this.env == env
      ensures !uploaded && archiveOnFailure && trace == []
    {
      this.env := env;
      needDnsReset, trace := false, [];
      uploaded, archiveOnFailure, procno, childlog := false, true, -1, None;
    }

    /** `handle`: whatever state the last run left, this run launches exactly the test run's processes,
        and the flags are reset behind it; only the DNS flag is left as it is. */
    method Handle()
      modifies this
      ensures trace == TestRun(env)
      ensures !uploaded && archiveOnFailure && procno == -1 && childlog == None
    {
      uploaded, archiveOnFailure, procno, childlog, needDnsReset := false, true, 1, None, false;
      trace := [];
      var _ := RunTest();
      uploaded, archiveOnFailure, procno, childlog := false, true, -1, None;
    }

    /** Takes the next log number, launches the stage, and remembers the log of a failure. */
    method LaunchProcess(stage: Stage) returns (failed: bool)
      requires Valid()
      modifies `procno, `trace, `childlog
      ensures Valid()
      ensures trace == env.After(old(trace), stage) && (failed <==> env.fails(old(trace), stage))
    {
      LastFailureMore(env, trace, stage);
      var log := procno;
      procno := procno + 1;
      failed := env.fails(trace, stage);
      trace := trace + [Launch(stage, log, !failed)];
      if failed {
        childlog := Some(log);
      }
    }

    /** Launches a stage; on failure restores DNS inside the window, archives and uploads if still due,
        all through itself, and raises. The launches are those of the flat script. */
    method RunProcess(stage: Stage) returns (raised: bool)
      requires Valid()
      modifies this
      ensures Valid()
      ensures trace == Cascade(env, old(trace), stage, old(needDnsReset), old(archiveOnFailure), !old(uploaded))
      ensures raised <==> env.fails(old(trace), stage)
      ensures needDnsReset == old(needDnsReset)
      ensures archiveOnFailure == (old(archiveOnFailure) && !raised)
      ensures uploaded == (old(uploaded) || raised)
      decreases archiveOnFailure, !uploaded, stage != DnsRestore, RestoreFailuresLeft(env, trace), 0
    {
      hide One, UntilRestored, LastFailure, Cascade, RestoreFailuresLeft, Env.After;
      ghost var before, window, archive, upload := trace, needDnsReset, archiveOnFailure, !uploaded;
      CascadeParts(env, trace, stage, window, archive, upload);
      if stage == DnsRestore && env.fails(trace, stage) {
        FailureUsesPatience(env, trace);
      }
      raised := LaunchProcess(stage);
      if !raised {
        return;
      }
      if needDnsReset {
        RestoreDns();
      }
      assert trace == One(env, before, stage, window);
      if archiveOnFailure {
        archiveOnFailure := false;
        CascadeParts(env, trace, Archiver, window, false, upload);
        var _ := RunProcess(Archiver);
      }
      assert !archiveOnFailure && (uploaded || upload);
      if !uploaded {
        uploaded := true;
        CascadeParts(env, trace, Uploader, window, false, false);
        var _ := RunProcess(Uploader);
      }
    }

    /** The first part of the handler: restores DNS with archiving and uploading masked. */
    method RestoreDns()
      requires Valid() && needDnsReset
      modifies this
      ensures Valid() && trace == UntilRestored(env, old(trace))
      ensures needDnsReset && archiveOnFailure == old(archiveOnFailure) && uploaded == old(uploaded)
      decreases archiveOnFailure, !uploaded, false, RestoreFailuresLeft(env, trace), 1
    {
      hide One, UntilRestored, LastFailure, Cascade, RestoreFailuresLeft;
      var doArchive, wasUploaded := archiveOnFailure, uploaded;
      archiveOnFailure, uploaded := false, true;
      CascadeOfRestore(env, trace);
      var _ := RunProcess(DnsRestore);
      archiveOnFailure, uploaded := doArchive, wasUploaded;
    }

    /** A stage of `run_test`, which an exception leaves. */
    method Step(stage: Stage, ghost next: Script) returns (raised: bool)
      requires Valid()
      modifies this
      ensures Valid()
      ensures needDnsReset == old(needDnsReset)
      ensures !raised ==> archiveOnFailure == old(archiveOnFailure) && uploaded == old(uploaded)
      ensures RunScript(env, old(trace), Run(stage, next), needDnsReset, old(archiveOnFailure), !old(uploaded))
              == if raised then trace
                 else RunScript(env, trace, next, needDnsReset, archiveOnFailure, !uploaded)
    {
      hide Cascade, LastFailure;
      ScriptStep(env, trace, stage, next, needDnsReset, archiveOnFailure, !uploaded);
      raised := RunProcess(stage);
    }

    /** `run_test`: launches what the script says, up to the first failure and its handling. Its three
        parts are the stages up to the DNS change, those in the window, and the rest. */
    method RunTest() returns (raised: bool)
      requires Valid() && trace == [] && !uploaded && archiveOnFailure && !needDnsReset
      modifies this
      ensures Valid() && trace == TestRun(env)
    {
      hide Cascade, LastFailure, RunScript;
      raised := SetUp(); if raised { return; }
      FlagSteps(env, trace, IN_WINDOW, needDnsReset, archiveOnFailure, !uploaded);
      needDnsReset := true;
      raised := RunWindow(); if raised { return; }
      FlagSteps(env, trace, AFTER_WINDOW, needDnsReset, archiveOnFailure, !uploaded);
      needDnsReset := false;
      raised := TearDown();
    }

    method SetUp() returns (raised: bool)
      requires Valid() && !needDnsReset
      modifies this
      ensures Valid() && !needDnsReset
      ensures !raised ==> archiveOnFailure == old(archiveOnFailure) && uploaded == old(uploaded)
      ensures RunScript(env, old(trace), TEST, false, old(archiveOnFailure), !old(uploaded))
              == if raised then trace
                 else RunScript(env, trace, Window(true, IN_WINDOW), false, archiveOnFailure, !uploaded)
    {
      hide Cascade, LastFailure, RunScript;
      raised := Step(Downloader, TEST.next); if raised { return; }
      raised := Step(Unpacker, TEST.next.next); if raised { return; }
      raised := Step(InfoGatherer, TEST.next.next.next); if raised { return; }
      raised := Step(PcapStart, TEST.next.next.next.next); if raised { return; }
      raised := Step(DnsSet, Window(true, IN_WINDOW));
    }

    method RunWindow() returns (raised: bool)
      requires Valid() && needDnsReset
      modifies this
      ensures Valid() && needDnsReset
      ensures !raised ==> archiveOnFailure == old(archiveOnFailure) && uploaded == old(uploaded)
      ensures RunScript(env, old(trace), IN_WINDOW, true, old(archiveOnFailure), !old(uploaded))
              == if raised then trace
                 else RunScript(env, trace, Window(false, AFTER_WINDOW), true, archiveOnFailure, !uploaded)
    {
      hide Cascade, LastFailure, RunScript;
      raised := Step(DnsCheck, IN_WINDOW.next); if raised { return; }
      raised := Step(ArpFixer, IN_WINDOW.next.next); if raised { return; }
      raised := Step(Runner, Window(false, AFTER_WINDOW));
    }

    method TearDown() returns (raised: bool)
      requires Valid() && !needDnsReset
      modifies this
      ensures Valid()
      ensures trace == RunScript(env, old(trace), AFTER_WINDOW, false, old(archiveOnFailure), !old(uploaded))
    {
      hide Cascade, LastFailure, RunScript;
      raised := Step(DnsRestore, AFTER_WINDOW.next); if raised { return; }
      raised := Step(DnsCheckPublic, AFTER_WINDOW.next.next); if raised { return; }
      raised := Step(PcapStop, AFTER_WINDOW.next.next.next); if raised { return; }
      raised := Step(Collator, SAVING); if raised { return; }
      FlagSteps(env, trace, SAVING.next, needDnsReset, archiveOnFailure, !uploaded);
      archiveOnFailure := false;
      raised := Step(Archiver, SAVING.next.next); if raised { return; }
      FlagSteps(env, trace, SAVING.next.next.next, needDnsReset, archiveOnFailure, !uploaded);
      uploaded := true;
      raised := Step(Uploader, End); if raised { return; }
      FlagSteps(env, trace, End, needDnsReset, archiveOnFailure, !uploaded);
    }
  }
}
