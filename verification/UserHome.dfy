// User Home: the three-signal check, the four-step enable with its rollback, and the
// guarded disable, for every pattern of failures of the remote calls.
module UserHome {
  import opened Wrappers
  import opened Text
  import opened Paths
  import opened Shell
  import opened Transport

  const SYNOINFO := "/etc/synoinfo.conf"
  const ENABLE_KEY := "userHomeEnable"

  // The NAS as these tools see it: its files, the web API's own flag, and how many
  // times that flag was asked to change.
  datatype World = World(fs: Fs, web: bool, sets: nat)

  // ---------------------------------------------------------------- how a command can go

  // Through to its end, or cut off (on one attempt, or on both) and reported as failed.
  datatype CommandFate = Done | Fails(first: nat, second: nat)

  function RunFated(script: seq<Step>, fate: CommandFate, fs: Fs): Outcome {
    match fate
    case Done => RunSteps(script, fs)
    case Fails(j, k) => Outcome(CutOff(script, k, CutOff(script, j, fs)), false)
  }

  // Every run of a replayable command over the retrying client is one of these.
  lemma EveryRunIsFated(c: Conn, script: seq<Step>, attempts: Attempts)
    requires Replayable(script)
    ensures var (d, r) := RunCommand(c, script, false, attempts);
            exists fate :: RunFated(script, fate, c.fs) == Outcome(d.fs, r == Returned(true))
  {
    var (d, r) := RunCommand(c, script, false, attempts);
    var (one, end) := Try(c, script, false, attempts.first);
    var last := if end == None then attempts.second else attempts.first;
    if r.Returned? && last.fate.Completes? {
      assert end == None ==> one.fs == CutOff(script, attempts.first.fate.after, c.fs);
      assert RunFated(script, Done, c.fs) == Outcome(d.fs, r == Returned(true));
    } else {
      RunReaches(c, script, false, attempts);
      var j: nat, k: nat :| d.fs == CutOff(script, k, CutOff(script, j, c.fs));
      assert RunFated(script, Fails(j, k), c.fs) == Outcome(d.fs, false);
    }
  }

  // The web API's set: it works, or it raises, having taken effect or not.
  datatype WebFate = Applied | Rejected(tookEffect: bool)

  function SetWeb(w: World, enable: bool, fate: WebFate): World {
    World(w.fs, if fate == Rejected(false) then w.web else enable, w.sets + 1)
  }

  // ---------------------------------------------------------------- the three signals

  // Which of the check's calls answer.
  datatype CheckFates = CheckFates(web: bool, keyTool: bool, grep: bool, readlink: bool)

  predicate AllAnswer(f: CheckFates) { f.web && f.keyTool && f.grep && f.readlink }

  function SynoinfoValue(fs: Fs): string {
    if SYNOINFO in fs && fs[SYNOINFO].Settings? && ENABLE_KEY in fs[SYNOINFO].values
    then Strip(fs[SYNOINFO].values[ENABLE_KEY])
    else ""
  }

  // synogetkeyvalue, and a grep of the file when that fails or says nothing.
  function SynoinfoSays(fs: Fs, f: CheckFates): bool {
    var value := SynoinfoValue(fs);
    if f.keyTool && value != "" then Lower(value) == "yes"
    else f.grep && Lower(value) == "yes"
  }

  function LinkTarget(fs: Fs): Option<string> {
    if HOMES in fs && fs[HOMES].Link? && Strip(fs[HOMES].target) != "" then Some(Strip(fs[HOMES].target)) else None
  }

  function ReadLink(fs: Fs, answers: bool): Option<string> { if answers then LinkTarget(fs) else None }

  datatype Signals = Signals(web: bool, synoinfo: bool, link: Option<string>)

  // Enabled only when all three agree.
  predicate Enabled(s: Signals) { s.web && s.synoinfo && s.link.Some? }

  // None when the web API's get raises.
  function TriCheck(w: World, f: CheckFates): Option<Signals> { Check(w.fs, w.web, f) }

  function Check(fs: Fs, web: bool, f: CheckFates): Option<Signals> {
    if f.web then Some(Signals(web, SynoinfoSays(fs, f), ReadLink(fs, f.readlink))) else None
  }

  // ---------------------------------------------------------------- enabling

  // override: the configured volume or ""; user: the user to prepare or "".
  datatype Request = Request(override: string, user: string)

  datatype EnableFates = EnableFates(
    check: CheckFates, readlink: bool, found: Option<string>,
    synoinfo: CommandFate, symlink: CommandFate, web: WebFate, restore: CommandFate, prepare: CommandFate)

  // found: what the probe for /volume*/homes prints, or None if it raises.
  function PickVolume(override: string, found: Option<string>): string {
    if override != "" then override
    else if found == None then "/volume1"
    else
      var dir := Strip(found.value);
      if dir != "" && EndsWith(dir, "/homes") then dir[..|dir| - |"/homes"|] else "/volume1"
  }

  datatype AuditStep = AuditStep(n: nat, name: string, ok: bool, skipped: bool)

  const NAMES: seq<string> := ["synoinfo", "symlink", "web_api", "prepare_folder"]

  datatype Rollback = NotNeeded | NothingToRestore | Restored | RestoreFailed

  datatype Envelope =
    | CheckRaised
    | Succeeded(steps: seq<AuditStep>, skipped: seq<nat>, partial: bool)
    | StepFailed(steps: seq<AuditStep>, rollback: Rollback)

  function Ran(n: nat, ok: bool): AuditStep requires 1 <= n <= 4 { AuditStep(n, NAMES[n - 1], ok, false) }
  function Skipped(n: nat): AuditStep requires 1 <= n <= 4 { AuditStep(n, NAMES[n - 1], true, true) }

  function FirstRan(k: nat): seq<AuditStep> requires k <= 3 { seq(k, i requires 0 <= i < k => Ran(i + 1, true)) }
  function FirstSkipped(k: nat): seq<AuditStep> requires k <= 3 { seq(k, i requires 0 <= i < k => Skipped(i + 1)) }

  function RestoreLink(fs: Fs, previous: Option<string>, fate: CommandFate): (Fs, Rollback) {
    if previous == None then (fs, NothingToRestore)
    else
      var o := RunFated(SwapScript(HOMES, previous.value), fate, fs);
      (o.fs, if o.ok then Restored else RestoreFailed)
  }

  function HomeOf(user: string): string { HOMES + ("/" + user) }

  function PrepareScript(user: string): seq<Step> { [MakeDir(HomeOf(user))] }

  // Step 4, which never fails the call.
  function Prepare(w: World, user: string, fate: CommandFate, steps: seq<AuditStep>, skipped: seq<nat>): (World, Envelope) {
    if user == "" then (w, Succeeded(steps + [Skipped(4)], skipped + [4], false))
    else
      var o := RunFated(PrepareScript(user), fate, w.fs);
      (w.(fs := o.fs), Succeeded(steps + [Ran(4, o.ok)], skipped, !o.ok))
  }

  function RolledBack(w: World, previous: Option<string>, fate: CommandFate, steps: seq<AuditStep>): (World, Envelope) {
    var (fs, rollback) := RestoreLink(w.fs, previous, fate);
    (w.(fs := fs), StepFailed(steps, rollback))
  }

  // Steps 1 to 3; the failure they end in, if any.
  function Reconcile(w: World, previous: Option<string>, target: string, f: EnableFates): (World, Option<Envelope>) {
    var o1 := RunFated(SetKeyScript(SYNOINFO, ENABLE_KEY, "yes"), f.synoinfo, w.fs);
    if !o1.ok then (w.(fs := o1.fs), Some(StepFailed(FirstRan(0) + [Ran(1, false)], NotNeeded)))
    else
      var o2 := RunFated(SwapScript(HOMES, target), f.symlink, o1.fs);
      var w2 := w.(fs := o2.fs);
      if !o2.ok then Failed(RolledBack(w2, previous, f.restore, FirstRan(1) + [Ran(2, false)]))
      else
        var w3 := SetWeb(w2, true, f.web);
        if f.web.Rejected? then Failed(RolledBack(w3, previous, f.restore, FirstRan(2) + [Ran(3, false)]))
        else (w3, None)
  }

  function Failed(r: (World, Envelope)): (World, Option<Envelope>) { (r.0, Some(r.1)) }

  function Target(request: Request, f: EnableFates): string { PickVolume(request.override, f.found) + "/homes" }

  // The world and the answer of one enable call.
  function Enable(w: World, request: Request, f: EnableFates): (World, Envelope) {
    match TriCheck(w, f.check)
    case None => (w, CheckRaised)
    case Some(signals) =>
      if Enabled(signals) then
        Prepare(w, request.user, f.prepare, FirstSkipped(3), [1, 2, 3])
      else
        match Reconcile(w, ReadLink(w.fs, f.readlink), Target(request, f), f)
        case (w3, Some(failure)) => (w3, failure)
        case (w3, None) => Prepare(w3, request.user, f.prepare, FirstRan(3), [])
  }

  method AuditSkipped() returns (steps: seq<AuditStep>)
    ensures steps == FirstSkipped(3)
  {
    steps := [];
    for n := 1 to 4
      invariant |steps| == n - 1
      invariant forall i | 0 <= i < n - 1 :: steps[i] == Skipped(i + 1)
    {
      steps := steps + [Skipped(n)];
    }
  }

  class Nas {
    var fs: Fs
    var web: bool
    ghost var sets: nat

    ghost function State(): World reads this { World(fs, web, sets) }

    constructor (w: World)
      ensures State() == w
    {
      fs, web, sets := w.fs, w.web, w.sets;
    }

    method RunRemote(script: seq<Step>, fate: CommandFate) returns (ok: bool)
      modifies this`fs
      ensures Outcome(fs, ok) == RunFated(script, fate, old(fs))
    {
      var o := RunFated(script, fate, fs);
      fs, ok := o.fs, o.ok;
    }

    method WebSet(enable: bool, fate: WebFate) returns (ok: bool)
      modifies this`web, this`sets
      ensures ok == fate.Applied?
      ensures State() == SetWeb(old(State()), enable, fate)
    {
      sets := sets + 1;
      if fate != Rejected(false) {
        web := enable;
      }
      ok := fate.Applied?;
    }

    method RestoreSymlink(previous: Option<string>, fate: CommandFate) returns (rollback: Rollback)
      modifies this`fs
      ensures (fs, rollback) == RestoreLink(old(fs), previous, fate)
    {
      if previous == None {
        return NothingToRestore;
      }
      var ok := RunRemote(SwapScript(HOMES, previous.value), fate);
      return if ok then Restored else RestoreFailed;
    }

    // Steps 1 to 3, on a NAS not found enabled.
    method ReconcileSignals(previous: Option<string>, target: string, f: EnableFates)
      returns (failure: Option<Envelope>, steps: seq<AuditStep>)
      modifies this
      ensures (State(), failure) == Reconcile(old(State()), previous, target, f)
      ensures failure == None ==> steps == FirstRan(3)
    {
      var ok := RunRemote(SetKeyScript(SYNOINFO, ENABLE_KEY, "yes"), f.synoinfo);
      steps := [Ran(1, ok)];
      assert steps == FirstRan(0) + [Ran(1, ok)];
      if !ok {
        return Some(StepFailed(steps, NotNeeded)), steps;
      }
      ok := RunRemote(SwapScript(HOMES, target), f.symlink);
      steps := steps + [Ran(2, ok)];
      assert steps == FirstRan(1) + [Ran(2, ok)];
      if !ok {
        var failed := FailAfterRollback(previous, f.restore, steps);
        return Some(failed), steps;
      }
      ok := WebSet(true, f.web);
      steps := steps + [Ran(3, ok)];
      assert steps == FirstRan(2) + [Ran(3, ok)];
      if !ok {
        var failed := FailAfterRollback(previous, f.restore, steps);
        return Some(failed), steps;
      }
      return None, steps;
    }

    method UserHomeEnable(request: Request, f: EnableFates) returns (r: Envelope)
      modifies this
      ensures (State(), r) == Enable(old(State()), request, f)
    {
      var pre := Check(fs, web, f.check);
      if pre == None {
        return CheckRaised;
      }
      var steps, skipped := [], [];
      var previous := ReadLink(fs, f.readlink);
      var volume := PickVolume(request.override, f.found);
      if Enabled(pre.value) {
        skipped := [1, 2, 3];
        steps := AuditSkipped();
      } else {
        var failure;
        failure, steps := ReconcileSignals(previous, volume + "/homes", f);
        if failure.Some? {
          return failure.value;
        }
      }
      r := PrepareFolder(request.user, f.prepare, steps, skipped);
    }

    // Step 4: a failure is reported, not raised.
    method PrepareFolder(user: string, fate: CommandFate, steps: seq<AuditStep>, skipped: seq<nat>) returns (r: Envelope)
      modifies this`fs
      ensures (State(), r) == Prepare(old(State()), user, fate, steps, skipped)
    {
      if user == "" {
        return Succeeded(steps + [Skipped(4)], skipped + [4], false);
      }
      var ok := RunRemote(PrepareScript(user), fate);
      return Succeeded(steps + [Ran(4, ok)], skipped, !ok);
    }

    method FailAfterRollback(previous: Option<string>, fate: CommandFate, steps: seq<AuditStep>) returns (r: Envelope)
      modifies this`fs
      ensures (State(), r) == RolledBack(old(State()), previous, fate, steps)
    {
      var rollback := RestoreSymlink(previous, fate);
      return StepFailed(steps, rollback);
    }
  }

  // ---------------------------------------------------------------- facts about single commands

  predicate SaysYes(fs: Fs) {
    SYNOINFO in fs && fs[SYNOINFO].Settings? && ENABLE_KEY in fs[SYNOINFO].values && fs[SYNOINFO].values[ENABLE_KEY] == "yes"
  }

  lemma SetKeyRun(fs: Fs, fate: CommandFate)
    ensures var o := RunFated(SetKeyScript(SYNOINFO, ENABLE_KEY, "yes"), fate, fs);
            && SameOutside(o.fs, fs, {SYNOINFO})
            && (o.ok ==> SaysYes(o.fs))
  {
    var script := SetKeyScript(SYNOINFO, ENABLE_KEY, "yes");
    FatedFrame(script, fate, fs, {SYNOINFO});
    RunOne(script[0], fs);
  }

  lemma FatedFrame(script: seq<Step>, fate: CommandFate, fs: Fs, paths: set<string>)
    requires Within(script, paths)
    ensures SameOutside(RunFated(script, fate, fs).fs, fs, paths)
  {
    RunFrame(script, fs, paths);
    if fate.Fails? {
      var mid := CutOff(script, fate.first, fs);
      CutFrame(script, fate.first, fs, paths);
      CutFrame(script, fate.second, mid, paths);
      forall p | p !in paths
        ensures SameAt(RunFated(script, fate, fs).fs, fs, p)
      {
        assert SameAt(RunFated(script, fate, fs).fs, mid, p) && SameAt(mid, fs, p);
      }
    }
  }

  lemma CutFrame(script: seq<Step>, k: nat, fs: Fs, paths: set<string>)
    requires Within(script, paths)
    ensures SameOutside(CutOff(script, k, fs), fs, paths)
  {
    var part := if k < |script| then script[..k] else script;
    assert forall step | step in part :: step in script;
    RunFrame(part, fs, paths);
  }

  lemma SwapFated(fs: Fs, target: string, fate: CommandFate)
    ensures var o := RunFated(SwapScript(HOMES, target), fate, fs);
            && SameOutside(o.fs, fs, {HOMES})
            && (o.ok ==> o.fs == fs[HOMES := Link(target)])
            && (fate == Done && !(HOMES in fs && fs[HOMES].Dir?) ==> o.ok)
            && (!(HOMES in fs && fs[HOMES].Dir?) ==> !(HOMES in o.fs && o.fs[HOMES].Dir?))
  {
    var script := SwapScript(HOMES, target);
    FatedFrame(script, fate, fs, {HOMES});
    SwapRun(HOMES, target, fs);
    if fate.Fails? && !(HOMES in fs && fs[HOMES].Dir?) {
      SwapNeverDir(target, fate.first, fs);
      SwapNeverDir(target, fate.second, CutOff(script, fate.first, fs));
    }
  }

  lemma SwapNeverDir(target: string, k: nat, fs: Fs)
    requires !(HOMES in fs && fs[HOMES].Dir?)
    ensures var cut := CutOff(SwapScript(HOMES, target), k, fs);
            !(HOMES in cut && cut[HOMES].Dir?)
  {
    var s := SwapScript(HOMES, target);
    SwapRun(HOMES, target, fs);
    if k == 0 {
      assert s[..0] == [];
    } else if k == 1 {
      assert s[..1] == [s[0]];
      RunOne(s[0], fs);
    }
  }

  // ---------------------------------------------------------------- what the check must find

  // User Home is on: the web API says so, /etc/synoinfo.conf says yes, in any case and
  // with blanks around it, and the homes link leads somewhere.
  ghost predicate SynoinfoYes(fs: Fs) {
    && SYNOINFO in fs && fs[SYNOINFO].Settings? && ENABLE_KEY in fs[SYNOINFO].values
    && Lower(Strip(fs[SYNOINFO].values[ENABLE_KEY])) == "yes"
  }

  ghost predicate LinkThere(fs: Fs) { HOMES in fs && fs[HOMES].Link? && Strip(fs[HOMES].target) != "" }

  ghost predicate TrulyOn(w: World) { w.web && SynoinfoYes(w.fs) && LinkThere(w.fs) }

  // The check finds User Home enabled exactly if the web API answers, it is on in all
  // three places, and the other two are told by some call that answers.
  lemma WhenFoundEnabled(w: World, f: CheckFates)
    ensures TriCheck(w, f) == None <==> !f.web
    ensures TriCheck(w, f).Some? && Enabled(TriCheck(w, f).value)
       <==> f.web && TrulyOn(w) && (f.keyTool || f.grep) && f.readlink
  {
    assert Lower("") == "" && "" != "yes";
  }

  // ---------------------------------------------------------------- enable: rollback

  // The link as it should be found again: a trimmed target.
  predicate PriorLink(fs: Fs, target: string) {
    HOMES in fs && fs[HOMES] == Link(target) && target != "" && Strip(target) == target
  }

  // Step 1 and step 2, and which of them left what.
  lemma FirstSteps(w: World, request: Request, f: EnableFates)
    requires TriCheck(w, f.check).Some? && !Enabled(TriCheck(w, f.check).value)
    ensures var (w', r) := Enable(w, request, f);
            var o1 := RunFated(SetKeyScript(SYNOINFO, ENABLE_KEY, "yes"), f.synoinfo, w.fs);
            && SameOutside(o1.fs, w.fs, {SYNOINFO})
            && (o1.ok ==> SaysYes(o1.fs))
            && (|AuditOf(r)| == 1 <==> !o1.ok)
  {
    SetKeyRun(w.fs, f.synoinfo);
  }

  function AuditOf(r: Envelope): seq<AuditStep> { if r.CheckRaised? then [] else r.steps }

  // Whatever fails at step 2 or 3, the link is at its prior target again, provided it
  // could be read before and the restoring command ran to its end; and nothing else
  // but the synoinfo file was touched.
  lemma RollbackRestores(w: World, request: Request, f: EnableFates, target: string)
    requires PriorLink(w.fs, target) && f.readlink && f.restore == Done
    ensures var (w', r) := Enable(w, request, f);
            r.StepFailed? && |r.steps| >= 2 ==>
              (r.rollback == Restored && SameAt(w'.fs, w.fs, HOMES) && SameOutside(w'.fs, w.fs, {SYNOINFO}) && SaysYes(w'.fs))
  {
    var (w', r) := Enable(w, request, f);
    if r.StepFailed? && |r.steps| >= 2 {
      FirstSteps(w, request, f);
      var fs1 := RunFated(SetKeyScript(SYNOINFO, ENABLE_KEY, "yes"), f.synoinfo, w.fs).fs;
      assert SameAt(fs1, w.fs, HOMES);
      var fs2 := RunFated(SwapScript(HOMES, Target(request, f)), f.symlink, fs1).fs;
      SwapFated(fs1, Target(request, f), f.symlink);
      SwapFated(fs2, target, Done);
      assert (w'.fs, r.rollback) == RestoreLink(fs2, Some(target), Done);
      BackAgain(w.fs, fs1, fs2, w'.fs, target);
    }
  }

  lemma BackAgain(fs: Fs, fs1: Fs, fs2: Fs, fs3: Fs, target: string)
    requires PriorLink(fs, target)
    requires SameOutside(fs1, fs, {SYNOINFO}) && SameOutside(fs2, fs1, {HOMES}) && fs3 == fs2[HOMES := Link(target)]
    ensures SameAt(fs3, fs, HOMES) && SameOutside(fs3, fs, {SYNOINFO}) && SameAt(fs3, fs1, SYNOINFO)
  {
    forall p | p !in {SYNOINFO}
      ensures SameAt(fs3, fs, p)
    {
      assert SameAt(fs1, fs, p);
      assert p != HOMES ==> SameAt(fs2, fs1, p);
    }
    assert SameAt(fs2, fs1, SYNOINFO);
  }

  // ---------------------------------------------------------------- enable: exactly when

  // Steps a cut-off swap to a target still leaves done: 2 when the link is in place, 0
  // when nothing was touched.
  function LinkSteps(fate: CommandFate): nat {
    match fate
    case Done => 2
    case Fails(j, k) => if k > 0 then k else j
  }

  predicate HasLink(fs: Fs, target: string) { HOMES in fs && fs[HOMES] == Link(target) }

  // What a swap leaves, whether it was cut off or not.
  lemma SwapLeaves(fs: Fs, target: string, fate: CommandFate)
    requires !(HOMES in fs && fs[HOMES].Dir?)
    ensures RunFated(SwapScript(HOMES, target), fate, fs).fs
         == if LinkSteps(fate) == 0 then fs else if LinkSteps(fate) == 1 then fs - {HOMES} else fs[HOMES := Link(target)]
  {
    SwapRun(HOMES, target, fs);
    if fate.Fails? {
      SwapCut(target, fate.first, fs);
      var mid := CutOff(SwapScript(HOMES, target), fate.first, fs);
      SwapCut(target, fate.second, mid);
      assert (fs - {HOMES}) - {HOMES} == fs - {HOMES};
      assert fs[HOMES := Link(target)] - {HOMES} == fs - {HOMES};
      assert (fs - {HOMES})[HOMES := Link(target)] == fs[HOMES := Link(target)];
    }
  }

  lemma SwapCut(target: string, k: nat, fs: Fs)
    requires !(HOMES in fs && fs[HOMES].Dir?)
    ensures CutOff(SwapScript(HOMES, target), k, fs)
         == if k == 0 then fs else if k == 1 then fs - {HOMES} else fs[HOMES := Link(target)]
  {
    var s := SwapScript(HOMES, target);
    SwapRun(HOMES, target, fs);
    if k == 0 {
      assert s[..0] == [];
    } else if k == 1 {
      assert s[..1] == [s[0]];
      RunOne(s[0], fs);
    }
  }

  // After a failed step 2 or 3 the link is at its prior target exactly if the restoring
  // command got that far; or, when none was sent or it did nothing, if step 2 had not
  // touched the link or had made the very same one.
  lemma WhenRestored(w: World, request: Request, f: EnableFates, target: string)
    requires PriorLink(w.fs, target)
    ensures var (w', r) := Enable(w, request, f);
            var made := LinkSteps(f.symlink);
            r.StepFailed? && |r.steps| >= 2 ==>
              (HasLink(w'.fs, target) <==>
                if f.readlink && LinkSteps(f.restore) > 0 then LinkSteps(f.restore) >= 2
                else made == 0 || (made >= 2 && Target(request, f) == target))
  {
    var (w', r) := Enable(w, request, f);
    if r.StepFailed? && |r.steps| >= 2 {
      SetKeyRun(w.fs, f.synoinfo);
      var fs1 := RunFated(SetKeyScript(SYNOINFO, ENABLE_KEY, "yes"), f.synoinfo, w.fs).fs;
      assert SameAt(fs1, w.fs, HOMES);
      var fs2 := RunFated(SwapScript(HOMES, Target(request, f)), f.symlink, fs1).fs;
      SwapLeaves(fs1, Target(request, f), f.symlink);
      if f.readlink {
        SwapLeaves(fs2, target, f.restore);
      }
    }
  }

  // Step 3 fails after the prior link could not be read: no command is sent to restore
  // it, and it stays at the new target.
  ghost predicate LinkIsLost(w: World, request: Request, f: EnableFates, target: string) {
    var (w', r) := Enable(w, request, f);
    PriorLink(w.fs, target) && r.StepFailed? && |r.steps| == 3 && !HasLink(w'.fs, target)
  }

  lemma WhenStep3Fails(w: World, request: Request, f: EnableFates)
    requires TriCheck(w, f.check).Some? && !Enabled(TriCheck(w, f.check).value)
    requires SYNOINFO in w.fs && w.fs[SYNOINFO].Settings? && !(HOMES in w.fs && w.fs[HOMES].Dir?)
    requires f.synoinfo == Done && f.symlink == Done && f.web.Rejected?
    ensures Enable(w, request, f).1.StepFailed? && |Enable(w, request, f).1.steps| == 3
  {
    var o1 := RunFated(SetKeyScript(SYNOINFO, ENABLE_KEY, "yes"), Done, w.fs);
    RunOne(SetKey(SYNOINFO, ENABLE_KEY, "yes"), w.fs);
    SetKeyRun(w.fs, Done);
    assert SameAt(o1.fs, w.fs, HOMES);
    SwapRun(HOMES, Target(request, f), o1.fs);
  }

  lemma UnreadLinkIsLost()
    ensures exists w, request, f :: LinkIsLost(w, request, f, "/volume2/homes")
  {
    var target := "/volume2/homes";
    var w := World(map[HOMES := Link(target), SYNOINFO := Settings(map[])], false, 0);
    var request := Request("/volume1", "");
    var f := EnableFates(CheckFates(true, true, true, true), false, None, Done, Done, Rejected(false), Done, Done);
    HomesIsNotSynoinfo();
    StripId(target);
    WhenStep3Fails(w, request, f);
    TargetDiffers(Target(request, f), target);
    WhenRestored(w, request, f, target);
    assert LinkIsLost(w, request, f, target);
  }

  lemma HomesIsNotSynoinfo()
    ensures HOMES != SYNOINFO
  {
    assert HOMES[1] == 'v' && SYNOINFO[1] == 'e';
  }

  lemma TargetDiffers(a: string, b: string)
    requires a == "/volume1" + "/homes" && b == "/volume2/homes"
    ensures a != b
  {
    assert a[7] == '1' && b[7] == '2';
  }

  // A step 1 that fails leaves all but the synoinfo file alone; and a rollback makes the
  // link anew to the target that was read, which is the prior one without blanks around it.
  lemma WhatFailuresLeave(w: World, request: Request, f: EnableFates)
    ensures var (w', r) := Enable(w, request, f);
            && (r.StepFailed? && |r.steps| == 1 ==> SameOutside(w'.fs, w.fs, {SYNOINFO}) && w'.web == w.web && w'.sets == w.sets)
            && (r.StepFailed? && |r.steps| == 2 ==> w'.web == w.web && w'.sets == w.sets)
            && (r.StepFailed? && |r.steps| >= 2 && r.rollback == Restored ==>
                LinkThere(w.fs) && HasLink(w'.fs, Strip(w.fs[HOMES].target)))
  {
    var (w', r) := Enable(w, request, f);
    if r.StepFailed? {
      SetKeyRun(w.fs, f.synoinfo);
      if |r.steps| >= 2 && r.rollback == Restored {
        WhenReportedRestored(w, request, f);
        var fs1 := RunFated(SetKeyScript(SYNOINFO, ENABLE_KEY, "yes"), f.synoinfo, w.fs).fs;
        var fs2 := RunFated(SwapScript(HOMES, Target(request, f)), f.symlink, fs1).fs;
        SwapFated(fs2, Strip(w.fs[HOMES].target), f.restore);
      }
    }
  }

  // How the rollback is reported: nothing to restore exactly if no prior link could be
  // read, else restored exactly if the restoring command ran to its end.
  lemma WhenReportedRestored(w: World, request: Request, f: EnableFates)
    ensures var r := Enable(w, request, f).1;
            r.StepFailed? && |r.steps| >= 2 ==>
              r.rollback == if !f.readlink || !LinkThere(w.fs) then NothingToRestore
                            else if f.restore == Done then Restored
                            else RestoreFailed
  {
    var r := Enable(w, request, f).1;
    if r.StepFailed? && |r.steps| >= 2 {
      SetKeyRun(w.fs, f.synoinfo);
      var fs1 := RunFated(SetKeyScript(SYNOINFO, ENABLE_KEY, "yes"), f.synoinfo, w.fs).fs;
      HomesIsNotSynoinfo();
      assert SameAt(fs1, w.fs, HOMES);
      SwapFated(fs1, Target(request, f), f.symlink);
      var fs2 := RunFated(SwapScript(HOMES, Target(request, f)), f.symlink, fs1).fs;
      if f.readlink && LinkThere(w.fs) {
        SwapFated(fs2, Strip(w.fs[HOMES].target), f.restore);
      }
    }
  }

  // ---------------------------------------------------------------- enable: the order of steps

  // The web API is asked at most once, and only after this call's own steps 1 and 2
  // went through; nothing else moves the web flag.
  lemma WebAfterTheOthers(w: World, request: Request, f: EnableFates)
    ensures var (w', r) := Enable(w, request, f);
            && w.sets <= w'.sets <= w.sets + 1
            && (w'.sets > w.sets <==> |AuditOf(r)| >= 3 && !AuditOf(r)[2].skipped)
            && (w'.sets > w.sets ==> AuditOf(r)[0] == Ran(1, true) && AuditOf(r)[1] == Ran(2, true))
            && (w'.sets == w.sets ==> w'.web == w.web)
            && (w.web ==> w'.web)
  {
    ReconcileWeb(w, ReadLink(w.fs, f.readlink), Target(request, f), f);
  }

  lemma ReconcileWeb(w: World, previous: Option<string>, target: string, f: EnableFates)
    ensures var (w', r) := Reconcile(w, previous, target, f);
            var steps := if r.None? then FirstRan(3) else AuditOf(r.value);
            && w'.sets == (if |steps| >= 3 then w.sets + 1 else w.sets)
            && (|steps| >= 3 ==> steps[0] == Ran(1, true) && steps[1] == Ran(2, true) && !steps[2].skipped)
            && (|steps| < 3 ==> w'.web == w.web)
            && (w.web ==> w'.web)
  {
  }

  // Numbered from 1 and named in the order of the steps; only the last can have failed.
  predicate Audit(steps: seq<AuditStep>) {
    && |steps| <= 4
    && (forall i | 0 <= i < |steps| :: steps[i].n == i + 1 && steps[i].name == NAMES[i])
    && (forall i | 0 <= i < |steps| - 1 :: steps[i].ok)
  }

  // An audit that may go on, its skipped numbers listed so far.
  ghost predicate GoesOn(steps: seq<AuditStep>, skipped: seq<nat>) {
    && Audit(steps) && (forall i | 0 <= i < |steps| :: steps[i].ok)
    && (forall n :: n in skipped <==> 1 <= n <= |steps| && steps[n - 1].skipped)
  }

  lemma GoesOnWith(steps: seq<AuditStep>, skipped: seq<nat>, ok: bool)
    requires GoesOn(steps, skipped) && |steps| < 4
    ensures Audit(steps + [Ran(|steps| + 1, ok)])
    ensures ok ==> GoesOn(steps + [Ran(|steps| + 1, ok)], skipped)
    ensures GoesOn(steps + [Skipped(|steps| + 1)], skipped + [|steps| + 1])
  {
    var more := skipped + [|steps| + 1];
    assert forall n :: n in more <==> n in skipped || n == |steps| + 1;
  }

  lemma FirstGoOn(k: nat)
    requires k <= 3
    ensures GoesOn(FirstRan(k), [])
  {
  }

  lemma SkippedGoOn()
    ensures GoesOn(FirstSkipped(3), [1, 2, 3])
  {
  }

  lemma PrepareAudit(w: World, user: string, fate: CommandFate, steps: seq<AuditStep>, skipped: seq<nat>)
    requires GoesOn(steps, skipped) && |steps| == 3
    ensures var r := Prepare(w, user, fate, steps, skipped).1;
            && r.Succeeded? && Audit(r.steps) && |r.steps| == 4 && (r.partial <==> !r.steps[3].ok)
            && forall n :: n in r.skipped <==> 1 <= n <= 4 && r.steps[n - 1].skipped
  {
    var ok := RunFated(PrepareScript(user), fate, w.fs).ok;
    GoesOnWith(steps, skipped, ok);
    var more := steps + [Ran(4, ok)];
    assert forall i | 0 <= i < 3 :: more[i] == steps[i];
  }

  lemma ReconcileAudit(w: World, previous: Option<string>, target: string, f: EnableFates)
    ensures var failure := Reconcile(w, previous, target, f).1;
            failure.Some? ==>
              var r := failure.value;
              && r.StepFailed? && Audit(r.steps) && 1 <= |r.steps| <= 3 && !r.steps[|r.steps| - 1].ok
              && (r.rollback == NotNeeded <==> |r.steps| == 1)
  {
    FirstGoOn(0);
    FirstGoOn(1);
    FirstGoOn(2);
    GoesOnWith(FirstRan(0), [], false);
    GoesOnWith(FirstRan(1), [], false);
    GoesOnWith(FirstRan(2), [], false);
  }

  // The audit has all four entries exactly on success, and on failure it ends in the
  // step that failed; the skipped numbers are those of the skipped entries.
  lemma AuditReads(w: World, request: Request, f: EnableFates)
    ensures var r := Enable(w, request, f).1;
            && Audit(AuditOf(r))
            && (|AuditOf(r)| == 4 <==> r.Succeeded?)
            && (r.StepFailed? ==> 1 <= |r.steps| <= 3 && !r.steps[|r.steps| - 1].ok && (r.rollback == NotNeeded <==> |r.steps| == 1))
            && (r.Succeeded? ==> (r.partial <==> !r.steps[3].ok) && forall n :: n in r.skipped <==> 1 <= n <= 4 && r.steps[n - 1].skipped)
  {
    FirstGoOn(3);
    SkippedGoOn();
    var previous := ReadLink(w.fs, f.readlink);
    ReconcileAudit(w, previous, Target(request, f), f);
    PrepareAudit(w, request.user, f.prepare, FirstSkipped(3), [1, 2, 3]);
    var w3 := Reconcile(w, previous, Target(request, f), f).0;
    PrepareAudit(w3, request.user, f.prepare, FirstRan(3), []);
  }

  // ---------------------------------------------------------------- enable: success

  lemma PrepareKeepsSignals(w: World, user: string, fate: CommandFate, steps: seq<AuditStep>, skipped: seq<nat>, check: CheckFates)
    ensures var (w', r) := Prepare(w, user, fate, steps, skipped);
            && w'.web == w.web && SameAt(w'.fs, w.fs, HOMES) && SameAt(w'.fs, w.fs, SYNOINFO)
            && TriCheck(w', check) == TriCheck(w, check)
  {
    if user != "" {
      var path := HomeOf(user);
      FatedFrame(PrepareScript(user), fate, w.fs, {path});
      assert |path| > |HOMES| && path[1] == 'v' && SYNOINFO[1] == 'e';
      assert HOMES !in {path} && SYNOINFO !in {path};
    }
  }

  lemma TargetIsNotBlank(request: Request, f: EnableFates)
    ensures Strip(Target(request, f)) != ""
  {
    var volume := PickVolume(request.override, f.found);
    assert Target(request, f)[|volume|] == '/';
    NotBlank(Target(request, f), |volume|);
  }

  // Steps 1 to 3 are skipped exactly if the check finds User Home on. Otherwise step 1
  // fails unless its command ran to its end on a synoinfo file; then step 2 fails unless
  // its command did and the link's place was not a directory; then step 3 fails if the
  // web API raises; and else the call succeeds.
  lemma WhenStepsFail(w: World, request: Request, f: EnableFates)
    ensures var r := Enable(w, request, f).1;
            var on := TrulyOn(w) && (f.check.keyTool || f.check.grep) && f.check.readlink;
            var one := f.synoinfo == Done && SYNOINFO in w.fs && w.fs[SYNOINFO].Settings?;
            var two := f.symlink == Done && !(HOMES in w.fs && w.fs[HOMES].Dir?);
            && (r.CheckRaised? <==> !f.check.web)
            && (r.Succeeded? <==> f.check.web && (on || (one && two && f.web == Applied)))
            && (r.Succeeded? ==> (r.steps[0].skipped <==> on) && (r.steps[1].skipped <==> on) && (r.steps[2].skipped <==> on))
            && (r.StepFailed? ==> |r.steps| == if !one then 1 else if !two then 2 else 3)
  {
    WhenFoundEnabled(w, f.check);
    HomesIsNotSynoinfo();
    RunOne(SetKey(SYNOINFO, ENABLE_KEY, "yes"), w.fs);
    SetKeyRun(w.fs, f.synoinfo);
    var fs1 := RunFated(SetKeyScript(SYNOINFO, ENABLE_KEY, "yes"), f.synoinfo, w.fs).fs;
    assert SameAt(fs1, w.fs, HOMES);
    SwapRun(HOMES, Target(request, f), fs1);
  }

  // A success is partial exactly if a user was asked for and the folder's command did
  // not run to its end or something else was in the folder's place.
  lemma WhenPartial(w: World, request: Request, f: EnableFates)
    ensures var r := Enable(w, request, f).1;
            r.Succeeded? ==>
              && (r.steps[3].skipped <==> request.user == "")
              && (r.partial <==>
                  request.user != "" && !(f.prepare == Done && (HomeOf(request.user) in w.fs ==> w.fs[HomeOf(request.user)].Dir?)))
  {
    var previous := ReadLink(w.fs, f.readlink);
    var w3 := Reconcile(w, previous, Target(request, f), f).0;
    ReconcileTouches(w, previous, Target(request, f), f);
    UserFolderApart(request.user);
    RunOne(MakeDir(HomeOf(request.user)), w.fs);
    RunOne(MakeDir(HomeOf(request.user)), w3.fs);
    if request.user != "" {
      assert SameAt(w3.fs, w.fs, HomeOf(request.user));
    }
  }

  lemma UserFolderApart(user: string)
    ensures user != "" ==> HomeOf(user) !in {SYNOINFO, HOMES}
  {
    assert |HomeOf(user)| > |HOMES| && HomeOf(user)[1] == 'v' && SYNOINFO[1] == 'e';
  }

  // A call that succeeds, however it came to, leaves a NAS on which User Home is on in
  // all three places.
  lemma SuccessIsOn(w: World, request: Request, f: EnableFates)
    ensures var (w', r) := Enable(w, request, f); r.Succeeded? ==> TrulyOn(w')
  {
    var (w', r) := Enable(w, request, f);
    if r.Succeeded? {
      WhenFoundEnabled(w, f.check);
      var signals := TriCheck(w, f.check).value;
      if Enabled(signals) {
        PrepareKeepsSignals(w, request.user, f.prepare, FirstSkipped(3), [1, 2, 3], f.check);
      } else {
        FirstSteps(w, request, f);
        var fs1 := RunFated(SetKeyScript(SYNOINFO, ENABLE_KEY, "yes"), f.synoinfo, w.fs).fs;
        SwapFated(fs1, Target(request, f), f.symlink);
        var w3 := Reconcile(w, ReadLink(w.fs, f.readlink), Target(request, f), f).0;
        TargetIsNotBlank(request, f);
        StepsSetOn(w3, Target(request, f));
        PrepareKeepsSignals(w3, request.user, f.prepare, FirstRan(3), [], f.check);
      }
    }
  }

  lemma StepsSetOn(w: World, target: string)
    requires SaysYes(w.fs) && HasLink(w.fs, target) && w.web && Strip(target) != ""
    ensures TrulyOn(w)
  {
    StripId("yes");
    assert Lower("yes") == "yes";
  }

  // And a check whose calls answer finds that.
  lemma EnableEnables(w: World, request: Request, f: EnableFates, check: CheckFates)
    requires AllAnswer(check)
    ensures var (w', r) := Enable(w, request, f);
            r.Succeeded? ==> TrulyOn(w') && TriCheck(w', check).Some? && Enabled(TriCheck(w', check).value)
  {
    SuccessIsOn(w, request, f);
    WhenFoundEnabled(Enable(w, request, f).0, check);
  }

  // A success that ran the steps leaves the link at the homes directory of the
  // configured volume, else at the very directory that was found, else at that of the
  // first volume; a success without warning leaves the user's folder there.
  lemma EnableLinks(w: World, request: Request, f: EnableFates)
    ensures var (w', r) := Enable(w, request, f);
            && (r.Succeeded? && !r.steps[1].skipped ==>
                HasLink(w'.fs,
                  if request.override != "" then request.override + "/homes"
                  else if f.found.Some? && EndsWith(Strip(f.found.value), "/homes") then Strip(f.found.value)
                  else "/volume1/homes"))
            && (r.Succeeded? && !r.partial && request.user != "" ==> HomeOf(request.user) in w'.fs && w'.fs[HomeOf(request.user)].Dir?)
  {
    var (w', r) := Enable(w, request, f);
    TargetIs(request, f);
    if r.Succeeded? {
      var w3 := Reconcile(w, ReadLink(w.fs, f.readlink), Target(request, f), f).0;
      if Enabled(TriCheck(w, f.check).value) {
        PrepareMakes(w, request.user, f.prepare, FirstSkipped(3), [1, 2, 3]);
        assert r.steps[1] == Skipped(2);
      } else {
        var fs1 := RunFated(SetKeyScript(SYNOINFO, ENABLE_KEY, "yes"), f.synoinfo, w.fs).fs;
        SwapFated(fs1, Target(request, f), f.symlink);
        assert HasLink(w3.fs, Target(request, f));
        PrepareMakes(w3, request.user, f.prepare, FirstRan(3), []);
        PrepareKeepsSignals(w3, request.user, f.prepare, FirstRan(3), [], f.check);
      }
    }
  }

  lemma TargetIs(request: Request, f: EnableFates)
    ensures Target(request, f)
         == if request.override != "" then request.override + "/homes"
            else if f.found.Some? && EndsWith(Strip(f.found.value), "/homes") then Strip(f.found.value)
            else "/volume1/homes"
  {
    assert "/volume1" + "/homes" == "/volume1/homes";
    if f.found.Some? && EndsWith(Strip(f.found.value), "/homes") {
      var dir := Strip(f.found.value);
      assert dir == dir[..|dir| - |"/homes"|] + "/homes";
    }
  }

  lemma PrepareMakes(w: World, user: string, fate: CommandFate, steps: seq<AuditStep>, skipped: seq<nat>)
    ensures var (w', r) := Prepare(w, user, fate, steps, skipped);
            && (r.Succeeded? && !r.partial && user != "" ==> HomeOf(user) in w'.fs && w'.fs[HomeOf(user)].Dir?)
            && SameOutside(w'.fs, w.fs, {HomeOf(user)})
  {
    FatedFrame(PrepareScript(user), fate, w.fs, {HomeOf(user)});
    RunOne(PrepareScript(user)[0], w.fs);
  }

  // Whatever happens, nothing but the synoinfo file, the link and the user's home is
  // touched, so that all key files stay as they are.
  lemma EnableTouches(w: World, request: Request, f: EnableFates)
    ensures SameOutside(Enable(w, request, f).0.fs, w.fs, {SYNOINFO, HOMES, HomeOf(request.user)})
  {
    var previous := ReadLink(w.fs, f.readlink);
    var skips := Prepare(w, request.user, f.prepare, FirstSkipped(3), [1, 2, 3]).0;
    var w3 := Reconcile(w, previous, Target(request, f), f).0;
    var ran := Prepare(w3, request.user, f.prepare, FirstRan(3), []).0;
    ReconcileTouches(w, previous, Target(request, f), f);
    PrepareMakes(w, request.user, f.prepare, FirstSkipped(3), [1, 2, 3]);
    PrepareMakes(w3, request.user, f.prepare, FirstRan(3), []);
    var end := Enable(w, request, f).0;
    assert end == w || end == skips || end == w3 || end == ran;
    forall p | p !in {SYNOINFO, HOMES, HomeOf(request.user)}
      ensures SameAt(end.fs, w.fs, p)
    {
      assert p !in {HomeOf(request.user)} && p !in {SYNOINFO, HOMES};
      assert SameAt(w3.fs, w.fs, p) && SameAt(skips.fs, w.fs, p) && SameAt(ran.fs, w3.fs, p);
    }
  }

  lemma ReconcileTouches(w: World, previous: Option<string>, target: string, f: EnableFates)
    ensures SameOutside(Reconcile(w, previous, target, f).0.fs, w.fs, {SYNOINFO, HOMES})
  {
    SetKeyRun(w.fs, f.synoinfo);
    var fs1 := RunFated(SetKeyScript(SYNOINFO, ENABLE_KEY, "yes"), f.synoinfo, w.fs).fs;
    SwapFated(fs1, target, f.symlink);
    var fs2 := RunFated(SwapScript(HOMES, target), f.symlink, fs1).fs;
    if previous.Some? {
      SwapFated(fs2, previous.value, f.restore);
    }
    var fs3 := RestoreLink(fs2, previous, f.restore).0;
    forall p | p !in {SYNOINFO, HOMES}
      ensures SameAt(fs1, w.fs, p) && SameAt(fs2, w.fs, p) && SameAt(fs3, w.fs, p)
    {
      assert p !in {SYNOINFO} && p !in {HOMES};
      assert SameAt(fs1, w.fs, p) && SameAt(fs2, fs1, p) && SameAt(fs3, fs2, p);
    }
  }

  lemma YesIsYes(w: World, check: CheckFates)
    requires AllAnswer(check) && SaysYes(w.fs) && w.web && LinkTarget(w.fs).Some?
    ensures TriCheck(w, check).Some? && Enabled(TriCheck(w, check).value)
  {
    StripId("yes");
    assert Lower("yes") == "yes";
  }

  // A second call, whose check gets its answers, skips steps 1 to 3, succeeds, and
  // changes none of the three signals.
  lemma SecondCallSkips(w: World, request: Request, f: EnableFates, again: Request, g: EnableFates)
    requires AllAnswer(g.check) && Enable(w, request, f).1.Succeeded?
    ensures var w1 := Enable(w, request, f).0;
            var (w2, r2) := Enable(w1, again, g);
            && r2.Succeeded? && r2.steps[..3] == FirstSkipped(3)
            && TriCheck(w2, g.check) == TriCheck(w1, g.check)
            && SameAt(w2.fs, w1.fs, HOMES) && SameAt(w2.fs, w1.fs, SYNOINFO)
            && w2.web == w1.web && w2.sets == w1.sets
  {
    var w1 := Enable(w, request, f).0;
    EnableEnables(w, request, f, g.check);
    PrepareKeepsSignals(w1, again.user, g.prepare, FirstSkipped(3), [1, 2, 3], g.check);
  }

  // Every command these steps run may be run again by the client's retry.
  lemma StepsAreReplayable(target: string, user: string)
    ensures Replayable(SetKeyScript(SYNOINFO, ENABLE_KEY, "yes"))
    ensures Replayable(SwapScript(HOMES, target))
    ensures Replayable(PrepareScript(user))
  {
    SetKeyIsReplayable(SYNOINFO, ENABLE_KEY, "yes");
    SwapIsReplayable(HOMES, target);
    var s := PrepareScript(user);
    forall fs: Fs, k: nat
      ensures RunSteps(s, CutOff(s, k, fs)) == RunSteps(s, fs)
    {
      RunOne(s[0], fs);
      RunOne(s[0], CutOff(s, k, fs));
      if k == 0 {
        assert s[..0] == [];
      }
    }
  }
}
