// The NAS file system as the tools' shell commands see it. A command is a list of
// steps joined by &&: it stops at the first step that fails, and it can be cut off
// after any number of steps when the connection drops.
module Shell {
  import opened Wrappers

  datatype Node =
    | Dir(mode: nat)
    | File(contents: string, mode: nat)
    | Link(target: string)
    | Settings(values: map<string, string>)    // a key-value file such as /etc/synoinfo.conf

  type Fs = map<string, Node>

  const OWNER_DIR: nat := 448      // 700
  const OWNER_FILE: nat := 384     // 600
  const DEFAULT_DIR: nat := 493    // 755
  const DEFAULT_FILE: nat := 420   // 644

  datatype Step =
    | MakeDir(path: string)                     // mkdir -p
    | SetMode(path: string, mode: nat)          // chmod
    | Touch(path: string)
    | Truncate(path: string)                    // the redirection > path
    | Append(path: string, c: char)             // one character written through it
    | Rename(source: string, path: string)      // mv
    | Unlink(path: string)                      // rm -f
    | MakeLink(target: string, path: string)    // ln -s
    | SetKey(path: string, key: string, value: string)    // synosetkeyvalue

  predicate HasMode(n: Node) { n.Dir? || n.File? }

  // None when the step fails; a failing step changes nothing.
  function Exec(step: Step, fs: Fs): Option<Fs> {
    match step
    case MakeDir(p) =>
      if p !in fs then Some(fs[p := Dir(DEFAULT_DIR)]) else if fs[p].Dir? then Some(fs) else None
    case SetMode(p, mode) =>
      if p in fs && HasMode(fs[p]) then Some(fs[p := fs[p].(mode := mode)]) else None
    case Touch(p) =>
      if p !in fs then Some(fs[p := File("", DEFAULT_FILE)]) else Some(fs)
    case Truncate(p) =>
      if p !in fs then Some(fs[p := File("", DEFAULT_FILE)])
      else if fs[p].File? then Some(fs[p := File("", fs[p].mode)])
      else None
    case Append(p, c) =>
      if p in fs && fs[p].File? then Some(fs[p := File(fs[p].contents + [c], fs[p].mode)]) else None
    case Rename(source, p) =>
      if source in fs && !(p in fs && fs[p].Dir?) then Some((fs - {source})[p := fs[source]]) else None
    case Unlink(p) =>
      if p !in fs then Some(fs) else if fs[p].Dir? then None else Some(fs - {p})
    case MakeLink(target, p) =>
      if p in fs then None else Some(fs[p := Link(target)])
    case SetKey(p, key, value) =>
      if p in fs && fs[p].Settings? then Some(fs[p := Settings(fs[p].values[key := value])]) else None
  }

  datatype Outcome = Outcome(fs: Fs, ok: bool)

  function RunSteps(script: seq<Step>, fs: Fs): Outcome
    decreases |script|
  {
    if script == [] then Outcome(fs, true)
    else
      match Exec(script[0], fs)
      case None => Outcome(fs, false)
      case Some(next) => RunSteps(script[1..], next)
  }

  // The file system when a command is cut off after k of its steps.
  function CutOff(script: seq<Step>, k: nat, fs: Fs): Fs {
    RunSteps(if k < |script| then script[..k] else script, fs).fs
  }

  lemma {:induction false} RunConcat(a: seq<Step>, b: seq<Step>, fs: Fs)
    ensures RunSteps(a + b, fs)
         == if RunSteps(a, fs).ok then RunSteps(b, RunSteps(a, fs).fs) else RunSteps(a, fs)
    decreases |a|
  {
    if a == [] {
      assert a + b == b;
    } else {
      assert (a + b)[1..] == a[1..] + b;
      if Exec(a[0], fs).Some? {
        RunConcat(a[1..], b, Exec(a[0], fs).value);
      }
    }
  }

  function Touched(step: Step): set<string> {
    if step.Rename? then {step.source, step.path} else {step.path}
  }

  // No step of the script writes outside the paths.
  ghost predicate Within(script: seq<Step>, paths: set<string>) {
    forall step | step in script :: Touched(step) <= paths
  }

  predicate SameAt(a: Fs, b: Fs, p: string) {
    (p in a <==> p in b) && (p in a ==> a[p] == b[p])
  }

  ghost predicate SameOutside(a: Fs, b: Fs, paths: set<string>) {
    forall p | p !in paths :: SameAt(a, b, p)
  }

  lemma {:induction false} RunFrame(script: seq<Step>, fs: Fs, paths: set<string>)
    requires Within(script, paths)
    ensures SameOutside(RunSteps(script, fs).fs, fs, paths)
    decreases |script|
  {
    if script != [] {
      assert script[0] in script;
      var next := Exec(script[0], fs);
      if next.Some? {
        RunFrame(script[1..], next.value, paths);
        forall p | p !in paths
          ensures SameAt(RunSteps(script, fs).fs, fs, p)
        {
          assert SameAt(next.value, fs, p);
        }
      }
    }
  }

  // Cutting a command off after any step and then running it in full comes to the
  // same as running it once.
  ghost predicate Replayable(script: seq<Step>) {
    forall fs: Fs, k: nat :: RunSteps(script, CutOff(script, k, fs)) == RunSteps(script, fs)
  }

  // ---------------------------------------------------------------- replacing a file

  function Appends(path: string, text: string): seq<Step>
    ensures |Appends(path, text)| == |text|
  {
    seq(|text|, i requires 0 <= i < |text| => Append(path, text[i]))
  }

  function BuildScript(tmp: string, text: string): seq<Step> {
    [Truncate(tmp)] + Appends(tmp, text) + [SetMode(tmp, OWNER_FILE)]
  }

  // printf | base64 -d > tmp && chmod 600 tmp && mv tmp path
  function ReplaceScript(path: string, tmp: string, text: string): seq<Step> {
    BuildScript(tmp, text) + [Rename(tmp, path)]
  }

  lemma {:induction false} AppendsRun(tmp: string, text: string, fs: Fs)
    requires tmp in fs && fs[tmp].File?
    ensures RunSteps(Appends(tmp, text), fs)
         == Outcome(fs[tmp := File(fs[tmp].contents + text, fs[tmp].mode)], true)
    decreases |text|
  {
    var n := fs[tmp];
    if text == "" {
      assert n.contents + text == n.contents;
      assert fs[tmp := n] == fs;
    } else {
      var next := fs[tmp := File(n.contents + [text[0]], n.mode)];
      assert Appends(tmp, text)[1..] == Appends(tmp, text[1..]);
      AppendsRun(tmp, text[1..], next);
      assert (n.contents + [text[0]]) + text[1..] == n.contents + text;
    }
  }

  predicate Writable(fs: Fs, tmp: string) { tmp in fs ==> fs[tmp].File? }

  lemma BuildRun(tmp: string, text: string, fs: Fs)
    ensures RunSteps(BuildScript(tmp, text), fs)
         == if Writable(fs, tmp) then Outcome(fs[tmp := File(text, OWNER_FILE)], true) else Outcome(fs, false)
  {
    var first, middle, last := [Truncate(tmp)], Appends(tmp, text), [SetMode(tmp, OWNER_FILE)];
    RunConcat(first + middle, last, fs);
    RunConcat(first, middle, fs);
    RunOne(Truncate(tmp), fs);
    if Writable(fs, tmp) {
      var started := Exec(Truncate(tmp), fs).value;
      AppendsRun(tmp, text, started);
      assert "" + text == text;
      var built := fs[tmp := File(text, started[tmp].mode)];
      assert RunSteps(first + middle, fs) == Outcome(built, true);
      RunOne(SetMode(tmp, OWNER_FILE), built);
      assert built[tmp := File(text, OWNER_FILE)] == fs[tmp := File(text, OWNER_FILE)];
    }
  }

  lemma RunOne(step: Step, fs: Fs)
    ensures RunSteps([step], fs) == match Exec(step, fs) { case None => Outcome(fs, false) case Some(next) => Outcome(next, true) }
  {
    assert [step][1..] == [];
  }

  // What the whole replacement does: the new text in place, the temp file gone. It
  // depends on nothing the temp file held before.
  lemma ReplaceRun(path: string, tmp: string, text: string, fs: Fs)
    requires path != tmp
    ensures RunSteps(ReplaceScript(path, tmp, text), fs)
         == if !Writable(fs, tmp) then Outcome(fs, false)
            else if path in fs && fs[path].Dir? then Outcome(fs[tmp := File(text, OWNER_FILE)], false)
            else Outcome((fs - {tmp})[path := File(text, OWNER_FILE)], true)
  {
    BuildRun(tmp, text, fs);
    RunConcat(BuildScript(tmp, text), [Rename(tmp, path)], fs);
    if Writable(fs, tmp) {
      var built := fs[tmp := File(text, OWNER_FILE)];
      assert (built - {tmp})[path := built[tmp]] == (fs - {tmp})[path := File(text, OWNER_FILE)];
    }
  }

  lemma BuildIsWithin(tmp: string, text: string)
    ensures Within(BuildScript(tmp, text), {tmp})
  {
  }

  lemma {:induction false} StaysWritable(script: seq<Step>, tmp: string, fs: Fs)
    requires Writable(fs, tmp)
    requires forall step | step in script :: step.path == tmp && (step.Truncate? || step.Append? || step.SetMode?)
    ensures Writable(RunSteps(script, fs).fs, tmp)
    decreases |script|
  {
    if script != [] {
      assert script[0] in script;
      if Exec(script[0], fs).Some? {
        StaysWritable(script[1..], tmp, Exec(script[0], fs).value);
      }
    }
  }

  // Before its last step a replacement has touched the temp file only.
  lemma BeforeTheRename(path: string, tmp: string, text: string, k: nat, fs: Fs)
    requires path != tmp && k < |ReplaceScript(path, tmp, text)|
    ensures var fs' := CutOff(ReplaceScript(path, tmp, text), k, fs);
            SameOutside(fs', fs, {tmp}) && (Writable(fs, tmp) ==> Writable(fs', tmp)) && (!Writable(fs, tmp) ==> fs' == fs)
  {
    var build := BuildScript(tmp, text);
    var part := build[..k];
    assert ReplaceScript(path, tmp, text)[..k] == part;
    BuildIsWithin(tmp, text);
    assert forall step | step in part :: step in build;
    RunFrame(part, fs, {tmp});
    if Writable(fs, tmp) {
      StaysWritable(part, tmp, fs);
    } else if k > 0 {
      assert part[0] == Truncate(tmp);
    }
  }

  // Atomic replacement: wherever the command is cut off, the target is either exactly
  // as it was or holds exactly the new text, and nothing else but the temp file moved.
  lemma AtomicReplace(path: string, tmp: string, text: string, k: nat, fs: Fs)
    requires path != tmp
    ensures var fs' := CutOff(ReplaceScript(path, tmp, text), k, fs);
            && (SameAt(fs', fs, path) || (path in fs' && fs'[path] == File(text, OWNER_FILE)))
            && SameOutside(fs', fs, {path, tmp})
  {
    if k < |ReplaceScript(path, tmp, text)| {
      BeforeTheRename(path, tmp, text, k, fs);
    } else {
      ReplaceRun(path, tmp, text, fs);
    }
  }

  lemma SameOutsideOne(a: Fs, b: Fs, tmp: string, v: Node)
    requires SameOutside(a, b, {tmp})
    ensures a - {tmp} == b - {tmp}
    ensures a[tmp := v] == b[tmp := v]
  {
    assert forall p | p !in {tmp} :: SameAt(a, b, p);
    assert forall p | p in a || p in b :: p != tmp ==> SameAt(a, b, p);
  }

  lemma ReplaceIsReplayable(path: string, tmp: string, text: string)
    requires path != tmp
    ensures Replayable(ReplaceScript(path, tmp, text))
  {
    var script := ReplaceScript(path, tmp, text);
    forall fs: Fs, k: nat
      ensures RunSteps(script, CutOff(script, k, fs)) == RunSteps(script, fs)
    {
      var cut := CutOff(script, k, fs);
      ReplaceRun(path, tmp, text, fs);
      ReplaceRun(path, tmp, text, cut);
      if k < |script| {
        BeforeTheRename(path, tmp, text, k, fs);
        assert SameAt(cut, fs, path);
        SameOutsideOne(cut, fs, tmp, File(text, OWNER_FILE));
      }
    }
  }

  // ---------------------------------------------------------------- the other mutations

  // mkdir -p dir && chmod 700 dir && touch file && chmod 600 file
  function SetupScript(dir: string, file: string): seq<Step> {
    [MakeDir(dir), SetMode(dir, OWNER_DIR), Touch(file), SetMode(file, OWNER_FILE)]
  }

  // rm -f link && ln -s target link
  function SwapScript(link: string, target: string): seq<Step> {
    [Unlink(link), MakeLink(target, link)]
  }

  // What the whole set-up does: the modes are set, an existing file keeps its contents.
  lemma SetupRun(dir: string, file: string, fs: Fs)
    requires dir != file
    ensures RunSteps(SetupScript(dir, file), fs)
         == if dir in fs && !fs[dir].Dir? then Outcome(fs, false)
            else
              var made := fs[dir := Dir(OWNER_DIR)];
              if file !in fs then Outcome(made[file := File("", OWNER_FILE)], true)
              else if !HasMode(fs[file]) then Outcome(made, false)
              else Outcome(made[file := fs[file].(mode := OWNER_FILE)], true)
  {
    var a, b, c, d := MakeDir(dir), SetMode(dir, OWNER_DIR), Touch(file), SetMode(file, OWNER_FILE);
    RunFour(a, b, c, d, fs);
    if !(dir in fs && !fs[dir].Dir?) {
      var made := fs[dir := Dir(OWNER_DIR)];
      var first := Exec(a, fs).value;
      assert first[dir := Dir(OWNER_DIR)] == made;
      assert Exec(b, first) == Some(made);
      var touched := Exec(c, made).value;
      if file !in fs {
        assert touched[file := File("", OWNER_FILE)] == made[file := File("", OWNER_FILE)];
      }
    }
  }

  lemma RunFour(a: Step, b: Step, c: Step, d: Step, fs: Fs)
    ensures RunSteps([a, b, c, d], fs)
         == match Exec(a, fs) {
              case None => Outcome(fs, false)
              case Some(x) =>
                match Exec(b, x) {
                  case None => Outcome(x, false)
                  case Some(y) =>
                    match Exec(c, y) {
                      case None => Outcome(y, false)
                      case Some(z) => RunSteps([d], z)
                    }
                }
            }
    ensures forall z :: RunSteps([d], z) == match Exec(d, z) { case None => Outcome(z, false) case Some(w) => Outcome(w, true) }
  {
    assert [a, b, c, d] == [a] + ([b] + ([c] + [d]));
    RunFirst(a, [b] + ([c] + [d]), fs);
    if Exec(a, fs).Some? {
      var x := Exec(a, fs).value;
      RunFirst(b, [c] + [d], x);
      if Exec(b, x).Some? {
        RunFirst(c, [d], Exec(b, x).value);
      }
    }
    forall z
      ensures RunSteps([d], z) == match Exec(d, z) { case None => Outcome(z, false) case Some(w) => Outcome(w, true) }
    {
      RunOne(d, z);
    }
  }

  lemma RunFirst(step: Step, rest: seq<Step>, fs: Fs)
    ensures RunSteps([step] + rest, fs)
         == match Exec(step, fs) { case None => Outcome(fs, false) case Some(next) => RunSteps(rest, next) }
  {
    assert ([step] + rest)[1..] == rest;
  }

  // synosetkeyvalue path key value
  function SetKeyScript(path: string, key: string, value: string): seq<Step> { [SetKey(path, key, value)] }

  lemma SetKeyIsReplayable(path: string, key: string, value: string)
    ensures Replayable(SetKeyScript(path, key, value))
  {
    var s := SetKeyScript(path, key, value);
    forall fs: Fs, k: nat
      ensures RunSteps(s, CutOff(s, k, fs)) == RunSteps(s, fs)
    {
      RunOne(s[0], fs);
      RunOne(s[0], CutOff(s, k, fs));
      if k == 0 {
        assert s[..0] == [];
      } else if path in fs && fs[path].Settings? {
        var set1 := fs[path := Settings(fs[path].values[key := value])];
        assert set1[path].values[key := value] == set1[path].values;
        assert set1[path := set1[path]] == set1;
      }
    }
  }

  lemma SwapRun(link: string, target: string, fs: Fs)
    ensures RunSteps(SwapScript(link, target), fs)
         == if link in fs && fs[link].Dir? then Outcome(fs, false) else Outcome(fs[link := Link(target)], true)
  {
    var s := SwapScript(link, target);
    assert s[1..] == [MakeLink(target, link)];
    if !(link in fs && fs[link].Dir?) {
      var cleared := Exec(s[0], fs).value;
      assert link !in cleared;
      assert cleared[link := Link(target)] == fs[link := Link(target)];
      assert RunSteps(s, fs) == RunSteps(s[1..], cleared);
      assert RunSteps(s[1..], cleared) == RunSteps(s[1..][1..], fs[link := Link(target)]);
    }
  }

  lemma SwapIsReplayable(link: string, target: string)
    ensures Replayable(SwapScript(link, target))
  {
    var s := SwapScript(link, target);
    forall fs: Fs, k: nat
      ensures RunSteps(s, CutOff(s, k, fs)) == RunSteps(s, fs)
    {
      var cut := CutOff(s, k, fs);
      SwapRun(link, target, fs);
      SwapRun(link, target, cut);
      if k == 1 {
        assert s[..1] == [s[0]];
        assert RunSteps([s[0]], fs) == match Exec(s[0], fs) { case None => Outcome(fs, false) case Some(f) => RunSteps([s[0]][1..], f) };
        assert [s[0]][1..] == [];
        assert cut == if link in fs && !fs[link].Dir? then fs - {link} else fs;
        assert cut[link := Link(target)] == fs[link := Link(target)];
      }
    }
  }

  lemma SetupIsReplayable(dir: string, file: string)
    requires dir != file
    ensures Replayable(SetupScript(dir, file))
  {
    var s := SetupScript(dir, file);
    forall fs: Fs, k: nat
      ensures RunSteps(s, CutOff(s, k, fs)) == RunSteps(s, fs)
    {
      SetupRun(dir, file, fs);
      SetupCut(dir, file, k, fs);
      SetupRun(dir, file, CutOff(s, k, fs));
      SetupAgain(dir, file, fs, CutOff(s, k, fs));
    }
  }

  // What a cut-off setup may have changed: a directory's mode, a file's mode, an empty
  // file where there was none.
  predicate SetupPart(dir: string, file: string, fs: Fs, fs': Fs) {
    && fs' - {dir, file} == fs - {dir, file}
    && (if dir in fs && !fs[dir].Dir? then fs' == fs else (dir in fs' ==> fs'[dir].Dir?))
    && (file in fs ==> file in fs' && (fs'[file] == fs[file] || (HasMode(fs[file]) && fs'[file] == fs[file].(mode := OWNER_FILE))))
    && (file !in fs && file in fs' ==> fs'[file].File? && fs'[file].contents == "")
  }

  lemma {:induction false} SetupStepsPart(script: seq<Step>, dir: string, file: string, fs: Fs, now: Fs)
    requires dir != file && !(dir in fs && !fs[dir].Dir?)
    requires SetupPart(dir, file, fs, now)
    requires forall step | step in script :: step in SetupScript(dir, file)
    ensures SetupPart(dir, file, fs, RunSteps(script, now).fs)
    decreases |script|
  {
    if script != [] {
      assert script[0] in script;
      var next := Exec(script[0], now);
      if next.Some? {
        assert next.value - {dir, file} == now - {dir, file};
        SetupStepsPart(script[1..], dir, file, fs, next.value);
      }
    }
  }

  lemma SetupCut(dir: string, file: string, k: nat, fs: Fs)
    requires dir != file
    ensures SetupPart(dir, file, fs, CutOff(SetupScript(dir, file), k, fs))
  {
    var s := SetupScript(dir, file);
    var part := if k < |s| then s[..k] else s;
    if dir in fs && !fs[dir].Dir? {
      assert part == [] || part[0] == MakeDir(dir);
    } else {
      SetupStepsPart(part, dir, file, fs, fs);
    }
  }

  lemma SetupAgain(dir: string, file: string, fs: Fs, cut: Fs)
    requires dir != file && SetupPart(dir, file, fs, cut)
    ensures RunSteps(SetupScript(dir, file), cut) == RunSteps(SetupScript(dir, file), fs)
  {
    SetupRun(dir, file, fs);
    SetupRun(dir, file, cut);
    forall v
      ensures SameWith(cut, fs, dir, file, v)
    {
      SameApart(cut, fs, dir, file, v);
    }
    if file !in fs {
      assert SameWith(cut, fs, dir, file, File("", OWNER_FILE));
    } else if !HasMode(fs[file]) {
      assert SameWith(cut, fs, dir, file, fs[file]);
      assert fs[dir := Dir(OWNER_DIR)][file := fs[file]] == fs[dir := Dir(OWNER_DIR)];
      assert cut[dir := Dir(OWNER_DIR)][file := cut[file]] == cut[dir := Dir(OWNER_DIR)];
    } else {
      assert SameWith(cut, fs, dir, file, fs[file].(mode := OWNER_FILE));
    }
  }

  predicate SameWith(a: Fs, b: Fs, dir: string, file: string, v: Node) {
    a[dir := Dir(OWNER_DIR)][file := v] == b[dir := Dir(OWNER_DIR)][file := v]
  }

  lemma SameApart(a: Fs, b: Fs, dir: string, file: string, v: Node)
    requires a - {dir, file} == b - {dir, file}
    ensures SameWith(a, b, dir, file, v)
  {
    forall p | p != dir && p != file
      ensures SameAt(a, b, p)
    {
      assert p in a <==> p in a - {dir, file};
      assert p in b <==> p in b - {dir, file};
    }
    var x, y := a[dir := Dir(OWNER_DIR)][file := v], b[dir := Dir(OWNER_DIR)][file := v];
    assert forall p | p in x || p in y :: p == dir || p == file || SameAt(a, b, p);
  }
}
