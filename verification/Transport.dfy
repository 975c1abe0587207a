// The SSH client: one cached connection, opened lazily, dropped on a channel or
// socket error, with one retry of the command on a new connection. The retry may run
// a command a second time after part of it, or all of it, has already happened.
module Transport {
  import opened Wrappers
  import opened Shell

  datatype SshError =
    | ConnectFailed
    | ChannelError
    | SocketError
    | ExitStatus

  // One execution of a command on an open connection: it runs to its end, it stops
  // early for a reason of the NAS's own (exit status non-zero), or the connection
  // breaks after some of its steps.
  datatype Fate =
    | Completes
    | Stops(after: nat)
    | Breaks(socket: bool, after: nat)

  // What happens on one of the two attempts, if it is made: whether connecting works
  // (used when no connection is cached) and how the execution goes.
  datatype Attempt = Attempt(connects: bool, fate: Fate)

  datatype Attempts = Attempts(first: Attempt, second: Attempt)

  datatype RunResult =
    | Returned(ok: bool)
    | Raised(error: SshError)

  // The state run works on: the cached connection, how many were tried and how many
  // executions were started so far, the connection the last one ran on, and the NAS.
  datatype Conn = Conn(client: Option<nat>, connects: nat, executions: nat, ranOn: Option<nat>, fs: Fs)

  // One attempt: connect if nothing is cached, then execute. None when the
  // connection broke; the cache is then empty.
  function Try(c: Conn, script: seq<Step>, check: bool, attempt: Attempt): (Conn, Option<RunResult>) {
    var ready := if c.client.Some? then c
                  else c.(connects := c.connects + 1,
                          client := if attempt.connects then Some(c.connects) else None);
    if ready.client.None? then (ready, Some(Raised(ConnectFailed)))
    else
      var ran := ready.(executions := ready.executions + 1, ranOn := ready.client);
      match attempt.fate
      case Completes =>
        var o := RunSteps(script, c.fs);
        (ran.(fs := o.fs), Some(if check && !o.ok then Raised(ExitStatus) else Returned(o.ok)))
      case Stops(k) =>
        (ran.(fs := CutOff(script, k, c.fs)), Some(if check then Raised(ExitStatus) else Returned(false)))
      case Breaks(_, k) =>
        (ran.(fs := CutOff(script, k, c.fs), client := None), None)
  }

  function RunCommand(c: Conn, script: seq<Step>, check: bool, attempts: Attempts): (Conn, RunResult) {
    match Try(c, script, check, attempts.first)
    case (done, Some(r)) => (done, r)
    case (broken, None) =>
      match Try(broken, script, check, attempts.second)
      case (done, Some(r)) => (done, r)
      case (gone, None) => (gone, Raised(if attempts.second.fate.socket then SocketError else ChannelError))
  }

  // At most two executions and two connects; a second execution only after the first
  // attempt broke, and at most one connect for each attempt.
  lemma RunIsBounded(c: Conn, script: seq<Step>, check: bool, attempts: Attempts)
    ensures var (d, r) := RunCommand(c, script, check, attempts);
            && c.executions <= d.executions <= c.executions + 2
            && c.connects <= d.connects <= c.connects + (if c.client.Some? then 1 else 2)
            && (d.executions == c.executions + 2 ==> attempts.first.fate.Breaks?)
            && (d.executions == c.executions <==> r == Raised(ConnectFailed) && c.client.None? && !attempts.first.connects)
  {
  }

  // What is left in the cache: after a normal return and after a non-zero exit the
  // connection that ran the command, after everything else nothing.
  lemma RunCache(c: Conn, script: seq<Step>, check: bool, attempts: Attempts)
    ensures var (d, r) := RunCommand(c, script, check, attempts);
            && (r.Returned? || r == Raised(ExitStatus) ==> d.client.Some? && d.client == d.ranOn)
            && (r.Raised? && r.error != ExitStatus <==> d.client == None)
            && (r == Raised(ExitStatus) ==> check)
            && (check && r.Returned? ==> r.ok)
  {
  }

  // How an execution that did not break ends, on the NAS as it found it.
  ghost function Ending(script: seq<Step>, fate: Fate, fs: Fs): Outcome
    requires !fate.Breaks?
  {
    if fate.Completes? then RunSteps(script, fs) else Outcome(CutOff(script, fate.after, fs), false)
  }

  // The first attempt executed the command and broke: the case for a retry.
  ghost predicate FirstBroke(c: Conn, attempts: Attempts) {
    (c.client.Some? || attempts.first.connects) && attempts.first.fate.Breaks?
  }

  // The command is executed twice exactly if the first attempt executed it and broke and
  // the second connect works; once if there is just one connection for it; and never if
  // there is none.
  lemma WhenRunTwice(c: Conn, script: seq<Step>, check: bool, attempts: Attempts)
    ensures var (d, r) := RunCommand(c, script, check, attempts);
            && (d.executions == c.executions + 2 <==> FirstBroke(c, attempts) && attempts.second.connects)
            && (d.executions == c.executions <==> c.client.None? && !attempts.first.connects)
            && (d.executions in {c.executions, c.executions + 1, c.executions + 2})
            && (d.connects == c.connects + (if c.client.None? then 1 else 0) + (if FirstBroke(c, attempts) then 1 else 0))
  {
  }

  // What the caller gets: the ending of the execution that did not break, the first or
  // else the second, with a status other than 0 raised if the caller checks; or the
  // error of what went wrong last.
  lemma RunAnswers(c: Conn, script: seq<Step>, check: bool, attempts: Attempts)
    ensures var (d, r) := RunCommand(c, script, check, attempts);
            var (first, second) := (attempts.first, attempts.second);
            if c.client.None? && !first.connects then r == Raised(ConnectFailed) && d.fs == c.fs
            else if !first.fate.Breaks? then Answers(Ending(script, first.fate, c.fs), check, d.fs, r)
            else
              var cut := CutOff(script, first.fate.after, c.fs);
              if !second.connects then r == Raised(ConnectFailed) && d.fs == cut
              else if !second.fate.Breaks? then Answers(Ending(script, second.fate, cut), check, d.fs, r)
              else r == Raised(if second.fate.socket then SocketError else ChannelError) && d.fs == CutOff(script, second.fate.after, cut)
  {
  }

  ghost predicate Answers(o: Outcome, check: bool, fs: Fs, r: RunResult) {
    fs == o.fs && (if o.ok then r == Returned(true) else if check then r == Raised(ExitStatus) else r == Returned(false))
  }

  // A replayable command that breaks on a connection gone stale and then completes on a
  // new one: the caller gets what one run on the untouched NAS gives.
  lemma RetrySucceeds(c: Conn, script: seq<Step>, attempts: Attempts)
    requires Replayable(script) && FirstBroke(c, attempts)
    requires attempts.second.connects && attempts.second.fate.Completes?
    ensures var (d, r) := RunCommand(c, script, false, attempts);
            r == Returned(RunSteps(script, c.fs).ok) && d.fs == RunSteps(script, c.fs).fs && d.executions == c.executions + 2
  {
    RunAnswers(c, script, false, attempts);
    assert RunSteps(script, CutOff(script, attempts.first.fate.after, c.fs)) == RunSteps(script, c.fs);
  }

  // A replayable command that ended by itself, on whichever attempt, did to the NAS
  // what one uninterrupted execution does, and reports that execution's status.
  lemma RetryIsHarmless(c: Conn, script: seq<Step>, attempts: Attempts)
    requires Replayable(script)
    requires !attempts.first.fate.Stops? && !attempts.second.fate.Stops?
    ensures var (d, r) := RunCommand(c, script, false, attempts);
            r.Returned? ==> Outcome(d.fs, r.ok) == RunSteps(script, c.fs)
  {
    var (one, end) := Try(c, script, false, attempts.first);
    if end == None {
      assert one.fs == CutOff(script, attempts.first.fate.after, c.fs);
    }
  }

  // Whatever happens, the NAS is where one cut-off execution, or two, leave it.
  lemma RunReaches(c: Conn, script: seq<Step>, check: bool, attempts: Attempts)
    ensures var (d, r) := RunCommand(c, script, check, attempts);
            exists j: nat, k: nat :: d.fs == CutOff(script, k, CutOff(script, j, c.fs))
  {
    var n := |script|;
    assert forall fs :: CutOff(script, n, fs) == RunSteps(script, fs).fs;
    assert forall fs :: CutOff(script, 0, fs) == fs by {
      assert n > 0 ==> script[..0] == [];
    }
    var (one, end) := Try(c, script, check, attempts.first);
    var j := StepsOf(c, script, attempts.first);
    assert one.fs == CutOff(script, j, c.fs);
    var k := if end == None then StepsOf(one, script, attempts.second) else 0;
    assert RunCommand(c, script, check, attempts).0.fs == CutOff(script, k, CutOff(script, j, c.fs));
  }

  function StepsOf(c: Conn, script: seq<Step>, attempt: Attempt): nat {
    if c.client.None? && !attempt.connects then 0
    else if attempt.fate.Completes? then |script|
    else attempt.fate.after
  }

  lemma ReplaceReaches(path: string, tmp: string, text: string, j: nat, k: nat, fs: Fs)
    requires path != tmp
    ensures var script := ReplaceScript(path, tmp, text);
            var fs' := CutOff(script, k, CutOff(script, j, fs));
            && (SameAt(fs', fs, path) || (path in fs' && fs'[path] == File(text, OWNER_FILE)))
            && SameOutside(fs', fs, {path, tmp})
  {
    var mid := CutOff(ReplaceScript(path, tmp, text), j, fs);
    AtomicReplace(path, tmp, text, j, fs);
    AtomicReplace(path, tmp, text, k, mid);
    forall p | p !in {path, tmp}
      ensures SameAt(CutOff(ReplaceScript(path, tmp, text), k, mid), fs, p)
    {
      assert SameAt(mid, fs, p) && SameAt(CutOff(ReplaceScript(path, tmp, text), k, mid), mid, p);
    }
  }

  // Replacing a file over the retrying client, for every pattern of failures: the old
  // contents or exactly the new ones, nothing else touched but the temp file, and the
  // new ones if the command reports success.
  lemma ReplaceOverSsh(c: Conn, path: string, tmp: string, text: string, attempts: Attempts)
    requires path != tmp
    ensures var (d, r) := RunCommand(c, ReplaceScript(path, tmp, text), false, attempts);
            && (SameAt(d.fs, c.fs, path) || (path in d.fs && d.fs[path] == File(text, OWNER_FILE)))
            && SameOutside(d.fs, c.fs, {path, tmp})
            && (r == Returned(true) ==> path in d.fs && d.fs[path] == File(text, OWNER_FILE) && tmp !in d.fs)
  {
    var script := ReplaceScript(path, tmp, text);
    RunReaches(c, script, false, attempts);
    var d := RunCommand(c, script, false, attempts).0;
    var j: nat, k: nat :| d.fs == CutOff(script, k, CutOff(script, j, c.fs));
    ReplaceReaches(path, tmp, text, j, k, c.fs);
    var mid := Try(c, script, false, attempts.first).0;
    ReplaceRun(path, tmp, text, c.fs);
    ReplaceRun(path, tmp, text, mid.fs);
  }

  class SshClient {
    var client: Option<nat>
    var fs: Fs
    ghost var connects: nat
    ghost var executions: nat
    ghost var ranOn: Option<nat>
    var nextId: nat

    ghost predicate Valid() reads this { nextId == connects }

    ghost function State(): Conn reads this { Conn(client, connects, executions, ranOn, fs) }

    constructor (nas: Fs)
      ensures Valid() && State() == Conn(None, 0, 0, None, nas)
    {
      client, fs, nextId := None, nas, 0;
      connects, executions, ranOn := 0, 0, None;
    }

    method Close()
      requires Valid()
      modifies this
      ensures Valid() && State() == old(State()).(client := None)
    {
      if client.Some? {
        client := None;
      }
    }

    method EnsureClient(connectWorks: bool) returns (r: Result<nat, SshError>)
      requires Valid()
      modifies this
      ensures Valid()
      ensures old(client).Some? ==> State() == old(State())
      ensures old(client).None? ==>
        State() == old(State()).(connects := old(connects) + 1, client := if connectWorks then Some(old(connects)) else None)
      ensures r == if client.Some? then Success(client.value) else Failure(ConnectFailed)
    {
      if client.Some? {
        return Success(client.value);
      }
      connects := connects + 1;
      nextId := nextId + 1;
      if !connectWorks {
        return Failure(ConnectFailed);
      }
      client := Some(nextId - 1);
      return Success(client.value);
    }

    // One execution on the open connection; None when the channel or socket broke.
    method ExecCommand(script: seq<Step>, fate: Fate) returns (status: Option<bool>)
      requires Valid() && client.Some?
      modifies this
      ensures Valid()
      ensures State() == old(State()).(executions := old(executions) + 1, ranOn := client,
        fs := if fate.Completes? then RunSteps(script, old(fs)).fs else CutOff(script, fate.after, old(fs)))
      ensures status == match fate {
        case Completes => Some(RunSteps(script, old(fs)).ok)
        case Stops(_) => Some(false)
        case Breaks(_, _) => None
      }
    {
      executions, ranOn := executions + 1, client;
      match fate {
        case Completes =>
          var o := RunSteps(script, fs);
          fs := o.fs;
          status := Some(o.ok);
        case Stops(k) =>
          fs := CutOff(script, k, fs);
          status := Some(false);
        case Breaks(_, k) =>
          fs := CutOff(script, k, fs);
          status := None;
      }
    }

    // Execute one command, retrying once when the channel or socket breaks.
    method Run(script: seq<Step>, check: bool, attempts: Attempts) returns (r: RunResult)
      requires Valid()
      modifies this
      ensures Valid()
      ensures (State(), r) == RunCommand(old(State()), script, check, attempts)
    {
      var n := 1;
      while n <= 2
        invariant 1 <= n <= 2
        invariant Valid()
        invariant n == 1 ==> State() == old(State())
        invariant n == 2 ==> Try(old(State()), script, check, attempts.first) == (State(), None)
        decreases 3 - n
      {
        var attempt := if n == 1 then attempts.first else attempts.second;
        var connection := EnsureClient(attempt.connects);
        if connection.Failure? {
          return Raised(connection.error);
        }
        var status := ExecCommand(script, attempt.fate);
        if status == None {
          Close();
          if n == 1 {
            n := n + 1;
            continue;
          }
          return Raised(if attempt.fate.socket then SocketError else ChannelError);
        }
        if check && !status.value {
          return Raised(ExitStatus);
        }
        return Returned(status.value);
      }
      assert false;
    }
  }
}
