// Changing the SSH port: the whole terminal record is read and sent back with the new
// port in it, because the NAS resets whatever a set leaves out.
module Terminal {
  import opened Wrappers
  import opened Text

  datatype Record = Record(
    enableSsh: bool, port: int, enableTelnet: bool, forbidConsole: bool,
    ciphers: seq<string>, kex: seq<string>, macs: seq<string>)

  // What a get answers; a field it leaves out, or a list that is not one, is None.
  datatype Answer = Answer(
    enableSsh: Option<bool>, port: Option<int>, enableTelnet: Option<bool>, forbidConsole: Option<bool>,
    ciphers: Option<seq<string>>, kex: Option<seq<string>>, macs: Option<seq<string>>)

  function FullAnswer(r: Record): Answer {
    Answer(Some(r.enableSsh), Some(r.port), Some(r.enableTelnet), Some(r.forbidConsole), Some(r.ciphers), Some(r.kex), Some(r.macs))
  }

  predicate Fits<T(==)>(o: Option<T>, v: T) { o.Some? ==> o.value == v }

  // An answer that may be partial, but is right about what it mentions.
  predicate Truthful(a: Answer, r: Record) {
    && Fits(a.enableSsh, r.enableSsh) && Fits(a.port, r.port) && Fits(a.enableTelnet, r.enableTelnet)
    && Fits(a.forbidConsole, r.forbidConsole) && Fits(a.ciphers, r.ciphers) && Fits(a.kex, r.kex) && Fits(a.macs, r.macs)
  }

  // ---------------------------------------------------------------- the parameters of a set

  datatype Param = Plain(text: string) | Json(items: seq<string>)

  // The parameters' names.
  datatype Key = EnableSsh | SshPort | EnableTelnet | ForbidConsole | SshCipher | SshKex | SshMac

  type Params = map<Key, Param>

  function Bool(b: bool): Param { Plain(if b then "true" else "false") }

  const LISTS: seq<Key> := [SshCipher, SshKex, SshMac]

  function ListOf(a: Answer, key: Key): Option<seq<string>> {
    match key
    case SshCipher => a.ciphers
    case SshKex => a.kex
    case SshMac => a.macs
    case _ => None
  }

  // The parameter each key is sent with, None if it is left out. An answer without
  // enable_ssh reads as one that says no.
  function Sent(a: Answer, port: nat, key: Key): Option<Param> {
    match key
    case EnableSsh => Some(Bool(a.enableSsh == Some(true)))
    case SshPort => Some(Plain(NatString(port)))
    case EnableTelnet => if a.enableTelnet.Some? then Some(Bool(a.enableTelnet.value)) else None
    case ForbidConsole => if a.forbidConsole.Some? then Some(Bool(a.forbidConsole.value)) else None
    case _ => if ListOf(a, key).Some? then Some(Json(ListOf(a, key).value)) else None
  }

  function At(params: Params, key: Key): Option<Param> { if key in params then Some(params[key]) else None }

  ghost predicate IsPayload(params: Params, a: Answer, port: nat) {
    forall key :: At(params, key) == Sent(a, port, key)
  }

  // The order the parameters are filled in.
  ghost function Place(key: Key): nat {
    match key
    case EnableSsh => 0
    case SshPort => 1
    case EnableTelnet => 2
    case ForbidConsole => 3
    case SshCipher => 4
    case SshKex => 5
    case SshMac => 6
  }

  method TerminalSetPayload(a: Answer, port: nat) returns (params: Params)
    ensures IsPayload(params, a, port)
  {
    params := map[EnableSsh := Bool(a.enableSsh == Some(true)), SshPort := Plain(NatString(port))];
    if a.enableTelnet.Some? {
      params := params[EnableTelnet := Bool(a.enableTelnet.value)];
    }
    if a.forbidConsole.Some? {
      params := params[ForbidConsole := Bool(a.forbidConsole.value)];
    }
    for i := 0 to |LISTS|
      invariant forall key | Place(key) < 4 + i :: At(params, key) == Sent(a, port, key)
      invariant forall key | key in params :: Place(key) < 4 + i
    {
      var key := LISTS[i];
      if ListOf(a, key).Some? {
        params := params[key := Json(ListOf(a, key).value)];
      }
    }
  }

  // ---------------------------------------------------------------- what the NAS does with it

  function TextOf(params: Params, key: Key, default: string): string {
    if key in params && params[key].Plain? then params[key].text else default
  }

  function ItemsOf(params: Params, key: Key, default: seq<string>): seq<string> {
    if key in params && params[key].Json? then params[key].items else default
  }

  // A set replaces the whole record; a field that is not sent goes to its default.
  function ApplySet(params: Params, default: Record): Record {
    var port := TextOf(params, SshPort, "");
    Record(
      TextOf(params, EnableSsh, if default.enableSsh then "true" else "false") == "true",
      if port != "" && All(port, IsDigit) then ParseNat(port) else default.port,
      TextOf(params, EnableTelnet, if default.enableTelnet then "true" else "false") == "true",
      TextOf(params, ForbidConsole, if default.forbidConsole then "true" else "false") == "true",
      ItemsOf(params, SshCipher, default.ciphers),
      ItemsOf(params, SshKex, default.kex),
      ItemsOf(params, SshMac, default.macs))
  }

  function Default<T>(o: Option<T>, default: T): T { if o.Some? then o.value else default }

  // The record after a set built from an answer, field by field.
  lemma SetGives(params: Params, a: Answer, port: nat, default: Record)
    requires IsPayload(params, a, port)
    ensures ApplySet(params, default) == Record(
      a.enableSsh == Some(true), port, Default(a.enableTelnet, default.enableTelnet),
      Default(a.forbidConsole, default.forbidConsole), Default(a.ciphers, default.ciphers),
      Default(a.kex, default.kex), Default(a.macs, default.macs))
  {
    assert At(params, EnableSsh) == Sent(a, port, EnableSsh);
    assert At(params, SshPort) == Sent(a, port, SshPort);
    assert At(params, EnableTelnet) == Sent(a, port, EnableTelnet);
    assert At(params, ForbidConsole) == Sent(a, port, ForbidConsole);
    assert At(params, SshCipher) == Sent(a, port, SshCipher);
    assert At(params, SshKex) == Sent(a, port, SshKex);
    assert At(params, SshMac) == Sent(a, port, SshMac);
    TrueIsNotFalse();
  }

  lemma TrueIsNotFalse()
    ensures "true" != "false"
  {
    assert |"true"| != |"false"|;
  }

  // Whether a set made from this answer leaves everything but the port alone.
  predicate Complete(a: Answer, r: Record) {
    && (a.enableSsh.Some? || !r.enableSsh)
    && a.enableTelnet.Some? && a.forbidConsole.Some? && a.ciphers.Some? && a.kex.Some? && a.macs.Some?
  }

  // Carry-forward, exactly: only the port changes, whatever the NAS's defaults are, if
  // and only if the answer had every field; enable_ssh may be missing only while it
  // is off, because a missing one is sent as off.
  lemma OnlyThePortChanges(params: Params, a: Answer, r: Record, port: nat)
    requires IsPayload(params, a, port) && Truthful(a, r)
    ensures (forall default :: ApplySet(params, default) == r.(port := port)) <==> Complete(a, r)
  {
    var contrary := Record(!r.enableSsh, 0, !r.enableTelnet, !r.forbidConsole, r.ciphers + ["x"], r.kex + ["x"], r.macs + ["x"]);
    forall default
      ensures Complete(a, r) ==> ApplySet(params, default) == r.(port := port)
    {
      SetGives(params, a, port, default);
    }
    SetGives(params, a, port, contrary);
    assert |contrary.ciphers| != |r.ciphers| && |contrary.kex| != |r.kex| && |contrary.macs| != |r.macs|;
    if forall default :: ApplySet(params, default) == r.(port := port) {
      assert ApplySet(params, contrary) == r.(port := port);
    }
  }

  // A full answer is carried forward; the same answer without enable_ssh turns SSH off
  // on a NAS that had it on, whatever the defaults are.
  lemma MissingFieldTurnsSshOff(r: Record, port: nat, default: Record, full: Params, partial: Params)
    requires r.enableSsh && IsPayload(full, FullAnswer(r), port) && IsPayload(partial, FullAnswer(r).(enableSsh := None), port)
    ensures ApplySet(full, default) == r.(port := port)
    ensures ApplySet(partial, default) == r.(port := port, enableSsh := false)
  {
    SetGives(full, FullAnswer(r), port, default);
    SetGives(partial, FullAnswer(r).(enableSsh := None), port, default);
  }

  // ---------------------------------------------------------------- the tool

  const DEFAULT_PORT := 22
  const MIN_PORT := 1024
  const MAX_PORT := 65535

  predicate ValidPort(port: int, allowDefault: bool) {
    if port == DEFAULT_PORT then allowDefault else MIN_PORT <= port <= MAX_PORT
  }

  // Output of the two listener probes; None when one raises.
  datatype Listeners = Listeners(ss: Option<string>, netstat: Option<string>)

  // A probe that cannot be made counts as a free port.
  predicate PortInUse(l: Listeners) {
    match l.ss
    case Some(out) => Strip(out) != ""
    case None => l.netstat.Some? && Strip(l.netstat.value) != ""
  }

  datatype PortFates = PortFates(get: Option<Answer>, listeners: Listeners, takes: bool, answers: bool, default: Record, verified: bool)

  datatype PortResult =
    | BadPort
    | PortRaised
    | AlreadyOnPort
    | PortTaken
    | PortChanged(previous: Option<int>, port: int, verified: bool)

  // The ports that may be asked for: 1024 to 65535, and 22 if that is allowed.
  ghost predicate Permitted(port: int, allowDefault: bool) {
    1024 <= port <= 65535 || (port == 22 && allowDefault)
  }

  // Some other listener was seen: ss showed a row, or it could not be asked and netstat did.
  ghost predicate ListenerSeen(l: Listeners) {
    if l.ss.Some? then ShowsRow(l.ss.value) else l.netstat.Some? && ShowsRow(l.netstat.value)
  }

  ghost predicate ShowsRow(out: string) { exists c :: c in out && !IsSpace(c) }

  lemma WhenShowsRow(out: string)
    ensures ShowsRow(out) <==> Strip(out) != ""
  {
    WhenBlank(out);
    assert forall i | 0 <= i < |out| :: out[i] in out;
  }

  // A set goes out exactly for a permitted port, when the answer to get does not have it
  // and no listener was seen on it.
  lemma WhenSends(port: int, allowDefault: bool, f: PortFates)
    ensures ValidPort(port, allowDefault) <==> Permitted(port, allowDefault)
    ensures PortInUse(f.listeners) <==> ListenerSeen(f.listeners)
    ensures Sends(port, allowDefault, f)
       <==> Permitted(port, allowDefault) && f.get.Some? && f.get.value.port != Some(port) && !ListenerSeen(f.listeners)
  {
    if f.listeners.ss.Some? {
      WhenShowsRow(f.listeners.ss.value);
    } else if f.listeners.netstat.Some? {
      WhenShowsRow(f.listeners.netstat.value);
    }
  }

  class TerminalNas {
    var record: Record
    ghost var sets: nat

    constructor (r: Record)
      ensures record == r && sets == 0
    {
      record, sets := r, 0;
    }

    // A set that may fail, having taken effect or not.
    method SendSet(params: Params, f: PortFates) returns (ok: bool)
      modifies this
      ensures sets == old(sets) + 1 && ok == f.answers
      ensures record == if f.takes then ApplySet(params, f.default) else old(record)
    {
      sets := sets + 1;
      if f.takes {
        record := ApplySet(params, f.default);
      }
      return f.answers;
    }

    // A set goes out exactly for a permitted port that is not the current one and that
    // nobody was seen listening on.
    method SshSetPort(port: int, allowDefault: bool, f: PortFates) returns (r: PortResult)
      modifies this
      ensures sets == old(sets) + (if Sends(port, allowDefault, f) then 1 else 0)
      ensures record == RecordAfter(old(record), port, allowDefault, f)
      ensures r.PortChanged? <==> Sends(port, allowDefault, f) && f.answers
      ensures r == BadPort <==> !Permitted(port, allowDefault)
      ensures r == PortTaken <==>
        Permitted(port, allowDefault) && f.get.Some? && f.get.value.port != Some(port) && ListenerSeen(f.listeners)
      ensures r.PortChanged? ==> r == PortChanged(f.get.value.port, port, f.verified)
      ensures r == AlreadyOnPort <==> Permitted(port, allowDefault) && f.get.Some? && f.get.value.port == Some(port)
    {
      WhenSends(port, allowDefault, f);
      if !ValidPort(port, allowDefault) {
        return BadPort;
      }
      if f.get == None {
        return PortRaised;
      }
      var current := f.get.value;
      if current.port == Some(port) {
        return AlreadyOnPort;
      }
      if PortInUse(f.listeners) {
        return PortTaken;
      }
      var params := TerminalSetPayload(current, port);
      SetGives(params, current, port, f.default);
      var ok := SendSet(params, f);
      if !ok {
        return PortRaised;
      }
      return PortChanged(current.port, port, f.verified);
    }
  }

  predicate Sends(port: int, allowDefault: bool, f: PortFates) {
    ValidPort(port, allowDefault) && f.get.Some? && f.get.value.port != Some(port) && !PortInUse(f.listeners)
  }

  // The record after a call, whatever the answer to it had in it.
  function RecordAfter(r: Record, port: int, allowDefault: bool, f: PortFates): Record {
    if !Sends(port, allowDefault, f) || !f.takes then r
    else
      var a, default := f.get.value, f.default;
      Record(a.enableSsh == Some(true), port, Default(a.enableTelnet, default.enableTelnet),
             Default(a.forbidConsole, default.forbidConsole), Default(a.ciphers, default.ciphers),
             Default(a.kex, default.kex), Default(a.macs, default.macs))
  }

  // ---------------------------------------------------------------- runs of calls

  datatype Call = Call(port: int, allowDefault: bool, fates: PortFates)

  function After(r: Record, c: Call): Record { RecordAfter(r, c.port, c.allowDefault, c.fates) }

  function Run(r: Record, calls: seq<Call>): Record
    decreases |calls|
  {
    if calls == [] then r else Run(After(r, calls[0]), calls[1..])
  }

  // Every get is truthful about the record of its moment and leaves out nothing that a
  // set would lose; or fails.
  predicate FullRun(r: Record, calls: seq<Call>)
    decreases |calls|
  {
    calls == [] || (FullCall(r, calls[0]) && FullRun(After(r, calls[0]), calls[1..]))
  }

  predicate FullCall(r: Record, c: Call) {
    c.fates.get.Some? ==> Truthful(c.fates.get.value, r) && Complete(c.fates.get.value, r)
  }

  // The NAS would move to this call's port, or is there: judged by the call alone.
  predicate Accepted(c: Call) {
    ValidPort(c.port, c.allowDefault) && c.fates.get.Some? && !PortInUse(c.fates.listeners) && c.fates.takes
  }

  function LastAccepted(port: int, calls: seq<Call>): int
    decreases |calls|
  {
    if calls == [] then port else LastAccepted(if Accepted(calls[0]) then calls[0].port else port, calls[1..])
  }

  // Over any run on full answers, nothing but the port ever changes, and the port is
  // that of the last accepted call.
  lemma {:induction false} RunMovesOnlyThePort(r: Record, calls: seq<Call>)
    requires FullRun(r, calls)
    ensures Run(r, calls) == r.(port := LastAccepted(r.port, calls))
    decreases |calls|
  {
    if calls != [] {
      var c := calls[0];
      CallMovesOnlyThePort(r, c);
      RunMovesOnlyThePort(After(r, c), calls[1..]);
    }
  }

  lemma CallMovesOnlyThePort(r: Record, c: Call)
    requires FullCall(r, c)
    ensures After(r, c) == r.(port := if Accepted(c) then c.port else r.port)
  {
  }

  // Whatever the answers, the SSH port of the NAS stays a permitted one, and is 22 only
  // if it was or a call allowed it.
  lemma {:induction false} PortStaysPermitted(r: Record, calls: seq<Call>)
    requires ValidPort(r.port, true)
    ensures ValidPort(Run(r, calls).port, true)
    ensures Run(r, calls).port == DEFAULT_PORT ==>
      r.port == DEFAULT_PORT || exists c :: c in calls && c.port == DEFAULT_PORT && c.allowDefault
    decreases |calls|
  {
    if calls != [] {
      PortStaysPermitted(After(r, calls[0]), calls[1..]);
      assert calls[0] in calls;
    }
  }
}
