// Package Center: the catalog search, the install and uninstall tools with their
// denylist, and the polling of a running task, over a NAS whose packages are a map
// from name to version.
module Packages {
  import opened Wrappers
  import opened Text

  // ---------------------------------------------------------------- polling a task

  datatype Status = Status(finished: bool, status: string)

  // The n-th answer to a status query: a body, possibly without data, or an error.
  datatype Reply = Answer(body: Option<Status>) | Error

  const POLL_TIMEOUT := 300.0
  const POLL_INTERVAL := 2.0
  const TERMINAL := {"done", "complete", "completed", "error"}

  predicate Terminal(body: Option<Status>) {
    body.Some? && (body.value.finished || body.value.status in TERMINAL)
  }

  // What ends the polling of a task: it says so itself, or is in a state that does.
  lemma WhenTerminal(body: Option<Status>)
    ensures Terminal(body) <==>
      body.Some? && (body.value.finished || body.value.status == "done" || body.value.status == "complete"
                     || body.value.status == "completed" || body.value.status == "error")
  {
  }

  // The number of queries that polling makes.
  ghost predicate Polled(replies: nat -> Reply, queries: nat) {
    && 1 <= queries <= 150 && (forall j: nat | j < queries - 1 :: !Ends(replies(j)))
    && (Ends(replies(queries - 1)) || queries == 150)
  }

  predicate Ends(r: Reply) { r.Error? || Terminal(r.body) }

  // At most 150 queries and 300 seconds of sleep, whatever is answered; the first
  // terminal body, or else the last one seen before the error or the timeout.
  method PollInstallTask(replies: nat -> Reply) returns (last: Option<Status>, queries: nat, slept: real)
    ensures 1 <= queries <= 150
    ensures forall j: nat | j < queries - 1 :: !Ends(replies(j))
    ensures Ends(replies(queries - 1)) || queries == 150
    ensures last == match replies(queries - 1) {
      case Answer(body) => body
      case Error => if queries == 1 then None else replies(queries - 2).body
    }
    ensures slept == POLL_INTERVAL * (if Ends(replies(queries - 1)) then queries - 1 else queries) as real
    ensures slept <= POLL_TIMEOUT
  {
    last, queries, slept := None, 0, 0.0;
    while slept < POLL_TIMEOUT
      invariant queries <= 150 && slept == POLL_INTERVAL * queries as real
      invariant forall j: nat | j < queries :: !Ends(replies(j))
      invariant last == if queries == 0 then None else replies(queries - 1).body
      decreases 150 - queries
    {
      var reply := replies(queries);
      queries := queries + 1;
      if reply.Error? {
        return;
      }
      last := reply.body;
      if Terminal(last) {
        return;
      }
      slept := slept + POLL_INTERVAL;
    }
  }

  // ---------------------------------------------------------------- the catalog

  // A catalog entry that is a record; missing and empty fields both read "".
  datatype Row = Row(
    package: string, id: string, version: string, source: string, beta: bool,
    qinst: bool, link: string, md5: string, size: string, kind: string)

  // None: an entry that is not a record.
  type Pool = seq<Option<Row>>

  // A pool that is missing or not a list is None.
  datatype Catalog = Catalog(packages: Option<Pool>, beta: Option<Pool>)

  function Pools(c: Catalog): seq<Pool> {
    (if c.packages.Some? then [c.packages.value] else []) + (if c.beta.Some? then [c.beta.value] else [])
  }

  // All entries, the main pool before the beta pool.
  function Entries(c: Catalog): Pool {
    (if c.packages.Some? then c.packages.value else []) + (if c.beta.Some? then c.beta.value else [])
  }

  predicate Matches(entry: Option<Row>, id: string) {
    entry.Some? && (if entry.value.package != "" then entry.value.package else entry.value.id) == id
  }

  // The main pool comes first, and a missing one counts for nothing.
  lemma MainPoolFirst(a: Pool, b: Pool)
    ensures Entries(Catalog(Some(a), Some(b))) == a + b
    ensures Entries(Catalog(Some(a), None)) == a && Entries(Catalog(None, Some(b))) == b && Entries(Catalog(None, None)) == []
  {
    assert a + [] == a && [] + b == b;
  }

  // An entry is of a package if it has that name, or none and that id.
  ghost predicate Of(entry: Option<Row>, id: string) {
    entry.Some? && ((entry.value.package != "" && entry.value.package == id) || (entry.value.package == "" && entry.value.id == id))
  }

  ghost predicate FirstMatchAt(entries: Pool, id: string, k: int) {
    0 <= k < |entries| && Of(entries[k], id) && forall j | 0 <= j < k :: !Of(entries[j], id)
  }

  lemma WhenMatches(entry: Option<Row>, id: string)
    ensures Matches(entry, id) <==> Of(entry, id)
  {
  }

  function FirstMatch(entries: Pool, id: string): Option<Row>
    decreases |entries|
  {
    if entries == [] then None
    else if Matches(entries[0], id) then entries[0]
    else FirstMatch(entries[1..], id)
  }

  lemma {:induction false} FirstMatchIs(entries: Pool, id: string)
    ensures FirstMatch(entries, id).None? <==> forall k | 0 <= k < |entries| :: !Of(entries[k], id)
    ensures forall k :: FirstMatchAt(entries, id, k) ==> entries[k] == FirstMatch(entries, id)
    ensures FirstMatch(entries, id).Some? ==> exists k :: FirstMatchAt(entries, id, k)
    decreases |entries|
  {
    if entries != [] {
      var rest := entries[1..];
      FirstMatchIs(rest, id);
      assert forall k | 1 <= k < |entries| :: entries[k] == rest[k - 1];
      if Matches(entries[0], id) {
        assert FirstMatchAt(entries, id, 0);
      } else {
        forall k | FirstMatchAt(entries, id, k)
          ensures entries[k] == FirstMatch(entries, id)
        {
          assert FirstMatchAt(rest, id, k - 1);
        }
        if FirstMatch(rest, id).Some? {
          var k :| FirstMatchAt(rest, id, k);
          assert FirstMatchAt(entries, id, k + 1);
        }
      }
    }
  }

  lemma {:induction false} FirstMatchConcat(a: Pool, b: Pool, id: string)
    ensures FirstMatch(a + b, id) == if FirstMatch(a, id).Some? then FirstMatch(a, id) else FirstMatch(b, id)
    decreases |a|
  {
    if a == [] {
      assert a + b == b;
    } else {
      assert (a + b)[1..] == a[1..] + b;
      FirstMatchConcat(a[1..], b, id);
    }
  }

  // The row that is first in its pool, the main pool searched first.
  method FetchServerCatalogRow(c: Catalog, id: string) returns (row: Option<Row>)
    ensures row == FirstMatch(Entries(c), id)
  {
    var main := if c.packages.Some? then c.packages.value else [];
    var beta := if c.beta.Some? then c.beta.value else [];
    FirstMatchConcat(main, beta, id);
    var pools := Pools(c);
    assert c.packages.Some? ==> pools[0] == main;
    assert c.beta.Some? ==> pools[|pools| - 1] == beta;
    for p := 0 to |pools|
      invariant forall q | 0 <= q < p :: FirstMatch(pools[q], id).None?
    {
      ghost var pool := pools[p];
      for i := 0 to |pools[p]|
        invariant FirstMatch(pool[i..], id) == FirstMatch(pool, id)
      {
        Unroll(pool, i, id);
        if Matches(pools[p][i], id) {
          return pools[p][i];
        }
      }
      assert pool[|pool|..] == [];
    }
    return None;
  }

  lemma Unroll(entries: Pool, i: nat, id: string)
    requires i < |entries|
    ensures FirstMatch(entries[i..], id) == if Matches(entries[i], id) then entries[i] else FirstMatch(entries[i + 1..], id)
  {
    assert entries[i..][1..] == entries[i + 1..];
  }

  // ---------------------------------------------------------------- the install payload

  function Flag(b: bool): string { if b then "true" else "false" }

  function Or(s: string, default: string): string { if s != "" then s else default }

  type Params = map<string, string>

  function BuildInstallParams(row: Row, id: string, acceptEula: bool): Params {
    var params := map[
      "name" := id, "is_syno" := Flag(Lower(row.source) == "syno"), "beta" := Flag(row.beta),
      "url" := row.link, "checksum" := row.md5, "filesize" := Or(row.size, "0"),
      "type" := Or(row.kind, "0"), "blqinst" := Flag(row.qinst), "operation" := "install"];
    if acceptEula then params["accept_eula" := "true"] else params
  }

  // ---------------------------------------------------------------- the NAS

  datatype Request = InstallRequest(params: Params) | UninstallRequest(id: string)

  // The installed packages with their versions, and the mutating requests received.
  datatype Nas = Nas(installed: map<string, string>, requests: seq<Request>)

  // The answer to a get of one package.
  datatype GetReply =
    | Installed(id: string, package: string, version: string)
    | NoData
    | Unsupported                  // 102, 103, 104
    | DsmError(code: Option<int>)

  const NOT_INSTALLED := 4545

  // The version found, None for a package that is not installed, or the error.
  function ReadGet(r: GetReply): Result<Option<string>, ()> {
    match r
    case Installed(id, package, version) => Success(if id == "" && package == "" then None else Some(version))
    case NoData => Success(None)
    case Unsupported => Success(None)
    case DsmError(code) => if code == Some(NOT_INSTALLED) then Success(None) else Failure(())
  }

  function Lookup(installed: map<string, string>, id: string): Option<string> {
    if id in installed then Some(installed[id]) else None
  }

  // A get that answers for the NAS as it is, or fails outright.
  predicate Honest(installed: map<string, string>, id: string, r: GetReply) {
    ReadGet(r).Success? ==> ReadGet(r).value == Lookup(installed, id)
  }

  datatype InstallReply = Accepted(eula: string, task: string) | Refused(code: Option<int>)

  // took: the version this request ends up installing, whatever it was answered.
  datatype InstallFates = InstallFates(before: GetReply, catalog: Option<Catalog>, reply: InstallReply, took: Option<string>, after: GetReply)

  datatype UninstallFates = UninstallFates(before: GetReply, answers: bool, took: bool)

  datatype InstallResult =
    | BadPackageId
    | InstallRaised
    | AlreadyAt(version: string)
    | UpgradeRequired(have: string)
    | NotInCatalog
    | VersionMismatch(offered: string)
    | OnlineInstallFailed(code: int)
    | EulaRequired(text: string)
    | InstallDone(version: string)

  datatype UninstallResult =
    | BadUninstallId
    | Denied
    | UninstallRaised
    | NotThere
    | Uninstalled(previous: string)

  predicate VersionFits(version: Option<string>, offered: string) {
    version.None? || version.value == "" || offered == "" || offered == version.value
  }

  function Requested(nas: Nas, params: Params, id: string, took: Option<string>): Nas {
    Nas(if took.Some? then nas.installed[id := took.value] else nas.installed, nas.requests + [InstallRequest(params)])
  }

  function Removal(nas: Nas, id: string, took: bool): Nas {
    Nas(if took then nas.installed - {id} else nas.installed, nas.requests + [UninstallRequest(id)])
  }

  // How an install that was sent is reported.
  function Report(acceptEula: bool, f: InstallFates): InstallResult {
    match f.reply
    case Refused(code) =>
      if code.Some? && 1000 <= code.value < 2000 then OnlineInstallFailed(code.value) else InstallRaised
    case Accepted(eula, _) =>
      if Strip(eula) != "" && !acceptEula then EulaRequired(eula)
      else
        match ReadGet(f.after)
        case Failure(_) => InstallRaised
        case Success(None) => InstallDone("")
        case Success(Some(v)) => InstallDone(v)
  }

  function Install(nas: Nas, id: string, version: Option<string>, acceptEula: bool, f: InstallFates): (Nas, InstallResult) {
    if id == "" then (nas, BadPackageId)
    else
      match ReadGet(f.before)
      case Failure(_) => (nas, InstallRaised)
      case Success(Some(have)) =>
        (nas, if version == None || version.value == have then AlreadyAt(have) else UpgradeRequired(have))
      case Success(None) =>
        if f.catalog == None then (nas, InstallRaised)
        else
          match FirstMatch(Entries(f.catalog.value), id)
          case None => (nas, NotInCatalog)
          case Some(row) =>
            if !VersionFits(version, row.version) then (nas, VersionMismatch(row.version))
            else (Requested(nas, BuildInstallParams(row, id, acceptEula), id, f.took), Report(acceptEula, f))
  }

  const DENYLIST := {
    "ContainerManager", "Docker", "SnapshotReplication", "ReplicationService", "HyperBackup",
    "HyperBackupVault", "StorageManager", "WebStation", "Apache22", "Apache24", "MariaDB10",
    "MariaDB11", "PHP7.4", "PHP8.0", "PHP8.1", "PHP8.2", "SecureSignIn", "LDAPServer",
    "DirectoryServer"}

  function Uninstall(nas: Nas, id: string, force: bool, f: UninstallFates): (Nas, UninstallResult) {
    if id == "" then (nas, BadUninstallId)
    else if id in DENYLIST && !force then (nas, Denied)
    else
      match ReadGet(f.before)
      case Failure(_) => (nas, UninstallRaised)
      case Success(None) => (nas, NotThere)
      case Success(Some(v)) => (Removal(nas, id, f.took), if f.answers then Uninstalled(v) else UninstallRaised)
  }

  // A request was sent and accepted, its licence blank or agreed to, with a task to wait for.
  ghost predicate Awaited(before: Nas, after: Nas, acceptEula: bool, f: InstallFates) {
    && |after.requests| > |before.requests|
    && f.reply.Accepted? && (Strip(f.reply.eula) == "" || acceptEula) && f.reply.task != ""
  }

  class PackageCenter {
    var installed: map<string, string>
    var requests: seq<Request>

    ghost function State(): Nas reads this { Nas(installed, requests) }

    constructor (nas: Nas)
      ensures State() == nas
    {
      installed, requests := nas.installed, nas.requests;
    }

    method SendInstall(params: Params, id: string, took: Option<string>)
      modifies this
      ensures State() == Requested(old(State()), params, id, took)
    {
      requests := requests + [InstallRequest(params)];
      if took.Some? {
        installed := installed[id := took.value];
      }
    }

    method SendUninstall(id: string, took: bool)
      modifies this
      ensures State() == Removal(old(State()), id, took)
    {
      requests := requests + [UninstallRequest(id)];
      if took {
        installed := installed - {id};
      }
    }

    // polls: the answers to the status queries, if there is a task to ask about.
    method PackagesInstall(id: string, version: Option<string>, acceptEula: bool, f: InstallFates, polls: nat -> Reply)
      returns (r: InstallResult, queries: nat)
      modifies this
      ensures (State(), r) == Install(old(State()), id, version, acceptEula, f)
      // A task is asked about exactly if the request was accepted and gave one.
      ensures if Awaited(old(State()), State(), acceptEula, f) then Polled(polls, queries) else queries == 0
    {
      queries := 0;
      if id == "" {
        return BadPackageId, queries;
      }
      var existing := ReadGet(f.before);
      if existing.Failure? {
        return InstallRaised, queries;
      }
      if existing.value.Some? {
        var have := existing.value.value;
        return (if version == None || version.value == have then AlreadyAt(have) else UpgradeRequired(have)), queries;
      }
      if f.catalog == None {
        return InstallRaised, queries;
      }
      var row := FetchServerCatalogRow(f.catalog.value, id);
      if row == None {
        return NotInCatalog, queries;
      }
      if !VersionFits(version, row.value.version) {
        return VersionMismatch(row.value.version), queries;
      }
      SendInstall(BuildInstallParams(row.value, id, acceptEula), id, f.took);
      if f.reply.Refused? {
        var code := f.reply.code;
        return (if code.Some? && 1000 <= code.value < 2000 then OnlineInstallFailed(code.value) else InstallRaised), queries;
      }
      if Strip(f.reply.eula) != "" && !acceptEula {
        return EulaRequired(f.reply.eula), queries;
      }
      if f.reply.task != "" {
        var _, n, _ := PollInstallTask(polls);
        queries := n;
      }
      var after := ReadGet(f.after);
      if after.Failure? {
        return InstallRaised, queries;
      }
      // Reported as installed even if the package is not found now.
      return InstallDone(if after.value.Some? then after.value.value else ""), queries;
    }

    method PackagesUninstall(id: string, force: bool, f: UninstallFates, task: string, polls: nat -> Reply)
      returns (r: UninstallResult, queries: nat)
      modifies this
      ensures (State(), r) == Uninstall(old(State()), id, force, f)
      ensures if r.Uninstalled? && task != "" then Polled(polls, queries) else queries == 0
    {
      queries := 0;
      if id == "" {
        return BadUninstallId, queries;
      }
      if id in DENYLIST && !force {
        return Denied, queries;
      }
      var existing := ReadGet(f.before);
      if existing.Failure? {
        return UninstallRaised, queries;
      }
      if existing.value == None {
        return NotThere, queries;
      }
      SendUninstall(id, f.took);
      if !f.answers {
        return UninstallRaised, queries;
      }
      if task != "" {
        var _, n, _ := PollInstallTask(polls);
        queries := n;
      }
      return Uninstalled(existing.value.value), queries;
    }
  }

  // ---------------------------------------------------------------- one call

  // An install request goes out exactly when the package is absent (and the check
  // could tell), the catalog has it, and its version is not another one than asked
  // for; its payload comes from the first catalog entry for the package. Otherwise
  // nothing at all happens.
  lemma WhenInstallIsSent(nas: Nas, id: string, version: Option<string>, acceptEula: bool, f: InstallFates)
    requires Honest(nas.installed, id, f.before)
    ensures var nas' := Install(nas, id, version, acceptEula, f).0;
            && (nas' != nas <==>
                && id != "" && id !in nas.installed && ReadGet(f.before).Success? && f.catalog.Some?
                && exists row :: Offered(Entries(f.catalog.value), id, version, row))
            && (nas' != nas ==>
                exists row :: Offered(Entries(f.catalog.value), id, version, row)
                  && nas' == Requested(nas, BuildInstallParams(row, id, acceptEula), id, f.took))
  {
    if f.catalog.Some? {
      OfferedIs(Entries(f.catalog.value), id, version);
      assert forall params :: |Requested(nas, params, id, f.took).requests| == |nas.requests| + 1;
    }
  }

  // The catalog's first entry for the package, at a version that fits.
  ghost predicate Offered(entries: Pool, id: string, version: Option<string>, row: Row) {
    VersionFits(version, row.version) && exists k :: FirstMatchAt(entries, id, k) && entries[k] == Some(row)
  }

  lemma OfferedIs(entries: Pool, id: string, version: Option<string>)
    ensures forall row ::
      Offered(entries, id, version, row) <==> FirstMatch(entries, id) == Some(row) && VersionFits(version, row.version)
  {
    FirstMatchIs(entries, id);
  }

  // What the NAS is told under each name: where the package is, its checksum, its size
  // and kind, "0" where the catalog has none, the flags of the row, and the licence only
  // if it is agreed to.
  lemma PayloadSays(row: Row, id: string, acceptEula: bool)
    ensures var p := BuildInstallParams(row, id, acceptEula);
            && p.Keys == {"name", "is_syno", "beta", "url", "checksum", "filesize", "type", "blqinst", "operation"}
                         + (if acceptEula then {"accept_eula"} else {})
            && p["name"] == id && p["url"] == row.link && p["checksum"] == row.md5 && p["operation"] == "install"
            && (row.size != "" ==> p["filesize"] == row.size) && (row.size == "" ==> p["filesize"] == "0")
            && (row.kind != "" ==> p["type"] == row.kind) && (row.kind == "" ==> p["type"] == "0")
            && (p["beta"] == "true" <==> row.beta) && p["beta"] in {"true", "false"}
            && (p["blqinst"] == "true" <==> row.qinst) && p["blqinst"] in {"true", "false"}
            && (p["is_syno"] == "true" <==> Lower(row.source) == "syno") && p["is_syno"] in {"true", "false"}
            && (acceptEula ==> p["accept_eula"] == "true")
  {
    assert |"true"| != |"false"|;
  }

  // Two rows sent alike agree on everything the NAS is told to fetch.
  lemma PayloadTells(a: Row, b: Row, id: string, other: string, eula: bool, eula': bool)
    requires BuildInstallParams(a, id, eula) == BuildInstallParams(b, other, eula')
    ensures id == other && eula == eula' && a.link == b.link && a.md5 == b.md5
    ensures Or(a.size, "0") == Or(b.size, "0") && Or(a.kind, "0") == Or(b.kind, "0")
    ensures a.beta == b.beta && a.qinst == b.qinst && (Lower(a.source) == "syno" <==> Lower(b.source) == "syno")
  {
    var p, q := BuildInstallParams(a, id, eula), BuildInstallParams(b, other, eula');
    assert p["name"] == q["name"] && p["url"] == q["url"] && p["checksum"] == q["checksum"];
    assert p["filesize"] == q["filesize"] && p["type"] == q["type"];
    assert Flag(a.beta) == p["beta"] == q["beta"] == Flag(b.beta);
    assert Flag(a.qinst) == p["blqinst"] == q["blqinst"] == Flag(b.qinst);
    assert p["is_syno"] == q["is_syno"];
    assert "accept_eula" in p <==> "accept_eula" in q;
    FlagTells(a.beta, b.beta);
    FlagTells(a.qinst, b.qinst);
    FlagTells(Lower(a.source) == "syno", Lower(b.source) == "syno");
  }

  lemma FlagTells(a: bool, b: bool)
    ensures Flag(a) == Flag(b) <==> a == b
  {
    assert |Flag(true)| == 4 && |Flag(false)| == 5;
  }

  // The request went out: asked for a package that was not found installed and whose
  // first catalog entry fits.
  ghost predicate Sent(id: string, version: Option<string>, f: InstallFates) {
    && id != "" && ReadGet(f.before) == Success(None) && f.catalog.Some?
    && exists row :: Offered(Entries(f.catalog.value), id, version, row)
  }

  // An install of a package that is not there is reported exactly if it was not there
  // before, the request was sent and accepted, its licence was blank or agreed to, it
  // came to nothing, and the last look-up did not fail: what that look-up found is not
  // asked. Nothing is assumed of the answers.
  lemma WhenMisreported(nas: Nas, id: string, version: Option<string>, acceptEula: bool, f: InstallFates)
    ensures var (nas', r) := Install(nas, id, version, acceptEula, f);
            (r.InstallDone? && id !in nas'.installed) <==>
              (&& Sent(id, version, f) && id !in nas.installed && f.took == None
               && f.reply.Accepted? && (Strip(f.reply.eula) == "" || acceptEula) && ReadGet(f.after).Success?)
  {
    if f.catalog.Some? {
      OfferedIs(Entries(f.catalog.value), id, version);
    }
  }

  // If the look-ups can be relied on, the reported version gives it away.
  lemma VersionGivesItAway(nas: Nas, id: string, version: Option<string>, acceptEula: bool, f: InstallFates)
    requires Honest(nas.installed, id, f.before) && f.took != Some("")
    requires Honest(Install(nas, id, version, acceptEula, f).0.installed, id, f.after)
    ensures var (nas', r) := Install(nas, id, version, acceptEula, f);
            r.InstallDone? ==> (id in nas'.installed <==> r.version != "")
  {
  }

  // An install reported although the package is not there, every look-up being right.
  ghost predicate Misreported(nas: Nas, id: string, f: InstallFates) {
    var (nas', r) := Install(nas, id, None, false, f);
    && Honest(nas.installed, id, f.before) && Honest(nas'.installed, id, f.after)
    && r == InstallDone("") && id !in nas'.installed
  }

  // The report alone is not enough: an install that never happened is reported too.
  lemma ReportedButAbsent()
    ensures exists nas, id, f :: Misreported(nas, id, f)
  {
    var id := "Plex";
    var row := Row(id, "", "1.2", "syno", false, false, "u", "m", "1", "0");
    var f := InstallFates(NoData, Some(Catalog(Some([Some(row)]), None)), Accepted("", ""), None, NoData);
    assert Entries(f.catalog.value) == [Some(row)];
    StripId("");
    assert Misreported(Nas(map[], []), id, f);
  }

  // An uninstall request goes out exactly for a package that is installed and either
  // not denylisted or forced; otherwise nothing happens.
  lemma WhenUninstallIsSent(nas: Nas, id: string, force: bool, f: UninstallFates)
    requires Honest(nas.installed, id, f.before)
    ensures var (nas', r) := Uninstall(nas, id, force, f);
            && (nas' != nas <==>
                id != "" && id in nas.installed && ReadGet(f.before).Success? && (id in DENYLIST ==> force))
            && (nas' != nas ==> nas' == Removal(nas, id, f.took))
            && (r.Uninstalled? ==> nas' != nas && r.previous == nas.installed[id])
            && (r.Denied? <==> id != "" && id in DENYLIST && !force)
  {
    assert |Removal(nas, id, f.took).requests| == |nas.requests| + 1;
  }

  // A look-up tells of a package, or that there is none; or it fails.
  ghost predicate Tells(r: GetReply) { r.Installed? && (r.id != "" || r.package != "") }
  ghost predicate TellsNone(r: GetReply) { !Tells(r) && (r.DsmError? ==> r.code == Some(4545)) }

  lemma WhenReadGet(r: GetReply)
    ensures forall v :: ReadGet(r) == Success(Some(v)) <==> Tells(r) && r.version == v
    ensures ReadGet(r) == Success(None) <==> TellsNone(r)
    ensures ReadGet(r).Failure? <==> !Tells(r) && !TellsNone(r)
  {
  }

  // The catalog's first entry for a package that was asked for and told to be absent.
  ghost function EntryFor(id: string, f: InstallFates): Option<Row> {
    if id != "" && TellsNone(f.before) && f.catalog.Some? then FirstMatch(Entries(f.catalog.value), id) else None
  }

  // Its version is another one than the one asked for.
  ghost predicate OtherVersion(row: Row, version: Option<string>) {
    version.Some? && version.value != "" && row.version != "" && row.version != version.value
  }

  // Why an install is refused before any request: no name, a package that is there, at
  // the version asked for or not, none in the catalog, another version.
  lemma WhenInstallIsRefused(nas: Nas, id: string, version: Option<string>, acceptEula: bool, f: InstallFates)
    ensures var r := Install(nas, id, version, acceptEula, f).1;
            var entry := EntryFor(id, f);
            && (r == BadPackageId <==> id == "")
            && (forall v :: r == AlreadyAt(v) <==>
                  id != "" && Tells(f.before) && f.before.version == v && (version == None || version == Some(v)))
            && (forall v :: r == UpgradeRequired(v) <==>
                  id != "" && Tells(f.before) && f.before.version == v && version.Some? && version.value != v)
            && (r == NotInCatalog <==> id != "" && TellsNone(f.before) && f.catalog.Some? && entry == None)
            && (forall v :: r == VersionMismatch(v) <==> entry.Some? && OtherVersion(entry.value, version) && entry.value.version == v)
  {
    WhenReadGet(f.before);
  }

  // How an install that was requested is reported: by the NAS's error number, by its
  // licence text, or as done with the version that the last look-up tells.
  lemma WhenInstallIsReported(nas: Nas, id: string, version: Option<string>, acceptEula: bool, f: InstallFates)
    ensures var r := Install(nas, id, version, acceptEula, f).1;
            var sent := EntryFor(id, f).Some? && !OtherVersion(EntryFor(id, f).value, version);
            var licence := f.reply.Accepted? && Strip(f.reply.eula) != "" && !acceptEula;
            && (forall code :: r == OnlineInstallFailed(code) <==> sent && f.reply == Refused(Some(code)) && 1000 <= code <= 1999)
            && (forall text :: r == EulaRequired(text) <==> sent && licence && f.reply.eula == text)
            && (forall v :: r == InstallDone(v) <==> sent && f.reply.Accepted? && !licence && Confirmed(f.after, v))
  {
    WhenReadGet(f.before);
    WhenReadGet(f.after);
  }

  // The last look-up did not fail, and this is the version it told, or "" if it told none.
  ghost predicate Confirmed(after: GetReply, v: string) {
    if Tells(after) then v == after.version else TellsNone(after) && v == ""
  }

  // What an uninstall answers, and when: the denylist comes before any look-up.
  lemma WhenUninstallAnswers(nas: Nas, id: string, force: bool, f: UninstallFates)
    ensures var r := Uninstall(nas, id, force, f).1;
            var allowed := id != "" && (id !in DENYLIST || force);
            && (r == BadUninstallId <==> id == "")
            && (r == Denied <==> id in DENYLIST && !force && id != "")
            && (r == NotThere <==> allowed && TellsNone(f.before))
            && (forall v :: r == Uninstalled(v) <==> allowed && Tells(f.before) && f.before.version == v && f.answers)
            && (r == UninstallRaised <==> allowed && !TellsNone(f.before) && (Tells(f.before) ==> !f.answers))
  {
    WhenReadGet(f.before);
  }

  // And an uninstall of a package that is still there is reported exactly if it was
  // found installed, the request was allowed and answered, and it came to nothing: there
  // is no last look-up at all.
  lemma WhenUninstallIsMisreported(nas: Nas, id: string, force: bool, f: UninstallFates)
    ensures var (nas', r) := Uninstall(nas, id, force, f);
            (r.Uninstalled? && id in nas'.installed) <==>
              (&& id != "" && (id in DENYLIST ==> force) && id in nas.installed
               && ReadGet(f.before).Success? && ReadGet(f.before).value.Some? && f.answers && !f.took)
  {
  }

  ghost predicate StillThere(nas: Nas, id: string, f: UninstallFates) {
    var (nas', r) := Uninstall(nas, id, false, f);
    Honest(nas.installed, id, f.before) && r.Uninstalled? && id in nas'.installed
  }

  lemma ReportedButPresent()
    ensures exists nas, id, f :: StillThere(nas, id, f)
  {
    var id := "Plex";
    DenylistHasNo(id);
    var nas := Nas(map[id := "1.2"], []);
    WhenUninstallIsMisreported(nas, id, false, UninstallFates(Installed(id, "", "1.2"), true, false));
    assert StillThere(nas, id, UninstallFates(Installed(id, "", "1.2"), true, false));
  }

  lemma DenylistHasNo(id: string)
    requires |id| == 4
    ensures id !in DENYLIST
  {
    assert forall d | d in DENYLIST :: |d| > 4;
  }

  // ---------------------------------------------------------------- runs of calls

  datatype Call =
    | InstallCall(id: string, version: Option<string>, acceptEula: bool, install: InstallFates)
    | UninstallCall(id: string, force: bool, uninstall: UninstallFates)

  function After(nas: Nas, call: Call): Nas {
    match call
    case InstallCall(id, version, acceptEula, f) => Install(nas, id, version, acceptEula, f).0
    case UninstallCall(id, force, f) => Uninstall(nas, id, force, f).0
  }

  function Run(nas: Nas, calls: seq<Call>): Nas
    decreases |calls|
  {
    if calls == [] then nas else Run(After(nas, calls[0]), calls[1..])
  }

  predicate HonestCall(nas: Nas, call: Call) {
    Honest(nas.installed, call.id, if call.InstallCall? then call.install.before else call.uninstall.before)
  }

  predicate HonestRun(nas: Nas, calls: seq<Call>)
    decreases |calls|
  {
    calls == [] || (HonestCall(nas, calls[0]) && HonestRun(After(nas, calls[0]), calls[1..]))
  }

  // A call that may take the package away: only an uninstall of it, and of a
  // denylisted one only a forced uninstall.
  predicate MayRemove(call: Call, id: string) {
    call.UninstallCall? && call.id == id && (id in DENYLIST ==> call.force)
  }

  // An installed package that no call may remove stays installed, whatever the calls
  // are answered; and if the NAS's answers about it can be relied on, at the same
  // version: nothing is ever upgraded in place.
  lemma {:induction false} InstalledStays(nas: Nas, calls: seq<Call>, id: string)
    requires id in nas.installed
    requires forall call | call in calls :: !MayRemove(call, id)
    ensures id in Run(nas, calls).installed
    ensures HonestRun(nas, calls) ==> Run(nas, calls).installed[id] == nas.installed[id]
    decreases |calls|
  {
    if calls != [] {
      assert calls[0] in calls;
      InstalledStays(After(nas, calls[0]), calls[1..], id);
    }
  }

  // The denylist's promise: over any run without a forced uninstall, nothing on the
  // list is ever lost.
  lemma DenylistedStays(nas: Nas, calls: seq<Call>)
    requires forall call | call in calls :: call.UninstallCall? ==> !call.force
    ensures forall id | id in DENYLIST && id in nas.installed :: id in Run(nas, calls).installed
  {
    forall id | id in DENYLIST && id in nas.installed
      ensures id in Run(nas, calls).installed
    {
      InstalledStays(nas, calls, id);
    }
  }

  // A package no call names is left as it is.
  lemma {:induction false} OthersUntouched(nas: Nas, calls: seq<Call>, id: string)
    requires forall call | call in calls :: call.id != id
    ensures Lookup(Run(nas, calls).installed, id) == Lookup(nas.installed, id)
    decreases |calls|
  {
    if calls != [] {
      assert calls[0] in calls;
      OthersUntouched(After(nas, calls[0]), calls[1..], id);
    }
  }

  // The requests only grow, and none of them is an uninstall of a denylisted package
  // unless a call forced it.
  lemma {:induction false} DeniedIsNeverSent(nas: Nas, calls: seq<Call>, id: string)
    requires id in DENYLIST
    requires forall call | call in calls :: !MayRemove(call, id)
    ensures UninstallRequest(id) in Run(nas, calls).requests ==> UninstallRequest(id) in nas.requests
    decreases |calls|
  {
    if calls != [] {
      assert calls[0] in calls;
      DeniedIsNeverSent(After(nas, calls[0]), calls[1..], id);
    }
  }

  // Repeating a call that did its work asks nothing more of the NAS.
  lemma RepeatsAreNoops(nas: Nas, id: string, version: Option<string>, acceptEula: bool, f: InstallFates, again: InstallFates)
    requires Honest(nas.installed, id, f.before) && f.took.Some?
    requires var nas' := Install(nas, id, version, acceptEula, f).0; Honest(nas'.installed, id, again.before)
    ensures var (nas', r) := Install(nas, id, version, acceptEula, f);
            r.InstallDone? ==>
              var (nas2, r2) := Install(nas', id, version, acceptEula, again);
              nas2 == nas' && (r2.AlreadyAt? || r2.UpgradeRequired? || r2.InstallRaised?)
  {
  }

  lemma UninstallTwice(nas: Nas, id: string, force: bool, f: UninstallFates, again: UninstallFates)
    requires Honest(nas.installed, id, f.before) && f.took
    requires var nas' := Uninstall(nas, id, force, f).0; Honest(nas'.installed, id, again.before)
    ensures var (nas', r) := Uninstall(nas, id, force, f);
            r.Uninstalled? ==>
              && nas'.installed == nas.installed - {id} && r.previous == nas.installed[id]
              && Uninstall(nas', id, force, again).0 == nas'
  {
  }
}
