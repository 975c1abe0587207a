// Shared folders: reserved names, the comparison of a share with a request, and the
// create and delete tools with their safety rails, over a NAS that keeps a share table
// and the sizes of its directories.
module Shares {
  import opened Wrappers
  import opened Seqs
  import opened Text

  // ---------------------------------------------------------------- rows

  // A row of the share table as the NAS lists it; missing text reads "".
  datatype Row = Row(
    name: string, uuid: string, volPath: string, desc: string, encryption: int, hidden: bool,
    usb: bool, cow: bool, recycleBin: bool, aclMode: bool, aclSupport: bool, unite: bool, quotaValue: Option<int>)

  // The canonical form the tools work on.
  datatype Share = Share(
    name: string, uuid: string, volume: string, desc: string, encrypted: bool, hidden: bool, browsable: bool,
    usb: bool, cowEnabled: bool, recycleBinEnabled: bool, aclEnabled: bool, aclSupported: bool, unite: bool,
    quota: Option<int>)

  // A quota of 0 means none.
  function NormalizeShareRow(r: Row): Share {
    Share(r.name, r.uuid, r.volPath, r.desc, r.encryption != 0, r.hidden, !r.hidden, r.usb, r.cow,
          r.recycleBin, r.aclMode, r.aclSupport, r.unite, if r.quotaValue == Some(0) then None else r.quotaValue)
  }

  // An answered list: None if there is no list in it, and None for an entry that is
  // not a record.
  datatype ListReply = Listed(entries: Option<seq<Option<Row>>>) | ListRaised

  function Rows(entries: seq<Option<Row>>): seq<Row>
    decreases |entries|
  {
    if entries == [] then []
    else (if entries[0].Some? then [entries[0].value] else []) + Rows(entries[1..])
  }

  function ListedShares(r: ListReply): seq<Share>
    requires r.Listed?
  {
    if r.entries.None? then [] else Map(Rows(r.entries.value), NormalizeShareRow)
  }

  // The records of the list, in its order, and nothing for what is no record or no list.
  lemma {:induction false} RowsAre(a: seq<Option<Row>>, b: seq<Option<Row>>)
    ensures Rows(a + b) == Rows(a) + Rows(b)
    ensures Rows([]) == [] && (forall r :: Rows([Some(r)]) == [r]) && Rows([None]) == []
    ensures ListedShares(Listed(None)) == []
    decreases |a|
  {
    forall x: Option<Row>
      ensures Rows([x]) == if x.Some? then [x.value] else []
    {
      assert [x][1..] == [];
    }
    if a == [] {
      assert a + b == b;
    } else {
      var head, tail := HeadTail(a);
      assert (a + b)[1..] == tail + b && a[1..] == tail && a[0] == head;
      RowsAre(tail, b);
      Assoc(if head.Some? then [head.value] else [], Rows(tail), Rows(b));
    }
  }

  // ---------------------------------------------------------------- reserved names

  const RESERVED: seq<string> := [
    "home", "homes", "music", "photo", "video", "surveillance", "download", "NetBackup",
    "@appstore", "@autoupdate", "@database", "@docker", "@home", "@maillog", "@mailscanner",
    "@MailScanner", "@spool", "@tmp"]

  const PREFIXES: seq<string> := ["usbshare", "sdshare", "esata", "web"]

  predicate IsReservedShareName(name: string) {
    || name in RESERVED
    || (exists i | 0 <= i < |RESERVED| :: Lower(RESERVED[i]) == Lower(name))
    || (exists i | 0 <= i < |PREFIXES| :: StartsWith(Lower(name), PREFIXES[i]))
  }

  // Whether a name is reserved does not depend on its case.
  lemma ReservedInAnyCase(a: string, b: string)
    requires Lower(a) == Lower(b)
    ensures IsReservedShareName(a) <==> IsReservedShareName(b)
  {
    ListedIsReserved(a);
    ListedIsReserved(b);
  }

  lemma ListedIsReserved(name: string)
    ensures name in RESERVED ==> exists i | 0 <= i < |RESERVED| :: Lower(RESERVED[i]) == Lower(name)
  {
    if name in RESERVED {
      var i :| 0 <= i < |RESERVED| && RESERVED[i] == name;
    }
  }

  // The names the NAS keeps for itself, in any case, and every name that starts like
  // those it makes up.
  ghost predicate KeptName(lower: string) {
    || KeptWord(lower) || KeptSystemWord(lower)
    || "usbshare" <= lower || "sdshare" <= lower || "esata" <= lower || "web" <= lower
  }

  ghost predicate KeptWord(lower: string) {
    || lower == "home" || lower == "homes" || lower == "music" || lower == "photo" || lower == "video"
    || lower == "surveillance" || lower == "download" || lower == "netbackup"
  }

  ghost predicate KeptSystemWord(lower: string) {
    || lower == "@appstore" || lower == "@autoupdate" || lower == "@database" || lower == "@docker" || lower == "@home"
    || lower == "@maillog" || lower == "@mailscanner" || lower == "@spool" || lower == "@tmp"
  }

  lemma WhenReserved(name: string)
    ensures IsReservedShareName(name) <==> KeptName(Lower(name))
  {
    ListedIsReserved(name);
    forall i | 0 <= i < |RESERVED|
      ensures KeptName(Lower(RESERVED[i]))
    {
      LowerReserved(i);
    }
    if KeptName(Lower(name)) {
      KeptIsReserved(name);
    }
  }

  // The reserved names in small letters.
  lemma LowerReserved(i: nat)
    requires i < |RESERVED|
    ensures KeptName(Lower(RESERVED[i]))
  {
    LowerFirst();
    LowerBackup();
    LowerSystem();
    LowerScanner();
  }

  lemma LowerFirst()
    ensures Lower("home") == "home"
    ensures Lower("homes") == "homes"
    ensures Lower("music") == "music"
    ensures Lower("photo") == "photo"
    ensures Lower("video") == "video"
    ensures Lower("surveillance") == "surveillance"
    ensures Lower("download") == "download"
  {
  }

  lemma LowerBackup()
    ensures Lower("NetBackup") == "netbackup"
    ensures Lower("@appstore") == "@appstore"
  {
  }

  lemma LowerSystem()
    ensures Lower("@autoupdate") == "@autoupdate"
    ensures Lower("@database") == "@database"
    ensures Lower("@docker") == "@docker"
    ensures Lower("@home") == "@home"
    ensures Lower("@maillog") == "@maillog"
    ensures Lower("@spool") == "@spool"
    ensures Lower("@tmp") == "@tmp"
  {
  }

  lemma LowerScanner()
    ensures Lower("@mailscanner") == "@mailscanner"
    ensures Lower("@MailScanner") == "@mailscanner"
  {
  }

  lemma KeptIsReserved(name: string)
    requires KeptName(Lower(name))
    ensures IsReservedShareName(name)
  {
    var lower := Lower(name);
    if KeptWord(lower) {
      KeptWordIsReserved(name);
    } else if KeptSystemWord(lower) {
      KeptSystemWordIsReserved(name);
    } else {
      var k := if "usbshare" <= lower then 0 else if "sdshare" <= lower then 1 else if "esata" <= lower then 2 else 3;
      assert StartsWith(lower, PREFIXES[k]);
    }
  }

  lemma KeptWordIsReserved(name: string)
    requires KeptWord(Lower(name))
    ensures IsReservedShareName(name)
  {
    LowerFirst();
    LowerBackup();
    var lower := Lower(name);
    var i := if lower == "home" then 0 else if lower == "homes" then 1 else if lower == "music" then 2
             else if lower == "photo" then 3 else if lower == "video" then 4 else if lower == "surveillance" then 5
             else if lower == "download" then 6 else 7;
    assert Lower(RESERVED[i]) == lower;
  }

  lemma KeptSystemWordIsReserved(name: string)
    requires KeptSystemWord(Lower(name))
    ensures IsReservedShareName(name)
  {
    LowerBackup();
    LowerSystem();
    LowerScanner();
    var lower := Lower(name);
    var i := if lower == "@appstore" then 8 else if lower == "@autoupdate" then 9 else if lower == "@database" then 10
             else if lower == "@docker" then 11 else if lower == "@home" then 12 else if lower == "@maillog" then 13
             else if lower == "@mailscanner" then 14 else if lower == "@spool" then 16 else 17;
    assert Lower(RESERVED[i]) == lower;
  }

  // ---------------------------------------------------------------- finding and comparing

  predicate Named(s: Share, name: string) { s.name == name }

  ghost predicate FirstNamedAt(rows: seq<Share>, name: string, k: int) {
    0 <= k < |rows| && Named(rows[k], name) && forall j | 0 <= j < k :: !Named(rows[j], name)
  }

  function FirstNamed(rows: seq<Share>, name: string): Option<Share>
    decreases |rows|
  {
    if rows == [] then None
    else if Named(rows[0], name) then Some(rows[0])
    else FirstNamed(rows[1..], name)
  }

  method FindExistingShare(rows: seq<Share>, name: string) returns (found: Option<Share>)
    ensures found == FirstNamed(rows, name)
    ensures found.None? ==> forall j | 0 <= j < |rows| :: !Named(rows[j], name)
    ensures found.Some? ==> exists k :: FirstNamedAt(rows, name, k) && rows[k] == found.value
  {
    for i := 0 to |rows|
      invariant forall j | 0 <= j < i :: !Named(rows[j], name)
      invariant FirstNamed(rows[i..], name) == FirstNamed(rows, name)
    {
      assert rows[i..][1..] == rows[i + 1..];
      if Named(rows[i], name) {
        assert FirstNamedAt(rows, name, i);
        return Some(rows[i]);
      }
    }
    return None;
  }

  datatype Mismatch = Volume | Encryption | RecycleBin

  predicate Compatible(s: Share, volume: string, encrypted: bool, recycleBin: bool) {
    s.volume == volume && s.encrypted == encrypted && s.recycleBinEnabled == recycleBin
  }

  predicate Differs(m: Mismatch, s: Share, volume: string, encrypted: bool, recycleBin: bool) {
    match m
    case Volume => s.volume != volume
    case Encryption => s.encrypted != encrypted
    case RecycleBin => s.recycleBinEnabled != recycleBin
  }

  function Mismatches(s: Share, volume: string, encrypted: bool, recycleBin: bool): seq<Mismatch> {
    Filter([Volume, Encryption, RecycleBin], m => Differs(m, s, volume, encrypted, recycleBin))
  }

  method ShareConfigCompatible(s: Share, volume: string, encrypted: bool, recycleBin: bool)
    returns (compatible: bool, mismatches: seq<Mismatch>)
    ensures compatible <==> Compatible(s, volume, encrypted, recycleBin)
    ensures mismatches == Mismatches(s, volume, encrypted, recycleBin)
  {
    ghost var p := m => Differs(m, s, volume, encrypted, recycleBin);
    FilterThree(Volume, Encryption, RecycleBin, p);
    mismatches := [];
    if s.volume != volume {
      mismatches := mismatches + [Volume];
    }
    if s.encrypted != encrypted {
      mismatches := mismatches + [Encryption];
    }
    if s.recycleBinEnabled != recycleBin {
      mismatches := mismatches + [RecycleBin];
    }
    compatible := mismatches == [];
  }

  lemma FilterThree<T>(a: T, b: T, c: T, p: T -> bool)
    ensures Filter([a, b, c], p) == (if p(a) then [a] else []) + (if p(b) then [b] else []) + (if p(c) then [c] else [])
  {
    assert [a, b, c] == [a] + ([b] + [c]);
    FilterFirst(a, [b] + [c], p);
    FilterFirst(b, [c], p);
    FilterFirst(c, [], p);
    assert [c] + [] == [c];
  }

  lemma FilterFirst<T>(head: T, tail: seq<T>, p: T -> bool)
    ensures Filter([head] + tail, p) == (if p(head) then [head] else []) + Filter(tail, p)
  {
    assert ([head] + tail)[1..] == tail;
  }

  // Exactly what differs is listed, once each; a compatible share differs in nothing.
  lemma MismatchesTell(s: Share, volume: string, encrypted: bool, recycleBin: bool)
    ensures var ms := Mismatches(s, volume, encrypted, recycleBin);
            && Distinct(ms)
            && (forall m :: m in ms <==> Differs(m, s, volume, encrypted, recycleBin))
            && (ms == [] <==> Compatible(s, volume, encrypted, recycleBin))
  {
    FilterThree(Volume, Encryption, RecycleBin, m => Differs(m, s, volume, encrypted, recycleBin));
  }

  // ---------------------------------------------------------------- the size probe

  datatype Probe = Output(stdout: string) | ProbeFails

  predicate IsUnderscore(c: char) { c == '_' }
  predicate IsDigitOrUnderscore(c: char) { IsDigit(c) || IsUnderscore(c) }

  // int(s) on ASCII text: a sign, and digits with single underscores between them.
  function ParseInt(s: string): Option<int> {
    var t := Strip(s);
    if t != "" && t[0] == '-' then
      var n :- ParseDigits(t[1..]);
      Some(-n)
    else if t != "" && t[0] == '+' then ParseDigits(t[1..])
    else ParseDigits(t)
  }

  function ParseDigits(t: string): Option<int> {
    if t == "" || !All(t, IsDigitOrUnderscore) || !Trimmed(t, IsUnderscore) || Contains(t, "__") then None
    else Some(ParseNat(Digits(t)))
  }

  function Digits(t: string): (r: string)
    ensures All(r, IsDigit)
    decreases |t|
  {
    if t == "" then "" else (if IsDigit(t[0]) then [t[0]] else []) + Digits(t[1..])
  }

  function ProbedSize(p: Probe): Option<int> {
    if p.ProbeFails? || Strip(p.stdout) == "" then None
    else
      var lines := SplitLines(Strip(p.stdout));
      if lines == [] then None else ParseInt(lines[0])
  }

  // What du and awk print for a directory of n bytes.
  function SizeLine(n: nat): string { NatString(n) + "\n" }

  lemma ProbeReadsSize(n: nat)
    ensures ProbedSize(Output(SizeLine(n))) == Some(n)
  {
    var s := NatString(n);
    DigitsOnly(s);
    StripTrailing(s, "\n");
    StripId(s);
    SplitWhole(s);
    NoUnderscores(s);
  }

  // Of several lines the first one counts.
  lemma ProbeReadsFirstLine(n: nat, c: char, rest: string)
    requires IsBreak(c)
    ensures ProbedSize(Output(NatString(n) + ([c] + rest))) == Some(n)
  {
    var digits := NatString(n);
    var s := digits + ([c] + rest);
    DigitsOnly(digits);
    assert !IsSpace(s[0]) && LStrip(s) == s;
    var v := StrippedBehind(digits, [c] + rest);
    FirstLineOf(digits, v);
    StripId(digits);
    NoUnderscores(digits);
  }

  lemma StrippedBehind(a: string, b: string) returns (v: string)
    requires a != "" && No(a, IsSpace) && b != ""
    ensures Strip(a + b) == a + v && (v == "" || v[0] == b[0])
  {
    var s := a + b;
    assert s[0] == a[0] && LStrip(s) == s;
    var t := Trunk(s, IsSpace);
    TrunkShape(s, IsSpace);
    assert forall i | t <= i < |s| :: s[t..][i - t] == s[i];
    assert s[|a| - 1] == a[|a| - 1] && !IsSpace(a[|a| - 1]);
    v := b[..t - |a|];
    assert s[..t] == a + v;
  }

  lemma FirstLineOf(a: string, v: string)
    requires a != "" && No(a, IsBreak) && (v == "" || IsBreak(v[0]))
    ensures SplitLines(a + v) != [] && SplitLines(a + v)[0] == a
  {
    if v == "" {
      assert a + v == a;
      SplitWhole(a);
    } else {
      SplitAtBreak(a, v);
    }
  }

  // A sign counts, and a minus makes a size that is not above 0.
  lemma SignedSizes(n: nat)
    ensures ParseInt("-" + NatString(n)) == Some(-(n as int)) && ParseInt("+" + NatString(n)) == Some(n)
  {
    SignedSize('-', n);
    SignedSize('+', n);
  }

  lemma SignedSize(sign: char, n: nat)
    requires sign == '-' || sign == '+'
    ensures ParseInt([sign] + NatString(n)) == Some(if sign == '-' then -(n as int) else n)
  {
    PrintedDigits(n);
    Signed(sign, NatString(n));
  }

  lemma PrintedDigits(n: nat)
    ensures var s := NatString(n);
            s != "" && No(s, IsSpace) && ParseDigits(s) == Some(n)
  {
    DigitsOnly(NatString(n));
    NoUnderscores(NatString(n));
  }

  lemma Signed(sign: char, s: string)
    requires (sign == '-' || sign == '+') && s != "" && No(s, IsSpace) && ParseDigits(s).Some?
    ensures ParseInt([sign] + s) == Some(if sign == '-' then -ParseDigits(s).value else ParseDigits(s).value)
  {
    assert ([sign] + s)[0] == sign && ([sign] + s)[1..] == s;
    StripId([sign] + s);
  }

  lemma DigitsOnly(s: string)
    requires All(s, IsDigit)
    ensures No(s, IsSpace) && No(s, IsBreak) && No(s, IsUnderscore) && All(s, IsDigitOrUnderscore)
  {
  }

  lemma {:induction false} NoUnderscores(s: string)
    requires All(s, IsDigit)
    ensures Digits(s) == s && !Contains(s, "__")
    decreases |s|
  {
    if s != "" {
      NoUnderscores(s[1..]);
      assert s == [s[0]] + s[1..];
    }
  }

  // ---------------------------------------------------------------- the NAS

  datatype ShareInfo = ShareInfo(
    name: string, volPath: string, desc: string, hidden: bool, recycleBin: bool, cow: bool,
    encryption: int, passphrase: Option<string>)

  // What the NAS fills in by itself for a new share.
  datatype Extras = Extras(uuid: string, usb: bool, aclMode: bool, aclSupport: bool, unite: bool, quotaValue: Option<int>)

  function StoredRow(i: ShareInfo, x: Extras): Row {
    Row(i.name, x.uuid, i.volPath, i.desc, i.encryption, i.hidden, x.usb, i.cow, i.recycleBin,
        x.aclMode, x.aclSupport, x.unite, x.quotaValue)
  }

  datatype Request = CreateRequest(info: ShareInfo) | DeleteRequest(name: string)

  // The share table, the sizes of the directories there are, the requests received.
  datatype Nas = Nas(shares: seq<Row>, sizes: map<string, nat>, requests: seq<Request>)

  function Created(nas: Nas, info: ShareInfo, took: Option<Extras>): Nas {
    nas.(shares := if took.Some? then nas.shares + [StoredRow(info, took.value)] else nas.shares,
         requests := nas.requests + [CreateRequest(info)])
  }

  function Deleted(nas: Nas, name: string, took: bool): Nas {
    nas.(shares := if took then Filter(nas.shares, (r: Row) => r.name != name) else nas.shares,
         requests := nas.requests + [DeleteRequest(name)])
  }

  datatype Options = Options(desc: string, hidden: bool, recycleBin: bool, encryption: bool, passphrase: string, cow: bool)

  datatype CreateFates = CreateFates(list: ListReply, answers: bool, took: Option<Extras>)

  datatype DeleteFates = DeleteFates(list: ListReply, probe: Probe, answers: bool, took: bool)

  datatype CreateResult =
    | BadCreateParam
    | ReservedName
    | CreateRaised
    | Exists(existing: Share)
    | DifferentConfig(other: Share, mismatches: seq<Mismatch>)
    | CreateDone(name: string, volume: string, encrypted: bool, hidden: bool, recycleBin: bool, cow: bool)

  datatype DeleteResult =
    | BadDeleteParam
    | DeleteRaised
    | NotFound
    | NotEmpty(size: int)
    | DeleteDone(volume: string)

  function InfoOf(name: string, volume: string, o: Options): ShareInfo {
    ShareInfo(name, volume, o.desc, o.hidden, o.recycleBin, o.cow, if o.encryption then 1 else 0,
              if o.encryption && o.passphrase != "" then Some(o.passphrase) else None)
  }

  predicate BadParams(name: string, volume: string, o: Options) {
    name == "" || !StartsWith(volume, "/volume") || (o.encryption && o.passphrase == "")
  }

  function Create(nas: Nas, name: string, volume: string, o: Options, f: CreateFates): (Nas, CreateResult) {
    if BadParams(name, volume, o) then (nas, BadCreateParam)
    else if IsReservedShareName(name) then (nas, ReservedName)
    else if f.list.ListRaised? then (nas, CreateRaised)
    else
      match FirstNamed(ListedShares(f.list), name)
      case Some(s) =>
        (nas, if Compatible(s, volume, o.encryption, o.recycleBin) then Exists(s)
              else DifferentConfig(s, Mismatches(s, volume, o.encryption, o.recycleBin)))
      case None =>
        (Created(nas, InfoOf(name, volume, o), f.took),
         if f.answers then CreateDone(name, volume, o.encryption, o.hidden, o.recycleBin, o.cow) else CreateRaised)
  }

  function Delete(nas: Nas, name: string, force: bool, f: DeleteFates): (Nas, DeleteResult) {
    if name == "" then (nas, BadDeleteParam)
    else if f.list.ListRaised? then (nas, DeleteRaised)
    else
      match FirstNamed(ListedShares(f.list), name)
      case None => (nas, NotFound)
      case Some(s) =>
        var size := ProbedSize(f.probe);
        if !force && size.Some? && size.value > 0 then (nas, NotEmpty(size.value))
        else (Deleted(nas, name, f.took), if f.answers then DeleteDone(s.volume) else DeleteRaised)
  }

  class ShareNas {
    var shares: seq<Row>
    var sizes: map<string, nat>
    var requests: seq<Request>

    ghost function State(): Nas reads this { Nas(shares, sizes, requests) }

    constructor (nas: Nas)
      ensures State() == nas
    {
      shares, sizes, requests := nas.shares, nas.sizes, nas.requests;
    }

    method SendCreate(info: ShareInfo, took: Option<Extras>)
      modifies this
      ensures State() == Created(old(State()), info, took)
    {
      requests := requests + [CreateRequest(info)];
      if took.Some? {
        shares := shares + [StoredRow(info, took.value)];
      }
    }

    method SendDelete(name: string, took: bool)
      modifies this
      ensures State() == Deleted(old(State()), name, took)
    {
      requests := requests + [DeleteRequest(name)];
      if took {
        shares := Filter(shares, (r: Row) => r.name != name);
      }
    }

    method SharesCreate(name: string, volume: string, o: Options, f: CreateFates) returns (r: CreateResult)
      modifies this
      ensures (State(), r) == Create(old(State()), name, volume, o, f)
    {
      if BadParams(name, volume, o) {
        return BadCreateParam;
      }
      if IsReservedShareName(name) {
        return ReservedName;
      }
      if f.list.ListRaised? {
        return CreateRaised;
      }
      var existing := FindExistingShare(ListedShares(f.list), name);
      if existing.Some? {
        var compatible, mismatches := ShareConfigCompatible(existing.value, volume, o.encryption, o.recycleBin);
        return if compatible then Exists(existing.value) else DifferentConfig(existing.value, mismatches);
      }
      SendCreate(InfoOf(name, volume, o), f.took);
      return if f.answers then CreateDone(name, volume, o.encryption, o.hidden, o.recycleBin, o.cow) else CreateRaised;
    }

    method SharesDelete(name: string, force: bool, f: DeleteFates) returns (r: DeleteResult)
      modifies this
      ensures (State(), r) == Delete(old(State()), name, force, f)
    {
      if name == "" {
        return BadDeleteParam;
      }
      if f.list.ListRaised? {
        return DeleteRaised;
      }
      var existing := FindExistingShare(ListedShares(f.list), name);
      if existing == None {
        return NotFound;
      }
      if !force {
        var size := ProbedSize(f.probe);
        // A probe that failed counts as an empty share.
        if size.Some? && size.value > 0 {
          return NotEmpty(size.value);
        }
      }
      SendDelete(name, f.took);
      return if f.answers then DeleteDone(existing.value.volume) else DeleteRaised;
    }
  }

  // ---------------------------------------------------------------- one call

  // A list that shows the table as it is, or fails.
  ghost predicate HonestList(nas: Nas, r: ListReply) {
    r.Listed? ==> r.entries.Some? && Rows(r.entries.value) == nas.shares
  }

  ghost predicate InTable(shares: seq<Row>, name: string) { exists r | r in shares :: r.name == name }

  lemma {:induction false} FirstNamedIs(shares: seq<Row>, name: string)
    ensures FoundIn(shares, name, FirstNamed(Map(shares, NormalizeShareRow), name))
    decreases |shares|
  {
    if shares != [] {
      var head, tail := HeadTail(shares);
      MapHead(head, tail, NormalizeShareRow);
      FirstNamedStep(NormalizeShareRow(head), Map(tail, NormalizeShareRow), name);
      FirstNamedIs(tail, name);
      FoundStep(head, tail, name, FirstNamed(Map(tail, NormalizeShareRow), name));
    }
  }

  ghost predicate FoundIn(shares: seq<Row>, name: string, found: Option<Share>) {
    if InTable(shares, name) then exists r :: r in shares && r.name == name && found == Some(NormalizeShareRow(r))
    else found == None
  }

  lemma FoundStep(head: Row, tail: seq<Row>, name: string, found: Option<Share>)
    requires FoundIn(tail, name, found)
    ensures FoundIn([head] + tail, name, if head.name == name then Some(NormalizeShareRow(head)) else found)
  {
    assert head in [head] + tail;
    assert forall r :: r in [head] + tail <==> r == head || r in tail;
  }

  lemma FirstNamedStep(head: Share, tail: seq<Share>, name: string)
    ensures FirstNamed([head] + tail, name) == if Named(head, name) then Some(head) else FirstNamed(tail, name)
  {
    assert ([head] + tail)[1..] == tail;
  }

  // A create is sent exactly for a name that is not taken and not reserved, with
  // parameters that pass; a create that is refused changes nothing.
  lemma WhenCreateIsSent(nas: Nas, name: string, volume: string, o: Options, f: CreateFates)
    requires HonestList(nas, f.list)
    ensures var (nas', r) := Create(nas, name, volume, o, f);
            && (nas' != nas <==>
                !BadParams(name, volume, o) && !IsReservedShareName(name) && f.list.Listed? && !InTable(nas.shares, name))
            && (nas' != nas ==> nas' == Created(nas, InfoOf(name, volume, o), f.took))
            && (r.BadCreateParam? || r.ReservedName? || r.Exists? || r.DifferentConfig? ==> nas' == nas)
            && (r.CreateDone? ==> nas' != nas)
  {
    if f.list.Listed? {
      FirstNamedIs(nas.shares, name);
    }
    assert |Created(nas, InfoOf(name, volume, o), f.took).requests| == |nas.requests| + 1;
  }

  // What a create reports is what the share, once stored, reads as.
  lemma ReportedAsStored(name: string, volume: string, o: Options, x: Extras)
    ensures var s := NormalizeShareRow(StoredRow(InfoOf(name, volume, o), x));
            && CreateDone(s.name, s.volume, s.encrypted, s.hidden, s.recycleBinEnabled, s.cowEnabled)
               == CreateDone(name, volume, o.encryption, o.hidden, o.recycleBin, o.cow)
            && Compatible(s, volume, o.encryption, o.recycleBin)
  {
  }

  // What is stored for a share that is created: each setting as it was asked for, and the
  // passphrase only with encryption.
  lemma StoredAsAsked(name: string, volume: string, o: Options, x: Extras)
    ensures var i := InfoOf(name, volume, o);
            && i.name == name && i.volPath == volume && i.desc == o.desc && i.hidden == o.hidden
            && i.recycleBin == o.recycleBin && i.cow == o.cow && i.encryption == (if o.encryption then 1 else 0)
            && (!BadParams(name, volume, o) ==> i.passphrase == if o.encryption then Some(o.passphrase) else None)
    ensures var s := NormalizeShareRow(StoredRow(InfoOf(name, volume, o), x));
            && s.desc == o.desc && s.browsable == !o.hidden && s.uuid == x.uuid && s.usb == x.usb
            && s.aclEnabled == x.aclMode && s.aclSupported == x.aclSupport && s.unite == x.unite
            && (s.quota.None? <==> x.quotaValue.None? || x.quotaValue.value == 0)
            && (s.quota.Some? ==> s.quota == x.quotaValue)
  {
  }

  // What a create answers, and when.
  lemma WhenCreateAnswers(nas: Nas, name: string, volume: string, o: Options, f: CreateFates)
    ensures var r := Create(nas, name, volume, o, f).1;
            var good := name != "" && "/volume" <= volume && (o.encryption ==> o.passphrase != "");
            var free := good && !KeptName(Lower(name));
            var found := if f.list.Listed? then FirstNamed(ListedShares(f.list), name) else None;
            && (r == BadCreateParam <==> !good)
            && (r == ReservedName <==> good && KeptName(Lower(name)))
            && (forall s :: r == Exists(s) <==>
                  free && found == Some(s) && s.volume == volume && s.encrypted == o.encryption && s.recycleBinEnabled == o.recycleBin)
            && (r.DifferentConfig? <==>
                  free && found.Some? && !(found.value.volume == volume && found.value.encrypted == o.encryption
                                           && found.value.recycleBinEnabled == o.recycleBin))
            && (r.DifferentConfig? ==> r == DifferentConfig(found.value, Mismatches(found.value, volume, o.encryption, o.recycleBin)))
            && (r.CreateDone? <==> free && f.list.Listed? && found == None && f.answers)
            && (r.CreateDone? ==> r == CreateDone(name, volume, o.encryption, o.hidden, o.recycleBin, o.cow))
  {
    WhenReserved(name);
  }

  // And a delete: with the volume of the first share of the name.
  lemma WhenDeleteAnswers(nas: Nas, name: string, force: bool, f: DeleteFates)
    ensures var r := Delete(nas, name, force, f).1;
            var found := if f.list.Listed? then FirstNamed(ListedShares(f.list), name) else None;
            var kept := !force && ReadsContents(f.probe);
            && (r == BadDeleteParam <==> name == "")
            && (r == NotFound <==> name != "" && f.list.Listed? && found == None)
            && (forall n :: r == NotEmpty(n) <==> name != "" && found.Some? && kept && ProbedSize(f.probe) == Some(n))
            && (forall v :: r == DeleteDone(v) <==> name != "" && found.Some? && !kept && f.answers && found.value.volume == v)
  {
  }

  // Repeating a create that took effect asks nothing of the NAS and finds the share,
  // even with other settings than the compared ones.
  lemma CreateTwice(nas: Nas, name: string, volume: string, o: Options, f: CreateFates, again: Options, g: CreateFates)
    requires HonestList(nas, f.list) && f.took.Some?
    requires var nas' := Create(nas, name, volume, o, f).0; HonestList(nas', g.list)
    requires again.encryption == o.encryption && again.recycleBin == o.recycleBin && !BadParams(name, volume, again)
    requires g.list.Listed?
    ensures var (nas', r) := Create(nas, name, volume, o, f);
            r.CreateDone? ==>
              Create(nas', name, volume, again, g)
              == (nas', Exists(NormalizeShareRow(StoredRow(InfoOf(name, volume, o), f.took.value))))
  {
    var (nas', r) := Create(nas, name, volume, o, f);
    if r.CreateDone? {
      FirstNamedIs(nas.shares, name);
      FirstNamedIs(nas'.shares, name);
      var stored := StoredRow(InfoOf(name, volume, o), f.took.value);
      assert stored in nas'.shares && stored.name == name;
      assert forall row | row in nas'.shares && row.name == name :: row == stored;
    }
  }

  // ---------------------------------------------------------------- deleting

  // The list has a row with the name.
  ghost predicate ListsName(r: ListReply, name: string) {
    r.Listed? && r.entries.Some? && InTable(Rows(r.entries.value), name)
  }

  // The probe reads a size above 0; a refused or failed one reads none.
  predicate ReadsContents(p: Probe) { ProbedSize(p).Some? && ProbedSize(p).value > 0 }

  // A delete goes out exactly for a name that the list has, unless it is unforced and
  // the probe reads a size above 0. Nothing is assumed of list and probe.
  lemma WhenDeleteIsSent(nas: Nas, name: string, force: bool, f: DeleteFates)
    ensures var (nas', r) := Delete(nas, name, force, f);
            && (nas' != nas <==> name != "" && ListsName(f.list, name) && (force || !ReadsContents(f.probe)))
            && (nas' != nas ==> nas' == Deleted(nas, name, f.took))
            && (r.NotEmpty? <==> name != "" && ListsName(f.list, name) && !force && ReadsContents(f.probe))
  {
    if f.list.Listed? && f.list.entries.Some? {
      FirstNamedIs(Rows(f.list.entries.value), name);
    }
    assert |Deleted(nas, name, f.took).requests| == |nas.requests| + 1;
  }

  function PathOf(r: Row): string { r.volPath + ("/" + r.name) }

  predicate NonEmpty(nas: Nas, row: Row) { PathOf(row) in nas.sizes && nas.sizes[PathOf(row)] > 0 }

  // A probe whose output, if there is any, is the size on disk. One that is refused
  // prints nothing and is still answered: its exit status is not looked at.
  predicate RightIfAny(nas: Nas, path: string, p: Probe) {
    p.Output? && p.stdout != "" ==> path in nas.sizes && p.stdout == SizeLine(nas.sizes[path])
  }

  lemma ProbeOnDisk(nas: Nas, row: Row, p: Probe)
    requires RightIfAny(nas, PathOf(row), p)
    ensures ReadsContents(p) <==> p.Output? && p.stdout != "" && NonEmpty(nas, row)
  {
    if p.Output? && p.stdout != "" {
      ProbeReadsSize(nas.sizes[PathOf(row)]);
    } else {
      StripId("");
    }
  }

  // So a share with contents on disk is protected exactly as long as its probe prints
  // something: an unforced delete of it goes out if the probe failed or was refused.
  lemma WhenContentsAreRisked(nas: Nas, row: Row, f: DeleteFates)
    requires row in nas.shares && row.name != "" && HonestList(nas, f.list) && f.list.Listed?
    requires NonEmpty(nas, row) && RightIfAny(nas, PathOf(row), f.probe)
    ensures Delete(nas, row.name, false, f).0 != nas <==> f.probe.ProbeFails? || f.probe.stdout == ""
  {
    WhenDeleteIsSent(nas, row.name, false, f);
    ProbeOnDisk(nas, row, f.probe);
  }

  ghost predicate DistinctNames(shares: seq<Row>) {
    forall i, j | 0 <= i < j < |shares| :: shares[i].name != shares[j].name
  }

  // ---------------------------------------------------------------- runs of calls

  // Tool calls, and directories whose size changes meanwhile.
  datatype Event =
    | CreateCall(name: string, volume: string, options: Options, create: CreateFates)
    | DeleteCall(name: string, force: bool, delete: DeleteFates)
    | Resize(path: string, size: nat)

  function After(nas: Nas, e: Event): Nas {
    match e
    case CreateCall(name, volume, o, f) => Create(nas, name, volume, o, f).0
    case DeleteCall(name, force, f) => Delete(nas, name, force, f).0
    case Resize(path, size) => nas.(sizes := nas.sizes[path := size])
  }

  function Run(nas: Nas, events: seq<Event>): Nas
    decreases |events|
  {
    if events == [] then nas else Run(After(nas, events[0]), events[1..])
  }

  ghost predicate HonestEvent(nas: Nas, e: Event) {
    match e
    case CreateCall(_, _, _, f) => HonestList(nas, f.list)
    case DeleteCall(_, _, f) => HonestList(nas, f.list)
    case Resize(_, _) => true
  }

  ghost predicate HonestRun(nas: Nas, events: seq<Event>)
    decreases |events|
  {
    events == [] || (HonestEvent(nas, events[0]) && HonestRun(After(nas, events[0]), events[1..]))
  }

  // Nothing that a run is answered can bring a reserved name into the table.
  lemma {:induction false} NoReservedIsCreated(nas: Nas, events: seq<Event>)
    ensures forall r | r in Run(nas, events).shares && IsReservedShareName(r.name) :: r in nas.shares
    decreases |events|
  {
    if events != [] {
      NoReservedIsCreated(After(nas, events[0]), events[1..]);
    }
  }

  // The table has distinct names before, between and after the events.
  ghost predicate DistinctThroughout(nas: Nas, events: seq<Event>)
    decreases |events|
  {
    DistinctNames(nas.shares) && (events == [] || DistinctThroughout(After(nas, events[0]), events[1..]))
  }

  // A create that takes effect is of a name that the table does not have.
  ghost predicate Fresh(nas: Nas, e: Event) {
    e.CreateCall? && After(nas, e).shares != nas.shares ==> !InTable(nas.shares, e.name)
  }

  ghost predicate AllFresh(nas: Nas, events: seq<Event>)
    decreases |events|
  {
    events == [] || (Fresh(nas, events[0]) && AllFresh(After(nas, events[0]), events[1..]))
  }

  // Names stay distinct all through a run exactly if no create that takes effect is of
  // a name the table has: whatever is answered.
  lemma {:induction false} WhenNamesStayDistinct(nas: Nas, events: seq<Event>)
    requires DistinctNames(nas.shares)
    ensures DistinctThroughout(nas, events) <==> AllFresh(nas, events)
    ensures DistinctThroughout(nas, events) ==> DistinctNames(Run(nas, events).shares)
    decreases |events|
  {
    if events != [] {
      DistinctAfter(nas, events[0]);
      if Fresh(nas, events[0]) {
        WhenNamesStayDistinct(After(nas, events[0]), events[1..]);
      }
    }
  }

  // That is so in every run in which the lists show the table or fail.
  lemma {:induction false} NamesStayDistinct(nas: Nas, events: seq<Event>)
    requires HonestRun(nas, events)
    ensures AllFresh(nas, events)
    ensures DistinctNames(nas.shares) ==> DistinctNames(Run(nas, events).shares)
    decreases |events|
  {
    if events != [] {
      var e := events[0];
      if e.CreateCall? {
        WhenCreateIsSent(nas, e.name, e.volume, e.options, e.create);
      }
      NamesStayDistinct(After(nas, e), events[1..]);
    }
    if DistinctNames(nas.shares) {
      WhenNamesStayDistinct(nas, events);
    }
  }

  lemma DistinctAfter(nas: Nas, e: Event)
    requires DistinctNames(nas.shares)
    ensures DistinctNames(After(nas, e).shares) <==> Fresh(nas, e)
  {
    match e
    case CreateCall(name, volume, o, f) =>
      if After(nas, e).shares != nas.shares {
        AppendDistinct(nas.shares, StoredRow(InfoOf(name, volume, o), f.took.value));
      }
    case DeleteCall(name, _, _) => FilterDistinct(nas.shares, (r: Row) => r.name != name);
    case Resize(_, _) =>
  }

  lemma AppendDistinct(shares: seq<Row>, row: Row)
    requires DistinctNames(shares)
    ensures DistinctNames(shares + [row]) <==> !InTable(shares, row.name)
  {
    var all, n := shares + [row], |shares|;
    assert forall i | 0 <= i < n :: shares[i] in shares && all[i] == shares[i];
    if InTable(shares, row.name) {
      var i :| 0 <= i < n && shares[i].name == row.name;
      assert all[i].name == all[n].name;
    }
  }

  lemma {:induction false} FilterDistinct(shares: seq<Row>, p: Row -> bool)
    requires DistinctNames(shares)
    ensures DistinctNames(Filter(shares, p))
    decreases |shares|
  {
    if shares != [] {
      var head, tail := HeadTail(shares);
      DistinctTail(head, tail);
      FilterDistinct(tail, p);
      FilterFirst(head, tail, p);
    }
  }

  lemma DistinctTail(head: Row, tail: seq<Row>)
    requires DistinctNames([head] + tail)
    ensures DistinctNames(tail) && !InTable(tail, head.name)
  {
    var all := [head] + tail;
    assert forall i | 0 <= i < |tail| :: tail[i] == all[i + 1] && all[0].name != tail[i].name;
  }

  // Every delete of this name in the run is unforced and probes a size above 0.
  predicate Spares(e: Event, name: string) {
    e.DeleteCall? && e.name == name ==> !e.force && ReadsContents(e.delete.probe)
  }

  // Over any run of creates and unforced deletes, a share whose probed size is positive
  // is never removed and never altered. Nothing is assumed of the answers.
  lemma {:induction false} ContentsAreSafe(nas: Nas, events: seq<Event>, row: Row)
    requires row in nas.shares
    requires forall e | e in events :: Spares(e, row.name)
    ensures row in Run(nas, events).shares
    decreases |events|
  {
    if events != [] {
      assert events[0] in events;
      SparedAfter(nas, events[0], row);
      ContentsAreSafe(After(nas, events[0]), events[1..], row);
    }
  }

  lemma SparedAfter(nas: Nas, e: Event, row: Row)
    requires row in nas.shares && Spares(e, row.name)
    ensures row in After(nas, e).shares
  {
    if e.DeleteCall? {
      WhenDeleteIsSent(nas, e.name, e.force, e.delete);
      if e.name != row.name {
        FilterIn(nas.shares, (r: Row) => r.name != e.name, row);
      }
    }
  }

  // The same read off the disk: every unforced delete of the share is probed with some
  // output, right for the directory as it is then, and nobody empties the directory.
  ghost predicate KeepsContents(nas: Nas, e: Event, row: Row) {
    match e
    case CreateCall(_, _, _, _) => true
    case DeleteCall(name, force, f) =>
      name == row.name ==> !force && f.probe.Output? && f.probe.stdout != "" && RightIfAny(nas, PathOf(row), f.probe)
    case Resize(path, size) => path == PathOf(row) ==> size > 0
  }

  ghost predicate KeepingRun(nas: Nas, events: seq<Event>, row: Row)
    decreases |events|
  {
    events == [] || (KeepsContents(nas, events[0], row) && KeepingRun(After(nas, events[0]), events[1..], row))
  }

  lemma {:induction false} ContentsOnDiskAreSafe(nas: Nas, events: seq<Event>, row: Row)
    requires row in nas.shares && NonEmpty(nas, row) && KeepingRun(nas, events, row)
    ensures row in Run(nas, events).shares && NonEmpty(Run(nas, events), row)
    decreases |events|
  {
    if events != [] {
      var e := events[0];
      if e.DeleteCall? && e.name == row.name {
        ProbeOnDisk(nas, row, e.delete.probe);
      }
      SparedAfter(nas, e, row);
      ContentsOnDiskAreSafe(After(nas, e), events[1..], row);
    }
  }

  // A share with contents lost to an unforced delete, list and probe being right in
  // what they say.
  ghost predicate LosesContents(nas: Nas, row: Row, f: DeleteFates) {
    && row in nas.shares && DistinctNames(nas.shares) && NonEmpty(nas, row)
    && HonestList(nas, f.list) && RightIfAny(nas, PathOf(row), f.probe)
    && row !in Delete(nas, row.name, false, f).0.shares
  }

  // One probe that fails, or one that sudo refuses and that therefore prints nothing,
  // is enough: an unforced delete then removes a share with contents.
  lemma FailedProbeLosesContents(probe: Probe)
    requires probe in {ProbeFails, Output("")}
    ensures exists nas: Nas, row: Row, f: DeleteFates :: f.probe == probe && LosesContents(nas, row, f)
  {
    var row := Row("data", "u", "/volume1", "", 0, false, false, false, false, false, false, false, None);
    var nas := Nas([row], map[PathOf(row) := 1], []);
    var f := DeleteFates(Listed(Some([Some(row)])), probe, true, true);
    assert Rows([Some(row)]) == [row] + Rows([Some(row)][1..]);
    WhenContentsAreRisked(nas, row, f);
    WhenDeleteIsSent(nas, row.name, false, f);
    assert LosesContents(nas, row, f);
  }
}
