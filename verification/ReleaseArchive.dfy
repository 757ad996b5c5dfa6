/** The release archive builder and the archive checker, at the level of members and manifest. */
module ReleaseArchive {
  import opened Lists
  import opened Hex

  type Bytes = seq<Octet>

  /** A hexadecimal SHA-256, symbolic, or some other text. */
  datatype Hash = Sha(bytes: Bytes) | OtherText(text: string)

  datatype Error = BadArguments | BadPath | DuplicatePath | MissingFile | Collision | Unwritable | Rejected

  // Paths ----------------------------------------------------------------

  function Parts(path: string): seq<string> {
    Split(path, '/')
  }

  predicate Letter(c: char) {
    'A' <= c <= 'Z' || 'a' <= c <= 'z'
  }

  /** A relative POSIX path without empty, dot or parent parts, and without what another system reads as a root. */
  predicate Canonical(path: string) {
    && '\\' !in path
    && !(|path| >= 2 && Letter(path[0]) && path[1] == ':')
    && forall i :: 0 <= i < |Parts(path)| ==> Parts(path)[i] != "" && Parts(path)[i] != "." && Parts(path)[i] != ".."
  }

  /** The parts that `PurePosixPath` keeps. */
  function KeptParts(parts: seq<string>): seq<string> {
    if parts == [] then []
    else (if parts[0] == "" || parts[0] == "." then [] else [parts[0]]) + KeptParts(parts[1..])
  }

  function Joined(parts: seq<string>): string {
    if parts == [] then "" else if |parts| == 1 then parts[0] else parts[0] + "/" + Joined(parts[1..])
  }

  /** `normalized_archive_path` and `normalized`, check by check. */
  function Normalized(path: string): (r: Result<string, Error>)
    ensures r.Ok? <==> Canonical(path)
    ensures r.Ok? ==> r.value == path
  {
    CanonicalKept(path);
    if '\\' in path || (|path| >= 2 && 'a' <= LowerChar(path[0]) <= 'z' && path[1] == ':') then Err(BadPath)
    else
      var raw := Parts(path);
      var kept := KeptParts(raw);
      if (path != "" && path[0] == '/') || kept == [] then Err(BadPath)
      else if "" in raw || "." in raw || ".." in raw then Err(BadPath)
      else if Joined(kept) != path then Err(BadPath)
      else Ok(Joined(kept))
  }

  /** Without empty, dot and parent parts nothing is dropped and joining gives the path back. */
  lemma CanonicalKept(path: string)
    ensures "" !in Parts(path) && "." !in Parts(path) ==>
              KeptParts(Parts(path)) == Parts(path) && Joined(Parts(path)) == path && (path == "" || path[0] != '/')
  {
    if "" !in Parts(path) && "." !in Parts(path) {
      KeepsProper(Parts(path));
      JoinedSplit(path);
    }
  }

  lemma {:induction false} KeepsProper(parts: seq<string>)
    requires "" !in parts && "." !in parts
    ensures KeptParts(parts) == parts
  {
    if parts != [] {
      KeepsProper(parts[1..]);
    }
  }

  lemma {:induction false} JoinedSplit(path: string)
    ensures Joined(Parts(path)) == path
    ensures path != "" && path[0] == '/' ==> Parts(path)[0] == ""
  {
    if path != "" {
      JoinedSplit(path[1..]);
      var rest := Parts(path[1..]);
      assert path == [path[0]] + path[1..];
      if path[0] == '/' {
        assert Parts(path)[1..] == rest;
      } else if |rest| > 1 {
        assert Parts(path)[1..] == rest[1..];
      }
    }
  }

  function ManifestName(): string {
    "RELEASE-MANIFEST.json"
  }

  // Payload manifest -----------------------------------------------------

  predicate Space(c: char) {
    WhiteSpace(c) || '\U{1C}' <= c <= '\U{1F}'
  }

  function Strip(s: string): string {
    if s == [] then s
    else if Space(s[0]) then Strip(s[1..])
    else if Space(s[|s| - 1]) then Strip(s[..|s| - 1])
    else s
  }

  /** What is left starts and ends with a character that is not a space, and only spaces are gone. */
  lemma {:induction false} StripExactly(s: string) returns (before: string, after: string)
    ensures s == before + Strip(s) + after
    ensures forall c :: c in before || c in after ==> Space(c)
    ensures Strip(s) != "" ==> !Space(Strip(s)[0]) && !Space(Strip(s)[|Strip(s)| - 1])
  {
    hide Space;
    before, after := "", "";
    if s != [] && Space(s[0]) {
      before, after := StripExactly(s[1..]);
      before := [s[0]] + before;
    } else if s != [] && Space(s[|s| - 1]) {
      before, after := StripExactly(s[..|s| - 1]);
      after := after + [s[|s| - 1]];
    }
  }

  predicate Skipped(line: string) {
    Strip(line) == "" || Strip(line)[0] == '#'
  }

  /** The paths the payload manifest lists, in order. */
  function PayloadPaths(lines: seq<string>): seq<string> {
    if lines == [] then []
    else
      var line := lines[|lines| - 1];
      PayloadPaths(lines[..|lines| - 1]) + if Skipped(line) then [] else [Strip(line)]
  }

  /** The payload manifest is acceptable to both programs. */
  ghost predicate PayloadValid(lines: seq<string>) {
    var paths := PayloadPaths(lines);
    paths != [] && Distinct(paths) && forall p :: p in paths ==> Canonical(p)
  }

  /** Reading a payload path below the repository root; `None` unless it is a regular file there. */
  type Repository = string -> Option<Bytes>

  datatype Entry = Entry(path: string, content: Bytes, mode: nat)

  function PayloadEntry(repo: Repository): string -> Entry {
    (path: string) => Entry(path, if repo(path).Some? then repo(path).value else [], 0x1A4)
  }

  /** `load_payload_paths` */
  method LoadPayload(repo: Repository, lines: seq<string>) returns (r: Result<seq<Entry>, Error>)
    ensures r.Ok? <==> PayloadValid(lines) && forall p :: p in PayloadPaths(lines) ==> repo(p).Some?
    ensures r.Ok? ==> r.value == Map(PayloadEntry(repo), PayloadPaths(lines))
  {
    hide Canonical, Skipped, Strip, Map;
    var entries: seq<Entry>, seen: set<string> := [], {};
    ghost var paths: seq<string> := [];
    for i := 0 to |lines|
      invariant paths == PayloadPaths(lines[..i])
      invariant seen == set p | p in paths
      invariant Distinct(paths) && forall p :: p in paths ==> Canonical(p) && repo(p).Some?
      invariant entries == Map(PayloadEntry(repo), paths)
    {
      assert lines[..i + 1][..i] == lines[..i];
      var value := Strip(lines[i]);
      if !Skipped(lines[i]) {
        PathsGrow(lines, i);
        if Normalized(value).Err? {
          return Err(BadPath);
        }
        if value in seen {
          return Err(DuplicatePath);
        }
        var content := repo(value);
        if content.None? {
          return Err(MissingFile);
        }
        ghost var longer := paths + [value];
        entries := entries + [Entry(value, content.value, 0x1A4)];
        assert entries == Map(PayloadEntry(repo), longer);
        paths, seen := longer, seen + {value};
      }
    }
    assert lines[..|lines|] == lines;
    if entries == [] {
      return Err(BadArguments);
    }
    return Ok(entries);
  }

  /** Paths found in a prefix stay found, so a fault in it is a fault of the whole. */
  lemma {:induction false} PrefixPaths(lines: seq<string>, i: nat)
    requires i <= |lines|
    ensures PayloadPaths(lines[..i]) <= PayloadPaths(lines)
    decreases |lines| - i
  {
    if i == |lines| {
      assert lines[..i] == lines;
    } else {
      assert lines[..i + 1][..i] == lines[..i];
      PrefixPaths(lines, i + 1);
    }
  }

  lemma PathsGrow(lines: seq<string>, i: nat)
    requires i < |lines| && !Skipped(lines[i])
    ensures Strip(lines[i]) in PayloadPaths(lines)
    ensures Strip(lines[i]) in PayloadPaths(lines[..i]) ==> !Distinct(PayloadPaths(lines))
  {
    hide Skipped, Strip;
    assert lines[..i + 1][..i] == lines[..i];
    PrefixPaths(lines, i + 1);
    var front, all := PayloadPaths(lines[..i]), PayloadPaths(lines);
    assert front + [Strip(lines[i])] <= all;
    assert all[|front|] == (front + [Strip(lines[i])])[|front|];
    if Strip(lines[i]) in front {
      var k :| 0 <= k < |front| && front[k] == Strip(lines[i]);
      assert all[k] == (front + [Strip(lines[i])])[k];
    }
  }

  /** `expected_static_paths` */
  method ExpectedStaticPaths(lines: seq<string>) returns (r: Result<set<string>, Error>)
    ensures r.Ok? <==> PayloadValid(lines)
    ensures r.Ok? ==> r.value == set p | p in PayloadPaths(lines)
  {
    hide Canonical, Skipped, Strip;
    var result: set<string> := {};
    ghost var paths: seq<string> := [];
    for i := 0 to |lines|
      invariant paths == PayloadPaths(lines[..i])
      invariant result == set p | p in paths
      invariant Distinct(paths) && forall p :: p in paths ==> Canonical(p)
    {
      assert lines[..i + 1][..i] == lines[..i];
      var value := Strip(lines[i]);
      if !Skipped(lines[i]) {
        PathsGrow(lines, i);
        if Normalized(value).Err? {
          return Err(BadPath);
        }
        if value in result {
          return Err(DuplicatePath);
        }
        paths, result := paths + [value], result + {value};
      }
    }
    assert lines[..|lines|] == lines;
    assert paths != [] ==> paths[0] in result;
    if result == {} {
      return Err(BadArguments);
    }
    return Ok(result);
  }

  // The builder ----------------------------------------------------------

  datatype Format = TarGzFormat | ZipFormat | OtherFormat

  datatype BuildArgs = BuildArgs(binary: Option<Bytes>, binaryName: string, wrapper: Option<Bytes>, wrapperName: string,
                                 lines: seq<string>, version: string, releaseTag: string,
                                 sourceCommit: string, epoch: int, format: Format)

  datatype Row = Row(path: string, sha: Hash, size: nat, mode: string)

  datatype Manifest = Manifest(schema: string, product: string, version: string, releaseTag: string,
                               sourceCommit: string, epoch: int, coverage: string, files: seq<Row>)

  /** JSON text of a manifest, and reading it back; members of the wrong JSON type read as `None`. */
  datatype Codec = Codec(dump: Manifest -> Bytes, parse: Bytes -> Option<Manifest>)

  ghost predicate RoundTrips(x: Codec) {
    forall m :: x.parse(x.dump(m)) == Some(m)
  }

  function Schema(): string {
    "forge_release_manifest_v1"
  }

  function Product(): string {
    "forge-method-core"
  }

  function Coverage(): string {
    "all archive members except " + ManifestName()
  }

  predicate CommitText(s: string) {
    && (|s| == 40 || |s| == 64)
    && forall i :: 0 <= i < |s| ==> LowerHex(s[i])
  }

  /** A commit is named by the digits of a SHA-1 or a SHA-256. */
  lemma CommitTextExactly(s: string)
    ensures CommitText(s) <==> exists bytes :: (|bytes| == 20 || |bytes| == 32) && s == Encoded(bytes)
  {
    hide Encoded, LowerHex;
    LowerTextExactly(s, 20);
    LowerTextExactly(s, 32);
  }

  function OctalDigits(n: nat, count: nat): (r: string)
    ensures |r| == count
    decreases count
  {
    if count == 0 then "" else OctalDigits(n / 8, count - 1) + [Digit(n % 8)]
  }

  /** `f"{mode:04o}"` of a permission mode. */
  function OctalText(mode: nat): string {
    OctalDigits(mode, 4)
  }

  function Power8(k: nat): nat {
    if k == 0 then 1 else 8 * Power8(k - 1)
  }

  lemma {:induction false} OctalDigitsInjective(a: nat, b: nat, count: nat)
    requires a < Power8(count) && b < Power8(count) && OctalDigits(a, count) == OctalDigits(b, count)
    ensures a == b
    decreases count
  {
    if count > 0 {
      var s, t := OctalDigits(a, count), OctalDigits(b, count);
      assert s[..count - 1] == OctalDigits(a / 8, count - 1) && t[..count - 1] == OctalDigits(b / 8, count - 1);
      OctalDigitsInjective(a / 8, b / 8, count - 1);
      assert s[count - 1] == Digit(a % 8) && t[count - 1] == Digit(b % 8);
    }
  }

  lemma OctalTextInjective(a: nat, b: nat)
    requires a < 4096 && b < 4096 && OctalText(a) == OctalText(b)
    ensures a == b
  {
    assert Power8(2) == 64;
    assert Power8(4) == 4096;
    OctalDigitsInjective(a, b, 4);
  }

  predicate EntryLe(a: Entry, b: Entry) {
    StringLe(a.path, b.path)
  }

  predicate ReservedName(a: BuildArgs, path: string) {
    path == a.binaryName || path == a.wrapperName || path == ManifestName()
  }

  predicate ArgumentsValid(semver: string -> bool, a: BuildArgs) {
    && semver(a.version) && a.releaseTag == "v" + a.version && CommitText(a.sourceCommit) && a.epoch >= 0
    && a.binary.Some? && a.wrapper.Some?
    && Canonical(a.binaryName) && Canonical(a.wrapperName)
    && a.binaryName != a.wrapperName && a.binaryName != ManifestName() && a.wrapperName != ManifestName()
  }

  /** The header of the format can hold the timestamp: 32 bits in gzip, a date up to the end of 2107 in zip. */
  predicate Stampable(f: Format, epoch: int) {
    match f
    case TarGzFormat => epoch <= 0xFFFF_FFFF
    case ZipFormat => epoch <= 4_354_819_199
    case OtherFormat => false
  }

  function LeapYears(through: nat): nat {
    through / 4 - through / 100 + through / 400
  }

  /** Days from the start of 1970 to the start of `year`. */
  function DaysBefore(year: nat): int
    requires year >= 1970
  {
    365 * (year - 1970) + LeapYears(year - 1) - LeapYears(1969)
  }

  /** What the builder accepts. */
  ghost predicate Builds(semver: string -> bool, repo: Repository, a: BuildArgs) {
    && ArgumentsValid(semver, a)
    && PayloadValid(a.lines)
    && (forall p :: p in PayloadPaths(a.lines) ==> repo(p).Some? && !ReservedName(a, p))
    && Stampable(a.format, a.epoch)
  }

  /** All files of the release, before sorting: the two executables, then the payload. */
  function Collected(repo: Repository, a: BuildArgs): seq<Entry> {
    [Entry(a.binaryName, if a.binary.Some? then a.binary.value else [], 0x1ED),
     Entry(a.wrapperName, if a.wrapper.Some? then a.wrapper.value else [], 0x1ED)]
     + Map(PayloadEntry(repo), PayloadPaths(a.lines))
  }

  function RowOf(e: Entry): Row {
    Row(e.path, Sha(e.content), |e.content|, OctalText(e.mode))
  }

  function ManifestOf(a: BuildArgs, entries: seq<Entry>): Manifest {
    Manifest(Schema(), Product(), a.version, a.releaseTag, a.sourceCommit, a.epoch, Coverage(), Map(RowOf, entries))
  }

  datatype TarMember = TarMember(name: string, regular: bool, mode: nat, content: Bytes)

  datatype ZipMember = ZipMember(name: string, attributes: nat, content: Bytes)

  datatype Archive = TarGz(tar: seq<TarMember>) | Zip(zip: seq<ZipMember>) | Unrecognized

  /** `tar_info` */
  function TarOf(e: Entry): TarMember {
    TarMember(e.path, true, e.mode, e.content)
  }

  const REGULAR: nat := 0x8000

  /** The regular-file type and the mode in the high half of the external attributes. */
  function ZipOf(e: Entry): ZipMember {
    ZipMember(e.path, (REGULAR + e.mode) * 0x1_0000, e.content)
  }

  /** Every file and last the manifest. */
  function WithManifest(x: Codec, a: BuildArgs, entries: seq<Entry>): seq<Entry> {
    entries + [Entry(ManifestName(), x.dump(ManifestOf(a, entries)), 0x1A4)]
  }

  function Written(f: Format, entries: seq<Entry>): Archive {
    match f
    case TarGzFormat => TarGz(Map(TarOf, entries))
    case ZipFormat => Zip(Map(ZipOf, entries))
    case OtherFormat => Unrecognized
  }

  function Built(x: Codec, repo: Repository, a: BuildArgs): Archive {
    Written(a.format, WithManifest(x, a, Sort(EntryLe, Collected(repo, a))))
  }

  /** The checks on the arguments, in the source's order. */
  function CheckArguments(semver: string -> bool, a: BuildArgs): (r: Result<(), Error>)
    ensures r.Ok? <==> ArgumentsValid(semver, a)
    ensures r.Ok? ==> a.binary.Some? && a.wrapper.Some?
  {
    if !semver(a.version) || a.releaseTag != "v" + a.version || !CommitText(a.sourceCommit) || a.epoch < 0
    then Err(BadArguments)
    else if a.binary.None? || a.wrapper.None? then Err(MissingFile)
    else if Normalized(a.binaryName).Err? || Normalized(a.wrapperName).Err? then Err(BadPath)
    else if |{a.binaryName, a.wrapperName, ManifestName()}| != 3 then Err(Collision)
    else Ok(())
  }

  /** Writing the header: a gzip timestamp has 32 bits, a zip timestamp ends with the year 2107. */
  function CheckStamp(f: Format, epoch: int): (r: Result<(), Error>)
    ensures r.Ok? <==> Stampable(f, epoch)
  {
    match f
    case TarGzFormat => if epoch < 0x1_0000_0000 then Ok(()) else Err(Unwritable)
    case ZipFormat => if epoch < 86_400 * DaysBefore(2108) then Ok(()) else Err(Unwritable)
    case OtherFormat => Err(Unwritable)
  }

  /** `build` with `release_entries` */
  method Build(x: Codec, semver: string -> bool, repo: Repository, a: BuildArgs) returns (r: Result<Archive, Error>)
    ensures r.Ok? <==> Builds(semver, repo, a)
    ensures r.Ok? ==> r.value == Built(x, repo, a)
  {
    hide PayloadValid, ArgumentsValid, Stampable, ManifestName, Sort, Map, Schema, Product, Coverage, PayloadPaths,
         CheckArguments, CheckStamp, Written;
    var arguments := CheckArguments(semver, a);
    if arguments.Err? {
      return Err(arguments.error);
    }
    var payload := LoadPayload(repo, a.lines);
    if payload.Err? {
      return Err(payload.error);
    }
    var entries := [Entry(a.binaryName, a.binary.value, 0x1ED), Entry(a.wrapperName, a.wrapper.value, 0x1ED)];
    ghost var start, paths := entries, PayloadPaths(a.lines);
    for i := 0 to |payload.value|
      invariant entries == start + payload.value[..i]
      invariant forall k :: 0 <= k < i ==> !ReservedName(a, paths[k])
    {
      if ReservedName(a, payload.value[i].path) {
        assert paths[i] in paths;
        return Err(Collision);
      }
      assert payload.value[..i + 1] == payload.value[..i] + [payload.value[i]];
      entries := entries + [payload.value[i]];
    }
    assert payload.value[..|payload.value|] == payload.value;
    var stamp := CheckStamp(a.format, a.epoch);
    if stamp.Err? {
      return Err(stamp.error);
    }
    return Ok(Written(a.format, WithManifest(x, a, Sort(EntryLe, entries))));
  }

  // The checker ----------------------------------------------------------

  datatype Member = Member(content: Bytes, mode: nat)

  type Members = map<string, Member>

  /** One archive member as the checker sees it, in either format. */
  datatype Listed = Listed(name: string, regular: bool, mode: nat, content: Bytes)

  function TarListed(m: TarMember): Listed {
    Listed(m.name, m.regular, m.mode % 0x1000, m.content)
  }

  /** The file type is four bits above the twelve mode bits; an absent type passes for a regular file. */
  function ZipListed(m: ZipMember): Listed {
    var high := m.attributes / 0x1_0000;
    var kind := high / 0x1000 % 16 * 0x1000;
    Listed(m.name, kind == 0 || kind == REGULAR, high % 0x1000, m.content)
  }

  function ListedOf(a: Archive): seq<Listed> {
    match a
    case TarGz(tar) => Map(TarListed, tar)
    case Zip(zip) => Map(ZipListed, zip)
    case Unrecognized => []
  }

  predicate MemberValid(l: Listed) {
    Canonical(l.name) && l.regular
  }

  ghost predicate NamesDistinct(ls: seq<Listed>) {
    forall i, j :: 0 <= i < j < |ls| ==> ls[i].name != ls[j].name
  }

  ghost predicate Readable(ls: seq<Listed>) {
    NamesDistinct(ls) && forall i :: 0 <= i < |ls| ==> MemberValid(ls[i])
  }

  /** The dictionary holds exactly the listed members. */
  ghost predicate Holds(m: Members, ls: seq<Listed>) {
    && m.Keys == (set l | l in ls :: l.name)
    && forall i :: 0 <= i < |ls| ==> ls[i].name in m && m[ls[i].name] == Member(ls[i].content, ls[i].mode)
  }

  /** `read_members` */
  method ReadMembers(a: Archive) returns (r: Result<Members, Error>)
    ensures r.Ok? <==> !a.Unrecognized? && Readable(ListedOf(a))
    ensures r.Ok? ==> Holds(r.value, ListedOf(a))
  {
    hide Canonical, ListedOf;
    if a.Unrecognized? {
      return Err(Rejected);
    }
    var ls := ListedOf(a);
    var members: Members := map[];
    for i := 0 to |ls|
      invariant NamesDistinct(ls[..i]) && forall k :: 0 <= k < i ==> MemberValid(ls[k])
      invariant Holds(members, ls[..i])
    {
      assert ls[..i + 1] == ls[..i] + [ls[i]];
      if Normalized(ls[i].name).Err? {
        return Err(BadPath);
      }
      if ls[i].name in members {
        SeenTwice(ls, i);
        return Err(DuplicatePath);
      }
      if !ls[i].regular {
        return Err(Rejected);
      }
      HoldsGrows(members, ls[..i], ls[i]);
      members := members[ls[i].name := Member(ls[i].content, ls[i].mode)];
    }
    assert ls[..|ls|] == ls;
    return Ok(members);
  }

  lemma SeenTwice(ls: seq<Listed>, i: nat)
    requires i < |ls| && exists l :: l in ls[..i] && l.name == ls[i].name
    ensures !NamesDistinct(ls)
  {
  }

  lemma HoldsGrows(m: Members, ls: seq<Listed>, l: Listed)
    requires Holds(m, ls) && l.name !in m
    ensures Holds(m[l.name := Member(l.content, l.mode)], ls + [l])
    ensures NamesDistinct(ls) ==> NamesDistinct(ls + [l])
  {
  }

  datatype CheckArgs = CheckArgs(binaryName: string, wrapperName: string, version: string, expectedTag: Option<string>,
                                 expectedCommit: Option<string>, lines: seq<string>)

  /** Closure of the Markdown links looks at member names and contents only. */
  type LinkCheck = map<string, Bytes> -> bool

  function Contents(m: Members): map<string, Bytes> {
    map p | p in m :: m[p].content
  }

  function ExpectedPaths(a: CheckArgs): set<string> {
    (set p | p in PayloadPaths(a.lines)) + {a.binaryName, a.wrapperName}
  }

  predicate HeaderMatches(a: CheckArgs, m: Manifest) {
    && m.schema == Schema() && m.product == Product() && m.version == a.version
    && m.releaseTag == "v" + a.version && CommitText(m.sourceCommit)
    && (a.expectedTag.Some? ==> m.releaseTag == a.expectedTag.value)
    && (a.expectedCommit.Some? ==> m.sourceCommit == a.expectedCommit.value)
    && m.files != []
  }

  /** The row describes the member of its path. */
  predicate RowMatches(members: Members, row: Row) {
    && Canonical(row.path) && row.path in members
    && row.sha == Sha(members[row.path].content)
    && row.size == |members[row.path].content|
    && row.mode == OctalText(members[row.path].mode)
  }

  ghost predicate PathsDistinct(rows: seq<Row>) {
    forall i, j :: 0 <= i < j < |rows| ==> rows[i].path != rows[j].path
  }

  ghost predicate RowsMatch(members: Members, rows: seq<Row>) {
    PathsDistinct(rows) && forall i :: 0 <= i < |rows| ==> RowMatches(members, rows[i])
  }

  function RowPaths(rows: seq<Row>): set<string> {
    set r | r in rows :: r.path
  }

  /** What the checker accepts of a dictionary of members. */
  ghost predicate MembersPass(x: Codec, closed: LinkCheck, a: CheckArgs, members: Members) {
    && ManifestName() in members
    && x.parse(members[ManifestName()].content).Some?
    && var m := x.parse(members[ManifestName()].content).value;
       && HeaderMatches(a, m)
       && PayloadValid(a.lines) && Canonical(a.binaryName) && Canonical(a.wrapperName)
       && RowsMatch(members, m.files)
       && RowPaths(m.files) == ExpectedPaths(a)
       && members.Keys == ExpectedPaths(a) + {ManifestName()}
       && closed(Contents(members))
  }

  /** The row loop, with the set of paths seen. */
  method CheckRows(members: Members, rows: seq<Row>) returns (r: Result<set<string>, Error>)
    ensures r.Ok? <==> RowsMatch(members, rows)
    ensures r.Ok? ==> r.value == RowPaths(rows)
  {
    hide Canonical, OctalText;
    var paths: set<string> := {};
    for i := 0 to |rows|
      invariant paths == set k | 0 <= k < i :: rows[k].path
      invariant forall k, l :: 0 <= k < l < i ==> rows[k].path != rows[l].path
      invariant forall k :: 0 <= k < i ==> RowMatches(members, rows[k])
    {
      if rows[i].path in paths {
        return Err(DuplicatePath);
      }
      paths := paths + {rows[i].path};
      if Normalized(rows[i].path).Err? || rows[i].path !in members {
        return Err(Rejected);
      }
      var member := members[rows[i].path];
      if rows[i].sha != Sha(member.content) || rows[i].size != |member.content|
         || rows[i].mode != OctalText(member.mode) {
        return Err(Rejected);
      }
    }
    return Ok(paths);
  }

  /** `check`, after the members are read and without the checksum file. */
  method CheckMembers(x: Codec, closed: LinkCheck, a: CheckArgs, members: Members) returns (r: Result<(), Error>)
    ensures r.Ok? <==> MembersPass(x, closed, a, members)
  {
    hide CommitText, Schema, Product, PayloadValid, Canonical, RowsMatch, ManifestName, PayloadPaths, Contents;
    if ManifestName() !in members {
      return Err(Rejected);
    }
    var manifest := x.parse(members[ManifestName()].content);
    if manifest.None? {
      return Err(Rejected);
    }
    var m := manifest.value;
    if m.schema != Schema() || m.product != Product() || m.version != a.version || m.releaseTag != "v" + a.version
       || !CommitText(m.sourceCommit) {
      return Err(Rejected);
    }
    if (a.expectedTag.Some? && m.releaseTag != a.expectedTag.value)
       || (a.expectedCommit.Some? && m.sourceCommit != a.expectedCommit.value) || m.files == [] {
      return Err(Rejected);
    }
    var static_ := ExpectedStaticPaths(a.lines);
    if static_.Err? {
      return Err(static_.error);
    }
    if Normalized(a.binaryName).Err? || Normalized(a.wrapperName).Err? {
      return Err(BadPath);
    }
    var expected := static_.value + {a.binaryName, a.wrapperName};
    var paths := CheckRows(members, manifest.value.files);
    if paths.Err? {
      return Err(paths.error);
    }
    if paths.value != expected {
      return Err(Rejected);
    }
    if members.Keys != expected + {ManifestName()} {
      return Err(Rejected);
    }
    if !closed(Contents(members)) {
      return Err(Rejected);
    }
    return Ok(());
  }

  /** The whole check of an archive passes. */
  ghost predicate Passes(x: Codec, closed: LinkCheck, a: CheckArgs, archive: Archive) {
    && !archive.Unrecognized? && Readable(ListedOf(archive))
    && forall m :: Holds(m, ListedOf(archive)) ==> MembersPass(x, closed, a, m)
  }

  lemma HoldsUnique(m: Members, n: Members, ls: seq<Listed>)
    requires Holds(m, ls) && Holds(n, ls)
    ensures m == n
  {
  }

  /** `check` */
  method Check(x: Codec, closed: LinkCheck, a: CheckArgs, archive: Archive) returns (r: Result<(), Error>)
    ensures r.Ok? <==> Passes(x, closed, a, archive)
  {
    hide Readable, ListedOf, MembersPass, Holds;
    var members := ReadMembers(archive);
    if members.Err? {
      return Err(members.error);
    }
    r := CheckMembers(x, closed, a, members.value);
    forall m | Holds(m, ListedOf(archive)) ensures m == members.value {
      HoldsUnique(m, members.value, ListedOf(archive));
    }
  }

  // Builder and checker agree --------------------------------------------

  /** Both formats give back name, content and permission mode of what was written. */
  function EntryListed(e: Entry): Listed {
    Listed(e.path, true, e.mode, e.content)
  }

  lemma FormatsAgree(f: Format, entries: seq<Entry>)
    requires !f.OtherFormat? && forall e :: e in entries ==> e.mode < 0x1000
    ensures !Written(f, entries).Unrecognized? && ListedOf(Written(f, entries)) == Map(EntryListed, entries)
  {
  }

  ghost predicate EntriesDistinct(entries: seq<Entry>) {
    forall i, j :: 0 <= i < j < |entries| ==> entries[i].path != entries[j].path
  }

  lemma CollectedPath(repo: Repository, a: BuildArgs, i: nat)
    requires i < |Collected(repo, a)|
    ensures |Collected(repo, a)| == 2 + |PayloadPaths(a.lines)|
    ensures Collected(repo, a)[i].mode < 0x1000
    ensures Collected(repo, a)[i].path ==
            if i == 0 then a.binaryName else if i == 1 then a.wrapperName else PayloadPaths(a.lines)[i - 2]
  {
  }

  /** Everything about the written entries that the checker will ask for. */
  lemma CollectedSound(semver: string -> bool, repo: Repository, a: BuildArgs)
    requires Builds(semver, repo, a)
    ensures EntriesDistinct(Collected(repo, a))
    ensures forall e :: e in Collected(repo, a) ==> Canonical(e.path) && e.mode < 0x1000 && e.path != ManifestName()
    ensures (set e | e in Collected(repo, a) :: e.path)
            == (set p | p in PayloadPaths(a.lines)) + {a.binaryName, a.wrapperName}
  {
    hide Canonical, CommitText, ManifestName, PayloadPaths, Collected;
    var all, paths := Collected(repo, a), PayloadPaths(a.lines);
    forall i, j | 0 <= i < j < |all| ensures all[i].path != all[j].path {
      CollectedPath(repo, a, i);
      CollectedPath(repo, a, j);
      assert j < 2 || paths[j - 2] in paths;
    }
    forall e | e in all ensures Canonical(e.path) && e.mode < 0x1000 && e.path != ManifestName() {
      var i :| 0 <= i < |all| && all[i] == e;
      CollectedPath(repo, a, i);
      assert i < 2 || paths[i - 2] in paths;
    }
    CollectedPaths(repo, a);
  }

  lemma CollectedPaths(repo: Repository, a: BuildArgs)
    ensures (set e | e in Collected(repo, a) :: e.path)
            == (set p | p in PayloadPaths(a.lines)) + {a.binaryName, a.wrapperName}
  {
    hide PayloadPaths;
    var all, paths := Collected(repo, a), PayloadPaths(a.lines);
    var names := set e | e in all :: e.path;
    assert all[0] in all && all[1] in all;
    forall p | p in paths ensures p in names {
      var i :| 0 <= i < |paths| && paths[i] == p;
      assert all[i + 2] in all && all[i + 2].path == p;
    }
    forall n | n in names ensures n in (set p | p in paths) + {a.binaryName, a.wrapperName} {
      var e :| e in all && e.path == n;
      var i :| 0 <= i < |all| && all[i] == e;
      assert i >= 2 ==> all[i].path == paths[i - 2];
    }
  }

  lemma DistinctSorted(entries: seq<Entry>)
    requires EntriesDistinct(entries)
    ensures EntriesDistinct(Sort(EntryLe, entries))
    ensures forall e :: e in Sort(EntryLe, entries) <==> e in entries
  {
    hide Sort, EntryLe;
    var sorted := Sort(EntryLe, entries);
    SameElements(entries, sorted);
    assert Distinct(entries);
    DistinctPermutes(entries, sorted);
    forall i, j | 0 <= i < j < |sorted| ensures sorted[i].path != sorted[j].path {
      assert sorted[i] in entries && sorted[j] in entries && sorted[i] != sorted[j];
      var k :| 0 <= k < |entries| && entries[k] == sorted[i];
      var l :| 0 <= l < |entries| && entries[l] == sorted[j];
    }
  }

  /** A dictionary that holds the written entries passes. */
  lemma WrittenPass(x: Codec, closed: LinkCheck, a: BuildArgs, c: CheckArgs, entries: seq<Entry>, members: Members)
    requires RoundTrips(x) && EntriesDistinct(entries) && entries != []
    requires forall e :: e in entries ==> Canonical(e.path) && e.mode < 0x1000 && e.path != ManifestName()
    requires (set e | e in entries :: e.path) == ExpectedPaths(c)
    requires HeaderMatches(c, ManifestOf(a, entries))
    requires PayloadValid(c.lines) && Canonical(c.binaryName) && Canonical(c.wrapperName)
    requires Holds(members, Map(EntryListed, WithManifest(x, a, entries))) && closed(Contents(members))
    ensures MembersPass(x, closed, c, members)
  {
    hide HeaderMatches, Canonical, ManifestName, PayloadValid, ExpectedPaths, Schema, Product, Coverage, Contents,
         OctalText, RoundTrips;
    var all := WithManifest(x, a, entries);
    var ls := Map(EntryListed, all);
    assert ls[|entries|] == EntryListed(all[|entries|]);
    assert members[ManifestName()].content == x.dump(ManifestOf(a, entries));
    ParsesBack(x, ManifestOf(a, entries));
    var rows := ManifestOf(a, entries).files;
    RowsDescribe(x, a, entries, members);
    assert RowPaths(rows) == (set e | e in entries :: e.path) by {
      RowPathsAre(entries);
    }
    NamesAre(x, a, entries);
  }

  lemma ParsesBack(x: Codec, m: Manifest)
    requires RoundTrips(x)
    ensures x.parse(x.dump(m)) == Some(m)
  {
  }

  lemma RowsDescribe(x: Codec, a: BuildArgs, entries: seq<Entry>, members: Members)
    requires EntriesDistinct(entries) && (forall e :: e in entries ==> Canonical(e.path))
    requires Holds(members, Map(EntryListed, WithManifest(x, a, entries)))
    ensures RowsMatch(members, Map(RowOf, entries))
  {
    hide Canonical, ManifestName, OctalText, ManifestOf;
    var rows, ls := Map(RowOf, entries), Map(EntryListed, WithManifest(x, a, entries));
    forall i | 0 <= i < |rows| ensures RowMatches(members, rows[i]) {
      assert entries[i] in entries && ls[i] == EntryListed(entries[i]);
    }
  }

  lemma RowPathsAre(entries: seq<Entry>)
    ensures RowPaths(Map(RowOf, entries)) == (set e | e in entries :: e.path)
  {
  }

  lemma NamesAre(x: Codec, a: BuildArgs, entries: seq<Entry>)
    ensures (set l | l in Map(EntryListed, WithManifest(x, a, entries)) :: l.name) ==
            (set e | e in entries :: e.path) + {ManifestName()}
  {
    hide ManifestName, ManifestOf;
    var all := WithManifest(x, a, entries);
    var ls := Map(EntryListed, all);
    var names, paths := set l | l in ls :: l.name, set e | e in entries :: e.path;
    assert ls[|entries|] in ls && ls[|entries|].name == ManifestName();
    forall p | p in paths ensures p in names {
      var e :| e in entries && e.path == p;
      var i :| 0 <= i < |entries| && entries[i] == e;
      assert ls[i] in ls && ls[i] == EntryListed(e);
    }
    forall n | n in names ensures n in paths + {ManifestName()} {
      var l :| l in ls && l.name == n;
      var i :| 0 <= i < |ls| && ls[i] == l;
      assert i < |entries| ==> all[i] == entries[i] && entries[i] in entries;
    }
  }

  /** The checker is asked about the release the builder was asked for. */
  predicate SameRelease(a: BuildArgs, c: CheckArgs) {
    && c.binaryName == a.binaryName && c.wrapperName == a.wrapperName && c.lines == a.lines && c.version == a.version
    && (c.expectedTag.Some? ==> c.expectedTag.value == a.releaseTag)
    && (c.expectedCommit.Some? ==> c.expectedCommit.value == a.sourceCommit)
  }

  /** Builder and checker agree: whatever the builder produces, in either format, the checker accepts for the
      same release, provided only that the Markdown links are closed. */
  lemma BuilderPassesChecker(x: Codec, closed: LinkCheck, semver: string -> bool, repo: Repository, a: BuildArgs,
                             c: CheckArgs)
    requires RoundTrips(x) && Builds(semver, repo, a) && SameRelease(a, c)
    requires forall m :: Holds(m, ListedOf(Built(x, repo, a))) ==> closed(Contents(m))
    ensures Passes(x, closed, c, Built(x, repo, a))
  {
    hide Canonical, CommitText, ManifestName, PayloadPaths, PayloadValid, Sort, Map, Schema, Product, Coverage, Holds,
         RoundTrips, MembersPass, Contents, EntriesDistinct, ListedOf, Written, Collected, RowOf, StringLe;
    CollectedSound(semver, repo, a);
    DistinctSorted(Collected(repo, a));
    var entries := Sort(EntryLe, Collected(repo, a));
    assert (set e | e in entries :: e.path) == (set e | e in Collected(repo, a) :: e.path);
    var all := WithManifest(x, a, entries);
    FormatsAgree(a.format, all);
    WrittenReadable(x, a, entries);
    forall m | Holds(m, ListedOf(Built(x, repo, a))) ensures MembersPass(x, closed, c, m) {
      WrittenPass(x, closed, a, c, entries, m);
    }
  }

  lemma ManifestNameCanonical()
    ensures Canonical(ManifestName())
  {
    hide Parts, Split;
    NoSlashOnePart(ManifestName());
  }

  lemma {:induction false} NoSlashOnePart(s: string)
    requires '/' !in s
    ensures Parts(s) == [s]
  {
    if s != [] {
      NoSlashOnePart(s[1..]);
      assert [s[0]] + s[1..] == s;
    }
  }

  lemma WrittenReadable(x: Codec, a: BuildArgs, entries: seq<Entry>)
    requires EntriesDistinct(entries) && forall e :: e in entries ==> Canonical(e.path) && e.path != ManifestName()
    ensures Readable(Map(EntryListed, WithManifest(x, a, entries)))
  {
    hide Canonical, ManifestName, ManifestOf;
    ManifestNameCanonical();
    var all := WithManifest(x, a, entries);
    var ls := Map(EntryListed, all);
    assert forall i :: 0 <= i < |entries| ==> all[i] == entries[i] && entries[i] in entries;
  }

  /** What is in a built archive: the binary, the wrapper and the payload files, each under its own name with its
      own content and mode, and a manifest of this release that lists exactly those; and nothing else. */
  lemma BuiltMembers(x: Codec, semver: string -> bool, repo: Repository, a: BuildArgs, m: Members)
    requires RoundTrips(x) && Builds(semver, repo, a) && Holds(m, ListedOf(Built(x, repo, a)))
    ensures m.Keys == (set p | p in PayloadPaths(a.lines)) + {a.binaryName, a.wrapperName, ManifestName()}
    ensures m[a.binaryName] == Member(a.binary.value, 0x1ED) && m[a.wrapperName] == Member(a.wrapper.value, 0x1ED)
    ensures forall p :: p in PayloadPaths(a.lines) ==> m[p] == Member(repo(p).value, 0x1A4)
    ensures m[ManifestName()].mode == 0x1A4
    ensures var manifest := x.parse(m[ManifestName()].content);
            && manifest.Some?
            && manifest.value == Manifest(Schema(), Product(), a.version, a.releaseTag, a.sourceCommit, a.epoch,
                                          Coverage(), manifest.value.files)
            && RowPaths(manifest.value.files) == m.Keys - {ManifestName()}
  {
    hide Canonical, CommitText, ManifestName, PayloadPaths, PayloadValid, Sort, Map, Schema, Product, Coverage, RowOf,
         RoundTrips, EntriesDistinct, ListedOf, Written, Collected;
    CollectedSound(semver, repo, a);
    DistinctSorted(Collected(repo, a));
    var entries := Sort(EntryLe, Collected(repo, a));
    assert (set e | e in entries :: e.path) == (set e | e in Collected(repo, a) :: e.path);
    var all := WithManifest(x, a, entries);
    FormatsAgree(a.format, all);
    NamesAre(x, a, entries);
    RowPathsAre(entries);
    ParsesBack(x, ManifestOf(a, entries));
    forall e | e in all ensures m[e.path] == Member(e.content, e.mode) {
      EntryFound(all, m, e);
    }
    assert all[|entries|] in all;
    forall e | e in Collected(repo, a) ensures m[e.path] == Member(e.content, e.mode) {
      assert e in entries && e in all;
    }
    CollectedFiles(repo, a);
  }

  lemma EntryFound(all: seq<Entry>, m: Members, e: Entry)
    requires Holds(m, Map(EntryListed, all)) && e in all
    ensures e.path in m && m[e.path] == Member(e.content, e.mode)
  {
    var i :| 0 <= i < |all| && all[i] == e;
    assert Map(EntryListed, all)[i] == EntryListed(e);
  }

  lemma CollectedFiles(repo: Repository, a: BuildArgs)
    requires a.binary.Some? && a.wrapper.Some? && forall p :: p in PayloadPaths(a.lines) ==> repo(p).Some?
    ensures Entry(a.binaryName, a.binary.value, 0x1ED) in Collected(repo, a)
    ensures Entry(a.wrapperName, a.wrapper.value, 0x1ED) in Collected(repo, a)
    ensures forall p :: p in PayloadPaths(a.lines) ==> Entry(p, repo(p).value, 0x1A4) in Collected(repo, a)
  {
    hide PayloadPaths;
    var all, paths := Collected(repo, a), PayloadPaths(a.lines);
    assert all[0] in all && all[1] in all;
    forall p | p in paths ensures Entry(p, repo(p).value, 0x1A4) in all {
      var i :| 0 <= i < |paths| && paths[i] == p;
      assert all[i + 2] in all;
    }
  }

  // What the manifest fixes ----------------------------------------------

  /** Two archives that pass, even for different releases, with the same manifest bytes have the same members
      in name, content and mode, except for the mode of the manifest itself. */
  lemma SameManifestSameMembers(x: Codec, closed1: LinkCheck, a1: CheckArgs, m1: Members,
                                closed2: LinkCheck, a2: CheckArgs, m2: Members)
    requires MembersPass(x, closed1, a1, m1) && MembersPass(x, closed2, a2, m2)
    requires m1[ManifestName()].content == m2[ManifestName()].content
    requires forall p :: p in m1 ==> m1[p].mode < 0x1000
    requires forall p :: p in m2 ==> m2[p].mode < 0x1000
    ensures m1.Keys == m2.Keys
    ensures forall p :: p in m1 && p != ManifestName() ==> m1[p] == m2[p]
    ensures m1 == m2 <==> m1[ManifestName()].mode == m2[ManifestName()].mode
  {
    hide HeaderMatches, Canonical, ManifestName, PayloadValid, ExpectedPaths, Contents, OctalText;
    var rows := x.parse(m1[ManifestName()].content).value.files;
    forall p | p in m1 && p != ManifestName() ensures m1[p] == m2[p] {
      assert p in RowPaths(rows);
      var row :| row in rows && row.path == p;
      var i :| 0 <= i < |rows| && rows[i] == row;
      assert RowMatches(m1, rows[i]) && RowMatches(m2, rows[i]);
      OctalTextInjective(m1[p].mode, m2[p].mode);
    }
  }

  /** The checker never looks at the manifest's own mode. */
  lemma ManifestModeFree(x: Codec, closed: LinkCheck, a: CheckArgs, m: Members, mode: nat)
    requires MembersPass(x, closed, a, m) && ManifestName() !in ExpectedPaths(a)
    ensures MembersPass(x, closed, a, m[ManifestName() := Member(m[ManifestName()].content, mode)])
  {
    hide HeaderMatches, Canonical, ManifestName, PayloadValid, ExpectedPaths, OctalText;
    var n := m[ManifestName() := Member(m[ManifestName()].content, mode)];
    assert Contents(n) == Contents(m);
    assert n.Keys == m.Keys;
    var rows := x.parse(m[ManifestName()].content).value.files;
    forall i | 0 <= i < |rows| ensures RowMatches(n, rows[i]) {
      assert rows[i] in rows && rows[i].path in RowPaths(rows);
      assert RowMatches(m, rows[i]);
    }
  }

  /** Every mode read from an archive has twelve bits. */
  lemma ModesBounded(archive: Archive, m: Members)
    requires Holds(m, ListedOf(archive))
    ensures forall p :: p in m ==> m[p].mode < 0x1000
  {
  }

  /** The same for whole archives, of whichever formats. */
  lemma SameManifestSameArchive(x: Codec, closed1: LinkCheck, a1: CheckArgs, archive1: Archive, m1: Members,
                                closed2: LinkCheck, a2: CheckArgs, archive2: Archive, m2: Members)
    requires Passes(x, closed1, a1, archive1) && Holds(m1, ListedOf(archive1))
    requires Passes(x, closed2, a2, archive2) && Holds(m2, ListedOf(archive2))
    requires ManifestName() in m1 && ManifestName() in m2 && m1[ManifestName()].content == m2[ManifestName()].content
    ensures m1.Keys == m2.Keys && forall p :: p in m1 && p != ManifestName() ==> m1[p] == m2[p]
    ensures m1 == m2 <==> m1[ManifestName()].mode == m2[ManifestName()].mode
  {
    hide MembersPass, Holds, ListedOf, ManifestName, Readable;
    ModesBounded(archive1, m1);
    ModesBounded(archive2, m2);
    SameManifestSameMembers(x, closed1, a1, m1, closed2, a2, m2);
  }

  /** The build is deterministic: the order of the payload manifest does not show in the archive. */
  lemma PayloadOrderIrrelevant(x: Codec, semver: string -> bool, repo: Repository, a: BuildArgs, lines: seq<string>)
    requires Builds(semver, repo, a) && multiset(PayloadPaths(lines)) == multiset(PayloadPaths(a.lines))
    ensures Builds(semver, repo, a.(lines := lines))
    ensures Built(x, repo, a.(lines := lines)) == Built(x, repo, a)
  {
    hide Canonical, CommitText, ManifestName, PayloadPaths, Sort, Schema, Product, Coverage, Map, Written, Collected,
         WithManifest, EntryLe, EntriesDistinct;
    var b := a.(lines := lines);
    var p, q := PayloadPaths(a.lines), PayloadPaths(lines);
    SameElements(p, q);
    DistinctPermutes(p, q);
    MapPermutes(PayloadEntry(repo), p, q);
    CollectedPermutes(repo, a, b);
    CollectedSound(semver, repo, a);
    EntryOrder(Collected(repo, a));
    SortCanonical(EntryLe, Collected(repo, a), Collected(repo, b));
    SameManifest(x, a, b, Sort(EntryLe, Collected(repo, a)));
  }

  lemma CollectedPermutes(repo: Repository, a: BuildArgs, b: BuildArgs)
    requires b == a.(lines := b.lines)
    requires multiset(Map(PayloadEntry(repo), PayloadPaths(a.lines)))
             == multiset(Map(PayloadEntry(repo), PayloadPaths(b.lines)))
    ensures multiset(Collected(repo, a)) == multiset(Collected(repo, b))
  {
  }

  lemma SameManifest(x: Codec, a: BuildArgs, b: BuildArgs, entries: seq<Entry>)
    requires b == a.(lines := b.lines)
    ensures WithManifest(x, a, entries) == WithManifest(x, b, entries)
  {
  }

  lemma EntryOrder(entries: seq<Entry>)
    requires EntriesDistinct(entries)
    ensures TotalPreorder(EntryLe) && AntisymmetricOn(EntryLe, entries)
  {
    hide StringLe;
    forall a: Entry, b: Entry ensures EntryLe(a, b) || EntryLe(b, a) {
      StringLeTotal(a.path, b.path);
    }
    forall a, b, c | EntryLe(a, b) && EntryLe(b, c) ensures EntryLe(a, c) {
      StringLeTransitive(a.path, b.path, c.path);
    }
    forall a, b | a in entries && b in entries && EntryLe(a, b) && EntryLe(b, a) ensures a == b {
      StringLeTotal(a.path, b.path);
      var i :| 0 <= i < |entries| && entries[i] == a;
      var j :| 0 <= j < |entries| && entries[j] == b;
    }
  }
}
