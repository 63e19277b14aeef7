/** The backup archive: what is created, what is accepted, and what acceptance binds. */
module Backup {
  import opened Options
  import Versions

  const MAX_FILE := 2 * 1024 * 1024 * 1024
  const MAX_MEMBER := 8 * 1024 * 1024 * 1024
  const MAX_EXPANDED := 8 * 1024 * 1024 * 1024
  const MAX_MEMBERS := 256
  const MAX_RATIO := 200
  const CHUNK := 1024 * 1024
  const FORMAT_VERSION := 2

  type Bytes = seq<int>

  /** A member's path: one of the five control names, a file under logs/, or anything else. */
  datatype MemberName = DatabaseMember | ManifestMember | SettingsMember | LicenseMember | MetadataMember
                      | Log(file: string) | Other(path: string)

  /** The keys of an operation context. */
  datatype ContextKey = SourceVersion | SourceImageTag | TargetVersion | TargetImage | TargetDigest
                      | TargetSchemaRevision | RollbackPolicy | UpdateChannel | ManifestSequence
                      | OtherKey(name: string)

  datatype Value = Text(text: string) | Count(n: int)

  /** A member is plain bytes or a JSON manifest of some encoded size. */
  datatype Data = Blob(bytes: Bytes) | Control(manifest: Manifest, encoded: nat) {
    function Size(): nat { if Blob? then |bytes| else encoded }
  }

  type Context = map<ContextKey, Value>

  /** A context as it is given, with fields that may be null. */
  type PartialContext = map<ContextKey, Option<Value>>

  /** An ideal SHA-256 of a member, and of a whole archive. */
  datatype MemberDigest = MemberSha(data: Data)
  datatype ArchiveDigest = ArchiveSha(archive: Archive)

  datatype DigestText = Hex(digest: MemberDigest) | BadHex

  datatype FormatField = NoVersion | VersionNumber(n: int) | BadVersion

  datatype MembersField = NoMembers | Members(digests: map<MemberName, DigestText>) | NotAnObject

  datatype Manifest = Manifest(format: string, formatVersion: FormatField, origin: Option<string>,
                               context: Context, members: MembersField)

  datatype ZipEntry = ZipEntry(name: MemberName, declared: nat, compressed: nat, crcOk: bool, data: Data)

  datatype Archive = Archive(size: nat, isZip: bool, entries: seq<ZipEntry>)

  // ---------------------------------------------------------------- bounded reading

  /** A read returns some of what is left, and nothing only at the end. */
  method ReadSome(data: Bytes, position: nat, atMost: nat) returns (n: nat)
    requires position <= |data| && atMost >= 1
    ensures n <= atMost && position + n <= |data| && (n == 0 <==> position == |data|)
  {
    var left := |data| - position;
    n := if left < atMost then left else atMost;
    if * {
      if n > 1 { n := n - 1; }
    }
  }

  /** _read_zip_member_bounded: neither the declared nor the real size may exceed the limit, and whatever the
      member claims, no more than one byte beyond the limit is ever held. */
  method ReadMemberBounded(data: Bytes, declared: nat, limit: nat) returns (r: Option<Bytes>, ghost held: nat)
    ensures r == if declared > limit || |data| > limit then None else Some(data)
    ensures held <= limit + 1
  {
    held := 0;
    if declared > limit { return None, 0; }
    var got: Bytes := [];
    while true
      invariant |got| <= |data| && held == |got| <= limit && got == data[..|got|]
      decreases |data| - |got|
    {
      var n := ReadSome(data, |got|, if CHUNK < limit + 1 - |got| then CHUNK else limit + 1 - |got|);
      if n == 0 { break; }
      got := got + data[|got|..|got| + n];
      held := |got|;
      if |got| > limit { return None, held; }
    }
    assert got == data;
    r := Some(got);
  }

  /** _zip_member_sha256: the digest of everything read, or nothing once the limit is passed. */
  method DigestMember(data: Bytes, limit: nat) returns (r: Option<MemberDigest>)
    ensures r == if |data| > limit then None else Some(MemberSha(Blob(data)))
  {
    var hashed: Bytes := [];
    var total := 0;
    while true
      invariant total == |hashed| <= |data| && total <= limit && hashed == data[..total]
      decreases |data| - total
    {
      var n := ReadSome(data, total, CHUNK);
      if n == 0 { break; }
      var chunk := data[total..total + n];
      total := total + n;
      if total > limit { return None; }
      hashed := hashed + chunk;
    }
    assert hashed == data;
    r := Some(MemberSha(Blob(hashed)));
  }

  /** _copy_member_bounded: the staged file is the member, byte for byte. */
  method CopyMemberBounded(data: Bytes) returns (r: Option<Bytes>)
    ensures r == Staged(data)
  {
    var output: Bytes := [];
    var written := 0;
    while true
      invariant written == |output| <= |data| && written <= MAX_MEMBER && output == data[..written]
      decreases |data| - written
    {
      var n := ReadSome(data, written, CHUNK);
      if n == 0 { break; }
      var chunk := data[written..written + n];
      written := written + n;
      if written > MAX_MEMBER { return None; }
      output := output + chunk;
    }
    assert output == data;
    r := Some(output);
  }

  function Staged(data: Bytes): Option<Bytes> { if |data| > MAX_MEMBER then None else Some(data) }

  // ---------------------------------------------------------------- structure

  function SizeLimit(name: MemberName): nat {
    match name
    case ManifestMember => 256 * 1024
    case SettingsMember => 8 * 1024 * 1024
    case LicenseMember => 2 * 1024 * 1024
    case MetadataMember => 1024 * 1024
    case DatabaseMember => MAX_MEMBER
    case Log(_) | Other(_) => 64 * 1024 * 1024
  }

  predicate SafePath(name: MemberName) {
    match name
    case Log(file) => ".." !in Versions.Split(file, '/')
    case Other(path) => (path == "" || path[0] != '/') && ".." !in Versions.Split(path, '/')
    case _ => true
  }

  function Larger(a: nat, b: nat): nat { if a < b then b else a }

  predicate EntryFits(e: ZipEntry) {
    && SafePath(e.name) && e.declared <= SizeLimit(e.name)
    && (e.declared > 1024 * 1024 ==> e.declared <= Larger(1, e.compressed) * MAX_RATIO)
  }

  function TotalDeclared(entries: seq<ZipEntry>): nat {
    if entries == [] then 0 else TotalDeclared(entries[..|entries| - 1]) + entries[|entries| - 1].declared
  }

  ghost predicate DistinctNames(entries: seq<ZipEntry>) {
    forall i, j :: 0 <= i < j < |entries| ==> entries[i].name != entries[j].name
  }

  ghost predicate Structured(entries: seq<ZipEntry>) {
    && |entries| <= MAX_MEMBERS && DistinctNames(entries)
    && (forall i :: 0 <= i < |entries| ==> EntryFits(entries[i]))
    && TotalDeclared(entries) <= MAX_EXPANDED
  }

  lemma {:induction false} TotalGrows(entries: seq<ZipEntry>, i: nat)
    requires i <= |entries|
    ensures TotalDeclared(entries[..i]) <= TotalDeclared(entries)
  {
    if i < |entries| {
      TotalGrows(entries[..|entries| - 1], i);
      assert entries[..|entries| - 1][..i] == entries[..i];
    } else {
      assert entries[..i] == entries;
    }
  }

  /** _validate_zip_structure: the running total is refused exactly when the whole total is too large. */
  method ValidateZipStructure(entries: seq<ZipEntry>) returns (ok: bool)
    ensures ok <==> Structured(entries)
  {
    if |entries| > MAX_MEMBERS { return false; }
    var seen: set<MemberName> := {};
    for i := 0 to |entries|
      invariant forall x :: x in seen <==> exists k :: 0 <= k < i && entries[k].name == x
      invariant DistinctNames(entries[..i])
    {
      if entries[i].name in seen {
        var k :| 0 <= k < i && entries[k].name == entries[i].name;
        return false;
      }
      seen := seen + {entries[i].name};
    }
    assert entries[..|entries|] == entries;
    var total := 0;
    for i := 0 to |entries|
      invariant total == TotalDeclared(entries[..i]) <= MAX_EXPANDED
      invariant forall k :: 0 <= k < i ==> EntryFits(entries[k])
    {
      assert entries[..i + 1][..i] == entries[..i];
      TotalGrows(entries, i + 1);
      total := total + entries[i].declared;
      if !EntryFits(entries[i]) || total > MAX_EXPANDED { return false; }
    }
    ok := true;
  }

  // ---------------------------------------------------------------- validation

  function Names(entries: seq<ZipEntry>): set<MemberName> { set i | 0 <= i < |entries| :: entries[i].name }

  function Member(entries: seq<ZipEntry>, name: MemberName): (d: Option<Data>)
    ensures d.Some? <==> name in Names(entries)
    ensures d.Some? ==> exists i :: 0 <= i < |entries| && entries[i].name == name && entries[i].data == d.value
  {
    if entries == [] then None
    else if entries[0].name == name then Some(entries[0].data)
    else
      assert Names(entries) == {entries[0].name} + Names(entries[1..]) by {
        assert entries == [entries[0]] + entries[1..];
      }
      Member(entries[1..], name)
  }

  const NO_MANIFEST := Manifest("", NoVersion, None, map[], NoMembers)

  function VersionOf(m: Manifest): Option<int> {
    match m.formatVersion
    case NoVersion => Some(1)
    case BadVersion => None
    case VersionNumber(n) => if 1 <= n <= FORMAT_VERSION then Some(n) else None
  }

  predicate ManifestOk(m: Manifest) {
    && (m.format == "" || m.format == "ditaknet-backup")
    && VersionOf(m).Some?
    && (VersionOf(m).value >= 2 ==> m.format == "ditaknet-backup")
  }

  /** The manifest of an archive: the readable control member, or none at all in an old archive. */
  function ManifestIn(entries: seq<ZipEntry>): Option<Manifest> {
    var d := Member(entries, ManifestMember);
    if d.None? then Some(NO_MANIFEST)
    else if d.value.Control? && d.value.encoded <= SizeLimit(ManifestMember) && ManifestOk(d.value.manifest)
    then Some(d.value.manifest)
    else None
  }

  function DigestsOf(m: Manifest): map<MemberName, DigestText> {
    if m.members.Members? then m.members.digests else map[]
  }

  predicate DigestMatches(entries: seq<ZipEntry>, name: MemberName, expected: DigestText) {
    var d := Member(entries, name);
    d.Some? && d.value.Size() <= SizeLimit(name) && expected == Hex(MemberSha(d.value))
  }

  ghost predicate ChecksumsOk(entries: seq<ZipEntry>, m: Manifest) {
    && m.members != NotAnObject
    && (VersionOf(m) == Some(2) ==> DigestsOf(m).Keys == Names(entries) - {ManifestMember})
    && forall name :: name in DigestsOf(m) ==> DigestMatches(entries, name, DigestsOf(m)[name])
  }

  datatype Validation = Validation(formatVersion: int, origin: Option<string>, context: Context, sha256: ArchiveDigest)

  /** "sqlite" stands for SQLite's own integrity check, foreign-key check and the required tables. */
  ghost predicate Accepted(a: Archive, sqlite: Bytes -> bool) {
    && a.size <= MAX_FILE && a.isZip && Structured(a.entries)
    && DatabaseMember in Names(a.entries)
    && (forall i :: 0 <= i < |a.entries| ==> a.entries[i].crcOk)
    && ManifestIn(a.entries).Some?
    && ChecksumsOk(a.entries, ManifestIn(a.entries).value)
    && var database := Member(a.entries, DatabaseMember).value;
       database.Blob? && sqlite(database.bytes)
  }

  function Summary(a: Archive): Validation
    requires ManifestIn(a.entries).Some? && VersionOf(ManifestIn(a.entries).value).Some?
  {
    var m := ManifestIn(a.entries).value;
    Validation(VersionOf(m).value, m.origin, m.context, ArchiveSha(a))
  }

  lemma ManifestInHasVersion(entries: seq<ZipEntry>)
    ensures ManifestIn(entries).Some? ==> VersionOf(ManifestIn(entries).value).Some?
  {
  }

  /** validate_backup_file for a ZIP archive. */
  method ValidateBackup(a: Archive, sqlite: Bytes -> bool) returns (v: Option<Validation>)
    ensures v.Some? <==> Accepted(a, sqlite)
    ensures v.Some? ==>
              && ManifestIn(a.entries).Some? && VersionOf(ManifestIn(a.entries).value).Some?
              && v.value == Summary(a)
  {
    hide Structured, Names, SizeLimit, Member, ManifestOk, DigestMatches, ManifestIn;
    v := None;
    if a.size > MAX_FILE || !a.isZip { return; }
    var structured := ValidateZipStructure(a.entries);
    if !structured || DatabaseMember !in Names(a.entries) { return; }
    for i := 0 to |a.entries|
      invariant forall k :: 0 <= k < i ==> a.entries[k].crcOk
    {
      if !a.entries[i].crcOk { return; }
    }
    var manifest := ManifestIn(a.entries);
    ManifestInHasVersion(a.entries);
    if manifest.None? || manifest.value.members == NotAnObject { return; }
    var digests := DigestsOf(manifest.value);
    if VersionOf(manifest.value) == Some(2) && digests.Keys != Names(a.entries) - {ManifestMember} { return; }
    var names := digests.Keys;
    while names != {}
      invariant names <= digests.Keys
      invariant forall name :: name in digests && name !in names ==> DigestMatches(a.entries, name, digests[name])
      decreases names
    {
      var name :| name in names;
      if !DigestMatches(a.entries, name, digests[name]) { return; }
      names := names - {name};
    }
    var database := Member(a.entries, DatabaseMember).value;
    if !database.Blob? || !sqlite(database.bytes) { return; }
    v := Some(Summary(a));
  }

  // ---------------------------------------------------------------- acceptance in the archive's own terms

  lemma {:induction false} MemberAt(entries: seq<ZipEntry>, i: nat)
    requires DistinctNames(entries) && i < |entries|
    ensures Member(entries, entries[i].name) == Some(entries[i].data)
  {
    if i > 0 {
      assert entries[0].name != entries[i].name;
      MemberAt(entries[1..], i - 1);
    }
  }

  /** "p" is a whole piece of "s" between separators. */
  predicate IsPiece(a: string, p: string, b: string, s: string, sep: char) {
    && s == a + p + b && sep !in p
    && (a == "" || a[|a| - 1] == sep) && (b == "" || b[0] == sep)
  }

  lemma {:induction false} PieceAt(s: string, sep: char, k: nat) returns (a: string, b: string)
    requires k < |Versions.Split(s, sep)|
    ensures IsPiece(a, Versions.Split(s, sep)[k], b, s, sep) && (a == "" <==> k == 0)
  {
    if s == "" {
      a, b := "", "";
    } else if s[0] == sep {
      if k == 0 {
        a, b := "", s;
      } else {
        a, b := PieceAt(s[1..], sep, k - 1);
        a := [sep] + a;
      }
    } else {
      a, b := PieceAt(s[1..], sep, k);
      if k > 0 { a := [s[0]] + a; }
    }
  }

  lemma {:induction false} PieceIn(a: string, p: string, b: string, s: string, sep: char)
    requires IsPiece(a, p, b, s, sep)
    ensures p in Versions.Split(s, sep)
  {
    if a == "" {
      if b == "" {
        assert s == p;
        Versions.SplitOne(p, sep);
      } else {
        assert s == p + [sep] + b[1..];
        Versions.SplitFirst(p, b[1..], sep);
      }
    } else {
      var rest := s[1..];
      assert rest == a[1..] + p + b;
      PieceIn(a[1..], p, b, rest, sep);
      if s[0] != sep { LaterPiece(a[1..], p, b, rest, sep); }
    }
  }

  /** A piece that does not start the text is not only the first one. */
  lemma {:induction false} LaterPiece(a: string, p: string, b: string, s: string, sep: char)
    requires IsPiece(a, p, b, s, sep) && a != ""
    ensures p in Versions.Split(s, sep)[1..]
  {
    var rest := s[1..];
    assert rest == a[1..] + p + b;
    if s[0] == sep {
      PieceIn(a[1..], p, b, rest, sep);
    } else {
      LaterPiece(a[1..], p, b, rest, sep);
    }
  }

  /** The path leads up: ".." stands in it alone, between slashes or at an end. */
  ghost predicate Climbs(path: string) { exists a, b :: IsPiece(a, "..", b, path, '/') }

  lemma ClimbsMeaning(path: string)
    ensures ".." in Versions.Split(path, '/') <==> Climbs(path)
  {
    var parts := Versions.Split(path, '/');
    if k :| 0 <= k < |parts| && parts[k] == ".." { var a, b := PieceAt(path, '/', k); }
    if a, b :| IsPiece(a, "..", b, path, '/') { PieceIn(a, "..", b, path, '/'); }
  }

  /** One member by its numbers: a relative path that does not climb, a declared size within the limit for its
      name, and above one MiB at most 200 times its compressed size. */
  ghost predicate PlainEntry(e: ZipEntry) {
    && (e.name.Log? ==> !Climbs(e.name.file))
    && (e.name.Other? ==> !Climbs(e.name.path) && (e.name.path == "" || e.name.path[0] != '/'))
    && WithinSize(e.name, e.declared)
    && (e.declared > 1_048_576 ==> e.declared <= 200 * e.compressed)
  }

  predicate WithinSize(name: MemberName, size: nat) {
    && (name == ManifestMember ==> size <= 262_144)
    && (name == MetadataMember ==> size <= 1_048_576)
    && (name == LicenseMember ==> size <= 2_097_152)
    && (name == SettingsMember ==> size <= 8_388_608)
    && (name.Log? || name.Other? ==> size <= 67_108_864)
    && (name == DatabaseMember ==> size <= 8_589_934_592)
  }

  lemma EntryMeaning(e: ZipEntry)
    ensures EntryFits(e) <==> PlainEntry(e)
    ensures forall size: nat :: size <= SizeLimit(e.name) <==> WithinSize(e.name, size)
  {
    if e.name.Log? { ClimbsMeaning(e.name.file); }
    if e.name.Other? { ClimbsMeaning(e.name.path); }
    hide Climbs;
  }

  /** A manifest of this program's format, in version 1 or 2; before version 2 the format may be missing. */
  predicate KnownFormat(m: Manifest) {
    || (m.format == "ditaknet-backup" && m.formatVersion in {NoVersion, VersionNumber(1), VersionNumber(2)})
    || (m.format == "" && m.formatVersion in {NoVersion, VersionNumber(1)})
  }

  /** The archive's manifest: of its "backup.json", if it has one. */
  ghost predicate HasManifest(entries: seq<ZipEntry>, m: Manifest) {
    if exists i :: 0 <= i < |entries| && entries[i].name == ManifestMember then
      exists i :: 0 <= i < |entries| && entries[i].name == ManifestMember && HoldsManifest(entries[i].data, m)
    else m == Manifest("", NoVersion, None, map[], NoMembers)
  }

  predicate HoldsManifest(d: Data, m: Manifest) {
    d.Control? && d.manifest == m && d.encoded <= 262_144 && KnownFormat(m)
  }

  /** Every listed member is there, within its limit and with the listed digest; version 2 lists every one but
      the manifest. */
  ghost predicate ChecksumsHold(entries: seq<ZipEntry>, m: Manifest) {
    && m.members != NotAnObject
    && (m.members.Members? ==>
          forall name :: name in m.members.digests ==> ListedRight(entries, name, m.members.digests[name]))
    && (m.formatVersion == VersionNumber(2) ==>
          forall i :: 0 <= i < |entries| && entries[i].name != ManifestMember ==>
            m.members.Members? && entries[i].name in m.members.digests)
    && (m.formatVersion == VersionNumber(2) && m.members.Members? ==> ManifestMember !in m.members.digests)
  }

  ghost predicate ListedRight(entries: seq<ZipEntry>, name: MemberName, expected: DigestText) {
    exists i :: 0 <= i < |entries| && entries[i].name == name &&
      WithinSize(name, entries[i].data.Size()) && expected == Hex(MemberSha(entries[i].data))
  }

  lemma MemberIs(entries: seq<ZipEntry>, name: MemberName)
    requires DistinctNames(entries)
    ensures Member(entries, name).None? <==> forall i :: 0 <= i < |entries| ==> entries[i].name != name
    ensures forall i :: 0 <= i < |entries| && entries[i].name == name ==> Member(entries, name) == Some(entries[i].data)
  {
    forall i | 0 <= i < |entries| && entries[i].name == name
      ensures Member(entries, name) == Some(entries[i].data)
    {
      MemberAt(entries, i);
    }
  }

  lemma ManifestMeaning(entries: seq<ZipEntry>, m: Manifest)
    requires DistinctNames(entries)
    ensures ManifestIn(entries) == Some(m) <==> HasManifest(entries, m)
  {
    MemberIs(entries, ManifestMember);
    KnownFormatMeaning(m);
    hide Member, ManifestOk, KnownFormat, Names, DistinctNames;
    if i :| 0 <= i < |entries| && entries[i].name == ManifestMember {
      assert HoldsManifest(entries[i].data, m) <==> ManifestIn(entries) == Some(m);
    }
  }

  lemma KnownFormatMeaning(m: Manifest)
    ensures ManifestOk(m) <==> KnownFormat(m)
    ensures VersionOf(m) == Some(2) <==> m.formatVersion == VersionNumber(2)
    ensures VersionOf(m) == Some(1) <==> m.formatVersion in {NoVersion, VersionNumber(1)}
  {
  }

  lemma ListedMeaning(entries: seq<ZipEntry>, name: MemberName, expected: DigestText)
    requires DistinctNames(entries)
    ensures DigestMatches(entries, name, expected) <==> ListedRight(entries, name, expected)
  {
    MemberIs(entries, name);
    EntryMeaning(ZipEntry(name, 0, 0, true, Blob([])));
    hide Member, SizeLimit, WithinSize, Names, DistinctNames;
    if i :| 0 <= i < |entries| && entries[i].name == name {
      assert Member(entries, name) == Some(entries[i].data);
    }
  }

  lemma ChecksumsMeaning(entries: seq<ZipEntry>, m: Manifest)
    requires DistinctNames(entries) && KnownFormat(m)
    ensures ChecksumsOk(entries, m) <==> ChecksumsHold(entries, m)
  {
    KnownFormatMeaning(m);
    forall name, expected ensures DigestMatches(entries, name, expected) <==> ListedRight(entries, name, expected) {
      ListedMeaning(entries, name, expected);
    }
    hide DigestMatches, ListedRight, KnownFormat, VersionOf, DistinctNames, Names;
    if forall name :: name in DigestsOf(m) ==> ListedRight(entries, name, DigestsOf(m)[name]) {
      forall name | name in DigestsOf(m) ensures name in Names(entries) {
        ListedIsThere(entries, name, DigestsOf(m)[name]);
      }
      TableNamesAll(entries, DigestsOf(m));
    }
  }

  lemma TableNamesAll(entries: seq<ZipEntry>, digests: map<MemberName, DigestText>)
    requires digests.Keys <= Names(entries)
    ensures digests.Keys == Names(entries) - {ManifestMember} <==>
              && ManifestMember !in digests
              && forall i :: 0 <= i < |entries| && entries[i].name != ManifestMember ==> entries[i].name in digests
  {
    NamesMeaning(entries);
    hide Names;
  }

  lemma ListedIsThere(entries: seq<ZipEntry>, name: MemberName, expected: DigestText)
    requires ListedRight(entries, name, expected)
    ensures name in Names(entries)
  {
  }

  /** Which archives are accepted, in numbers and members: at most 2 GiB, a ZIP of at most 256 distinct, plain
      and undamaged members that declare at most 8 GiB, with a known manifest or none, checksums that hold, and
      a database that SQLite accepts. */
  lemma AcceptedMeaning(a: Archive, sqlite: Bytes -> bool)
    ensures Accepted(a, sqlite) <==>
              && a.size <= 2_147_483_648 && a.isZip && |a.entries| <= 256 && DistinctNames(a.entries)
              && (forall i :: 0 <= i < |a.entries| ==> PlainEntry(a.entries[i]) && a.entries[i].crcOk)
              && TotalDeclared(a.entries) <= 8_589_934_592
              && (exists m :: HasManifest(a.entries, m) && KnownFormat(m) && ChecksumsHold(a.entries, m))
              && exists i :: 0 <= i < |a.entries| && IsDatabase(a.entries[i], sqlite)
  {
    forall e: ZipEntry ensures EntryFits(e) <==> PlainEntry(e) { EntryMeaning(e); }
    if DistinctNames(a.entries) {
      MemberIs(a.entries, DatabaseMember);
      ManifestPart(a.entries);
      hide ManifestIn, HasManifest, ChecksumsOk, ChecksumsHold, KnownFormat, Member, EntryFits, PlainEntry;
      NamesMeaning(a.entries);
    }
  }

  predicate IsDatabase(e: ZipEntry, sqlite: Bytes -> bool) {
    e.name == DatabaseMember && e.data.Blob? && sqlite(e.data.bytes)
  }

  lemma NamesMeaning(entries: seq<ZipEntry>)
    ensures forall name :: name in Names(entries) <==> exists i :: 0 <= i < |entries| && entries[i].name == name
  {
  }

  lemma ManifestPart(entries: seq<ZipEntry>)
    requires DistinctNames(entries)
    ensures ManifestIn(entries).Some? && ChecksumsOk(entries, ManifestIn(entries).value) <==>
              exists m :: HasManifest(entries, m) && KnownFormat(m) && ChecksumsHold(entries, m)
  {
    forall m
      ensures ManifestIn(entries) == Some(m) <==> HasManifest(entries, m)
      ensures HasManifest(entries, m) ==> KnownFormat(m) && (ChecksumsOk(entries, m) <==> ChecksumsHold(entries, m))
    {
      ManifestMeaning(entries, m);
      if HasManifest(entries, m) {
        FoundIsKnown(entries, m);
        ChecksumsMeaning(entries, m);
      }
    }
    hide ManifestIn, HasManifest, ChecksumsOk, ChecksumsHold, KnownFormat;
  }

  lemma FoundIsKnown(entries: seq<ZipEntry>, m: Manifest)
    requires HasManifest(entries, m)
    ensures KnownFormat(m)
  {
  }

  // ---------------------------------------------------------------- what acceptance binds

  /** Two accepted v2 archives with the same checksum table hold the same data members. */
  lemma ChecksumsBindMembers(a: Archive, b: Archive, sqlite: Bytes -> bool)
    requires Accepted(a, sqlite) && Accepted(b, sqlite)
    requires VersionOf(ManifestIn(a.entries).value) == Some(2) && VersionOf(ManifestIn(b.entries).value) == Some(2)
    requires DigestsOf(ManifestIn(a.entries).value) == DigestsOf(ManifestIn(b.entries).value)
    ensures Names(a.entries) - {ManifestMember} == Names(b.entries) - {ManifestMember}
    ensures forall name :: name in Names(a.entries) && name != ManifestMember ==>
              Member(a.entries, name) == Member(b.entries, name)
  {
    var digests := DigestsOf(ManifestIn(a.entries).value);
    forall name | name in Names(a.entries) && name != ManifestMember
      ensures Member(a.entries, name) == Member(b.entries, name)
    {
      assert name in digests;
      assert DigestMatches(a.entries, name, digests[name]) && DigestMatches(b.entries, name, digests[name]);
    }
  }

  /** Staging an accepted archive yields the database SQLite accepted, or refuses it as oversized; it never
      does when the archive records the database's digest, as every v2 archive must. */
  lemma AcceptedCanBeStaged(a: Archive, sqlite: Bytes -> bool)
    requires Accepted(a, sqlite)
    ensures var bytes := Member(a.entries, DatabaseMember).value.bytes;
            var m := ManifestIn(a.entries).value;
            && sqlite(bytes)
            && Staged(bytes) == (if |bytes| <= MAX_MEMBER then Some(bytes) else None)
            && (VersionOf(m) == Some(2) || DatabaseMember in DigestsOf(m) ==> Staged(bytes) == Some(bytes))
  {
    var digests := DigestsOf(ManifestIn(a.entries).value);
    if VersionOf(ManifestIn(a.entries).value) == Some(2) || DatabaseMember in digests {
      assert DatabaseMember in digests;
      assert DigestMatches(a.entries, DatabaseMember, digests[DatabaseMember]);
    }
  }

  // ---------------------------------------------------------------- creation

  /** A log file may grow between being hashed and being written. */
  datatype LogFile = LogFile(name: string, hashed: Bytes, written: Bytes)

  /** The ZIP writer's sizes: of a compressed member, of an encoded manifest, of a whole archive. */
  datatype Packer = Packer(compressed: Data -> nat, encoded: Manifest -> nat, total: seq<ZipEntry> -> nat)

  datatype Inputs = Inputs(snapshot: Bytes, settings: Bytes, license: Bytes, metadata: Bytes, logs: seq<LogFile>,
                           origin: string, context: PartialContext)

  const CONTEXT_KEYS := {SourceVersion, SourceImageTag, TargetVersion, TargetImage, TargetDigest,
                         TargetSchemaRevision, RollbackPolicy, UpdateChannel, ManifestSequence}

  function KeptContext(context: PartialContext): Context {
    map key | key in context && key in CONTEXT_KEYS && context[key].Some? :: context[key].value
  }

  /** Of a context every field that is given is kept, except under names that are none of the nine. */
  lemma KeptContextMeaning(context: PartialContext, key: ContextKey)
    ensures key in KeptContext(context) <==> key in context && !key.OtherKey? && context[key].Some?
    ensures key in KeptContext(context) ==> Some(KeptContext(context)[key]) == context[key]
  {
  }

  function LogDigests(logs: seq<LogFile>): map<MemberName, DigestText> {
    if logs == [] then map[]
    else LogDigests(logs[..|logs| - 1])[Log(logs[|logs| - 1].name) := Hex(MemberSha(Blob(logs[|logs| - 1].hashed)))]
  }

  function BaseDigests(x: Inputs): map<MemberName, DigestText> {
    map[DatabaseMember := Hex(MemberSha(Blob(x.snapshot))), SettingsMember := Hex(MemberSha(Blob(x.settings))),
        LicenseMember := Hex(MemberSha(Blob(x.license))), MetadataMember := Hex(MemberSha(Blob(x.metadata)))]
  }

  function BuildManifest(x: Inputs): Manifest {
    Manifest("ditaknet-backup", VersionNumber(FORMAT_VERSION), Some(x.origin), KeptContext(x.context),
             Members(BaseDigests(x) + LogDigests(x.logs)))
  }

  function Pack(name: MemberName, data: Data, p: Packer): ZipEntry {
    ZipEntry(name, data.Size(), p.compressed(data), true, data)
  }

  function PackLogs(logs: seq<LogFile>, p: Packer): (entries: seq<ZipEntry>)
    ensures |entries| == |logs|
    ensures forall i :: 0 <= i < |logs| ==> entries[i] == Pack(Log(logs[i].name), Blob(logs[i].written), p)
  {
    if logs == [] then []
    else PackLogs(logs[..|logs| - 1], p) + [Pack(Log(logs[|logs| - 1].name), Blob(logs[|logs| - 1].written), p)]
  }

  function BaseEntries(x: Inputs, p: Packer): seq<ZipEntry> {
    var manifest := BuildManifest(x);
    [Pack(DatabaseMember, Blob(x.snapshot), p),
     Pack(ManifestMember, Control(manifest, p.encoded(manifest)), p),
     Pack(SettingsMember, Blob(x.settings), p),
     Pack(LicenseMember, Blob(x.license), p),
     Pack(MetadataMember, Blob(x.metadata), p)]
  }

  function Built(x: Inputs, p: Packer): Archive {
    var entries := BaseEntries(x, p) + PackLogs(x.logs, p);
    Archive(p.total(entries), true, entries)
  }

  /** The directory the logs come from cannot hold two files of one name. */
  ghost predicate DistinctLogs(logs: seq<LogFile>) {
    forall i, j :: 0 <= i < j < |logs| ==> logs[i].name != logs[j].name
  }

  lemma {:induction false} LogDigestNames(logs: seq<LogFile>, name: MemberName)
    ensures name in LogDigests(logs) <==> exists i :: 0 <= i < |logs| && name == Log(logs[i].name)
  {
    if logs != [] {
      var init := logs[..|logs| - 1];
      LogDigestNames(init, name);
      assert forall i :: 0 <= i < |init| ==> init[i] == logs[i];
    }
  }

  lemma {:induction false} LogDigestAt(logs: seq<LogFile>, i: nat)
    requires DistinctLogs(logs) && i < |logs|
    ensures Log(logs[i].name) in LogDigests(logs)
    ensures LogDigests(logs)[Log(logs[i].name)] == Hex(MemberSha(Blob(logs[i].hashed)))
  {
    if i < |logs| - 1 {
      LogDigestAt(logs[..|logs| - 1], i);
      assert logs[i].name != logs[|logs| - 1].name;
    }
  }

  // ---------------------------------------------------------------- what is created validates

  lemma BuiltShape(x: Inputs, p: Packer)
    ensures var entries, m := Built(x, p).entries, BuildManifest(x);
            && |entries| == 5 + |x.logs|
            && entries[0] == Pack(DatabaseMember, Blob(x.snapshot), p)
            && entries[1] == Pack(ManifestMember, Control(m, p.encoded(m)), p)
            && entries[2] == Pack(SettingsMember, Blob(x.settings), p)
            && entries[3] == Pack(LicenseMember, Blob(x.license), p)
            && entries[4] == Pack(MetadataMember, Blob(x.metadata), p)
            && forall i :: 0 <= i < |x.logs| ==> entries[5 + i] == Pack(Log(x.logs[i].name), Blob(x.logs[i].written), p)
  {
    var packed := PackLogs(x.logs, p);
    assert forall i :: 0 <= i < |x.logs| ==> Built(x, p).entries[5 + i] == packed[i];
  }

  /** The i-th archived name: the five control members, then the logs. */
  function NameAt(x: Inputs, i: nat): MemberName
    requires i < 5 + |x.logs|
  {
    match i
    case 0 => DatabaseMember
    case 1 => ManifestMember
    case 2 => SettingsMember
    case 3 => LicenseMember
    case 4 => MetadataMember
    case _ => Log(x.logs[i - 5].name)
  }

  lemma BuiltNamesDistinct(x: Inputs, p: Packer)
    requires DistinctLogs(x.logs)
    ensures DistinctNames(Built(x, p).entries)
    ensures |Built(x, p).entries| == 5 + |x.logs|
    ensures forall i :: 0 <= i < 5 + |x.logs| ==> Built(x, p).entries[i].name == NameAt(x, i)
  {
    BuiltShape(x, p);
    hide Built;
    forall i | 0 <= i < 5 + |x.logs| ensures Built(x, p).entries[i].name == NameAt(x, i) {
      if i >= 5 { assert Built(x, p).entries[5 + (i - 5)].name == Log(x.logs[i - 5].name); }
    }
  }

  function DigestTable(x: Inputs): map<MemberName, DigestText> { BaseDigests(x) + LogDigests(x.logs) }

  /** What is hashed for the i-th member, and what is packed. */
  function HashedAt(x: Inputs, i: nat): Bytes
    requires i < 5 + |x.logs| && i != 1
  {
    if i >= 5 then x.logs[i - 5].hashed else ControlAt(x, i)
  }

  function WrittenAt(x: Inputs, i: nat): Bytes
    requires i < 5 + |x.logs| && i != 1
  {
    if i >= 5 then x.logs[i - 5].written else ControlAt(x, i)
  }

  function ControlAt(x: Inputs, i: nat): Bytes
    requires i < 5 && i != 1
  {
    match i case 0 => x.snapshot case 2 => x.settings case 3 => x.license case _ => x.metadata
  }

  lemma EntryAt(x: Inputs, p: Packer, i: nat)
    requires i < 5 + |x.logs| && i != 1
    ensures |Built(x, p).entries| == 5 + |x.logs|
    ensures Built(x, p).entries[i] == Pack(NameAt(x, i), Blob(WrittenAt(x, i)), p)
  {
    BuiltShape(x, p);
    hide Built;
    if i >= 5 { assert Built(x, p).entries[5 + (i - 5)] == Built(x, p).entries[i]; }
  }

  /** The digest recorded for the i-th member, other than the manifest itself. */
  lemma TableAt(x: Inputs, i: nat)
    requires DistinctLogs(x.logs) && i < 5 + |x.logs| && i != 1
    ensures NameAt(x, i) in DigestTable(x)
    ensures DigestTable(x)[NameAt(x, i)] == Hex(MemberSha(Blob(HashedAt(x, i))))
  {
    LogDigestNames(x.logs, NameAt(x, i));
    if i >= 5 { LogDigestAt(x.logs, i - 5); }
    hide LogDigests;
  }

  lemma TableNames(x: Inputs, name: MemberName)
    requires DistinctLogs(x.logs)
    ensures name in DigestTable(x) <==> exists i :: 0 <= i < 5 + |x.logs| && i != 1 && name == NameAt(x, i)
  {
    if name in DigestTable(x) { TableNameAt(x, name); }
    hide DigestTable;
    if i :| 0 <= i < 5 + |x.logs| && i != 1 && name == NameAt(x, i) { TableAt(x, i); }
  }

  lemma TableNameAt(x: Inputs, name: MemberName)
    requires name in DigestTable(x)
    ensures exists i :: 0 <= i < 5 + |x.logs| && i != 1 && name == NameAt(x, i)
  {
    if name in LogDigests(x.logs) {
      LogDigestNames(x.logs, name);
      hide LogDigests, DigestTable;
      var i :| 0 <= i < |x.logs| && name == Log(x.logs[i].name);
      assert name == NameAt(x, i + 5);
    } else {
      assert name == NameAt(x, 0) || name == NameAt(x, 2) || name == NameAt(x, 3) || name == NameAt(x, 4);
    }
  }

  lemma BuiltNames(x: Inputs, p: Packer)
    requires DistinctLogs(x.logs)
    ensures Names(Built(x, p).entries) - {ManifestMember} == DigestTable(x).Keys
  {
    var entries := Built(x, p).entries;
    BuiltNamesDistinct(x, p);
    hide Built, DigestTable;
    forall name ensures name in Names(entries) - {ManifestMember} <==> name in DigestTable(x) {
      TableNames(x, name);
      if name in Names(entries) && name != ManifestMember {
        var i :| 0 <= i < |entries| && entries[i].name == name;
        assert name == NameAt(x, i) && i != 1;
      }
      if i :| 0 <= i < 5 + |x.logs| && i != 1 && name == NameAt(x, i) {
        assert entries[i].name == name;
      }
    }
  }

  /** The logs did not change between being hashed and being written. */
  ghost predicate LogsStable(logs: seq<LogFile>) {
    forall i :: 0 <= i < |logs| ==> logs[i].written == logs[i].hashed
  }

  /** The limits the validator puts on any archive. */
  ghost predicate WithinLimits(a: Archive) {
    && a.size <= MAX_FILE && |a.entries| <= MAX_MEMBERS
    && (forall i :: 0 <= i < |a.entries| ==> EntryFits(a.entries[i]))
    && TotalDeclared(a.entries) <= MAX_EXPANDED
  }

  lemma DigestAt(x: Inputs, p: Packer, i: nat)
    requires DistinctLogs(x.logs) && WithinLimits(Built(x, p)) && i < 5 + |x.logs| && i != 1
    ensures NameAt(x, i) in DigestTable(x)
    ensures DigestMatches(Built(x, p).entries, NameAt(x, i), DigestTable(x)[NameAt(x, i)]) <==>
              (i >= 5 ==> x.logs[i - 5].written == x.logs[i - 5].hashed)
  {
    BuiltNamesDistinct(x, p);
    TableAt(x, i);
    EntryAt(x, p, i);
    hide Built, DigestTable, SizeLimit, SafePath, NameAt, HashedAt, WrittenAt;
    MemberAt(Built(x, p).entries, i);
    assert EntryFits(Built(x, p).entries[i]);
    SameContents(x, i);
  }

  lemma SameContents(x: Inputs, i: nat)
    requires i < 5 + |x.logs| && i != 1
    ensures WrittenAt(x, i) == HashedAt(x, i) <==> (i >= 5 ==> x.logs[i - 5].written == x.logs[i - 5].hashed)
  {
  }

  lemma BuiltDigests(x: Inputs, p: Packer)
    requires DistinctLogs(x.logs) && WithinLimits(Built(x, p))
    ensures (forall name :: name in DigestTable(x) ==>
               DigestMatches(Built(x, p).entries, name, DigestTable(x)[name])) <==>
              LogsStable(x.logs)
  {
    hide Built, DigestTable, DigestMatches, WithinLimits;
    forall i | 0 <= i < |x.logs| && x.logs[i].written != x.logs[i].hashed
      ensures exists name :: name in DigestTable(x) && !DigestMatches(Built(x, p).entries, name, DigestTable(x)[name])
    {
      DigestAt(x, p, i + 5);
    }
    forall name | name in DigestTable(x) && LogsStable(x.logs)
      ensures DigestMatches(Built(x, p).entries, name, DigestTable(x)[name])
    {
      TableNames(x, name);
      var i :| 0 <= i < 5 + |x.logs| && i != 1 && name == NameAt(x, i);
      DigestAt(x, p, i);
    }
  }

  lemma BuiltManifest(x: Inputs, p: Packer)
    requires DistinctLogs(x.logs)
    ensures Member(Built(x, p).entries, DatabaseMember) == Some(Blob(x.snapshot))
    ensures ManifestIn(Built(x, p).entries) ==
              if p.encoded(BuildManifest(x)) <= SizeLimit(ManifestMember) then Some(BuildManifest(x)) else None
    ensures Built(x, p).isZip && forall i :: 0 <= i < 5 + |x.logs| ==> Built(x, p).entries[i].crcOk
  {
    BuiltNamesDistinct(x, p);
    BuiltShape(x, p);
    MemberAt(Built(x, p).entries, 0);
    MemberAt(Built(x, p).entries, 1);
    forall i | 0 <= i < 5 + |x.logs| ensures Built(x, p).entries[i].crcOk {
      if i >= 5 { assert Built(x, p).entries[5 + (i - 5)].crcOk; }
    }
  }

  /** A new archive is accepted exactly when it stays within the validator's limits, SQLite accepts the
      snapshot, and no log file changed while it was being packed. */
  lemma CreatedIsAccepted(x: Inputs, p: Packer, sqlite: Bytes -> bool)
    requires DistinctLogs(x.logs)
    ensures Accepted(Built(x, p), sqlite) <==> WithinLimits(Built(x, p)) && sqlite(x.snapshot) && LogsStable(x.logs)
  {
    hide Built, BuildManifest, DigestTable, DigestMatches, EntryFits, ManifestIn, Member, LogsStable, SizeLimit, Names;
    BuiltNamesDistinct(x, p);
    BuiltNames(x, p);
    BuiltManifest(x, p);
    ManifestTable(x);
    if WithinLimits(Built(x, p)) {
      BuiltDigests(x, p);
      ManifestFits(x, p);
    }
    NamesHold(Built(x, p).entries, 0);
  }

  lemma ManifestTable(x: Inputs)
    ensures DigestsOf(BuildManifest(x)) == DigestTable(x) && VersionOf(BuildManifest(x)) == Some(2)
    ensures BuildManifest(x).members.Members?
  {
  }

  lemma ManifestFits(x: Inputs, p: Packer)
    requires WithinLimits(Built(x, p))
    ensures p.encoded(BuildManifest(x)) <= SizeLimit(ManifestMember)
  {
    BuiltShape(x, p);
    assert EntryFits(Built(x, p).entries[1]);
  }

  lemma NamesHold(entries: seq<ZipEntry>, i: nat)
    requires i < |entries|
    ensures entries[i].name in Names(entries)
  {
  }

  /** Round trip: restoring an archive that was created and accepted stages the snapshot itself. */
  lemma RoundTrip(x: Inputs, p: Packer, sqlite: Bytes -> bool)
    requires DistinctLogs(x.logs) && Accepted(Built(x, p), sqlite)
    ensures Member(Built(x, p).entries, DatabaseMember) == Some(Blob(x.snapshot))
    ensures Staged(x.snapshot) == Some(x.snapshot)
    ensures Summary(Built(x, p))
         == Validation(FORMAT_VERSION, Some(x.origin), KeptContext(x.context), ArchiveSha(Built(x, p)))
  {
    BuiltManifest(x, p);
    BuiltShape(x, p);
    hide Built;
    assert EntryFits(Built(x, p).entries[0]);
  }

  // ---------------------------------------------------------------- the backup directory

  class BackupDirectory {
    var files: map<string, Archive>

    /** create_full_backup: an existing name is never overwritten, and an archive that fails its own
        validation does not stay. */
    method CreateFullBackup(name: string, x: Inputs, p: Packer, sqlite: Bytes -> bool) returns (v: Option<Validation>)
      requires DistinctLogs(x.logs)
      modifies this
      ensures name in old(files) ==> v.None?
      ensures v.None? ==> files == old(files)
      ensures v.Some? ==>
                && name !in old(files) && files == old(files)[name := Built(x, p)]
                && Accepted(files[name], sqlite) && v.value == Summary(files[name])
      ensures v.Some? <==> name !in old(files) && sqlite(x.snapshot) && WithinLimits(Built(x, p)) && LogsStable(x.logs)
    {
      CreatedIsAccepted(x, p, sqlite);
      v := None;
      if name in files || !sqlite(x.snapshot) { return; }
      files := files[name := Built(x, p)];
      v := ValidateBackup(files[name], sqlite);
      if v.None? {
        files := files - {name};
        assert files == old(files);
      }
    }
  }
}
