/** The pre-update handoff: what an offer must satisfy, and what a stored receipt is bound to. */
module Preflight {
  import opened Options
  import UpdateMetadata
  import Versions
  import Backup
  import Digests
  import UpdateDocuments
  import VersionTexts

  const TTL_SECONDS := 2 * 3600
  const SCHEMA_REVISION := 1

  // ---------------------------------------------------------------- compatibility

  /** The compatibility contract as it arrives: any field may be missing. */
  datatype Contract = Contract(minimum: string, maximum: string, allowMajor: bool, requiresBackup: bool,
                               schemaRevision: Option<int>, rollbackPolicy: string, backupFormat: Option<int>)

  datatype Offer = Offer(trusted: bool, fromManifest: bool, schema: int, updateAvailable: bool,
                         current: string, latest: string, minimumSupported: string,
                         image: string, imageDigest: string, channel: Option<string>, sequence: Option<int>,
                         contract: Contract)

  function VersionText(s: string): string {
    var t := Versions.Trim(s);
    if t != "" && t[0] == 'v' then t[1..] else t
  }

  datatype Reason =
    | CurrentInvalid | TargetInvalid | NotNewer | TooOld | TooNew | CrossMajor | NoBackupRequired
    | SchemaInvalid | SchemaOlder | PolicyInvalid | RollbackUnsupported | FormatMismatch

  function If(condition: bool, reason: Reason): seq<Reason> { if condition then [reason] else [] }

  function MinimumOf(o: Offer): string {
    VersionText(if o.contract.minimum != "" then o.contract.minimum else o.minimumSupported)
  }

  /** evaluate_update_compatibility: every reason that applies, in the order they are checked. */
  function Reasons(o: Offer): seq<Reason> { VersionReasons(o) + ContractReasons(o.contract) }

  function VersionReasons(o: Offer): seq<Reason> {
    var current, target := VersionText(o.current), VersionText(o.latest);
    var minimum, maximum := MinimumOf(o), VersionText(o.contract.maximum);
    var from, to := Versions.ParseLoose(current), Versions.ParseLoose(target);
    If(from.None?, CurrentInvalid)
    + If(to.None?, TargetInvalid)
    + If(from.Some? && to.Some? && Versions.CompareVersions(target, current) <= 0, NotNewer)
    + If(minimum != "" && (Versions.ParseLoose(minimum).None? || Versions.CompareVersions(current, minimum) < 0),
         TooOld)
    + If(maximum != "" && (Versions.ParseLoose(maximum).None? || Versions.CompareVersions(current, maximum) > 0),
         TooNew)
    + If(from.Some? && to.Some? && from.value.major != to.value.major && !o.contract.allowMajor, CrossMajor)
  }

  function ContractReasons(c: Contract): seq<Reason> {
    If(!c.requiresBackup, NoBackupRequired)
    + If(c.schemaRevision.None? || c.schemaRevision.value < 1, SchemaInvalid)
    + If(c.schemaRevision.Some? && 1 <= c.schemaRevision.value < SCHEMA_REVISION, SchemaOlder)
    + If(c.rollbackPolicy !in {"state_restore_required", "unsupported"}, PolicyInvalid)
    + If(c.rollbackPolicy == "unsupported", RollbackUnsupported)
    + If(c.backupFormat != Some(Backup.FORMAT_VERSION), FormatMismatch)
  }

  ghost predicate NotBelow(v: Versions.Version, minimum: string) {
    && Versions.ParseLoose(minimum).Some?
    && !Versions.Precedes(Versions.LowerVersion(v), Versions.LowerVersion(Versions.ParseLoose(minimum).value))
  }

  ghost predicate NotAbove(v: Versions.Version, maximum: string) {
    && Versions.ParseLoose(maximum).Some?
    && !Versions.Precedes(Versions.LowerVersion(Versions.ParseLoose(maximum).value), Versions.LowerVersion(v))
  }

  /** Compatible means: strictly newer, within the declared range, in the same major line unless the
      contract says otherwise, and able to go back through the backup this instance makes. */
  ghost predicate Compatible(o: Offer) {
    var from, to := Versions.ParseLoose(VersionText(o.current)), Versions.ParseLoose(VersionText(o.latest));
    var c := o.contract;
    && from.Some? && to.Some?
    && Versions.Precedes(Versions.LowerVersion(from.value), Versions.LowerVersion(to.value))
    && (from.value.major == to.value.major || (from.value.major < to.value.major && c.allowMajor))
    && (VersionText(c.minimum) != "" ==> NotBelow(from.value, VersionText(c.minimum)))
    && (c.minimum == "" && VersionText(o.minimumSupported) != "" ==>
          NotBelow(from.value, VersionText(o.minimumSupported)))
    && (VersionText(c.maximum) != "" ==> NotAbove(from.value, VersionText(c.maximum)))
    && c.requiresBackup && c.rollbackPolicy == "state_restore_required"
    && c.schemaRevision.Some? && c.schemaRevision.value >= 1 && c.backupFormat == Some(2)
  }

  lemma CompatibleMeaning(o: Offer)
    ensures Reasons(o) == [] <==> Compatible(o)
  {
    NoReasons(o);
    MinimumMeaning(o);
    hide Versions.ParseLoose, Versions.LowerVersion, VersionText, Versions.Precedes, MinimumOf, Reasons;
    var from, to := Versions.ParseLoose(VersionText(o.current)), Versions.ParseLoose(VersionText(o.latest));
    if from.Some? && to.Some? {
      Versions.CompareIsPrecedence(Versions.LowerVersion(to.value), Versions.LowerVersion(from.value));
      SameMajor(from.value, to.value);
      CompareWith(VersionText(o.current), MinimumOf(o));
      CompareWith(VersionText(o.current), VersionText(o.contract.maximum));
    }
  }

  /** The contract's own minimum comes first. */
  lemma MinimumMeaning(o: Offer)
    ensures o.contract.minimum != "" ==> MinimumOf(o) == VersionText(o.contract.minimum)
    ensures o.contract.minimum == "" ==> MinimumOf(o) == VersionText(o.minimumSupported)
    ensures VersionText("") == ""
  {
  }

  /** The version text is an unreadable bound, or the current version is readable and before it. */
  ghost predicate Misses(current: string, bound: string, below: bool) {
    || Versions.ParseLoose(bound).None?
    || (Versions.ParseLoose(current).Some? &&
        if below then !NotBelow(Versions.ParseLoose(current).value, bound)
        else !NotAbove(Versions.ParseLoose(current).value, bound))
  }

  /** Which reasons about versions are given, each exactly when it applies. */
  lemma VersionReasonsMeaning(o: Offer)
    ensures var current, target, minimum := VersionText(o.current), VersionText(o.latest), MinimumOf(o);
            var maximum, reasons := VersionText(o.contract.maximum), VersionReasons(o);
            var from, to := Versions.ParseLoose(current), Versions.ParseLoose(target);
            && (CurrentInvalid in reasons <==> from.None?)
            && (TargetInvalid in reasons <==> to.None?)
            && (NotNewer in reasons <==>
                  && from.Some? && to.Some?
                  && !Versions.Precedes(Versions.LowerVersion(from.value), Versions.LowerVersion(to.value)))
            && (TooOld in reasons <==> minimum != "" && Misses(current, minimum, true))
            && (TooNew in reasons <==> maximum != "" && Misses(current, maximum, false))
            && (CrossMajor in reasons <==>
                  from.Some? && to.Some? && from.value.major != to.value.major && !o.contract.allowMajor)
  {
    hide Versions.LowerVersion, VersionText, Versions.Precedes, MinimumOf, Versions.ParseLoose, Misses;
    hide Versions.CompareVersions;
    NewerMeaning(VersionText(o.current), VersionText(o.latest));
    BoundMeaning(VersionText(o.current), MinimumOf(o));
    BoundMeaning(VersionText(o.current), VersionText(o.contract.maximum));
  }

  /** Which reasons about the contract are given. */
  lemma ContractReasonsMeaning(c: Contract)
    ensures var reasons := ContractReasons(c);
            && (NoBackupRequired in reasons <==> !c.requiresBackup)
            && (SchemaInvalid in reasons <==> c.schemaRevision.None? || c.schemaRevision.value < 1)
            && SchemaOlder !in reasons
            && (PolicyInvalid in reasons <==>
                  c.rollbackPolicy != "state_restore_required" && c.rollbackPolicy != "unsupported")
            && (RollbackUnsupported in reasons <==> c.rollbackPolicy == "unsupported")
            && (FormatMismatch in reasons <==> c.backupFormat != Some(2))
  {
  }

  lemma NewerMeaning(current: string, target: string)
    ensures var from, to := Versions.ParseLoose(current), Versions.ParseLoose(target);
            from.Some? && to.Some? ==>
              (Versions.CompareVersions(target, current) <= 0 <==>
                 !Versions.Precedes(Versions.LowerVersion(from.value), Versions.LowerVersion(to.value)))
  {
    hide Versions.ParseLoose, Versions.LowerVersion, Versions.Precedes, Versions.Compare;
    var from, to := Versions.ParseLoose(current), Versions.ParseLoose(target);
    if from.Some? && to.Some? {
      Versions.CompareIsPrecedence(Versions.LowerVersion(to.value), Versions.LowerVersion(from.value));
    }
  }

  lemma BoundMeaning(current: string, bound: string)
    ensures Misses(current, bound, true) <==>
              Versions.ParseLoose(bound).None? || Versions.CompareVersions(current, bound) < 0
    ensures Misses(current, bound, false) <==>
              Versions.ParseLoose(bound).None? || Versions.CompareVersions(current, bound) > 0
  {
    if Versions.ParseLoose(current).Some? {
      CompareWith(current, bound);
      hide Versions.CompareVersions;
    }
    hide NotBelow, NotAbove, Versions.ParseLoose, Versions.Compare;
  }

  lemma SameMajor(a: Versions.Version, b: Versions.Version)
    ensures Versions.Precedes(Versions.LowerVersion(a), Versions.LowerVersion(b)) ==> a.major <= b.major
  {
    Versions.MajorFollows(Versions.LowerVersion(a), Versions.LowerVersion(b));
  }

  lemma CompareWith(current: string, bound: string)
    requires Versions.ParseLoose(current).Some?
    ensures var v, c := Versions.ParseLoose(current).value, Versions.CompareVersions(current, bound);
            Versions.ParseLoose(bound).Some? ==> (c >= 0 <==> NotBelow(v, bound)) && (c <= 0 <==> NotAbove(v, bound))
  {
    hide Versions.ParseLoose, Versions.LowerVersion, Versions.Precedes, Versions.Compare;
    if Versions.ParseLoose(bound).Some? {
      Versions.CompareIsPrecedence(Versions.LowerVersion(Versions.ParseLoose(current).value),
                                   Versions.LowerVersion(Versions.ParseLoose(bound).value));
    }
  }

  lemma NoReasons(o: Offer)
    ensures var current, target, c := VersionText(o.current), VersionText(o.latest), o.contract;
            var minimum, maximum := MinimumOf(o), VersionText(c.maximum);
            var from, to := Versions.ParseLoose(current), Versions.ParseLoose(target);
            Reasons(o) == [] <==>
              && from.Some? && to.Some? && Versions.CompareVersions(target, current) > 0
              && (minimum != "" ==>
                    Versions.ParseLoose(minimum).Some? && Versions.CompareVersions(current, minimum) >= 0)
              && (maximum != "" ==>
                    Versions.ParseLoose(maximum).Some? && Versions.CompareVersions(current, maximum) <= 0)
              && (from.value.major != to.value.major ==> c.allowMajor)
              && c.requiresBackup && c.schemaRevision.Some? && c.schemaRevision.value >= SCHEMA_REVISION
              && c.rollbackPolicy == "state_restore_required" && c.backupFormat == Some(Backup.FORMAT_VERSION)
  {
    hide Versions.ParseLoose, Versions.CompareVersions, VersionText, MinimumOf;
  }

  // ---------------------------------------------------------------- binding

  /** Null fields of the expected context are not compared. */
  ghost predicate ContextHolds(actual: Backup.Context, expected: Backup.PartialContext) {
    forall key :: key in expected && expected[key].Some? ==> key in actual && actual[key] == expected[key].value
  }

  ghost predicate Bound(v: Backup.Validation, sha256: Backup.ArchiveDigest, expected: Backup.PartialContext) {
    && v.sha256 == sha256 && v.formatVersion == Backup.FORMAT_VERSION && v.origin == Some("pre_update")
    && ContextHolds(v.context, expected)
  }

  /** _require_bound_preflight_backup */
  method RequireBound(v: Backup.Validation, sha256: Backup.ArchiveDigest, expected: Backup.PartialContext)
    returns (ok: bool)
    ensures ok <==> Bound(v, sha256, expected)
  {
    if v.sha256 != sha256 || v.formatVersion != Backup.FORMAT_VERSION { return false; }
    if v.origin != Some("pre_update") { return false; }
    var keys := expected.Keys;
    while keys != {}
      invariant keys <= expected.Keys
      invariant forall key :: key in expected && key !in keys && expected[key].Some? ==>
                  key in v.context && v.context[key] == expected[key].value
      decreases keys
    {
      var key :| key in keys;
      if expected[key].Some? && (key !in v.context || v.context[key] != expected[key].value) { return false; }
      keys := keys - {key};
    }
    ok := true;
  }

  // ---------------------------------------------------------------- the receipt

  datatype Status = Ready | Invalid | OtherStatus

  datatype BackupRef = BackupRef(filename: string, sha256: Backup.ArchiveDigest)

  datatype Receipt = Receipt(
    status: Status, expiresAt: Option<int>, current: Option<string>, target: Option<string>, image: Option<string>,
    digest: Option<string>, channel: Option<string>, sequence: Option<int>,
    compatibility: Option<(Option<int>, Option<string>)>, backup: Option<BackupRef>)

  function TextOf(s: Option<string>): Option<Backup.Value> { if s.Some? then Some(Backup.Text(s.value)) else None }
  function CountOf(n: Option<int>): Option<Backup.Value> { if n.Some? then Some(Backup.Count(n.value)) else None }

  const EXPECTED_KEYS := Backup.CONTEXT_KEYS - {Backup.SourceImageTag}

  function ExpectedAt(r: Receipt, key: Backup.ContextKey): Option<Backup.Value>
    requires r.compatibility.Some?
  {
    match key
    case SourceVersion => TextOf(r.current)
    case TargetVersion => TextOf(r.target)
    case TargetImage => TextOf(r.image)
    case TargetDigest => TextOf(r.digest)
    case TargetSchemaRevision => CountOf(r.compatibility.value.0)
    case RollbackPolicy => TextOf(r.compatibility.value.1)
    case UpdateChannel => TextOf(r.channel)
    case ManifestSequence => CountOf(r.sequence)
    case SourceImageTag | OtherKey(_) => None
  }

  function ExpectedContext(r: Receipt): Backup.PartialContext
    requires r.compatibility.Some?
  {
    map key | key in EXPECTED_KEYS :: ExpectedAt(r, key)
  }

  datatype Reading = Unreadable | Reading(status: Status, expired: bool)

  /** The backup a receipt names still validates and is the one the receipt was made for. */
  ghost predicate BackupStands(r: Receipt, files: map<string, Backup.Archive>, sqlite: Backup.Bytes -> bool) {
    && r.backup.Some? && r.compatibility.Some?
    && r.backup.value.filename in files
    && var archive := files[r.backup.value.filename];
       && Backup.Accepted(archive, sqlite)
       && Backup.VersionOf(Backup.ManifestIn(archive.entries).value).Some?
       && Bound(Backup.Summary(archive), r.backup.value.sha256, ExpectedContext(r))
  }

  /** What get_last_update_preflight reports for a stored receipt. */
  ghost function ReadBack(r: Receipt, now: int, files: map<string, Backup.Archive>, sqlite: Backup.Bytes -> bool)
    : Reading
  {
    if r.expiresAt.None? then Unreadable
    else if now >= r.expiresAt.value then Reading(r.status, true)
    else if r.status != Ready then Reading(r.status, false)
    else if BackupStands(r, files, sqlite) then Reading(Ready, false)
    else Reading(Invalid, true)
  }

  method GetLastPreflight(r: Receipt, now: int, files: map<string, Backup.Archive>, sqlite: Backup.Bytes -> bool)
    returns (reading: Reading)
    ensures reading == ReadBack(r, now, files, sqlite)
  {
    if r.expiresAt.None? { return Unreadable; }
    var expired := now >= r.expiresAt.value;
    if expired || r.status != Ready { return Reading(r.status, expired); }
    if r.backup.None? || r.compatibility.None? || r.backup.value.filename !in files { return Reading(Invalid, true); }
    var v := Backup.ValidateBackup(files[r.backup.value.filename], sqlite);
    if v.None? { return Reading(Invalid, true); }
    hide Backup.Accepted, ExpectedContext, Bound;
    var ok := RequireBound(v.value, r.backup.value.sha256, ExpectedContext(r));
    reading := if ok then Reading(Ready, false) else Reading(Invalid, true);
  }

  ghost predicate Agrees(context: Backup.Context, key: Backup.ContextKey, expected: Option<Backup.Value>) {
    expected.Some? ==> key in context && context[key] == expected.value
  }

  ghost predicate SameUpdate(context: Backup.Context, r: Receipt)
    requires r.compatibility.Some?
  {
    && Agrees(context, Backup.SourceVersion, TextOf(r.current))
    && Agrees(context, Backup.TargetVersion, TextOf(r.target))
    && Agrees(context, Backup.TargetImage, TextOf(r.image))
    && Agrees(context, Backup.TargetDigest, TextOf(r.digest))
    && Agrees(context, Backup.TargetSchemaRevision, CountOf(r.compatibility.value.0))
    && Agrees(context, Backup.RollbackPolicy, TextOf(r.compatibility.value.1))
    && Agrees(context, Backup.UpdateChannel, TextOf(r.channel))
    && Agrees(context, Backup.ManifestSequence, CountOf(r.sequence))
  }

  lemma ContextMeaning(context: Backup.Context, r: Receipt)
    requires r.compatibility.Some?
    ensures ContextHolds(context, ExpectedContext(r)) <==> SameUpdate(context, r)
  {
    hide TextOf, CountOf;
    if ContextHolds(context, ExpectedContext(r)) {
      forall key | key in EXPECTED_KEYS ensures Agrees(context, key, ExpectedAt(r, key)) {
        assert key in ExpectedContext(r);
      }
      SameUpdateOf(context, r);
    }
  }

  lemma SameUpdateOf(context: Backup.Context, r: Receipt)
    requires r.compatibility.Some? && forall key :: key in EXPECTED_KEYS ==> Agrees(context, key, ExpectedAt(r, key))
    ensures SameUpdate(context, r)
  {
    hide TextOf, CountOf, Agrees;
    assert Backup.SourceVersion in EXPECTED_KEYS && Backup.TargetVersion in EXPECTED_KEYS;
    assert Backup.TargetImage in EXPECTED_KEYS;
    assert Backup.TargetDigest in EXPECTED_KEYS && Backup.TargetSchemaRevision in EXPECTED_KEYS;
    assert Backup.RollbackPolicy in EXPECTED_KEYS && Backup.UpdateChannel in EXPECTED_KEYS;
    assert Backup.ManifestSequence in EXPECTED_KEYS;
  }

  /** Reported ready and unexpired, exactly: the named backup validates now, is the recorded archive,
      was made for an update, and agrees with the receipt on every field the receipt fills in. */
  lemma ReadyMeansBound(r: Receipt, now: int, files: map<string, Backup.Archive>, sqlite: Backup.Bytes -> bool)
    ensures ReadBack(r, now, files, sqlite) == Reading(Ready, false) <==>
              && r.status == Ready && r.expiresAt.Some? && now < r.expiresAt.value
              && r.backup.Some? && r.compatibility.Some?
              && r.backup.value.filename in files
              && var archive := files[r.backup.value.filename];
                 && Backup.Accepted(archive, sqlite) && r.backup.value.sha256 == Backup.ArchiveSha(archive)
                 && var m := Backup.ManifestIn(archive.entries).value;
                    Backup.VersionOf(m) == Some(2) && m.origin == Some("pre_update") && SameUpdate(m.context, r)
  {
    if r.backup.Some? && r.compatibility.Some? && r.backup.value.filename in files {
      var archive := files[r.backup.value.filename];
      Backup.ManifestInHasVersion(archive.entries);
      if Backup.ManifestIn(archive.entries).Some? {
        ContextMeaning(Backup.ManifestIn(archive.entries).value.context, r);
      }
      hide ContextHolds, SameUpdate, ExpectedContext, Backup.ManifestIn, Backup.Structured, Backup.Names,
           Backup.ChecksumsOk, Backup.Member, Backup.VersionOf;
    }
  }

  /** Everything else that is reported: nothing without a readable expiry; expired from that time on, with the
      stored status; before it a status other than ready as it is, and a ready one whose backup does not stand as
      invalid and expired. */
  lemma ReadBackMeaning(r: Receipt, now: int, files: map<string, Backup.Archive>, sqlite: Backup.Bytes -> bool)
    ensures var reading := ReadBack(r, now, files, sqlite);
            && (reading == Unreadable <==> r.expiresAt == None)
            && (r.expiresAt.Some? && now >= r.expiresAt.value ==> reading == Reading(r.status, true))
            && (r.expiresAt.Some? && now < r.expiresAt.value && r.status != Ready ==>
                  reading == Reading(r.status, false))
            && (r.expiresAt.Some? && now < r.expiresAt.value && r.status == Ready ==>
                  reading in {Reading(Ready, false), Reading(Invalid, true)})
  {
    hide BackupStands;
  }

  // ---------------------------------------------------------------- the release that is offered

  function Normal(s: string): string { Versions.Lower(Versions.Trim(s)) }

  predicate IsTag(s: string) { s != "" && forall i :: 0 <= i < |s| ==> Versions.IsIdentChar(s[i]) || s[i] == '.' }

  /** The tag an official image reference ends with. */
  function OfficialTag(image: string): Option<string> {
    var n := |UpdateMetadata.IMAGE_PREFIX|;
    if UpdateMetadata.IMAGE_PREFIX <= image && IsTag(image[n..]) then Some(image[n..]) else None
  }

  datatype Identity = Identity(image: string, digest: string)

  /** _validate_release_identity */
  function ReleaseIdentity(o: Offer, target: string): Option<Identity> {
    if !o.trusted || !o.fromManifest || o.schema < 2 || !o.updateAvailable then None
    else if target != VersionText(o.latest) then None
    else
      var tag := OfficialTag(Normal(o.image));
      if tag.None? || VersionText(tag.value) != target then None
      else if !Digests.IsDigest(Normal(o.imageDigest)) then None
      else Some(Identity(Normal(o.image), Normal(o.imageDigest)))
  }

  /** An identity names the official repository with exactly the target as its tag, and a pinned digest.
      The reference is lowered before it is compared and the target is not, so that a target with an
      uppercase letter is never handed over. */
  lemma IdentityNamesTarget(o: Offer, target: string)
    ensures var id := ReleaseIdentity(o, target);
            id.Some? ==>
              && (id.value.image == UpdateMetadata.IMAGE_PREFIX + target
                  || id.value.image == UpdateMetadata.IMAGE_PREFIX + "v" + target)
              && Versions.Lower(target) == target
              && Digests.IsDigest(id.value.digest) && o.trusted && o.fromManifest
  {
    var image := Normal(o.image);
    var tag := OfficialTag(image);
    if tag.Some? {
      var t := tag.value;
      assert image == UpdateMetadata.IMAGE_PREFIX + t;
      forall i | 0 <= i < |t| ensures !Versions.IsUpper(t[i]) {
        assert t[i] == image[|UpdateMetadata.IMAGE_PREFIX| + i];
      }
      TagText(t);
      hide Normal, VersionText, OfficialTag, Versions.Lower;
      if t == "v" + VersionText(t) {
        assert UpdateMetadata.IMAGE_PREFIX + ("v" + VersionText(t)) ==
               UpdateMetadata.IMAGE_PREFIX + "v" + VersionText(t);
      }
    }
  }

  /** A lower-case tag is its version text, with or without a "v" in front. */
  lemma TagText(t: string)
    requires IsTag(t) && forall i :: 0 <= i < |t| ==> !Versions.IsUpper(t[i])
    ensures t == VersionText(t) || t == "v" + VersionText(t)
    ensures Versions.Lower(VersionText(t)) == VersionText(t)
  {
    assert Versions.IsIdentChar(t[0]) || t[0] == '.';
    assert Versions.IsIdentChar(t[|t| - 1]) || t[|t| - 1] == '.';
    Versions.TrimIdentity(t);
    hide Versions.Trim;
    if t[0] == 'v' { assert t == "v" + t[1..]; }
    assert Versions.Lower(VersionText(t)) == VersionText(t);
  }

  /** Letters, digits, hyphens and dots. */
  predicate IsTagText(t: string) {
    forall c :: c in t ==>
      c in VersionTexts.DIGITS || c in VersionTexts.CAPITALS || c in VersionTexts.SMALL || c == '-' || c == '.'
  }

  lemma TagChars(t: string)
    requires t != ""
    ensures IsTag(t) <==> IsTagText(t)
  {
    forall c
      ensures Versions.IsIdentChar(c) <==>
                c in VersionTexts.DIGITS || c in VersionTexts.CAPITALS || c in VersionTexts.SMALL || c == '-'
    {
      VersionTexts.DigitChars(c);
      VersionTexts.LetterChars(c);
    }
    hide Versions.IsIdentChar;
    if IsTagText(t) {
      forall i | 0 <= i < |t| ensures Versions.IsIdentChar(t[i]) || t[i] == '.' { assert t[i] in t; }
    }
  }

  /** When an offer has an identity for a target, and which: a trusted, fresh schema-2 offer of that very
      target, with an image reference that reads, trimmed and in lower case, as the official repository and
      the target or "v" and the target, and a digest that reads as "sha256:" and 64 hexadecimal digits. */
  lemma IdentityMeaning(o: Offer, target: string, id: Identity)
    requires target != ""
    ensures ReleaseIdentity(o, target) == Some(id) <==>
              && o.trusted && o.fromManifest && o.schema >= 2 && o.updateAvailable && target == VersionText(o.latest)
              && id.image == Versions.Lower(Versions.Trim(o.image))
              && id.digest == Versions.Lower(Versions.Trim(o.imageDigest))
              && ((id.image == "ghcr.io/ditaknet-sudo/ditaknet:" + target && target[0] != 'v')
                  || id.image == "ghcr.io/ditaknet-sudo/ditaknet:" + "v" + target)
              && IsTagText(target) && NamesDigest(id.digest)
  {
    DigestText(Normal(o.imageDigest));
    TagMeaning(Normal(o.image), target);
    hide VersionText, Versions.Trim, Versions.Lower, OfficialTag, Digests.IsDigest, IsTagText, NamesDigest;
  }

  ghost predicate NamesDigest(s: string) {
    exists hex :: UpdateDocuments.IsHexText(hex, 64) && s == "sha256:" + hex
  }

  lemma DigestText(s: string)
    ensures Digests.IsDigest(s) <==> NamesDigest(s)
  {
    if Digests.IsDigest(s) {
      var hex := s[|Digests.PREFIX|..];
      UpdateDocuments.HexChars(hex, 64);
      assert s == Digests.PREFIX + hex;
    }
    if hex :| UpdateDocuments.IsHexText(hex, 64) && s == "sha256:" + hex {
      UpdateDocuments.HexChars(hex, 64);
      assert s[|Digests.PREFIX|..] == hex;
    }
    hide Digests.IsHex, UpdateDocuments.IsHexText;
  }

  lemma TagMeaning(image: string, target: string)
    requires target != ""
    ensures OfficialTag(image).Some? && VersionText(OfficialTag(image).value) == target <==>
              && IsTagText(target)
              && ((image == UpdateMetadata.IMAGE_PREFIX + target && target[0] != 'v')
                  || image == UpdateMetadata.IMAGE_PREFIX + "v" + target)
  {
    var n := |UpdateMetadata.IMAGE_PREFIX|;
    if UpdateMetadata.IMAGE_PREFIX <= image {
      var t := image[n..];
      assert image == UpdateMetadata.IMAGE_PREFIX + t;
      if image == UpdateMetadata.IMAGE_PREFIX + target { assert t == target; }
      if image == UpdateMetadata.IMAGE_PREFIX + "v" + target { assert t == "v" + target; }
      TagOrMarked(t, target);
      hide VersionText, IsTag, IsTagText;
      assert UpdateMetadata.IMAGE_PREFIX + "v" + target == UpdateMetadata.IMAGE_PREFIX + ("v" + target);
    }
  }

  lemma TagOrMarked(t: string, target: string)
    requires target != ""
    ensures IsTag(t) && VersionText(t) == target <==>
              IsTagText(target) && ((t == target && target[0] != 'v') || t == "v" + target)
  {
    if t != "" {
      TagChars(t);
      TagChars(target);
      if t[0] == 'v' { MarkedTag(t); }
      if IsTag(t) { TagIsTrimmed(t); }
      if t == "v" + target { assert t[1..] == target; }
      hide IsTag, IsTagText, Versions.Trim;
    }
  }

  lemma MarkedTag(t: string)
    requires t != "" && t[0] == 'v'
    ensures IsTagText(t) <==> IsTagText(t[1..])
  {
    assert t == ['v'] + t[1..] && 'v' in VersionTexts.SMALL;
  }

  lemma TagIsTrimmed(t: string)
    requires IsTag(t)
    ensures Versions.Trim(t) == t
  {
    assert Versions.IsIdentChar(t[0]) || t[0] == '.';
    assert Versions.IsIdentChar(t[|t| - 1]) || t[|t| - 1] == '.';
    Versions.TrimIdentity(t);
  }

  /** An offer that passes every other test: trusted, fresh, schema 2, newer, with the official reference
      of its target and a pinned digest. */
  predicate Handable(o: Offer, target: string) {
    && o.trusted && o.fromManifest && o.schema >= 2 && o.updateAvailable
    && target == VersionText(o.latest) && o.image == UpdateMetadata.IMAGE_PREFIX + target
    && Digests.IsDigest(Normal(o.imageDigest))
  }

  /** Such an offer of a strict version is identified if and only if its target has no uppercase letter. */
  lemma UppercaseDecides(o: Offer, target: string)
    requires Handable(o, target) && Versions.ParseStrict(target).Some?
    ensures ReleaseIdentity(o, target).Some? <==> Versions.Lower(target) == target
  {
    Versions.StrictText(target);
    Versions.StrictTrimmed(target);
    hide Versions.ParseStrict, Versions.Trim;
    IdentityNamesTarget(o, target);
    if Versions.Lower(target) == target {
      PrefixIsLower();
      NormalJoin(UpdateMetadata.IMAGE_PREFIX, target);
      var image := UpdateMetadata.IMAGE_PREFIX + target;
      assert image[|UpdateMetadata.IMAGE_PREFIX|..] == target && UpdateMetadata.IMAGE_PREFIX <= image;
      assert VersionText(target) == target;
      assert OfficialTag(Normal(o.image)) == Some(target);
      hide Normal, VersionText, OfficialTag;
    }
  }

  lemma NormalJoin(a: string, b: string)
    requires a != "" && b != "" && !Versions.IsSpace(a[0]) && !Versions.IsSpace(b[|b| - 1])
    ensures Versions.Lower(a) == a && Versions.Lower(b) == b ==> Normal(a + b) == a + b
  {
    assert (a + b)[|a + b| - 1] == b[|b| - 1] && (a + b)[0] == a[0];
    Versions.TrimIdentity(a + b);
    LowerJoin(a, b);
    hide Versions.Trim, Versions.Lower;
  }

  lemma LowerJoin(a: string, b: string)
    ensures Versions.Lower(a + b) == Versions.Lower(a) + Versions.Lower(b)
  {
  }

  lemma PrefixIsLower()
    ensures Versions.Lower(UpdateMetadata.IMAGE_PREFIX) == UpdateMetadata.IMAGE_PREFIX
  {
  }

  lemma UppercaseBeta() returns (target: string)
    ensures Versions.ParseStrict(target).Some? && Versions.Lower(target) != target
    ensures 1 <= |target| <= 128 && Versions.Trim(target) == target && target[0] != 'v'
  {
    var pre, core := "RC1", Versions.Dotted("1", "1", "0");
    target := core + "-" + pre;
    assert |core| == 5 && target[6] == pre[0] == 'R';
    assert Versions.IsUpper('R') && !Versions.IsDigit('R');
    hide Versions.Dotted, Versions.ParseStrict, Versions.Lower, Versions.Trim;
    Versions.ReadPreRelease("1", "1", "0", pre);
    Versions.StrictTrimmed(target);
    Versions.UpperAt(target, 6);
  }

  /** Such an offer: a pre-release for the beta channel, of a version the manifest format accepts. */
  lemma UppercaseBetaIsStuck() returns (o: Offer, target: string)
    ensures UpdateMetadata.VersionOf(Some(UpdateMetadata.Text(target))).Some?
    ensures Handable(o, target) && ReleaseIdentity(o, target).None?
  {
    target := UppercaseBeta();
    var contract := Contract("", "", false, true, Some(1), "state_restore_required", Some(2));
    o := Offer(true, true, 2, true, "1.0.0", target, "", UpdateMetadata.IMAGE_PREFIX + target, ZeroDigest(),
               Some("beta"), Some(1), contract);
    ZeroDigestIsDigest();
    hide Versions.ParseStrict, Versions.Lower, Versions.Trim, Normal, Digests.IsDigest;
    UppercaseDecides(o, target);
  }

  function ZeroDigest(): string { Digests.PREFIX + seq(64, i => '0') }

  lemma ZeroDigestIsDigest()
    ensures Digests.IsDigest(Normal(ZeroDigest()))
  {
    var zeros := seq(64, i => '0');
    assert Versions.Lower(Digests.PREFIX) == Digests.PREFIX && Versions.Lower(zeros) == zeros;
    NormalJoin(Digests.PREFIX, zeros);
    assert ZeroDigest()[|Digests.PREFIX|..] == zeros;
  }

  // ---------------------------------------------------------------- preparing an update

  function PolicyOf(c: Contract): Option<string> { if c.rollbackPolicy == "" then None else Some(c.rollbackPolicy) }

  function ContextAt(o: Offer, target: string, id: Identity, imageTag: Option<string>, key: Backup.ContextKey)
    : Option<Backup.Value>
  {
    match key
    case SourceVersion => Some(Backup.Text(VersionText(o.current)))
    case SourceImageTag => TextOf(imageTag)
    case TargetVersion => Some(Backup.Text(target))
    case TargetImage => Some(Backup.Text(id.image))
    case TargetDigest => Some(Backup.Text(id.digest))
    case TargetSchemaRevision => CountOf(o.contract.schemaRevision)
    case RollbackPolicy => TextOf(PolicyOf(o.contract))
    case UpdateChannel => TextOf(o.channel)
    case ManifestSequence => CountOf(o.sequence)
    case OtherKey(_) => None
  }

  /** The context written into the backup. */
  function ContextOf(o: Offer, target: string, id: Identity, imageTag: Option<string>): Backup.PartialContext {
    map key | key in Backup.CONTEXT_KEYS :: ContextAt(o, target, id, imageTag, key)
  }

  function ReceiptOf(o: Offer, target: string, id: Identity, name: string, archive: Backup.Archive, createdAt: int)
    : Receipt
  {
    Receipt(Ready, Some(createdAt + TTL_SECONDS), Some(VersionText(o.current)), Some(target),
            Some(id.image), Some(id.digest), o.channel, o.sequence,
            Some((o.contract.schemaRevision, PolicyOf(o.contract))),
            Some(BackupRef(name, Backup.ArchiveSha(archive))))
  }

  /** The contents of the backup a preparation makes. */
  function UpdateInputs(x: Backup.Inputs, context: Backup.PartialContext): Backup.Inputs {
    x.(origin := "pre_update", context := context)
  }

  lemma KeptContextHolds(context: Backup.PartialContext)
    requires context.Keys <= Backup.CONTEXT_KEYS
    ensures ContextHolds(Backup.KeptContext(context), context)
  {
  }

  lemma KeptMatchesReceipt(o: Offer, target: string, id: Identity, imageTag: Option<string>,
                           name: string, archive: Backup.Archive, at: int)
    ensures SameUpdate(Backup.KeptContext(ContextOf(o, target, id, imageTag)),
                       ReceiptOf(o, target, id, name, archive, at))
  {
    hide VersionText, PolicyOf;
    var context := ContextOf(o, target, id, imageTag);
    var r := ReceiptOf(o, target, id, name, archive, at);
    KeptContextHolds(context);
    forall key | key in EXPECTED_KEYS ensures Agrees(Backup.KeptContext(context), key, ExpectedAt(r, key)) {
      assert key in context && context[key] == ContextAt(o, target, id, imageTag, key) == ExpectedAt(r, key);
    }
    SameUpdateOf(Backup.KeptContext(context), r);
  }

  /** A receipt that was just stored reads back as ready until its expiry, whatever else happens to the
      directory, while the named file is untouched; and never after. */
  lemma StoredReceiptReadsBack(o: Offer, target: string, id: Identity, imageTag: Option<string>, name: string,
                               x: Backup.Inputs, p: Backup.Packer, createdAt: int, now: int,
                               files: map<string, Backup.Archive>, sqlite: Backup.Bytes -> bool)
    requires Backup.DistinctLogs(x.logs)
    ensures var archive := Backup.Built(UpdateInputs(x, ContextOf(o, target, id, imageTag)), p);
            Backup.Accepted(archive, sqlite) && name in files && files[name] == archive ==>
              var r := ReceiptOf(o, target, id, name, archive, createdAt);
              (ReadBack(r, now, files, sqlite) == Reading(Ready, false) <==> now < createdAt + 7200)
  {
    var inputs := UpdateInputs(x, ContextOf(o, target, id, imageTag));
    var archive := Backup.Built(inputs, p);
    if Backup.Accepted(archive, sqlite) && name in files && files[name] == archive {
      var r := ReceiptOf(o, target, id, name, archive, createdAt);
      Backup.RoundTrip(inputs, p, sqlite);
      KeptMatchesReceipt(o, target, id, imageTag, name, archive, createdAt);
      ReadyMeansBound(r, now, files, sqlite);
      hide Backup.Built, Backup.Accepted, Backup.KeptContext, ContextOf, SameUpdate, ReadBack, Backup.ManifestIn;
    }
  }

  class Handoff {
    const directory: Backup.BackupDirectory
    var stored: Option<Receipt>

    constructor (directory: Backup.BackupDirectory)
      ensures this.directory == directory && stored == None
    {
      this.directory, stored := directory, None;
    }

    /** prepare_update.  "persisted" says whether the audit entry and the receipt could be written; when
        they could not, the backup stays and the previous receipt is untouched. */
    method PrepareUpdate(targetText: string, confirmation: string, o: Offer, imageTag: Option<string>, name: string,
                         x: Backup.Inputs, p: Backup.Packer, sqlite: Backup.Bytes -> bool, createdAt: int,
                         persisted: bool)
      returns (receipt: Option<Receipt>)
      requires Backup.DistinctLogs(x.logs)
      modifies this`stored, directory
      ensures receipt.None? ==> stored == old(stored)
      ensures receipt.Some? <==>
                var target := VersionText(targetText);
                && Versions.ParseLoose(target).Some? && confirmation == "UPDATE " + target
                && ReleaseIdentity(o, target).Some? && Reasons(o) == []
                && var inputs := UpdateInputs(x, ContextOf(o, target, ReleaseIdentity(o, target).value, imageTag));
                   && name !in old(directory.files) && Backup.Accepted(Backup.Built(inputs, p), sqlite) && persisted
      ensures receipt.Some? ==>
                && stored == receipt && name in directory.files
                && directory.files == old(directory.files)[name := directory.files[name]]
                && receipt.value.expiresAt == Some(createdAt + 7200)
                && NamesUpdate(receipt.value, o, VersionText(targetText))
                && receipt.value.backup == Some(BackupRef(name, Backup.ArchiveSha(directory.files[name])))
                && MadeFor(directory.files[name], receipt.value, imageTag)
                && forall now, files ::
                     now < createdAt + 7200 && name in files && files[name] == directory.files[name] ==>
                       ReadBack(receipt.value, now, files, sqlite) == Reading(Ready, false)
    {
      receipt := None;
      var target := VersionText(targetText);
      if Versions.ParseLoose(target).None? || confirmation != "UPDATE " + target { return; }
      var id := ReleaseIdentity(o, target);
      if id.None? || Reasons(o) != [] { return; }
      var context := ContextOf(o, target, id.value, imageTag);
      var inputs := UpdateInputs(x, context);
      hide ReleaseIdentity, Reasons, Versions.ParseLoose, VersionText, Backup.Built, Backup.Accepted;
      hide ContextOf, ReadBack, ReceiptOf, NamesUpdate, MadeFor;
      var created := directory.CreateFullBackup(name, inputs, p, sqlite);
      Backup.CreatedIsAccepted(inputs, p, sqlite);
      if created.None? { return; }
      var v := Backup.ValidateBackup(directory.files[name], sqlite);
      if v.None? { return; }
      var bound := RequireBound(v.value, created.value.sha256, context);
      Bindable(o, target, id.value, imageTag, x, p, sqlite);
      if !bound || !persisted { return; }
      var made := directory.files[name];
      receipt := Some(ReceiptOf(o, target, id.value, name, made, createdAt));
      forall now, files | now < createdAt + 7200 && name in files && files[name] == made
        ensures ReadBack(receipt.value, now, files, sqlite) == Reading(Ready, false)
      {
        StoredReceiptReadsBack(o, target, id.value, imageTag, name, x, p, createdAt, now, files, sqlite);
      }
      ReceiptMeaning(o, target, id.value, name, made, createdAt);
      ArchiveMeaning(o, target, id.value, imageTag, name, x, p, createdAt);
      stored := receipt;
    }
  }

  /** The receipt names the versions, the official image and the digest of the offer, its channel, sequence and
      schema revision, and the one policy that can go back. */
  ghost predicate NamesUpdate(r: Receipt, o: Offer, target: string) {
    && r.status == Ready && r.current == Some(VersionText(o.current)) && r.target == Some(target)
    && r.image in {Some("ghcr.io/ditaknet-sudo/ditaknet:" + target),
                   Some("ghcr.io/ditaknet-sudo/ditaknet:" + "v" + target)}
    && r.image == Some(Versions.Lower(Versions.Trim(o.image)))
    && r.digest == Some(Versions.Lower(Versions.Trim(o.imageDigest))) && NamesDigest(r.digest.value)
    && r.channel == o.channel && r.sequence == o.sequence
    && r.compatibility == Some((o.contract.schemaRevision, Some("state_restore_required")))
  }

  lemma ReceiptMeaning(o: Offer, target: string, id: Identity, name: string, archive: Backup.Archive, createdAt: int)
    requires ReleaseIdentity(o, target) == Some(id) && Reasons(o) == [] && Versions.ParseLoose(target).Some?
    ensures var r := ReceiptOf(o, target, id, name, archive, createdAt);
            && r.expiresAt == Some(createdAt + 7200) && NamesUpdate(r, o, target)
            && r.backup == Some(BackupRef(name, Backup.ArchiveSha(archive)))
  {
    hide Versions.ParseLoose, ReleaseIdentity, Reasons, VersionText, Versions.Lower, Versions.Trim, NamesDigest;
    NothingIsUnreadable();
    IdentityMeaning(o, target, id);
    CompatibleMeaning(o);
  }

  lemma NothingIsUnreadable()
    ensures Versions.ParseLoose("").None?
  {
    assert Versions.Find("", '-') == 0 && Versions.Split("", '.') == [""];
  }

  function At(context: Backup.Context, key: Backup.ContextKey): Option<Backup.Value> {
    if key in context then Some(context[key]) else None
  }

  /** The archive's manifest says that it was made for this update, field by field; what the receipt leaves out
      the manifest leaves out. */
  ghost predicate MadeFor(archive: Backup.Archive, r: Receipt, imageTag: Option<string>) {
    && Backup.ManifestIn(archive.entries).Some?
    && Backup.ManifestIn(archive.entries).value.origin == Some("pre_update")
    && SaysUpdate(Backup.ManifestIn(archive.entries).value.context, r, imageTag)
  }

  ghost predicate SaysUpdate(context: Backup.Context, r: Receipt, imageTag: Option<string>) {
    && r.current.Some? && At(context, Backup.SourceVersion) == Some(Backup.Text(r.current.value))
    && At(context, Backup.SourceImageTag) == (if imageTag.Some? then Some(Backup.Text(imageTag.value)) else None)
    && r.target.Some? && At(context, Backup.TargetVersion) == Some(Backup.Text(r.target.value))
    && r.image.Some? && At(context, Backup.TargetImage) == Some(Backup.Text(r.image.value))
    && r.digest.Some? && At(context, Backup.TargetDigest) == Some(Backup.Text(r.digest.value))
    && r.compatibility.Some?
    && At(context, Backup.TargetSchemaRevision) ==
         (if r.compatibility.value.0.Some? then Some(Backup.Count(r.compatibility.value.0.value)) else None)
    && At(context, Backup.RollbackPolicy) ==
         (if r.compatibility.value.1.Some? then Some(Backup.Text(r.compatibility.value.1.value)) else None)
    && At(context, Backup.UpdateChannel) == (if r.channel.Some? then Some(Backup.Text(r.channel.value)) else None)
    && At(context, Backup.ManifestSequence) ==
         (if r.sequence.Some? then Some(Backup.Count(r.sequence.value)) else None)
  }

  lemma ContextSays(o: Offer, target: string, id: Identity, imageTag: Option<string>, name: string,
                    archive: Backup.Archive, createdAt: int)
    ensures SaysUpdate(Backup.KeptContext(ContextOf(o, target, id, imageTag)),
                       ReceiptOf(o, target, id, name, archive, createdAt), imageTag)
  {
    hide VersionText, PolicyOf, Backup.KeptContext, ContextOf, At;
    forall key: Backup.ContextKey | !key.OtherKey?
      ensures At(Backup.KeptContext(ContextOf(o, target, id, imageTag)), key) ==
              ContextAt(o, target, id, imageTag, key)
    {
      ContextKept(o, target, id, imageTag, key);
    }
  }

  lemma ContextKept(o: Offer, target: string, id: Identity, imageTag: Option<string>, key: Backup.ContextKey)
    requires !key.OtherKey?
    ensures At(Backup.KeptContext(ContextOf(o, target, id, imageTag)), key) ==
            ContextAt(o, target, id, imageTag, key)
  {
    hide ContextAt;
    Backup.KeptContextMeaning(ContextOf(o, target, id, imageTag), key);
    assert key in Backup.CONTEXT_KEYS;
    hide Backup.KeptContext;
  }

  lemma ArchiveMeaning(o: Offer, target: string, id: Identity, imageTag: Option<string>, name: string,
                       x: Backup.Inputs, p: Backup.Packer, createdAt: int)
    requires Backup.DistinctLogs(x.logs)
    ensures var archive := Backup.Built(UpdateInputs(x, ContextOf(o, target, id, imageTag)), p);
            Backup.ManifestIn(archive.entries).Some? ==>
              MadeFor(archive, ReceiptOf(o, target, id, name, archive, createdAt), imageTag)
  {
    var inputs := UpdateInputs(x, ContextOf(o, target, id, imageTag));
    var archive := Backup.Built(inputs, p);
    Backup.BuiltManifest(inputs, p);
    ContextSays(o, target, id, imageTag, name, archive, createdAt);
    hide Backup.Built, Backup.ManifestIn, Backup.KeptContext, ContextOf, ReceiptOf, SaysUpdate;
  }

  lemma Bindable(o: Offer, target: string, id: Identity, imageTag: Option<string>, x: Backup.Inputs, p: Backup.Packer,
                 sqlite: Backup.Bytes -> bool)
    requires Backup.DistinctLogs(x.logs)
    ensures var context := ContextOf(o, target, id, imageTag);
            var archive := Backup.Built(UpdateInputs(x, context), p);
            Backup.Accepted(archive, sqlite) ==>
              && Backup.ManifestIn(archive.entries).Some?
              && Backup.VersionOf(Backup.ManifestIn(archive.entries).value).Some?
              && Bound(Backup.Summary(archive), Backup.ArchiveSha(archive), context)
  {
    var context := ContextOf(o, target, id, imageTag);
    var inputs := UpdateInputs(x, context);
    if Backup.Accepted(Backup.Built(inputs, p), sqlite) {
      Backup.ManifestInHasVersion(Backup.Built(inputs, p).entries);
      Backup.RoundTrip(inputs, p, sqlite);
      KeptContextHolds(context);
      hide Backup.Built, Backup.ManifestIn, Backup.KeptContext, ContextHolds;
    }
  }
}
