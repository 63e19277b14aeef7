/** What an acceptable schema-2 manifest says: releases as typed values, and the documents that carry them. */
module UpdateDocuments {
  import opened Options
  import opened UpdateMetadata
  import Digests
  import Versions
  import VersionTexts

  /** The contents of an update manifest, without its form. */
  datatype Release = Release(
    version: Versions.Version, beta: bool, digest: string, amd64: string, arm64: string, commit: string,
    published: int, sequence: nat, range: Range, notes: map<NoteField, Note>, signatures: seq<Signature>)

  /** The versions that may update, and what they need to go back. */
  datatype Range = Range(minimum: Versions.Version, maximum: Versions.Version, allowMajor: bool, restorable: bool,
                         schemaRevision: nat, backupFormat: nat)

  const HEX_DIGITS := "0123456789abcdef"

  predicate IsHexText(s: string, length: nat) { |s| == length && forall c :: c in s ==> c in HEX_DIGITS }

  predicate FitsVersion(v: Versions.Version) { VersionTexts.ProperVersion(v) && |VersionTexts.Text(v)| <= 128 }

  /** Letters, digits, dots, underscores and hyphens, at most 64, and a letter or a digit first. */
  predicate IsIdText(s: string) {
    && 1 <= |s| <= 64 && IsLetterOrDigit(s[0])
    && forall c :: c in s ==> IsLetterOrDigit(c) || c in "._-"
  }

  predicate IsLetterOrDigit(c: char) {
    c in VersionTexts.DIGITS || c in VersionTexts.CAPITALS || c in VersionTexts.SMALL
  }

  ghost predicate ProperRange(r: Range, target: Versions.Version) {
    && FitsVersion(r.minimum) && FitsVersion(r.maximum)
    && !Versions.Precedes(r.maximum, r.minimum) && !Versions.Precedes(target, r.maximum)
    && (r.minimum.major == target.major || r.allowMajor)
    && r.schemaRevision >= 1 && r.backupFormat >= 1
  }

  /** A release that may be published: the stable channel has no pre-releases. */
  ghost predicate Proper(r: Release) {
    && FitsVersion(r.version) && (r.beta || r.version.pre == [])
    && IsHexText(r.digest, 64) && IsHexText(r.amd64, 64) && IsHexText(r.arm64, 64) && IsHexText(r.commit, 40)
    && r.sequence >= 1 && ProperRange(r.range, r.version)
    && (forall f :: f in r.notes ==> r.notes[f].wellFormed)
    && ProperSignatures(r.signatures)
  }

  ghost predicate ProperSignatures(s: seq<Signature>) {
    && (forall i, j :: 0 <= i < j < |s| ==> Versions.CompareText(s[i].keyId, s[j].keyId) == -1)
    && forall x :: x in s ==> IsIdText(x.keyId) && x.algorithm == "ed25519" && x.value != NotBase64
  }

  // ---------------------------------------------------------------- the document of a release

  function ChannelWord(beta: bool): string { if beta then "beta" else "stable" }

  function RangeFields(r: Range): map<string, Value> {
    map["minimum_current_version" := Text(VersionTexts.Text(r.minimum)),
        "maximum_current_version" := Text(VersionTexts.Text(r.maximum)),
        "requires_backup" := Flag(true),
        "allow_major_upgrade" := Flag(r.allowMajor),
        "target_schema_revision" := Number(r.schemaRevision),
        "backup_format_version" := Number(r.backupFormat),
        "rollback_policy" := Text(if r.restorable then "state_restore_required" else "unsupported")]
  }

  function PlatformDigests(amd64: string, arm64: string): map<string, Value> {
    map["linux/amd64" := Text("sha256:" + amd64), "linux/arm64" := Text("sha256:" + arm64)]
  }

  function Document(r: Release): Manifest {
    var version := VersionTexts.Text(r.version);
    Manifest({}, Some(Number(2)), Some(Text(ChannelWord(r.beta))), Some(Text(version)),
             Some(Text("ghcr.io/ditaknet-sudo/ditaknet:" + version)), Some(Text("sha256:" + r.digest)), None,
             Some(Platforms(PlatformDigests(r.amd64, r.arm64))),
             Some(Text("https://github.com/ditaknet-sudo/ditaknet/releases/tag/v" + version)),
             Some(Text(r.commit)), Some(Moment(r.published, Canonical)), Some(Number(r.sequence)),
             Some(Compatibility(RangeFields(r.range))), r.notes,
             if r.signatures == [] then None else Some(Listed(r.signatures)))
  }

  // ---------------------------------------------------------------- texts

  lemma HexChars(s: string, length: nat)
    ensures Digests.IsHex(s, length) <==> IsHexText(s, length)
  {
    forall c ensures c in HEX_DIGITS <==> Digests.IsHexDigit(c) { HexChar(c); }
    hide Digests.IsHexDigit;
    if Digests.IsHex(s, length) {
      forall c | c in s ensures c in HEX_DIGITS {}
    }
    if IsHexText(s, length) {
      forall i | 0 <= i < |s| ensures Digests.IsHexDigit(s[i]) { assert s[i] in s; }
    }
  }

  lemma HexChar(c: char)
    ensures c in HEX_DIGITS <==> Digests.IsHexDigit(c)
  {
    if '0' <= c <= '9' { assert HEX_DIGITS[c as nat - '0' as nat] == c; }
    if 'a' <= c <= 'f' { assert HEX_DIGITS[c as nat - 'a' as nat + 10] == c; }
  }

  lemma HexIsPlain(s: string, length: nat)
    requires Digests.IsHex(s, length)
    ensures Versions.Lower(s) == s && forall i :: 0 <= i < |s| ==> !Versions.IsSpace(s[i])
  {
  }

  /** A digest field is accepted exactly if its text, in lower case, is "sha256:" and 64 hexadecimal digits. */
  lemma DigestMeaning(v: Option<Value>, hex: string)
    requires IsHexText(hex, 64)
    ensures DigestOf(v) == Some("sha256:" + hex) <==>
              v.Some? && v.value.Text? && Versions.Lower(v.value.s) == "sha256:" + hex
  {
    HexChars(hex, 64);
    HexIsPlain(hex, 64);
    var t := "sha256:" + hex;
    assert t[|Digests.PREFIX|..] == hex && Digests.PREFIX <= t;
    if v.Some? && v.value.Text? && Versions.Lower(v.value.s) == t {
      LowerEnds(v.value.s, t);
      Versions.TrimIdentity(v.value.s);
    }
    hide Versions.Trim, Versions.Lower;
  }

  /** Lowering keeps whitespace as it is, so that a text whose lower case is bare is bare itself. */
  lemma LowerEnds(s: string, t: string)
    requires Versions.Lower(s) == t && t != "" && !Versions.IsSpace(t[0]) && !Versions.IsSpace(t[|t| - 1])
    ensures |s| == |t| && !Versions.IsSpace(s[0]) && !Versions.IsSpace(s[|s| - 1])
  {
    assert t[0] == Versions.LowerChar(s[0]) && t[|t| - 1] == Versions.LowerChar(s[|s| - 1]);
  }

  lemma DigestHasHex(v: Option<Value>) returns (hex: string)
    requires DigestOf(v).Some?
    ensures IsHexText(hex, 64) && DigestOf(v).value == "sha256:" + hex
  {
    var t := DigestOf(v).value;
    hex := t[|Digests.PREFIX|..];
    HexChars(hex, 64);
    assert t == t[..|Digests.PREFIX|] + hex && t[..|Digests.PREFIX|] == Digests.PREFIX;
  }

  lemma CommitMeaning(v: Option<Value>, hex: string)
    requires IsHexText(hex, 40)
    ensures CommitOf(v) == Some(hex) <==> v.Some? && v.value.Text? && Versions.Lower(v.value.s) == hex
  {
    HexChars(hex, 40);
    HexIsPlain(hex, 40);
    if v.Some? && v.value.Text? && Versions.Lower(v.value.s) == hex {
      LowerEnds(v.value.s, hex);
      Versions.TrimIdentity(v.value.s);
    }
    hide Versions.Trim, Versions.Lower;
  }

  /** A version field is accepted exactly if it is the text of a proper version of at most 128 characters. */
  lemma VersionMeaning(v: Option<Value>, version: Versions.Version)
    ensures VersionOf(v) == Some(version) <==> FitsVersion(version) && v == Some(Text(VersionTexts.Text(version)))
  {
    if v.Some? && v.value.Text? {
      VersionTexts.StrictMeaning(v.value.s, version);
      if Versions.ParseStrict(v.value.s) == Some(version) { Versions.StrictTrimmed(v.value.s); }
    }
    hide Versions.ParseStrict, Versions.Trim, VersionTexts.Text, VersionTexts.ProperVersion;
  }

  /** A channel field is accepted as beta or, for a version without pre-release, as stable, in any case. */
  lemma ChannelMeaning(v: Option<Value>, version: Option<Value>, beta: bool)
    requires VersionOf(version).Some?
    ensures ChannelOf(v, version) == Some(ChannelWord(beta)) <==>
              && v.Some? && v.value.Text? && Versions.Lower(v.value.s) == ChannelWord(beta)
              && (beta || VersionOf(version).value.pre == [])
    ensures ChannelOf(v, version).Some? ==> ChannelOf(v, version).value in {"stable", "beta"}
  {
    hide VersionOf;
    WordMeaning(v, "beta");
    WordMeaning(v, "stable");
    hide LowerTextOf;
  }

  lemma WordMeaning(v: Option<Value>, word: string)
    requires 1 <= |word| <= 16 && !Versions.IsSpace(word[0]) && !Versions.IsSpace(word[|word| - 1])
    ensures LowerTextOf(v, 16) == Some(word) <==> v.Some? && v.value.Text? && Versions.Lower(v.value.s) == word
  {
    if v.Some? && v.value.Text? && Versions.Lower(v.value.s) == word {
      LowerEnds(v.value.s, word);
      Versions.TrimIdentity(v.value.s);
    }
    hide Versions.Trim, Versions.Lower;
  }

  lemma IdMeaning(s: string)
    ensures IsKeyId(s) <==> IsIdText(s)
  {
    forall c ensures IsLetterOrDigit(c) <==> IsKeyIdChar(c) && c !in "._-" { LetterOrDigit(c); }
    hide IsLetterOrDigit, IsKeyIdChar;
    if IsKeyId(s) {
      forall c | c in s ensures IsLetterOrDigit(c) || c in "._-" {}
    }
    if IsIdText(s) {
      forall i | 0 <= i < |s| ensures IsKeyIdChar(s[i]) { assert s[i] in s; DotsOk(s[i]); }
    }
  }

  lemma LetterOrDigit(c: char)
    ensures IsLetterOrDigit(c) <==> IsKeyIdChar(c) && c !in "._-"
  {
    VersionTexts.DigitChars(c);
    VersionTexts.LetterChars(c);
  }

  lemma DotsOk(c: char)
    ensures c in "._-" ==> IsKeyIdChar(c)
  {
  }

  // ---------------------------------------------------------------- fields with parts

  /** A text that reads "t" in lower case. */
  predicate Lowers(v: Value, t: string) { v.Text? && Versions.Lower(v.s) == t }

  predicate GivenAs(v: Option<Value>, t: string) { v == None || v == Some(Null) || Lowers(v.value, t) }

  /** One of the two names of the digest field is given, and whichever is says this. */
  lemma ImageDigestMeaning(m: Manifest, hex: string)
    requires IsHexText(hex, 64)
    ensures ImageDigest(m) == Some("sha256:" + hex) <==>
              && GivenAs(m.imageDigest, "sha256:" + hex) && GivenAs(m.dockerDigest, "sha256:" + hex)
              && !(m.imageDigest in {None, Some(Null)} && m.dockerDigest in {None, Some(Null)})
  {
    DigestMeaning(m.imageDigest, hex);
    DigestMeaning(m.dockerDigest, hex);
    hide DigestOf, Versions.Lower, IsHexText;
  }

  predicate SpellsPlatforms(p: Platforms, amd64: string, arm64: string) {
    && p.Platforms? && p.digests.Keys == {"linux/amd64", "linux/arm64"}
    && Lowers(p.digests["linux/amd64"], "sha256:" + amd64) && Lowers(p.digests["linux/arm64"], "sha256:" + arm64)
  }

  lemma PlatformsMeaning(p: Platforms, amd64: string, arm64: string)
    requires IsHexText(amd64, 64) && IsHexText(arm64, 64)
    ensures SpellsPlatforms(p, amd64, arm64) <==>
              && PlatformsOk(p)
              && LowerPlatforms(p) == Platforms(map["linux/amd64" := Text("sha256:" + amd64),
                                                    "linux/arm64" := Text("sha256:" + arm64)])
  {
    if p.Platforms? && p.digests.Keys == PLATFORMS {
      DigestMeaning(Some(p.digests["linux/amd64"]), amd64);
      DigestMeaning(Some(p.digests["linux/arm64"]), arm64);
      hide DigestOf, IsHexText, Versions.Lower;
      if PlatformsOk(p) {
        var lowered := LowerPlatforms(p).digests;
        assert lowered.Keys == {"linux/amd64", "linux/arm64"};
        assert lowered["linux/amd64"] == Text(DigestOf(Some(p.digests["linux/amd64"])).value);
        assert lowered["linux/arm64"] == Text(DigestOf(Some(p.digests["linux/arm64"])).value);
        if SpellsPlatforms(p, amd64, arm64) {
          assert lowered == map["linux/amd64" := Text("sha256:" + amd64), "linux/arm64" := Text("sha256:" + arm64)];
        }
      }
    }
  }

  lemma PlatformsHaveHex(p: Platforms) returns (amd64: string, arm64: string)
    requires PlatformsOk(p)
    ensures IsHexText(amd64, 64) && IsHexText(arm64, 64) && SpellsPlatforms(p, amd64, arm64)
  {
    amd64 := DigestHasHex(Some(p.digests["linux/amd64"]));
    arm64 := DigestHasHex(Some(p.digests["linux/arm64"]));
    DigestMeaning(Some(p.digests["linux/amd64"]), amd64);
    DigestMeaning(Some(p.digests["linux/arm64"]), arm64);
    hide DigestOf, IsHexText, Versions.Lower;
  }

  lemma VersionTextMeaning(v: Option<Value>, version: Versions.Version)
    requires VersionTexts.ProperVersion(version) && v == Some(Text(VersionTexts.Text(version)))
    ensures VersionOf(v) == if FitsVersion(version) then Some(version) else None
  {
    VersionMeaning(v, version);
    hide VersionTexts.Text, VersionTexts.ProperVersion, Versions.ParseStrict;
  }

  lemma RangeFieldValues(r: Range)
    ensures var f := RangeFields(r);
            && f.Keys == COMPATIBILITY_FIELDS
            && f["minimum_current_version"] == Text(VersionTexts.Text(r.minimum))
            && f["maximum_current_version"] == Text(VersionTexts.Text(r.maximum))
            && f["requires_backup"] == Flag(true)
            && f["allow_major_upgrade"] == Flag(r.allowMajor)
            && f["target_schema_revision"] == Number(r.schemaRevision)
            && f["backup_format_version"] == Number(r.backupFormat)
            && f["rollback_policy"] == Text(if r.restorable then "state_restore_required" else "unsupported")
  {
    hide VersionTexts.Text;
    assert "minimum_current_version"[1] != "maximum_current_version"[1];
    assert "requires_backup"[1] != "rollback_policy"[1];
  }

  /** The compatibility fields of a range are accepted exactly if the range is proper for the target. */
  lemma RangeFieldsMeaning(r: Range, target: Versions.Version)
    requires VersionTexts.ProperVersion(r.minimum) && VersionTexts.ProperVersion(r.maximum)
    ensures CompatibilityOk(Compatibility(RangeFields(r)), target) <==> ProperRange(r, target)
  {
    var f := RangeFields(r);
    RangeFieldValues(r);
    hide RangeFields;
    VersionTextMeaning(Some(f["minimum_current_version"]), r.minimum);
    VersionTextMeaning(Some(f["maximum_current_version"]), r.maximum);
    RangeOrder(r, target);
    hide VersionOf, FitsVersion, Versions.Compare, Versions.Precedes, VersionTexts.Text, VersionTexts.ProperVersion;
  }

  lemma RangeOrder(r: Range, target: Versions.Version)
    ensures Versions.Compare(r.minimum, r.maximum) <= 0 <==> !Versions.Precedes(r.maximum, r.minimum)
    ensures Versions.Compare(r.maximum, target) <= 0 <==> !Versions.Precedes(target, r.maximum)
  {
    Versions.CompareIsPrecedence(r.minimum, r.maximum);
    Versions.CompareIsPrecedence(r.maximum, target);
    hide Versions.Compare, Versions.Precedes;
  }

  /** Accepted compatibility fields are those of a range. */
  lemma FieldsHaveRange(c: Compatibility, target: Versions.Version) returns (r: Range)
    requires CompatibilityOk(c, target)
    ensures c == Compatibility(RangeFields(r)) && ProperRange(r, target)
  {
    var f := c.fields;
    var minimum := VersionOf(Some(f["minimum_current_version"])).value;
    var maximum := VersionOf(Some(f["maximum_current_version"])).value;
    VersionMeaning(Some(f["minimum_current_version"]), minimum);
    VersionMeaning(Some(f["maximum_current_version"]), maximum);
    r := Range(minimum, maximum, f["allow_major_upgrade"].b, f["rollback_policy"] == Text("state_restore_required"),
               f["target_schema_revision"].n, f["backup_format_version"].n);
    RangeFieldValues(r);
    hide RangeFields, VersionOf, FitsVersion, Versions.Compare, Versions.Precedes;
    hide VersionTexts.Text, VersionTexts.ProperVersion;
    SameFields(f, RangeFields(r));
    RangeFieldsMeaning(r, target);
  }

  lemma SameFields(a: map<string, Value>, b: map<string, Value>)
    requires a.Keys == COMPATIBILITY_FIELDS && b.Keys == COMPATIBILITY_FIELDS
    requires a["minimum_current_version"] == b["minimum_current_version"]
    requires a["maximum_current_version"] == b["maximum_current_version"]
    requires a["requires_backup"] == b["requires_backup"] && a["allow_major_upgrade"] == b["allow_major_upgrade"]
    requires a["target_schema_revision"] == b["target_schema_revision"]
    requires a["backup_format_version"] == b["backup_format_version"] && a["rollback_policy"] == b["rollback_policy"]
    ensures a == b
  {
  }

  // ---------------------------------------------------------------- signatures

  /** A list with these entries, in any order, each key id once; or none at all where none is required. */
  ghost predicate SpellsSignatures(field: Option<SignatureField>, required: bool, s: seq<Signature>) {
    if field == None || field == Some(NullField) then s == [] && !required
    else
      && field.value.Listed? && field.value.items != []
      && (forall i, j :: 0 <= i < j < |field.value.items| ==>
            field.value.items[i].keyId != field.value.items[j].keyId)
      && forall x :: x in field.value.items <==> x in s
  }

  lemma ProperIsAscending(s: seq<Signature>)
    ensures ProperSignatures(s) <==> Ascending(s) && forall x :: x in s ==> EntryOk(x)
  {
    forall x: Signature ensures IsKeyId(x.keyId) <==> IsIdText(x.keyId) { IdMeaning(x.keyId); }
    hide IsKeyId, IsIdText, Versions.CompareText;
    assert forall i, j :: 0 <= i < j < |s| ==> (Before(s[i], s[j]) <==>
             Versions.CompareText(s[i].keyId, s[j].keyId) == -1);
  }

  /** An ascending list is determined by its entries. */
  lemma {:induction false} SameEntries(a: seq<Signature>, b: seq<Signature>)
    requires Ascending(a) && Ascending(b) && forall x :: x in a <==> x in b
    ensures a == b
  {
    hide Before, Ascending;
    if a == [] {
      assert forall i :: 0 <= i < |b| ==> b[i] in a;
    } else {
      assert a[0] in a && a[0] in b;
      assert b[0] in b && b[0] in a;
      TailAscending(a);
      TailAscending(b);
      if a[0] != b[0] {
        assert a[0] in b[1..] && b[0] in a[1..];
        BeforeIsOrder(a[0], b[0]);
        assert false;
      }
      forall x ensures x in a[1..] <==> x in b[1..] { TailEntries(a, b, x); }
      SameEntries(a[1..], b[1..]);
    }
  }

  lemma TailEntries(a: seq<Signature>, b: seq<Signature>, x: Signature)
    requires a != [] && b != [] && a[0] == b[0] && (x in a <==> x in b)
    requires a[0] !in a[1..] && b[0] !in b[1..]
    ensures x in a[1..] <==> x in b[1..]
  {
  }

  lemma SignaturesSpelled(field: Option<SignatureField>, required: bool, s: seq<Signature>)
    requires ProperSignatures(s)
    ensures SignaturesOf(field, required) == Some(s) <==> SpellsSignatures(field, required, s)
  {
    ProperIsAscending(s);
    SignaturesMeaning(field, required);
    hide ProperSignatures, EntryOk, Ascending;
    if field.Some? && field.value.Listed? {
      SortMeaning(field.value.items);
      if SpellsSignatures(field, required, s) {
        SameEntries(Sort(field.value.items), s);
      } else if SignaturesOf(field, required) == Some(s) {
        NotEmpty(field.value.items);
      }
      hide Sort;
    }
  }

  lemma NotEmpty(items: seq<Signature>)
    requires items != []
    ensures items[0] in items
  {
  }

  // ---------------------------------------------------------------- what normalising accepts

  /** The manifest says what the release is: some fields in so many words, others in any spelling. */
  ghost predicate SpellsBody(m: Manifest, r: Release) {
    var version := VersionTexts.Text(r.version);
    && m.unknown == {} && m.schemaVersion == Some(Number(2))
    && m.channel.Some? && Lowers(m.channel.value, ChannelWord(r.beta))
    && m.version == Some(Text(version))
    && m.dockerImage == Some(Text("ghcr.io/ditaknet-sudo/ditaknet:" + version))
    && m.releaseUrl == Some(Text("https://github.com/ditaknet-sudo/ditaknet/releases/tag/v" + version))
    && GivenAs(m.imageDigest, "sha256:" + r.digest) && GivenAs(m.dockerDigest, "sha256:" + r.digest)
    && !(m.imageDigest in {None, Some(Null)} && m.dockerDigest in {None, Some(Null)})
    && m.platforms.Some? && SpellsPlatforms(m.platforms.value, r.amd64, r.arm64)
    && m.sourceCommit.Some? && Lowers(m.sourceCommit.value, r.commit)
    && m.publishedAt.Some? && m.publishedAt.value.Moment? && m.publishedAt.value.instant == r.published
    && m.sequence == Some(Number(r.sequence))
    && m.compatibility == Some(Compatibility(RangeFields(r.range))) && m.notes == r.notes
  }

  lemma ProperParts(r: Release)
    requires Proper(r)
    ensures VersionOf(Some(Text(VersionTexts.Text(r.version)))) == Some(r.version)
    ensures CompatibilityOk(Compatibility(RangeFields(r.range)), r.version) && NotesOk(r.notes)
    ensures r.sequence >= 1 && (r.beta || r.version.pre == [])
    ensures IsHexText(r.digest, 64) && IsHexText(r.amd64, 64) && IsHexText(r.arm64, 64) && IsHexText(r.commit, 40)
  {
    VersionMeaning(Some(Text(VersionTexts.Text(r.version))), r.version);
    RangeFieldsMeaning(r.range, r.version);
    hide VersionOf, CompatibilityOk, RangeFields, VersionTexts.Text, IsHexText, Versions.Precedes;
  }

  lemma KeptSpelled(m: Manifest, r: Release)
    requires Proper(r)
    ensures SpellsBody(m, r) ==> KeptOk(m)
  {
    ProperParts(r);
    hide VersionOf, CompatibilityOk, RangeFields, VersionTexts.Text, Proper, IsHexText, NotesOk;
    hide Lowers, GivenAs, SpellsPlatforms;
  }

  lemma RewrittenSpelled(m: Manifest, r: Release)
    requires Proper(r) && SpellsBody(m, r)
    ensures RewrittenOk(m) && ChannelOf(m.channel, m.version) == Some(ChannelWord(r.beta))
    ensures ImageDigest(m) == Some("sha256:" + r.digest) && CommitOf(m.sourceCommit) == Some(r.commit)
    ensures LowerPlatforms(m.platforms.value) == Platforms(PlatformDigests(r.amd64, r.arm64))
  {
    ProperParts(r);
    hide VersionOf, CompatibilityOk, RangeFields, VersionTexts.Text, Proper, IsHexText, NotesOk;
    hide Lowers, GivenAs, SpellsPlatforms, ChannelOf, CommitOf, ImageDigest, PlatformsOk, LowerPlatforms;
    ChannelMeaning(m.channel, m.version, r.beta);
    ImageDigestMeaning(m, r.digest);
    CommitMeaning(m.sourceCommit, r.commit);
    PlatformsMeaning(m.platforms.value, r.amd64, r.arm64);
  }

  function Unsigned(r: Release): Manifest { Document(r.(signatures := [])) }

  lemma SpelledBody(m: Manifest, r: Release)
    requires Proper(r) && SpellsBody(m, r)
    ensures Body(m) == Some(Unsigned(r))
  {
    KeptSpelled(m, r);
    RewrittenSpelled(m, r);
    hide Proper, Lowers, GivenAs, SpellsPlatforms, ChannelOf, CommitOf, ImageDigest, LowerPlatforms;
    hide KeptOk, RewrittenOk, RangeFields, VersionTexts.Text, PlatformDigests;
  }

  /** The typed contents of an accepted body. */
  lemma BodyHasRelease(m: Manifest) returns (r: Release)
    requires Body(m).Some?
    ensures Proper(r) && SpellsBody(m, r) && r.signatures == []
  {
    var version := VersionOf(m.version).value;
    hide VersionOf, CompatibilityOk, ChannelOf, CommitOf, ImageDigest, PlatformsOk, LowerPlatforms, NotesOk;
    var beta := ChannelOf(m.channel, m.version) == Some("beta");
    var digest := HexOfDigest(m);
    var amd64, arm64 := PlatformsHaveHex(m.platforms.value);
    var commit := CommitOf(m.sourceCommit).value;
    var range := FieldsHaveRange(m.compatibility.value, version);
    r := Release(version, beta, digest, amd64, arm64, commit, m.publishedAt.value.instant, m.sequence.value.n, range,
                 m.notes, []);
    ChannelMeaning(m.channel, m.version, beta);
    hide RangeFields, IsHexText, ProperRange, GivenAs, SpellsPlatforms, Lowers;
    AssembledIsProper(m, r);
    AssembledIsSpelled(m, r);
    hide Proper, SpellsBody;
  }

  lemma AssembledIsProper(m: Manifest, r: Release)
    requires KeptOk(m) && VersionOf(m.version) == Some(r.version) && CommitOf(m.sourceCommit) == Some(r.commit)
    requires IsHexText(r.digest, 64) && IsHexText(r.amd64, 64) && IsHexText(r.arm64, 64)
    requires r.beta || r.version.pre == []
    requires ProperRange(r.range, r.version)
    requires m.sequence == Some(Number(r.sequence)) && r.notes == m.notes && r.signatures == []
    ensures Proper(r) && IsHexText(r.commit, 40)
  {
    CommitIsHex(m.sourceCommit, r.commit);
    hide VersionOf, CompatibilityOk, CommitOf, IsHexText, ProperRange, FitsVersion, NotesOk;
    VersionMeaning(m.version, r.version);
    NotesMeaning(m.notes);
    NoSignaturesProper();
    hide ProperSignatures;
  }

  lemma CommitIsHex(v: Option<Value>, commit: string)
    requires CommitOf(v) == Some(commit)
    ensures IsHexText(commit, 40)
  {
    HexChars(commit, 40);
    hide IsHexText, Digests.IsHex, LowerTextOf;
  }

  lemma NoSignaturesProper()
    ensures ProperSignatures([])
  {
  }

  lemma AssembledIsSpelled(m: Manifest, r: Release)
    requires KeptOk(m) && VersionOf(m.version) == Some(r.version) && CommitOf(m.sourceCommit) == Some(r.commit)
    requires IsHexText(r.commit, 40)
    requires m.channel.Some? && Lowers(m.channel.value, ChannelWord(r.beta))
    requires GivenAs(m.imageDigest, "sha256:" + r.digest) && GivenAs(m.dockerDigest, "sha256:" + r.digest)
    requires !(m.imageDigest in {None, Some(Null)} && m.dockerDigest in {None, Some(Null)})
    requires m.platforms.Some? && SpellsPlatforms(m.platforms.value, r.amd64, r.arm64)
    requires m.publishedAt.Some? && m.publishedAt.value.Moment?
    requires m.publishedAt.value.instant == r.published && m.sequence == Some(Number(r.sequence))
    requires m.compatibility == Some(Compatibility(RangeFields(r.range))) && r.notes == m.notes
    ensures SpellsBody(m, r)
  {
    VersionMeaning(m.version, r.version);
    CommitMeaning(m.sourceCommit, r.commit);
    hide VersionOf, CompatibilityOk, CommitOf, IsHexText, FitsVersion, NotesOk, RangeFields, VersionTexts.Text;
    hide GivenAs, SpellsPlatforms, ChannelWord;
  }

  lemma NotesMeaning(notes: map<NoteField, Note>)
    ensures NotesOk(notes) <==> forall f :: f in notes ==> notes[f].wellFormed
  {
  }

  lemma HexOfDigest(m: Manifest) returns (hex: string)
    requires ImageDigest(m).Some?
    ensures IsHexText(hex, 64) && ImageDigest(m) == Some("sha256:" + hex)
    ensures GivenAs(m.imageDigest, "sha256:" + hex) && GivenAs(m.dockerDigest, "sha256:" + hex)
    ensures !(m.imageDigest in {None, Some(Null)} && m.dockerDigest in {None, Some(Null)})
  {
    hex := DigestHasHex(if Given(m.imageDigest) then m.imageDigest else m.dockerDigest);
    ImageDigestMeaning(m, hex);
    hide DigestOf, IsHexText, Versions.Lower;
  }

  /** A manifest is accepted with the document of a proper release as its normal form exactly if it spells that
      release: unknown fields, another schema, image or page, an unsafe digest, a range that does not fit, a
      pre-release on stable or a double key id all refuse it, and letter case, the digest's other name, the
      spelling of the time and the order of signatures do not matter. */
  lemma NormalMeaning(m: Manifest, required: bool, r: Release)
    requires Proper(r)
    ensures Normalise(m, required) == Some(Document(r)) <==>
              SpellsBody(m, r) && SpellsSignatures(m.signatures, required, r.signatures)
  {
    SignaturesSpelled(m.signatures, required, r.signatures);
    NormalParts(m, required, r);
    if SpellsBody(m, r) { SpelledBody(m, r); }
    hide Proper, SpellsBody, Body, SignaturesOf, Document, SpellsSignatures, Unsigned, Normalise;
    if Body(m) == Some(Unsigned(r)) {
      var q := BodyHasRelease(m);
      SpelledBody(m, q);
      SameRelease(q, r);
    }
  }

  lemma NormalParts(m: Manifest, required: bool, r: Release)
    ensures Normalise(m, required) == Some(Document(r)) <==>
              Body(m) == Some(Unsigned(r)) && SignaturesOf(m.signatures, required) == Some(r.signatures)
  {
    DocumentParts(r);
    BodyHasNone(m);
    hide Body, SignaturesOf, Document, Unsigned;
    if Body(m).Some? {
      assert Body(m).value == Body(m).value.(signatures := None);
    }
  }

  lemma DocumentParts(r: Release)
    ensures Document(r) == Unsigned(r).(signatures := if r.signatures == [] then None else Some(Listed(r.signatures)))
    ensures Unsigned(r).signatures == None && Document(r).(signatures := None) == Unsigned(r)
  {
    hide RangeFields, VersionTexts.Text, PlatformDigests;
  }

  lemma SameRelease(q: Release, r: Release)
    requires Proper(q) && Proper(r) && Unsigned(q) == Unsigned(r)
    ensures q == r.(signatures := q.signatures)
    ensures forall m :: SpellsBody(m, q) <==> SpellsBody(m, r)
  {
    ProperParts(q);
    ProperParts(r);
    RangeFieldValues(q.range);
    RangeFieldValues(r.range);
    VersionMeaning(Some(Text(VersionTexts.Text(r.range.minimum))), r.range.minimum);
    VersionMeaning(Some(Text(VersionTexts.Text(r.range.minimum))), q.range.minimum);
    VersionMeaning(Some(Text(VersionTexts.Text(r.range.maximum))), r.range.maximum);
    VersionMeaning(Some(Text(VersionTexts.Text(r.range.maximum))), q.range.maximum);
    hide VersionOf, RangeFields, VersionTexts.Text, IsHexText, CompatibilityOk, Versions.Precedes, FitsVersion;
    SamePrefixed("sha256:", q.digest, r.digest);
    assert PlatformDigests(q.amd64, q.arm64)["linux/amd64"] == PlatformDigests(r.amd64, r.arm64)["linux/amd64"];
    assert PlatformDigests(q.amd64, q.arm64)["linux/arm64"] == PlatformDigests(r.amd64, r.arm64)["linux/arm64"];
    SamePrefixed("sha256:", q.amd64, r.amd64);
    SamePrefixed("sha256:", q.arm64, r.arm64);
    assert q.range == r.range;
  }

  lemma SamePrefixed(prefix: string, a: string, b: string)
    requires prefix + a == prefix + b
    ensures a == b
  {
    assert (prefix + a)[|prefix|..] == a && (prefix + b)[|prefix|..] == b;
  }

  /** Whatever is accepted, its normal form is the document of a proper release. */
  lemma NormalIsDocument(m: Manifest, required: bool) returns (r: Release)
    requires Normalise(m, required).Some?
    ensures Proper(r) && Normalise(m, required) == Some(Document(r))
  {
    SignaturesMeaning(m.signatures, required);
    r := BodyHasRelease(m);
    SpelledBody(m, r);
    var signatures := SignaturesOf(m.signatures, required).value;
    ProperIsAscending(signatures);
    hide SpellsBody, Body, SignaturesOf, Document, Unsigned, Ascending, EntryOk, DistinctIds, ProperSignatures;
    DocumentParts(r.(signatures := signatures));
    SameUnsigned(r, signatures);
    hide Proper;
    r := r.(signatures := signatures);
  }

  lemma SameUnsigned(r: Release, signatures: seq<Signature>)
    requires Proper(r) && ProperSignatures(signatures)
    ensures Proper(r.(signatures := signatures)) && Unsigned(r.(signatures := signatures)) == Unsigned(r)
  {
    assert r.(signatures := signatures).(signatures := []) == r.(signatures := []);
    hide Document, ProperRange, IsHexText, FitsVersion;
  }

  /** The documents of proper releases are normal forms. */
  lemma DocumentIsNormal(r: Release)
    requires Proper(r)
    ensures Normalise(Document(r), false) == Some(Document(r))
  {
    DocumentSpells(r);
    NormalMeaning(Document(r), false, r);
    hide Proper, SpellsBody, SpellsSignatures, Document, Normalise;
  }

  lemma DocumentSpells(r: Release)
    requires Proper(r)
    ensures SpellsBody(Document(r), r) && SpellsSignatures(Document(r).signatures, false, r.signatures)
  {
    hide RangeFields, VersionTexts.Text, ProperRange, FitsVersion, IsHexText;
    HexLower(r.digest, 64);
    HexLower(r.amd64, 64);
    HexLower(r.arm64, 64);
    HexLower(r.commit, 40);
    WordsAreLower();
    hide Versions.Lower;
    PlatformsSpell(r.amd64, r.arm64);
    hide SpellsPlatforms, PlatformDigests;
    ProperIds(r.signatures);
    hide ProperSignatures;
  }

  lemma WordsAreLower()
    ensures Versions.Lower("stable") == "stable" && Versions.Lower("beta") == "beta"
  {
  }

  lemma PlatformsSpell(amd64: string, arm64: string)
    requires Versions.Lower("sha256:" + amd64) == "sha256:" + amd64
    requires Versions.Lower("sha256:" + arm64) == "sha256:" + arm64
    ensures SpellsPlatforms(Platforms(PlatformDigests(amd64, arm64)), amd64, arm64)
  {
    hide Versions.Lower;
  }

  lemma HexLower(hex: string, length: nat)
    requires IsHexText(hex, length)
    ensures Versions.Lower(hex) == hex && Versions.Lower("sha256:" + hex) == "sha256:" + hex
  {
    HexChars(hex, length);
    HexIsPlain(hex, length);
    hide IsHexText, Digests.IsHex;
    assert Versions.Lower("sha256:") == "sha256:";
  }

  lemma ProperIds(s: seq<Signature>)
    requires ProperSignatures(s)
    ensures forall i, j :: 0 <= i < j < |s| ==> s[i].keyId != s[j].keyId
  {
    ProperIsAscending(s);
    SortedStays(s);
    hide ProperSignatures, Ascending, EntryOk;
  }
}
