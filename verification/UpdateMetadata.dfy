/** The schema-2 update manifest: its normal form, its canonical payload, and its signatures. */
module UpdateMetadata {
  import opened Options
  import Digests
  import Versions

  // ---------------------------------------------------------------- the document as it arrives

  datatype Value = Null | Flag(b: bool) | Number(n: int) | Text(s: string) | Other

  type KeyPair = nat

  /** An ideal Ed25519: a signature that verifies was made with the private half over that payload. */
  datatype SignatureValue = Signed(key: KeyPair, payload: Manifest) | OtherBytes(n: nat) | NotBase64

  datatype PublicKey = Public(key: KeyPair) | BadKey

  /** An item that is not an object of exactly three texts is one with an empty key id. */
  datatype Signature = Signature(keyId: string, algorithm: string, value: SignatureValue)

  datatype SignatureField = NullField | NotAList | Listed(items: seq<Signature>)

  datatype Platforms = Platforms(digests: map<string, Value>) | NotPlatforms

  datatype Compatibility = Compatibility(fields: map<string, Value>) | NotCompatibility

  datatype Spelling = Canonical | Variant(text: string)

  /** A UTC timestamp and how it was spelled. */
  datatype Moment = Moment(instant: int, spelling: Spelling) | NotUtc

  /** The optional fields that are checked and copied as they are. */
  datatype NoteField = Critical | ChangelogUrl | ReleaseNotes | Message | UpgradeHint
  datatype Note = Note(content: Value, wellFormed: bool)

  datatype Manifest = Manifest(
    unknown: set<string>, schemaVersion: Option<Value>, channel: Option<Value>, version: Option<Value>,
    dockerImage: Option<Value>, imageDigest: Option<Value>, dockerDigest: Option<Value>,
    platforms: Option<Platforms>, releaseUrl: Option<Value>, sourceCommit: Option<Value>,
    publishedAt: Option<Moment>, sequence: Option<Value>, compatibility: Option<Compatibility>,
    notes: map<NoteField, Note>, signatures: Option<SignatureField>)

  // ---------------------------------------------------------------- fields

  const SCHEMA_VERSION := 2
  const IMAGE_PREFIX := "ghcr.io/ditaknet-sudo/ditaknet:"
  const RELEASE_PREFIX := "https://github.com/ditaknet-sudo/ditaknet/releases/tag/v"
  const PLATFORMS := {"linux/amd64", "linux/arm64"}
  const COMPATIBILITY_FIELDS := {
    "minimum_current_version", "maximum_current_version", "requires_backup", "allow_major_upgrade",
    "target_schema_revision", "backup_format_version", "rollback_policy"}

  /** A non-empty, trimmed text of limited length. */
  function TextOf(v: Option<Value>, maximum: nat): Option<string> {
    if v.Some? && v.value.Text? && v.value.s != "" && Versions.Trim(v.value.s) == v.value.s && |v.value.s| <= maximum
    then Some(v.value.s)
    else None
  }

  function LowerTextOf(v: Option<Value>, maximum: nat): Option<string> {
    var t := TextOf(v, maximum);
    if t.None? then None else Some(Versions.Lower(t.value))
  }

  function DigestOf(v: Option<Value>): Option<string> {
    var t := LowerTextOf(v, 71);
    if t.Some? && Digests.IsDigest(t.value) then t else None
  }

  function VersionOf(v: Option<Value>): Option<Versions.Version> {
    var t := TextOf(v, 128);
    if t.None? then None else Versions.ParseStrict(t.value)
  }

  predicate Given(v: Option<Value>) { v.Some? && v.value != Null }

  /** image_digest, or its alias docker_digest; when both are given they must agree. */
  function ImageDigest(m: Manifest): Option<string> {
    if Given(m.imageDigest) && Given(m.dockerDigest) then
      var canonical, alias_ := DigestOf(m.imageDigest), DigestOf(m.dockerDigest);
      if canonical == alias_ then canonical else None
    else if Given(m.imageDigest) then DigestOf(m.imageDigest)
    else if Given(m.dockerDigest) then DigestOf(m.dockerDigest)
    else None
  }

  predicate PlatformsOk(p: Platforms) {
    && p.Platforms? && p.digests.Keys == PLATFORMS
    && forall x :: x in p.digests ==> DigestOf(Some(p.digests[x])).Some?
  }

  function LowerPlatforms(p: Platforms): Platforms
    requires PlatformsOk(p)
  {
    Platforms(map x | x in p.digests :: Text(DigestOf(Some(p.digests[x])).value))
  }

  predicate IsPositive(v: Value) { v.Number? && v.n >= 1 }

  /** The range must not exceed the target, and must not cross a major version unless that is allowed. */
  predicate CompatibilityOk(c: Compatibility, target: Versions.Version) {
    && c.Compatibility? && c.fields.Keys == COMPATIBILITY_FIELDS
    && var minimum := VersionOf(Some(c.fields["minimum_current_version"]));
       var maximum := VersionOf(Some(c.fields["maximum_current_version"]));
       && minimum.Some? && maximum.Some?
       && Versions.Compare(minimum.value, maximum.value) <= 0 && Versions.Compare(maximum.value, target) <= 0
       && c.fields["requires_backup"] == Flag(true)
       && c.fields["allow_major_upgrade"].Flag?
       && (!c.fields["allow_major_upgrade"].b ==> minimum.value.major == target.major)
       && c.fields["rollback_policy"] in {Text("state_restore_required"), Text("unsupported")}
       && IsPositive(c.fields["target_schema_revision"]) && IsPositive(c.fields["backup_format_version"])
  }

  /** Every version in an accepted range is at most the target, and without permission to cross a major
      version it is in the target's own, although only the minimum is checked for that. */
  lemma RangeMeaning(c: Compatibility, target: Versions.Version, v: Versions.Version)
    requires CompatibilityOk(c, target)
    requires Versions.Compare(VersionOf(Some(c.fields["minimum_current_version"])).value, v) <= 0
    requires Versions.Compare(v, VersionOf(Some(c.fields["maximum_current_version"])).value) <= 0
    ensures !Versions.Precedes(target, v)
    ensures c.fields["allow_major_upgrade"] == Flag(false) ==> v.major == target.major
  {
    var minimum := VersionOf(Some(c.fields["minimum_current_version"])).value;
    var maximum := VersionOf(Some(c.fields["maximum_current_version"])).value;
    hide VersionOf;
    Versions.MajorFollows(minimum, v);
    Versions.MajorFollows(v, target);
    Versions.CompareIsPrecedence(v, maximum);
    Versions.CompareIsPrecedence(maximum, target);
    Versions.CompareIsPrecedence(target, v);
    if Versions.Precedes(target, v) && v != maximum { Versions.PrecedesTransitive(target, v, maximum); }
    Versions.CompareIsPrecedence(v, target);
  }

  predicate NotesOk(notes: map<NoteField, Note>) { forall f :: f in notes ==> notes[f].wellFormed }

  // ---------------------------------------------------------------- signatures

  predicate IsKeyIdChar(c: char) { 'A' <= c <= 'Z' || 'a' <= c <= 'z' || '0' <= c <= '9' || c in "._-" }

  predicate IsKeyId(s: string) {
    && 1 <= |s| <= 64 && s[0] !in {'.', '_', '-'}
    && forall i :: 0 <= i < |s| ==> IsKeyIdChar(s[i])
  }

  predicate EntryOk(s: Signature) { IsKeyId(s.keyId) && s.algorithm == "ed25519" && s.value != NotBase64 }

  predicate DistinctIds(items: seq<Signature>) {
    forall i, j :: 0 <= i < j < |items| ==> items[i].keyId != items[j].keyId
  }

  predicate Before(a: Signature, b: Signature) { Versions.CompareText(a.keyId, b.keyId) == -1 }

  ghost predicate Ascending(s: seq<Signature>) {
    forall i, j :: 0 <= i < j < |s| ==> Before(s[i], s[j])
  }

  /** Puts an entry in its place by key id, over the entry with the same id if there is one. */
  function Put(s: seq<Signature>, e: Signature): seq<Signature> {
    if s == [] || Before(e, s[0]) then [e] + s
    else if s[0].keyId == e.keyId then [e] + s[1..]
    else [s[0]] + Put(s[1..], e)
  }

  function Sort(s: seq<Signature>): seq<Signature> {
    if s == [] then [] else Put(Sort(s[..|s| - 1]), s[|s| - 1])
  }

  /** The signature list in normal form; a missing list is empty unless one is required. */
  function SignaturesOf(field: Option<SignatureField>, required: bool): Option<seq<Signature>> {
    if field.None? || field.value.NullField? then (if required then None else Some([]))
    else if field.value.NotAList? || field.value.items == [] then None
    else if DistinctIds(field.value.items) && forall s :: s in field.value.items ==> EntryOk(s)
    then Some(Sort(field.value.items))
    else None
  }

  /** _normalize_signatures: one pass with a set of the key ids seen so far. */
  method NormalizeSignatures(field: Option<SignatureField>, required: bool) returns (r: Option<seq<Signature>>)
    ensures r == SignaturesOf(field, required)
  {
    if field.None? || field.value.NullField? { return if required then None else Some([]); }
    if field.value.NotAList? || field.value.items == [] { return None; }
    var items := field.value.items;
    var signatures, seen := [], {};
    for i := 0 to |items|
      invariant signatures == items[..i]
      invariant forall id :: id in seen <==> exists k :: 0 <= k < i && items[k].keyId == id
      invariant DistinctIds(items[..i]) && forall k :: 0 <= k < i ==> EntryOk(items[k])
    {
      var s := items[i];
      assert s in items;
      if !IsKeyId(s.keyId) { return None; }
      if s.keyId in seen {
        var k :| 0 <= k < i && items[k].keyId == s.keyId;
        return None;
      }
      seen := seen + {s.keyId};
      if s.algorithm != "ed25519" || s.value == NotBase64 { return None; }
      signatures := signatures + [Signature(s.keyId, "ed25519", s.value)];
    }
    assert signatures == items;
    r := Some(Sort(signatures));
  }

  lemma BeforeIsOrder(a: Signature, b: Signature)
    ensures Before(a, b) || Before(b, a) || a.keyId == b.keyId
    ensures !(Before(a, b) && Before(b, a)) && (a.keyId == b.keyId ==> !Before(a, b))
  {
    Versions.CompareTextMeaning(a.keyId, b.keyId);
    Versions.CompareTextMeaning(b.keyId, a.keyId);
  }

  lemma BeforeTransitive(a: Signature, b: Signature, c: Signature)
    requires Before(a, b) && Before(b, c)
    ensures Before(a, c)
  {
    Versions.CompareIdentTransitive(Versions.Alpha(a.keyId), Versions.Alpha(b.keyId), Versions.Alpha(c.keyId));
  }

  lemma ConsAscending(head: Signature, tail: seq<Signature>)
    requires Ascending(tail) && forall x :: x in tail ==> Before(head, x)
    ensures Ascending([head] + tail)
  {
    hide Before;
    assert forall i :: 0 < i < |tail| + 1 ==> ([head] + tail)[i] == tail[i - 1] && tail[i - 1] in tail;
  }

  lemma TailAscending(s: seq<Signature>)
    requires Ascending(s) && s != []
    ensures Ascending(s[1..]) && forall x :: x in s[1..] ==> Before(s[0], x) && x.keyId != s[0].keyId
  {
    hide Before;
    forall x | x in s[1..] ensures Before(s[0], x) && x.keyId != s[0].keyId {
      var i :| 0 <= i < |s| - 1 && s[1..][i] == x;
      assert Before(s[0], s[i + 1]);
      BeforeIsOrder(s[0], x);
    }
  }

  lemma SameIdBefore(a: Signature, b: Signature, x: Signature)
    requires a.keyId == b.keyId
    ensures Before(a, x) <==> Before(b, x)
  {
  }

  lemma {:induction false} PutMeaning(s: seq<Signature>, e: Signature)
    requires Ascending(s)
    ensures Ascending(Put(s, e))
    ensures forall x :: x in Put(s, e) <==> x == e || (x in s && x.keyId != e.keyId)
  {
    hide Before, Ascending;
    if s == [] {
      ConsAscending(e, s);
    } else {
      var head, tail := s[0], s[1..];
      assert s == [head] + tail;
      TailAscending(s);
      BeforeIsOrder(head, e);
      if Before(e, head) {
        forall x | x in s ensures Before(e, x) && x.keyId != e.keyId {
          if x != head { BeforeTransitive(e, head, x); }
          BeforeIsOrder(e, x);
        }
        ConsAscending(e, s);
      } else if head.keyId == e.keyId {
        forall x | x in tail ensures Before(e, x) { SameIdBefore(head, e, x); }
        ConsAscending(e, tail);
      } else {
        PutMeaning(tail, e);
        ConsAscending(head, Put(tail, e));
      }
    }
  }

  /** A list of distinct ids is sorted without loss. */
  lemma {:induction false} SortMeaning(s: seq<Signature>)
    ensures Ascending(Sort(s))
    ensures DistinctIds(s) ==> forall x :: x in Sort(s) <==> x in s
  {
    if s != [] {
      var init, last := s[..|s| - 1], s[|s| - 1];
      assert s == init + [last];
      SortMeaning(init);
      PutMeaning(Sort(init), last);
    }
  }

  lemma {:induction false} PutLast(s: seq<Signature>, e: Signature)
    requires forall x :: x in s ==> Before(x, e)
    ensures Put(s, e) == s + [e]
  {
    if s != [] {
      BeforeIsOrder(s[0], e);
      PutLast(s[1..], e);
      assert s == [s[0]] + s[1..];
    }
  }

  lemma {:induction false} SortedStays(s: seq<Signature>)
    requires Ascending(s)
    ensures Sort(s) == s && DistinctIds(s)
  {
    if s != [] {
      var init, last := s[..|s| - 1], s[|s| - 1];
      SortedStays(init);
      PutLast(init, last);
      assert s == init + [last];
      forall i, j | 0 <= i < j < |s| ensures s[i].keyId != s[j].keyId { BeforeIsOrder(s[i], s[j]); }
    }
  }

  /** What normalising a list gives: the same entries, each id once, in order of id; and doing it again
      changes nothing. */
  lemma SignaturesMeaning(field: Option<SignatureField>, required: bool)
    ensures var r := SignaturesOf(field, required);
            r.Some? ==>
              && Ascending(r.value) && DistinctIds(r.value) && (forall s :: s in r.value ==> EntryOk(s))
              && (required ==> r.value != [])
              && (r.value != [] ==>
                    && field.Some? && field.value.Listed?
                    && (forall s :: s in r.value <==> s in field.value.items)
                    && SignaturesOf(Some(Listed(r.value)), required) == r)
  {
    var r := SignaturesOf(field, required);
    if r.Some? && field.Some? && field.value.Listed? {
      SortMeaning(field.value.items);
      SortedStays(r.value);
      assert field.value.items[0] in r.value;
    }
  }

  // ---------------------------------------------------------------- the normal form

  /** The checks on the fields that normalising leaves as they are. */
  predicate KeptOk(m: Manifest) {
    && m.unknown == {} && m.schemaVersion == Some(Number(SCHEMA_VERSION))
    && VersionOf(m.version).Some?
    && m.dockerImage == Some(Text(IMAGE_PREFIX + m.version.value.s))
    && m.releaseUrl == Some(Text(RELEASE_PREFIX + m.version.value.s))
    && m.sequence.Some? && IsPositive(m.sequence.value)
    && m.compatibility.Some? && CompatibilityOk(m.compatibility.value, VersionOf(m.version).value)
    && NotesOk(m.notes)
  }

  function CommitOf(v: Option<Value>): Option<string> {
    var t := LowerTextOf(v, 40);
    if t.Some? && Digests.IsHex(t.value, 40) then t else None
  }

  /** The stable channel does not publish pre-releases. */
  function ChannelOf(v: Option<Value>, version: Option<Value>): Option<string> {
    var t := LowerTextOf(v, 16);
    if t == Some("beta") then t
    else if t == Some("stable") && VersionOf(version).Some? && VersionOf(version).value.pre == [] then t
    else None
  }

  /** The checks on the fields that are rewritten. */
  predicate RewrittenOk(m: Manifest) {
    && ChannelOf(m.channel, m.version).Some? && ImageDigest(m).Some?
    && m.platforms.Some? && PlatformsOk(m.platforms.value)
    && CommitOf(m.sourceCommit).Some?
    && m.publishedAt.Some? && m.publishedAt.value.Moment?
  }

  /** Everything but the signatures, in normal form. */
  function Body(m: Manifest): Option<Manifest> {
    if KeptOk(m) && RewrittenOk(m) then
      Some(m.(channel := Some(Text(ChannelOf(m.channel, m.version).value)),
              imageDigest := Some(Text(ImageDigest(m).value)), dockerDigest := None,
              platforms := Some(LowerPlatforms(m.platforms.value)),
              sourceCommit := Some(Text(CommitOf(m.sourceCommit).value)),
              publishedAt := Some(Moment(m.publishedAt.value.instant, Canonical)), signatures := None))
    else None
  }

  /** validate_update_manifest */
  function Normalise(m: Manifest, requireSignatures: bool): Option<Manifest> {
    var body, signatures := Body(m), SignaturesOf(m.signatures, requireSignatures);
    if body.None? || signatures.None? then None
    else Some(body.value.(signatures := if signatures.value == [] then None else Some(Listed(signatures.value))))
  }

  /** canonical_manifest_payload: encoding is injective, so the payload is the document it encodes. */
  function Payload(m: Manifest): Option<Manifest> {
    var n := Normalise(m, false);
    if n.None? then None else Some(n.value.(signatures := None))
  }

  lemma LowerTwice(t: string)
    ensures Versions.Lower(Versions.Lower(t)) == Versions.Lower(t)
  {
  }

  lemma LoweredStays(v: Option<Value>, maximum: nat)
    requires LowerTextOf(v, maximum).Some?
    ensures var t := LowerTextOf(v, maximum).value;
            t != "" && !Versions.IsSpace(t[0]) && !Versions.IsSpace(t[|t| - 1]) ==>
              LowerTextOf(Some(Text(t)), maximum) == Some(t)
  {
    var t := LowerTextOf(v, maximum).value;
    LowerTwice(TextOf(v, maximum).value);
    if t != "" && !Versions.IsSpace(t[0]) && !Versions.IsSpace(t[|t| - 1]) { Versions.TrimIdentity(t); }
    hide Versions.Trim, Versions.Lower;
  }

  lemma DigestStays(v: Option<Value>)
    requires DigestOf(v).Some?
    ensures DigestOf(Some(Text(DigestOf(v).value))) == DigestOf(v)
  {
    LoweredStays(v, 71);
    var t := LowerTextOf(v, 71).value;
    assert t[0] == 's' && Digests.IsHexDigit(t[|Digests.PREFIX|..][63]) && t[|Digests.PREFIX|..][63] == t[|t| - 1];
  }

  lemma CommitStays(v: Option<Value>)
    requires CommitOf(v).Some?
    ensures CommitOf(Some(Text(CommitOf(v).value))) == CommitOf(v)
  {
    LoweredStays(v, 40);
    var t := LowerTextOf(v, 40).value;
    assert Digests.IsHexDigit(t[0]) && Digests.IsHexDigit(t[39]);
  }

  lemma ChannelStays(v: Option<Value>, version: Option<Value>)
    requires ChannelOf(v, version).Some?
    ensures ChannelOf(Some(Text(ChannelOf(v, version).value)), version) == ChannelOf(v, version)
  {
    LoweredStays(v, 16);
    hide VersionOf, LowerTextOf;
  }

  lemma PlatformsStay(p: Platforms)
    requires PlatformsOk(p)
    ensures PlatformsOk(LowerPlatforms(p)) && LowerPlatforms(LowerPlatforms(p)) == LowerPlatforms(p)
  {
    hide DigestOf;
    forall x | x in p.digests
      ensures DigestOf(Some(LowerPlatforms(p).digests[x])) == DigestOf(Some(p.digests[x]))
    {
      DigestStays(Some(p.digests[x]));
    }
    assert LowerPlatforms(p).digests.Keys == p.digests.Keys;
  }

  lemma ImageDigestStays(m: Manifest, n: Manifest)
    requires ImageDigest(m).Some? && n.imageDigest == Some(Text(ImageDigest(m).value)) && n.dockerDigest == None
    ensures ImageDigest(n) == ImageDigest(m)
  {
    if Given(m.imageDigest) { DigestStays(m.imageDigest); } else { DigestStays(m.dockerDigest); }
    hide DigestOf;
  }

  lemma BodyStays(m: Manifest)
    requires Body(m).Some?
    ensures Body(Body(m).value) == Body(m)
  {
    hide ChannelOf, CommitOf, ImageDigest, PlatformsOk, LowerPlatforms, CompatibilityOk, VersionOf, NotesOk;
    var n := Body(m).value;
    ChannelStays(m.channel, m.version);
    CommitStays(m.sourceCommit);
    PlatformsStay(m.platforms.value);
    ImageDigestStays(m, n);
    assert KeptOk(n);
    hide KeptOk;
    assert RewrittenOk(n);
  }

  lemma BodyIgnoresSignatures(m: Manifest, field: Option<SignatureField>)
    ensures Body(m.(signatures := field)) == Body(m)
  {
    hide DigestOf, ChannelOf, CommitOf, PlatformsOk, LowerPlatforms, CompatibilityOk, VersionOf, NotesOk;
    assert ImageDigest(m.(signatures := field)) == ImageDigest(m);
    hide ImageDigest;
    assert KeptOk(m.(signatures := field)) <==> KeptOk(m);
    hide KeptOk;
  }

  /** Normalising is idempotent. */
  lemma NormaliseTwice(m: Manifest, required: bool)
    ensures Normalise(m, required).Some? ==> Normalise(Normalise(m, required).value, required) == Normalise(m, required)
  {
    var r := Normalise(m, required);
    if r.Some? {
      BodyStays(m);
      BodyIgnoresSignatures(Body(m).value, r.value.signatures);
      SignaturesMeaning(m.signatures, required);
      hide Body, SignaturesOf, Ascending, EntryOk, DistinctIds;
      if r.value.signatures.None? { assert SignaturesOf(None, false) == Some([]) by { NoSignatures(); } }
    }
  }

  lemma NoSignatures()
    ensures SignaturesOf(None, false) == Some([]) && SignaturesOf(None, true) == None
  {
  }

  /** Whatever acceptable signatures are added, rotated or removed, the payload they sign is the same. */
  lemma PayloadIgnoresSignatures(m: Manifest, field: Option<SignatureField>)
    requires SignaturesOf(m.signatures, false).Some? && SignaturesOf(field, false).Some?
    ensures Payload(m.(signatures := field)) == Payload(m)
    ensures Payload(m).Some? ==> Payload(Payload(m).value) == Payload(m)
  {
    BodyIgnoresSignatures(m, field);
    NoSignatures();
    if Body(m).Some? {
      BodyStays(m);
    }
    hide Body, SignaturesOf;
  }

  // ---------------------------------------------------------------- signing and verifying

  function EntriesOf(m: Manifest): seq<Signature> {
    if m.signatures.Some? && m.signatures.value.Listed? then m.signatures.value.items else []
  }

  /** sign_manifest: add a signature over the payload, or rotate the one with the same key id. */
  function SignManifest(m: Manifest, keyId: string, key: KeyPair): Option<Manifest> {
    if !IsKeyId(keyId) then None
    else
      var n := Normalise(m, false);
      if n.None? || Payload(n.value).None? then None
      else
        var entry := Signature(keyId, "ed25519", Signed(key, Payload(n.value).value));
        Normalise(n.value.(signatures := Some(Listed(Put(EntriesOf(n.value), entry)))), true)
  }

  type Keyring = map<string, map<string, PublicKey>>

  /** The entry with this id verifies under the public key the channel's ring holds for that id. */
  predicate EntryVerifies(s: Signature, keys: map<string, PublicKey>, payload: Manifest) {
    s.keyId in keys && keys[s.keyId].Public? && s.value == Signed(keys[s.keyId].key, payload)
  }

  ghost predicate VerifiesIn(entries: seq<Signature>, keys: map<string, PublicKey>, payload: Manifest, keyId: string) {
    exists s :: s in entries && s.keyId == keyId && EntryVerifies(s, keys, payload)
  }

  ghost predicate Verifies(m: Manifest, ring: Keyring, keyId: string) {
    var n := Normalise(m, false);
    && n.Some? && Payload(m).Some? && ChannelText(n.value) in ring
    && VerifiesIn(EntriesOf(n.value), ring[ChannelText(n.value)], Payload(m).value, keyId)
  }

  function ChannelText(m: Manifest): string {
    if m.channel.Some? && m.channel.value.Text? then m.channel.value.s else ""
  }

  function SequenceOf(m: Manifest): int {
    if m.sequence.Some? && m.sequence.value.Number? then m.sequence.value.n else 0
  }

  function VersionText(m: Manifest): string {
    if m.version.Some? && m.version.value.Text? then m.version.value.s else ""
  }

  /** Sequence and version of an acceptable manifest are there, and normalising keeps them. */
  lemma KeptFields(m: Manifest)
    ensures Normalise(m, false).Some? ==>
              var n := Normalise(m, false).value;
              && SequenceOf(m) >= 1 && SequenceOf(n) == SequenceOf(m)
              && VersionText(m) != "" && VersionText(n) == VersionText(m)
  {
    hide SignaturesOf, LowerPlatforms, ImageDigest, PlatformsOk, CompatibilityOk, Versions.ParseStrict, RewrittenOk;
  }

  lemma SigningKeepsFields(m: Manifest, keyId: string, key: KeyPair)
    ensures var signed := SignManifest(m, keyId, key);
            signed.Some? ==> SequenceOf(signed.value) == SequenceOf(m) && VersionText(signed.value) == VersionText(m)
  {
    if SignManifest(m, keyId, key).Some? {
      var n := Normalise(m, false).value;
      KeptFields(m);
      var entry := Signature(keyId, "ed25519", Signed(key, Payload(n).value));
      var put := n.(signatures := Some(Listed(Put(EntriesOf(n), entry))));
      RequiredIsNormal(put);
      KeptFields(put);
      hide Normalise, Payload, EntriesOf, Put;
    }
  }

  ghost predicate AscendingIds(ids: seq<string>) {
    forall i, j :: 0 <= i < j < |ids| ==> Versions.CompareText(ids[i], ids[j]) == -1
  }

  lemma PayloadOfNormal(m: Manifest)
    requires Normalise(m, false).Some?
    ensures Payload(Normalise(m, false).value) == Payload(m) && Payload(m).Some?
  {
    NormaliseTwice(m, false);
  }

  lemma RequiredIsNormal(m: Manifest)
    ensures Normalise(m, true).Some? ==> Normalise(m, false) == Normalise(m, true)
  {
    hide Body;
  }

  lemma NormalShape(m: Manifest)
    requires Normalise(m, false).Some?
    ensures var n := Normalise(m, false).value;
            && n.channel.Some? && n.channel.value.Text? && Ascending(EntriesOf(n)) && DistinctIds(EntriesOf(n))
            && (forall s :: s in EntriesOf(n) ==> EntryOk(s))
            && (n.signatures.Some? <==> EntriesOf(n) != [])
  {
    SignaturesMeaning(m.signatures, false);
    hide SignaturesOf, LowerPlatforms, ImageDigest, PlatformsOk, CompatibilityOk, EntryOk;
  }

  /** The ids at ascending places that are just those of the entries that verify. */
  lemma PickedIds(entries: seq<Signature>, keys: map<string, PublicKey>, payload: Manifest,
                  verified: seq<string>, at: seq<nat>)
    requires Ascending(entries) && |at| == |verified|
    requires forall k :: 0 <= k < |at| ==>
               at[k] < |entries| && entries[at[k]].keyId == verified[k] && EntryVerifies(entries[at[k]], keys, payload)
    requires forall j, k :: 0 <= j < k < |at| ==> at[j] < at[k]
    requires forall k :: 0 <= k < |entries| && EntryVerifies(entries[k], keys, payload) ==> k in at
    ensures AscendingIds(verified) && forall id :: id in verified <==> VerifiesIn(entries, keys, payload, id)
  {
    hide EntryVerifies, Versions.CompareText;
    forall j, k | 0 <= j < k < |verified| ensures Versions.CompareText(verified[j], verified[k]) == -1 {
      assert Before(entries[at[j]], entries[at[k]]);
    }
    forall id | id in verified ensures VerifiesIn(entries, keys, payload, id) {
      var p :| 0 <= p < |verified| && verified[p] == id;
      assert entries[at[p]] in entries;
    }
    forall id | VerifiesIn(entries, keys, payload, id) ensures id in verified {
      var s :| s in entries && s.keyId == id && EntryVerifies(s, keys, payload);
      var k :| 0 <= k < |entries| && entries[k] == s;
      var p :| 0 <= p < |at| && at[p] == k;
    }
  }

  method VerifyEntries(entries: seq<Signature>, keys: map<string, PublicKey>, payload: Manifest)
    returns (verified: seq<string>)
    requires Ascending(entries)
    ensures AscendingIds(verified) && forall id :: id in verified <==> VerifiesIn(entries, keys, payload, id)
  {
    hide EntryVerifies, Ascending, AscendingIds, VerifiesIn;
    verified := [];
    ghost var at: seq<nat> := [];
    for i := 0 to |entries|
      invariant |at| == |verified|
      invariant forall k :: 0 <= k < |at| ==>
                  at[k] < i && entries[at[k]].keyId == verified[k] && EntryVerifies(entries[at[k]], keys, payload)
      invariant forall j, k :: 0 <= j < k < |at| ==> at[j] < at[k]
      invariant forall k :: 0 <= k < i && EntryVerifies(entries[k], keys, payload) ==> k in at
    {
      if EntryVerifies(entries[i], keys, payload) {
        verified := verified + [entries[i].keyId];
        at := at + [i];
      }
    }
    PickedIds(entries, keys, payload, verified, at);
  }

  /** verified_signature_key_ids: the ids of the entries that verify, each once, in order. */
  method VerifiedKeyIds(m: Manifest, ring: Keyring) returns (r: Option<seq<string>>)
    ensures r.Some? <==> Normalise(m, true).Some? && ChannelText(Normalise(m, true).value) in ring
    ensures r.Some? ==> AscendingIds(r.value) && forall id :: id in r.value <==> Verifies(m, ring, id)
  {
    var n := Normalise(m, true);
    if n.None? { return None; }
    RequiredIsNormal(m);
    NormalShape(m);
    PayloadOfNormal(m);
    hide Normalise, Payload, EntriesOf, ChannelText, Before, Ascending, VerifiesIn, AscendingIds, DistinctIds, EntryOk;
    if ChannelText(n.value) !in ring { return None; }
    var verified := VerifyEntries(EntriesOf(n.value), ring[ChannelText(n.value)], Payload(n.value).value);
    r := Some(verified);
  }

  /** Normalising a normal form with another list of signatures in normal form. */
  lemma WithSignatures(m: Manifest, items: seq<Signature>, required: bool)
    requires Body(m).Some? && items != [] && Ascending(items) && forall s :: s in items ==> EntryOk(s)
    ensures var signed := Body(m).value.(signatures := Some(Listed(items)));
            Normalise(signed, required) == Some(signed) && Payload(signed) == Body(m) && EntriesOf(signed) == items
  {
    hide Body, Ascending, EntryOk, DistinctIds;
    var field := Some(Listed(items));
    BodyStays(m);
    BodyHasNone(m);
    BodyIgnoresSignatures(Body(m).value, field);
    NormalList(items, required);
    NormalList(items, false);
    hide SignaturesOf;
    assert Body(m).value.(signatures := field).(signatures := None) == Body(m).value;
  }

  lemma NormalList(items: seq<Signature>, required: bool)
    requires items != [] && Ascending(items) && forall s :: s in items ==> EntryOk(s)
    ensures SignaturesOf(Some(Listed(items)), required) == Some(items)
  {
    SortedStays(items);
    hide EntryOk, Ascending;
  }

  lemma BodyHasNone(m: Manifest)
    ensures Body(m).Some? ==> Body(m).value.signatures == None
  {
  }

  lemma NormalIsBody(m: Manifest)
    requires Normalise(m, false).Some?
    ensures var n := Normalise(m, false).value;
            Body(m).Some? && Payload(m) == Body(m) && n == Body(m).value.(signatures := n.signatures)
  {
    BodyHasNone(m);
    hide Body, SignaturesOf;
  }

  lemma NewEntryOk(s: Signature)
    requires IsKeyId(s.keyId) && s.algorithm == "ed25519" && s.value.Signed?
    ensures EntryOk(s)
  {
  }

  /** Signing always succeeds on an acceptable manifest, keeps the payload, replaces at most the entry
      with the same id, and keeps every other one. */
  lemma SignedEntries(m: Manifest, keyId: string, key: KeyPair)
    requires Normalise(m, false).Some? && IsKeyId(keyId)
    ensures var n, signed := Normalise(m, false).value, SignManifest(m, keyId, key);
            && signed.Some? && Normalise(signed.value, false) == Normalise(signed.value, true) == signed
            && Payload(m).Some? && Payload(signed.value) == Payload(m)
            && signed.value.channel == n.channel
            && forall s :: s in EntriesOf(signed.value) <==>
                 || s == Signature(keyId, "ed25519", Signed(key, Payload(m).value))
                 || (s in EntriesOf(n) && s.keyId != keyId)
  {
    hide Body, Put, Ascending, DistinctIds, EntryOk, Payload, Normalise, EntriesOf, IsKeyId;
    var n := Normalise(m, false).value;
    NormalShape(m);
    NormalIsBody(m);
    PayloadOfNormal(m);
    var entry := Signature(keyId, "ed25519", Signed(key, Payload(m).value));
    NewEntryOk(entry);
    var items := Put(EntriesOf(n), entry);
    PutMeaning(EntriesOf(n), entry);
    assert entry in items;
    WithSignatures(m, items, true);
    WithSignatures(m, items, false);
    assert n.(signatures := Some(Listed(items))) == Body(m).value.(signatures := Some(Listed(items)));
  }

  /** An acceptable manifest can always be signed with a valid key id.  That id then verifies exactly
      when the channel's ring holds the public half of the key under it; signing changes for no other id
      whether it verifies, under any ring; and the payload stays the same. */
  lemma SigningKeepsOthers(m: Manifest, keyId: string, key: KeyPair, ring: Keyring, other: string)
    ensures var n, signed := Normalise(m, false), SignManifest(m, keyId, key);
            && (signed.Some? <==> n.Some? && IsKeyId(keyId))
            && (signed.Some? ==>
                  && Normalise(signed.value, true) == signed && Payload(signed.value) == Payload(m)
                  && (Verifies(signed.value, ring, keyId) <==> HoldsPublicHalf(ring, ChannelText(n.value), keyId, key))
                  && (other != keyId ==> (Verifies(signed.value, ring, other) <==> Verifies(m, ring, other))))
  {
    if Normalise(m, false).None? || !IsKeyId(keyId) {
    } else {
      SignedVerdicts(m, keyId, key, ring, other);
      hide SignManifest, Normalise, Payload, EntriesOf, EntryVerifies, IsKeyId, Verifies;
      SignedEntries(m, keyId, key);
    }
  }

  predicate HoldsPublicHalf(ring: Keyring, channel: string, keyId: string, key: KeyPair) {
    channel in ring && keyId in ring[channel] && ring[channel][keyId] == Public(key)
  }

  lemma SignedVerdicts(m: Manifest, keyId: string, key: KeyPair, ring: Keyring, other: string)
    requires Normalise(m, false).Some? && IsKeyId(keyId)
    ensures var n, signed := Normalise(m, false).value, SignManifest(m, keyId, key);
            && signed.Some?
            && (Verifies(signed.value, ring, keyId) <==> HoldsPublicHalf(ring, ChannelText(n), keyId, key))
            && (other != keyId ==> (Verifies(signed.value, ring, other) <==> Verifies(m, ring, other)))
  {
    hide SignManifest, Normalise, Payload, EntriesOf, EntryVerifies, IsKeyId, VerifiesIn;
    SignedEntries(m, keyId, key);
    var n, signed := Normalise(m, false).value, SignManifest(m, keyId, key).value;
    var entry := Signature(keyId, "ed25519", Signed(key, Payload(m).value));
    assert entry in EntriesOf(signed);
    assert ChannelText(signed) == ChannelText(n);
    hide ChannelText;
    if ChannelText(n) in ring {
      SameVerdicts(EntriesOf(n), EntriesOf(signed), entry, ring[ChannelText(n)], Payload(m).value, other);
      OwnVerdict(entry, ring[ChannelText(n)], Payload(m).value);
    }
  }

  lemma OwnVerdict(s: Signature, keys: map<string, PublicKey>, payload: Manifest)
    requires s.value.Signed? && s.value.payload == payload
    ensures EntryVerifies(s, keys, payload) <==> s.keyId in keys && keys[s.keyId] == Public(s.value.key)
  {
  }

  lemma SameVerdicts(before: seq<Signature>, after: seq<Signature>, entry: Signature, keys: map<string, PublicKey>,
                     payload: Manifest, other: string)
    requires forall s :: s in after <==> s == entry || (s in before && s.keyId != entry.keyId)
    ensures VerifiesIn(after, keys, payload, entry.keyId) <==> EntryVerifies(entry, keys, payload)
    ensures other != entry.keyId ==>
              (VerifiesIn(after, keys, payload, other) <==> VerifiesIn(before, keys, payload, other))
  {
    hide EntryVerifies;
  }
}
