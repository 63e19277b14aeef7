/** What an update check takes from each of its sources, and what it saves, field by field. */
module UpdateAnswers {
  import opened Options
  import opened Updates
  import opened UpdateDeadlines
  import UpdateMetadata
  import Versions

  // ---------------------------------------------------------------- the signed feed

  /** The sequence and hash are behind the channel's mark, or beside it.  Without a mark a saved payload that
      counts stands in for it; an unreadable record or a mark below 1 refuses everything. */
  ghost predicate Stale(st: Store, channel: Channel, sequence: int, hash: Hash) {
    if st.replay == Unreadable then true
    else if exists c :: c in st.replay.marks && st.replay.marks[c].sequence < 1 then true
    else if channel in st.replay.marks then Behind(sequence, hash, st.replay.marks[channel])
    else if st.payload.Some? && st.payload.value.channel == channel && Counts(st.payload.value)
    then Behind(sequence, hash, Anchor(st.payload.value.sequence.n, st.payload.value.hash.value))
    else false
  }

  predicate Behind(sequence: int, hash: Hash, mark: Anchor) {
    sequence < mark.sequence || (sequence == mark.sequence && hash != mark.hash)
  }

  /** Trusted, of schema 2, with a sequence that is a number, and with a hash. */
  predicate Counts(p: Payload) { p.trusted && p.schema == 2 && p.sequence.Int? && p.hash.Some? }

  lemma StaleMeaning(st: Store, channel: Channel, sequence: int, hash: Hash)
    ensures Replayed(st, channel, sequence, hash) <==> Stale(st, channel, sequence, hash)
  {
  }

  /** The manifest has an entry made over its payload by a key of the channel's own ring. */
  ghost predicate Signed(s: Settings, m: UpdateMetadata.Manifest) { exists e, key :: SignedEntry(s, m, e, key) }

  predicate ForChannel(m: UpdateMetadata.Manifest, c: Channel) {
    var n := UpdateMetadata.Normalise(m, true);
    n.Some? && n.value.channel == Some(UpdateMetadata.Text(if c == Stable then "stable" else "beta"))
  }

  lemma SignedMeaning(s: Settings, m: UpdateMetadata.Manifest)
    ensures VerifyV2(s, m).Some? <==> ForChannel(m, s.channel) && (s.signatureRequired ==> Signed(s, m))
    ensures VerifyV2(s, m).Some? ==> (VerifyV2(s, m).value.trusted <==> Signed(s, m))
  {
    hide UpdateMetadata.Normalise, UpdateMetadata.Payload, UpdateMetadata.EntriesOf, UpdateMetadata.SequenceOf;
    hide UpdateMetadata.VersionText;
    if UpdateMetadata.Normalise(m, true).Some? {
      UpdateMetadata.RequiredIsNormal(m);
      UpdateMetadata.PayloadOfNormal(m);
      UpdateMetadata.NormalShape(m);
      var n := UpdateMetadata.Normalise(m, true).value;
      var keys := if s.channel == Stable then s.stableKeys else s.betaKeys;
      assert Ring(s)[ChannelName(s.channel)] == keys;
      if UpdateMetadata.ChannelText(n) == ChannelName(s.channel) {
        var payload := UpdateMetadata.Payload(m).value;
        if e :| e in UpdateMetadata.EntriesOf(n) && UpdateMetadata.EntryVerifies(e, keys, payload) {
          assert SignedEntry(s, m, e, keys[e.keyId].key);
        }
        if e, key :| SignedEntry(s, m, e, key) {
          assert UpdateMetadata.EntryVerifies(e, keys, payload);
        }
      }
    }
  }

  /** A schema-2 manifest from the feed: taken exactly if it is well formed, for the channel, signed where that
      is required, and not stale; and every field of what is then saved. */
  lemma ManifestFromFeed(st: Store, s: Settings, m: UpdateMetadata.Manifest, etag: Option<string>)
    ensures var found, hash := FromFeed(st, s, Fetched(V2(m), etag)), AnchorOf(m).hash;
            && (found.Some? <==>
                  && ForChannel(m, s.channel) && (s.signatureRequired ==> Signed(s, m))
                  && !Stale(st, s.channel, UpdateMetadata.SequenceOf(m), hash))
            && (found.Some? ==>
                  var p := found.value.0;
                  && found.value.1 == etag && p.source == FromManifest && p.channel == s.channel
                  && p.latest == UpdateMetadata.VersionText(m)
                  && p.updateAvailable == Versions.IsNewer(p.latest, s.appVersion)
                  && (p.trusted <==> Signed(s, m)) && p.schema == 2
                  && p.sequence == Int(UpdateMetadata.SequenceOf(m)) && p.hash == Some(hash)
                  && p.policy.Some? && UnderSettings(p.policy.value, s))
  {
    VerifiedV2(s, m);
    SignedMeaning(s, m);
    hide VerifyV2, Signed, ForChannel, UpdateMetadata.Payload, UpdateMetadata.SequenceOf, UpdateMetadata.VersionText;
    hide UpdateMetadata.Normalise, UpdateMetadata.Verifies, Versions.IsNewer;
    StaleMeaning(st, s.channel, UpdateMetadata.SequenceOf(m), AnchorOf(m).hash);
    hide Replayed, Stale;
  }

  predicate UnderSettings(p: Policy, s: Settings) {
    && p.channel == s.channel && p.url == s.url && p.signatureRequired == s.signatureRequired
    && p.legacyKey == s.legacyKey && p.stableKeys == s.stableKeys && p.betaKeys == s.betaKeys
  }

  /** A boolean is a number to the replay test only: true counts as 1 and false as 0. */
  function SequenceNumber(v: SequenceValue): int
    requires v != NoSequence
  {
    match v case Int(n) => n case Bool(b) => if b then 1 else 0
  }

  /** A legacy document from the feed: taken exactly if it is well formed, for the channel, carries the code of
      the configured key, or where none is configured signatures are not required, and if a sequence of its is
      not stale.  It is trusted exactly by the configured key. */
  lemma LegacyFromFeed(st: Store, s: Settings, d: Document, etag: Option<string>)
    requires d.Legacy?
    ensures var found, hash := FromFeed(st, s, Fetched(d, etag)), LegacySha(d.document);
            && (found.Some? <==>
                  && d.wellFormed && d.channel == s.channel
                  && (if s.legacyKey.Some? then d.mac == s.legacyKey else !s.signatureRequired)
                  && (d.legacySequence != NoSequence ==>
                        !Stale(st, s.channel, SequenceNumber(d.legacySequence), hash)))
            && (found.Some? ==>
                  var p := found.value.0;
                  && found.value.1 == etag && p.source == FromManifest && p.channel == s.channel
                  && p.latest == d.version && p.updateAvailable == Versions.IsNewer(d.version, s.appVersion)
                  && (p.trusted <==> s.legacyKey.Some?) && p.schema == (if d.schema == 0 then 1 else d.schema)
                  && p.sequence == d.legacySequence && p.hash == Some(hash)
                  && p.policy.Some? && UnderSettings(p.policy.value, s))
  {
    if d.legacySequence != NoSequence {
      StaleMeaning(st, s.channel, SequenceNumber(d.legacySequence), LegacySha(d.document));
    }
    hide Replayed, Stale, Versions.IsNewer;
  }

  /** An unchanged answer: the saved payload, taken exactly if it is under the policy in force. */
  lemma UnchangedFromFeed(st: Store, s: Settings, etag: Option<string>)
    ensures var found := FromFeed(st, s, NotModified(etag));
            && (found.Some? <==> st.payload.Some? && UnderPolicy(st.payload.value, s))
            && (found.Some? ==>
                  && found.value.0 == st.payload.value.(source := FromManifest)
                  && found.value.1 == if etag.Some? && |etag.value| > 0 then etag else st.etag)
  {
  }

  // ---------------------------------------------------------------- the unsigned sources

  /** A status from an unsigned source: never trusted, without sequence and hash, for this version. */
  predicate IsUnsigned(p: Payload, source: Source, channel: Channel, version: string, s: Settings) {
    && p.source == source && p.channel == channel && p.latest == version && !p.trusted && p.schema == 1
    && p.sequence == NoSequence && p.hash == None && p.updateAvailable == Versions.IsNewer(version, s.appVersion)
    && p.policy.Some? && UnderSettings(p.policy.value, s)
  }

  /** Stable takes no pre-release from these sources. */
  predicate Suits(channel: Channel, version: string) {
    channel == Stable ==> Versions.ParseLoose(version).Some? && Versions.ParseLoose(version).value.pre == []
  }

  /** A release of the fallback: the cleaned tag, if it can be read and is no pre-release. */
  lemma ReleaseFound(s: Settings, release: Release)
    ensures var found := FromReleases(s, release);
            && (found.Some? <==>
                  release.Release? && Versions.ParseLoose(Versions.CleanVersion(release.tag)).Some?
                  && Suits(Stable, Versions.CleanVersion(release.tag)))
            && (found.Some? ==>
                  found.value.1 == release.etag
                  && IsUnsigned(found.value.0, FromGithub, Stable, Versions.CleanVersion(release.tag), s))
  {
    hide Versions.ParseLoose, Versions.CleanVersion, Versions.IsNewer;
  }

  /** The environment's version: taken instead of any feed if signatures are not required, it can be read and it
      suits the channel. */
  lemma OverrideFound(st: Store, cache: Cache, s: Settings, x: Input)
    requires s.enabled && x.force
    ensures var version, r := Versions.CleanVersion(s.envLatest), Check(st, cache, s, x);
            && (Overridden(s) <==>
                  && |s.envLatest| > 0 && !s.signatureRequired
                  && Versions.ParseLoose(version).Some? && Suits(s.channel, version))
            && (Overridden(s) && x.fault == NoFault ==>
                  && IsUnsigned(r.status, FromEnvironment, s.channel, version, s) && r.store.payload == Some(r.status)
                  && r.store.replay == st.replay && r.store.etag == st.etag)
            && (Overridden(s) && x.fault != NoFault ==> r.cache == cache && IsNoAnswer(r.status, FromError))
  {
    hide Versions.ParseLoose, Versions.CleanVersion, Versions.IsNewer, Network;
  }

  /** A status that offers and names nothing. */
  predicate IsNoAnswer(p: Payload, source: Source) {
    && p.source == source && !p.updateAvailable && !p.trusted && |p.latest| == 0 && p.schema == 0
    && p.sequence == NoSequence && p.hash == None && p.policy == None
  }

  // ---------------------------------------------------------------- what is saved

  /** Saving, by where it is cut short: before the transaction nothing changes; after it the payload is there,
      and a mark if the payload counts; and to the end also the tag, if there is one, and no backoff. */
  lemma SavedMeaning(st: Store, p: Payload, etag: Option<string>, fault: Fault)
    ensures var saving := SaveSuccess(st, p, etag, fault);
            && (saving.ok <==> fault == NoFault)
            && (fault == BeforeCommit ==> saving.store == st)
            && (fault != BeforeCommit ==>
                  && saving.store.payload == Some(p)
                  && saving.store.replay ==
                       if Counts(p) then
                         Anchors((if st.replay == Unreadable then map[] else st.replay.marks)
                                   [p.channel := Anchor(p.sequence.n, p.hash.value)])
                       else st.replay)
            && (fault == AfterCommit ==> saving.store == st.(payload := Some(p), replay := saving.store.replay))
            && (fault == NoFault ==>
                  && saving.store.failures == 0 && saving.store.backoffUntil == None
                  && saving.store.etag == if etag.Some? && |etag.value| > 0 then etag else st.etag)
  {
  }

  /** Seconds after the first, second, ... failure in a row, and after every one from the ninth on. */
  const DELAYS: seq<int> := [300, 600, 1200, 2400, 4800, 9600, 19200, 38400, 76800]

  /** A failure counts and delays by the doubled time and the jitter; nothing else changes. */
  lemma FailureMeaning(st: Store, now: int, jitter: nat)
    ensures var after := SaveFailure(st, now, jitter);
            && after.failures == st.failures + 1 && after.payload == st.payload && after.replay == st.replay
            && after.etag == st.etag
            && after.backoffUntil == Some(now + DELAYS[if st.failures < 8 then st.failures else 8] + jitter)
  {
    BackoffGrowsToPlateau(st.failures + 1);
    if 0 < st.failures < 9 { DelayAt(st.failures); }
    hide BaseBackoff;
    assert BaseBackoff(1) == 300 by { FirstDelay(); }
  }

  lemma FirstDelay()
    ensures BaseBackoff(1) == 300
  {
  }

  lemma {:induction false} DelayAt(failures: nat)
    requires 0 < failures <= 8
    ensures BaseBackoff(failures + 1) == DELAYS[failures]
  {
    hide BaseBackoff;
    BackoffGrowsToPlateau(failures);
    if failures == 1 { FirstDelay(); } else { DelayAt(failures - 1); }
  }

  // ---------------------------------------------------------------- the order of the sources

  /** The feed is asked first.  Releases are asked only if nothing of the feed was saved, no signature is required
      and no legacy key is configured. */
  lemma NetworkOrder(st: Store, s: Settings, x: Input)
    ensures var feed, releases := FromFeed(st, s, x.fetch), FromReleases(s, x.github);
            var fed := feed.Some? && x.fault == NoFault;
            var between := if feed.Some? then SaveSuccess(st, feed.value.0, feed.value.1, x.fault).store else st;
            Network(st, s, x) ==
              if fed then Accepted(between, feed.value.0)
              else if s.signatureRequired || s.legacyKey.Some? || releases.None? then Refused(between)
              else
                var saving := SaveSuccess(between, releases.value.0, releases.value.1, x.githubFault);
                if x.githubFault == NoFault then Accepted(saving.store, releases.value.0) else Refused(saving.store)
  {
    hide FromFeed, FromReleases, SaveTrust, SaveRest;
  }

  /** What a forced check without an override reports: what it took, or else the saved payload if that is under
      the policy in force, or else nothing. */
  lemma AnswerMeaning(st: Store, cache: Cache, s: Settings, x: Input)
    requires s.enabled && x.force && !Overridden(s)
    ensures var r, attempt := Check(st, cache, s, x), Network(st, s, x);
            && r.cache == Cache(Some(r.status), x.mono + 60)
            && (attempt.Accepted? ==> r.status == attempt.payload && r.store == attempt.store)
            && (attempt.Refused? ==> r.store == SaveFailure(attempt.store, x.now, x.jitter))
            && (attempt.Refused? && st.payload.Some? && UnderPolicy(st.payload.value, s) ==>
                  r.status == st.payload.value.(source := CachedAfterError))
            && (attempt.Refused? && !(st.payload.Some? && UnderPolicy(st.payload.value, s)) ==>
                  IsNoAnswer(r.status, FromError))
  {
    SamePolicy(st, cache, s);
    hide Network, ReadVersion, Publishable, SaveFailure, Actionable, Unsigned, SaveSuccess, UnderPolicy, CacheHit;
  }

  /** With checks switched off nothing is offered and nothing changes. */
  lemma DisabledMeaning(st: Store, cache: Cache, s: Settings, x: Input)
    requires !s.enabled
    ensures var r := Check(st, cache, s, x); r.store == st && r.cache == cache && IsNoAnswer(r.status, Disabled)
  {
  }
}
